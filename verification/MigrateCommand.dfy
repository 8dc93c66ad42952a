/** `agent-runner migrate`: the run to the fixpoint, what it writes, and what it tells the user. */
module MigrateCommand {
  import opened Wrappers
  import opened Toml
  import opened Migrations
  import opened MigrationFixpoint
  import opened AnyFile
  import opened AnyRun
  import opened MigrationLists

  /** A registry in order gets a result, which says that nothing was done exactly when it is the text it was given. */
  ghost predicate Answers(ms: seq<Migration>, t: Text, r: Option<MigrationResult>) {
    Disciplined(ms) ==> r.Some? && (r.value.applied == [] <==> r.value.text == t)
  }

  lemma RunAnswers(ms: seq<Migration>, t: Text, passes: nat, r: Option<MigrationResult>)
    requires Valid(t.lines) && passes >= 5 && r == RunFrom(ms, t, [], passes)
    ensures Answers(ms, t, r)
  {
    if Disciplined(ms) {
      RunReturns(ms, t, [], passes);
      RunSaysIff(ms, t, passes, r.value);
    }
  }

  /** Passes until the text comes to rest, or the passes run out. */
  method PassesToRest(ms: seq<Migration>, t: Text, passes: nat) returns (r: Option<MigrationResult>)
    requires Valid(t.lines)
    ensures r == RunFrom(ms, t, [], passes)
  {
    var text := t;
    var applied: seq<string> := [];
    for k := 0 to passes
      invariant Valid(text.lines)
      invariant RunFrom(ms, t, [], passes) == RunFrom(ms, text, applied, passes - k)
    {
      var d := DocOf(text.lines);
      var p := RunMigrationsPass(ms, text, d);
      if p.text == text {
        var stamped, changed := StampSchemaVersion(text, d);
        return Some(MigrationResult(stamped, applied + p.applied + (if changed then [STAMPED] else []), p.manual, p.advisory));
      }
      PassParses(ms, text, d, |ms|);
      text := p.text;
      applied := applied + p.applied;
    }
    return None;
  }

  method RunMigrations(ms: seq<Migration>, t: Text) returns (r: Option<MigrationResult>)
    requires Valid(t.lines)
    ensures r == RunFrom(ms, t, [], MAX_MIGRATION_PASSES)
    ensures Answers(ms, t, r)
  {
    r := PassesToRest(ms, t, MAX_MIGRATION_PASSES);
    RunAnswers(ms, t, MAX_MIGRATION_PASSES, r);
  }

  /** What the command leaves behind: its exit code, the file, its copy if one was made, and the lines it listed. */
  datatype Outcome =
    | NotToml
    | DidNotConverge
    | Done(code: nat, file: Text, backup: Option<Text>, listed: seq<string>)

  /** The file holds what the run came to, and the old text is kept beside it exactly when that is another; the code is 1
      exactly when something is left to the user; and all the reports are listed. */
  predicate DoneMeans(t: Text, dryRun: bool, r: MigrationResult, o: Outcome) {
    && o.Done?
    && o.file == (if dryRun then t else r.text)
    && o.backup == (if o.file == t then None else Some(t))
    && o.code == (if r.manual == [] then 0 else 1)
    && o.listed == r.applied + r.advisory + r.manual
  }

  method Migrate(ms: seq<Migration>, t: Text, dryRun: bool) returns (o: Outcome)
    ensures o.NotToml? <==> !Valid(t.lines)
    ensures Valid(t.lines) && Disciplined(ms) ==>
              var run := RunFrom(ms, t, [], MAX_MIGRATION_PASSES); run.Some? && DoneMeans(t, dryRun, run.value, o)
  {
    if !Valid(t.lines) {
      return NotToml;
    }
    var run := RunMigrations(ms, t);
    if run.None? {
      return DidNotConverge;
    }
    o := Report(t, dryRun, run.value);
  }

  method Report(t: Text, dryRun: bool, r: MigrationResult) returns (o: Outcome)
    ensures o.Done?
    ensures (r.applied == [] <==> r.text == t) ==> DoneMeans(t, dryRun, r, o)
  {
    if r.applied == [] && r.manual == [] && r.advisory == [] {
      return Done(0, t, None, []);
    }
    var code := if r.manual != [] then 1 else 0;
    var listed := r.applied + r.advisory + r.manual;
    if dryRun {
      return Done(code, t, None, listed);
    }
    if r.applied != [] {
      return Done(code, r.text, Some(t), listed);
    }
    return Done(code, t, None, listed);
  }

  /** Running the command again changes nothing: the file stays, no copy is made, and the user is told again what was left
      to them, without the rewrites already done. */
  lemma {:induction false} MigrateTwice(ms: seq<Migration>, t: Text, passes: nat, r: MigrationResult, first: Outcome, again: MigrationResult,
                                        second: Outcome)
    requires Disciplined(ms) && LeavesVersionAlone(ms) && Valid(t.lines) && NoVersionTable(Heads(t.lines)) && passes >= 5
    requires RunFrom(ms, t, [], passes) == Some(r) && DoneMeans(t, false, r, first) && Valid(first.file.lines)
    requires RunFrom(ms, first.file, [], passes) == Some(again) && DoneMeans(first.file, false, again, second)
    ensures second.file == first.file && second.backup.None? && second.code == first.code
    ensures |r.applied| <= |first.listed| && second.listed == first.listed[|r.applied|..]
  {
    AnyRun.RunIsIdempotent(ms, t, passes);
    ListedAgain(t, r, first, again, second);
  }

  lemma ListedAgain(t: Text, r: MigrationResult, first: Outcome, again: MigrationResult, second: Outcome)
    requires DoneMeans(t, false, r, first) && DoneMeans(first.file, false, again, second)
    requires again == MigrationResult(r.text, [], r.manual, r.advisory)
    ensures second.file == first.file && second.backup.None? && second.code == first.code
    ensures |r.applied| <= |first.listed| && second.listed == first.listed[|r.applied|..]
  {
    assert first.listed == r.applied + (r.advisory + r.manual);
    assert second.listed == r.advisory + r.manual;
  }
}
