/** What the migration run says it did: the lists of a pass name, in order, the migrations that changed the text and
    those that only reported, and a run says it did nothing exactly when it returns the file as it was. */
module MigrationLists {
  import opened Wrappers
  import opened Toml
  import opened Rewrites
  import opened RewriteMeaning
  import opened RewriteLines
  import opened Migrations
  import opened MigrationFixpoint
  import opened AnyFile
  import opened AnyRun

  // ---------------------------------------------------------------- what a detector sees

  /** Line `i` binds the legacy key; for a wrap, to a string it would not leave alone. */
  predicate BindsKey(rw: Rewrite, lines: seq<Line>, i: nat)
    requires i < |lines|
  {
    Takes(rw, lines, i) && (rw.Wrap? && rw.spaceFree ==> !AnySpace(lines[i].value.text))
  }

  /** A header of a table that lies under the legacy key. */
  predicate LiesUnder(rw: Rewrite, h: Path) {
    match rw.Spec()
    case Exact(p) => p + [rw.key] <= h
    case Phase => |h| > 2 && h[0] == "phases" && h[2] == rw.key
    case PhaseSub(leaf) => |h| > 3 && h[0] == "phases" && h[2] == leaf && h[3] == rw.key
  }

  predicate Present(rw: Rewrite, lines: seq<Line>) {
    || (exists i :: 0 <= i < |lines| && BindsKey(rw, lines, i))
    || (!rw.Wrap? && exists i :: 0 <= i < |lines| && lines[i].IsHeader() && LiesUnder(rw, lines[i].table))
  }

  lemma NamesMeans(rw: Rewrite, h: Path)
    ensures NamesTable(rw.Spec(), rw.key, h) <==> LiesUnder(rw, h)
  {
    if LiesUnder(rw, h) {
      var n := match rw.Spec() case Exact(p) => |p| case Phase => 2 case PhaseSub(_) => 3;
      assert h[n] == rw.key && Matches(rw.Spec(), Table(h[..n]));
    }
  }

  lemma {:induction false} HeadLine(lines: seq<Line>, h: Head)
    ensures h in Heads(lines) <==> exists i :: 0 <= i < |lines| && HeadOf(lines[i]) == [h]
  {
    if lines != [] {
      HeadLine(lines[1..], h);
      if i :| 0 <= i < |lines| && HeadOf(lines[i]) == [h] {
        assert i > 0 ==> lines[1..][i - 1] == lines[i];
      }
      if j :| 0 <= j < |lines[1..]| && HeadOf(lines[1..][j]) == [h] {
        assert lines[j + 1] == lines[1..][j];
      }
    }
  }

  lemma LineIsLive(rw: Rewrite, lines: seq<Line>, i: nat)
    requires i < |lines|
    ensures lines[i].Assign? && Live(rw, EntryOf(At(lines, i), lines[i])[0]) <==> BindsKey(rw, lines, i)
  {
    HitMeans(rw, lines, i);
    if lines[i].Assign? && lines[i].value.Str? {
      SpaceMeans(lines[i].value.text);
    }
  }

  lemma LiveLine(rw: Rewrite, lines: seq<Line>)
    ensures HasLive(rw, Entries(Start, lines)) <==> exists i :: 0 <= i < |lines| && BindsKey(rw, lines, i)
  {
    if HasLive(rw, Entries(Start, lines)) {
      var e :| e in Entries(Start, lines) && Live(rw, e);
      var i := EntryLine(lines, e);
      assert EntryOf(At(lines, i), lines[i])[0] == e;
      LineIsLive(rw, lines, i);
    }
    if i :| 0 <= i < |lines| && BindsKey(rw, lines, i) {
      LineIsLive(rw, lines, i);
      LineEntry(lines, i);
    }
  }

  lemma LiveInDoc(rw: Rewrite, lines: seq<Line>)
    requires Valid(lines)
    ensures HasLive(rw, Entries(Start, lines)) <==>
              var d := DocOf(lines); exists s :: s in d.values && Live(rw, Entry(s, d.values[s]))
  {
    var d, es := DocOf(lines), Entries(Start, lines);
    if HasLive(rw, es) {
      var e :| e in es && Live(rw, e);
      FindIff(es, e.site, e.value);
    }
    if s :| s in d.values && Live(rw, Entry(s, d.values[s])) {
      FindIff(es, s, d.values[s]);
    }
  }

  /** In a file that parses a rewrite is due exactly when a line binds its key or a header lies under it. */
  lemma DetectMeans(rw: Rewrite, lines: seq<Line>)
    requires Valid(lines)
    ensures Detect(rw, DocOf(lines)) <==> Present(rw, lines)
  {
    LiveInDoc(rw, lines);
    LiveLine(rw, lines);
    if !rw.Wrap? {
      HeadersMean(rw, lines);
    }
  }

  lemma HeadersMean(rw: Rewrite, lines: seq<Line>)
    ensures (exists h :: h in multiset(Heads(lines)) && NamesTable(rw.Spec(), rw.key, h.table)) <==>
              exists i :: 0 <= i < |lines| && lines[i].IsHeader() && LiesUnder(rw, lines[i].table)
  {
    if h :| h in multiset(Heads(lines)) && NamesTable(rw.Spec(), rw.key, h.table) {
      HeadLine(lines, h);
      NamesMeans(rw, h.table);
    }
    if i :| 0 <= i < |lines| && lines[i].IsHeader() && LiesUnder(rw, lines[i].table) {
      HeadLine(lines, HeadOf(lines[i])[0]);
      NamesMeans(rw, lines[i].table);
      assert HeadOf(lines[i])[0] in multiset(Heads(lines));
    }
  }

  // ---------------------------------------------------------------- lines listed in order

  /** `at` are the places below `n` that have a line, in order, and `out` their lines. */
  ghost predicate ListedAt(out: seq<string>, n: nat, line: nat -> Option<string>, at: seq<nat>) {
    && |out| == |at|
    && Ascending(at, n)
    && (forall a :: 0 <= a < |at| ==> line(at[a]) == Some(out[a]))
    && (forall k: nat :: k < n && line(k).Some? ==> k in at)
  }

  /** `out` holds the line of each place below `n` that has one, in order, and nothing else. */
  ghost predicate Listed(out: seq<string>, n: nat, line: nat -> Option<string>) {
    exists at :: ListedAt(out, n, line, at)
  }

  function AsList(line: Option<string>): seq<string> {
    if line.Some? then [line.value] else []
  }

  lemma ListedMore(out: seq<string>, n: nat, line: nat -> Option<string>, out': seq<string>)
    requires Listed(out, n, line) && out' == out + AsList(line(n))
    ensures Listed(out', n + 1, line)
  {
    var at :| ListedAt(out, n, line, at);
    ListedAtMore(out, n, line, at, out', if line(n).Some? then at + [n] else at);
  }

  lemma ListedAtMore(out: seq<string>, n: nat, line: nat -> Option<string>, at: seq<nat>, out': seq<string>, at': seq<nat>)
    requires ListedAt(out, n, line, at) && out' == out + AsList(line(n)) && at' == if line(n).Some? then at + [n] else at
    ensures ListedAt(out', n + 1, line, at')
  {
  }

  lemma ListedNone(line: nat -> Option<string>)
    ensures Listed([], 0, line)
  {
    assert ListedAt([], 0, line, []);
  }

  // ---------------------------------------------------------------- the lists of a pass

  /** The text in front of migration `k` of a pass. */
  function TextAt(ms: seq<Migration>, t: Text, d: Doc, k: nat): Text {
    if k <= |ms| then PassUpTo(ms, t, d, k).text else t
  }

  /** A migration is applied when the text behind it is another. */
  function AppliedAt(ms: seq<Migration>, t: Text, d: Doc): nat -> Option<string> {
    (k: nat) =>
      if k < |ms| && ms[k].Auto? && TextAt(ms, t, d, k + 1) != TextAt(ms, t, d, k) then Some(ms[k].describe) else None
  }

  /** A rewrite that is due and does nothing is left to the user; so is one that would break the file. */
  function ManualLine(m: Migration, d: Doc, text: Text): Option<string> {
    match m
    case Manual(detect, report, advisory) => if detect(d) && !advisory then Some(report(d)) else None
    case Auto(rw, describe) =>
      if !Detect(rw, d) then None
      else if Apply(rw, text) == text then Some(describe)
      else if Valid(Apply(rw, text).lines) then None
      else Some(describe + " (target key already present — remove the deprecated key manually)")
  }

  function ManualAt(ms: seq<Migration>, t: Text, d: Doc): nat -> Option<string> {
    (k: nat) => if k < |ms| then ManualLine(ms[k], d, TextAt(ms, t, d, k)) else None
  }

  function AdvisoryAt(ms: seq<Migration>, d: Doc): nat -> Option<string> {
    (k: nat) =>
      if k < |ms| && ms[k].Manual? && ms[k].advisory && ms[k].detect(d) then Some(ms[k].report(d)) else None
  }

  ghost predicate ListsOf(ms: seq<Migration>, t: Text, d: Doc, n: nat, p: Pass) {
    && Listed(p.applied, n, AppliedAt(ms, t, d))
    && Listed(p.manual, n, ManualAt(ms, t, d))
    && Listed(p.advisory, n, AdvisoryAt(ms, d))
  }

  /** What one migration adds to the lists. */
  lemma {:induction false} StepApplied(m: Migration, d: Doc, p: Pass, q: Pass)
    requires q == Step(m, d, p)
    ensures q.applied == p.applied + AsList(if m.Auto? && q.text != p.text then Some(m.describe) else None)
  {
    StepText(m, d, p);
  }

  lemma {:induction false} StepManual(m: Migration, d: Doc, p: Pass, q: Pass)
    requires q == Step(m, d, p)
    ensures q.manual == p.manual + AsList(ManualLine(m, d, p.text))
  {
    if m.Auto? {
      AutoManual(m, d, p, Apply(m.rewrite, p.text), q);
    }
  }

  lemma {:induction false} AutoManual(m: Migration, d: Doc, p: Pass, rewritten: Text, q: Pass)
    requires m.Auto? && rewritten == Apply(m.rewrite, p.text) && q == Step(m, d, p)
    ensures q.manual == p.manual + AsList(ManualLine(m, d, p.text))
  {
  }

  lemma {:induction false} StepAdvisory(m: Migration, d: Doc, p: Pass, q: Pass)
    requires q == Step(m, d, p)
    ensures q.advisory == p.advisory + AsList(if m.Manual? && m.advisory && m.detect(d) then Some(m.report(d)) else None)
  {
  }

  lemma {:induction false} ListsUpTo(ms: seq<Migration>, t: Text, d: Doc, n: nat, p: Pass)
    requires n <= |ms| && p == PassUpTo(ms, t, d, n)
    ensures ListsOf(ms, t, d, n, p)
    decreases n
  {
    if n == 0 {
      ListedNone(AppliedAt(ms, t, d));
      ListedNone(ManualAt(ms, t, d));
      ListedNone(AdvisoryAt(ms, d));
    } else {
      var q := PassUpTo(ms, t, d, n - 1);
      ListsUpTo(ms, t, d, n - 1, q);
      StepApplied(ms[n - 1], d, q, p);
      StepManual(ms[n - 1], d, q, p);
      StepAdvisory(ms[n - 1], d, q, p);
      ListedMore(q.applied, n - 1, AppliedAt(ms, t, d), p.applied);
      ListedMore(q.manual, n - 1, ManualAt(ms, t, d), p.manual);
      ListedMore(q.advisory, n - 1, AdvisoryAt(ms, d), p.advisory);
    }
  }

  /** After a pass the lists name, in order, exactly the migrations across which the text changed, those left to the user,
      and those that advise. */
  lemma PassLists(ms: seq<Migration>, t: Text, d: Doc)
    ensures ListsOf(ms, t, d, |ms|, RunPass(ms, t, d))
  {
    ListsUpTo(ms, t, d, |ms|, RunPass(ms, t, d));
  }

  lemma {:induction false} NothingAppliedYet(ms: seq<Migration>, t: Text, d: Doc, n: nat, p: Pass)
    requires n <= |ms| && p == PassUpTo(ms, t, d, n)
    ensures if p.applied == [] then p.text == t else exists k: nat :: k < n && Adopts(ms[k], d, PassUpTo(ms, t, d, k).text)
    decreases n
  {
    if n > 0 {
      NothingAppliedYet(ms, t, d, n - 1, PassUpTo(ms, t, d, n - 1));
      StepText(ms[n - 1], d, PassUpTo(ms, t, d, n - 1));
    }
  }

  /** A pass says it applied nothing exactly when it leaves the text alone. */
  lemma PassSaysIff(ms: seq<Migration>, t: Text)
    requires Disciplined(ms) && Valid(t.lines)
    ensures RunPass(ms, t, DocOf(t.lines)).applied == [] <==> Rest(ms, t) == t
  {
    NothingAppliedYet(ms, t, DocOf(t.lines), |ms|, RunPass(ms, t, DocOf(t.lines)));
    RestIsQuiet(ms, t);
    if Rest(ms, t) == t {
      QuietStays(ms, t, |ms|);
    }
  }

  // ---------------------------------------------------------------- the stamped line

  predicate SetsVersion(line: Line) {
    line.Assign? && line.key == "schema_version"
  }

  /** Line `i` is the first to set a version, and no header stands before it. */
  predicate VersionAt(lines: seq<Line>, i: nat) {
    i < |lines| && SetsVersion(lines[i]) && NoHeaderIn(lines, 0, i) && forall k :: 0 <= k < i ==> !SetsVersion(lines[k])
  }

  lemma {:induction false} VersionLineAt(lines: seq<Line>)
    ensures match VersionLine(lines)
            case None => forall i: nat :: !VersionAt(lines, i)
            case Some(i) => VersionAt(lines, i)
  {
    if lines != [] && !lines[0].IsHeader() && !IsVersionLine(lines[0]) {
      VersionLineAt(lines[1..]);
      if VersionLine(lines).Some? {
        assert forall k :: 0 < k < |lines| ==> lines[k] == lines[1..][k - 1];
      } else if i: nat :| VersionAt(lines, i) {
        VersionBehind(lines, i);
      }
    }
  }

  lemma {:induction false} VersionBehind(lines: seq<Line>, i: nat)
    requires VersionAt(lines, i) && i > 0
    ensures VersionAt(lines[1..], i - 1)
  {
    assert forall k :: 0 < k < |lines| ==> lines[k] == lines[1..][k - 1];
  }

  /** The stamp puts one line in place of the first top-level version line, at its indent, or in front of the file; no other
      line changes. A version of one or more stays. */
  lemma StampedLine(t: Text, d: Doc)
    ensures var r := Stamp(t, d).0;
            if exists n :: n >= 1 && Lookup(d, Site(Top, "schema_version")) == Some(Int(n)) then r == t
            else if exists i: nat :: VersionAt(t.lines, i) then
              && r.terminated == t.terminated
              && exists i: nat :: VersionAt(t.lines, i)
                   && r.lines == t.lines[i := Assign(t.lines[i].indent, "schema_version", " = ", Int(1), "")]
            else
              && r.lines == [Assign("", "schema_version", " = ", Int(1), "")] + t.lines
              && (r.terminated <==> t.lines == [] || t.terminated)
  {
    VersionLineAt(t.lines);
    if VersionCurrent(d) {
      assert Lookup(d, Site(Top, "schema_version")) == Some(Int(d.values[VersionSite].n));
    }
  }

  // ---------------------------------------------------------------- the lists of a run

  /** The texts the passes of a run see: each is what the pass before left, and only the last is left alone. */
  ghost predicate Passes(ms: seq<Migration>, t: Text, us: seq<Text>) {
    && us != []
    && us[0] == t
    && (forall i :: 0 <= i < |us| ==> Valid(us[i].lines))
    && (forall i :: 0 <= i < |us| - 1 ==> us[i + 1] == Rest(ms, us[i]) && us[i + 1] != us[i])
    && Rest(ms, us[|us| - 1]) == us[|us| - 1]
  }

  function AppliedOver(ms: seq<Migration>, us: seq<Text>): seq<string>
    requires forall i :: 0 <= i < |us| ==> Valid(us[i].lines)
  {
    if us == [] then [] else RunPass(ms, us[0], DocOf(us[0].lines)).applied + AppliedOver(ms, us[1..])
  }

  /** The run lists what its passes applied and then the stamp, if that changed the text; and it reports what the last
      pass reported. */
  ghost predicate RunListsOver(ms: seq<Migration>, t: Text, before: seq<string>, r: MigrationResult, us: seq<Text>) {
    Passes(ms, t, us) && EndsListed(ms, us[|us| - 1], before + AppliedOver(ms, us), r)
  }

  ghost predicate EndsListed(ms: seq<Migration>, u: Text, applied: seq<string>, r: MigrationResult)
    requires Valid(u.lines)
  {
    && r.text == Stamp(u, DocOf(u.lines)).0
    && r.applied == applied + (if r.text != u then ["stamped schema_version = 1"] else [])
    && r.manual == RunPass(ms, u, DocOf(u.lines)).manual
    && r.advisory == RunPass(ms, u, DocOf(u.lines)).advisory
  }

  lemma StampChangesIff(t: Text)
    requires Valid(t.lines)
    ensures Stamp(t, DocOf(t.lines)).1 <==> Stamp(t, DocOf(t.lines)).0 != t
  {
    VersionLineTop(Start, t.lines);
    var i := VersionLine(t.lines);
    if !VersionCurrent(DocOf(t.lines)) && i.Some? {
      var es := Entries(Start, t.lines);
      LineEntry(t.lines, i.value);
      FindIff(es, VersionSite, t.lines[i.value].value);
    }
  }

  lemma {:induction false} RunLists(ms: seq<Migration>, t: Text, before: seq<string>, passes: nat, run: Option<MigrationResult>)
    returns (us: seq<Text>)
    requires Valid(t.lines) && run == RunFrom(ms, t, before, passes) && run.Some?
    ensures |us| <= passes && RunListsOver(ms, t, before, run.value, us)
    decreases passes
  {
    if Rest(ms, t) == t {
      us := [t];
      RestingLists(ms, t, before, passes, run.value, us);
    } else {
      var p := RunPass(ms, t, DocOf(t.lines));
      NextPass(ms, t, before, passes, p);
      var rest := RunLists(ms, p.text, before + p.applied, passes - 1, run);
      us := [t] + rest;
      PassInFront(ms, t, before, run.value, p, rest, us);
    }
  }

  lemma {:induction false} RestingLists(ms: seq<Migration>, t: Text, before: seq<string>, passes: nat, r: MigrationResult, us: seq<Text>)
    requires Valid(t.lines) && RunFrom(ms, t, before, passes) == Some(r) && Rest(ms, t) == t && us == [t]
    ensures RunListsOver(ms, t, before, r, us)
  {
    StampChangesIff(t);
    AppliedOverFirst(ms, us, t, []);
    assert us[|us| - 1] == t;
  }

  lemma {:induction false} AppliedOverFirst(ms: seq<Migration>, us: seq<Text>, t: Text, rest: seq<Text>)
    requires us == [t] + rest && forall i :: 0 <= i < |us| ==> Valid(us[i].lines)
    ensures Valid(t.lines) && forall i :: 0 <= i < |rest| ==> Valid(rest[i].lines)
    ensures AppliedOver(ms, us) == RunPass(ms, t, DocOf(t.lines)).applied + AppliedOver(ms, rest)
  {
    assert us[0] == t && us[1..] == rest;
    forall i | 0 <= i < |rest|
      ensures Valid(rest[i].lines)
    {
      assert rest[i] == us[i + 1];
    }
  }

  lemma {:induction false} PassesInFront(ms: seq<Migration>, t: Text, rest: seq<Text>, us: seq<Text>)
    requires Valid(t.lines) && Rest(ms, t) != t && us == [t] + rest && Passes(ms, Rest(ms, t), rest)
    ensures Passes(ms, t, us)
  {
    assert us[|us| - 1] == rest[|rest| - 1];
    forall i | 0 <= i < |us|
      ensures Valid(us[i].lines) && (i < |us| - 1 ==> us[i + 1] == Rest(ms, us[i]) && us[i + 1] != us[i])
    {
      if i > 0 {
        assert us[i] == rest[i - 1] && (i < |us| - 1 ==> us[i + 1] == rest[i - 1 + 1]);
      }
    }
  }

  lemma {:induction false} PassInFront(ms: seq<Migration>, t: Text, before: seq<string>, r: MigrationResult, p: Pass, rest: seq<Text>,
                                       us: seq<Text>)
    requires Valid(t.lines) && p == RunPass(ms, t, DocOf(t.lines)) && p.text != t && us == [t] + rest
    requires RunListsOver(ms, p.text, before + p.applied, r, rest)
    ensures RunListsOver(ms, t, before, r, us)
  {
    PassesInFront(ms, t, rest, us);
    AppliedOverFirst(ms, us, t, rest);
    assert us[|us| - 1] == rest[|rest| - 1];
    assert before + p.applied + AppliedOver(ms, rest) == before + (p.applied + AppliedOver(ms, rest));
  }

  // ---------------------------------------------------------------- what is said is what was done

  lemma {:induction false} MovesOn(ms: seq<Migration>, t: Text, u: Text, d: Doc, n: nat, p: Pass)
    requires Disciplined(ms) && Valid(t.lines) && Valid(u.lines) && n <= |ms| && p == PassUpTo(ms, u, d, n)
    requires MovedOn(ms, t, u) && (t.terminated ==> u.terminated)
    ensures Valid(p.text.lines) && MovedOn(ms, t, p.text) && (t.terminated ==> p.text.terminated)
    decreases n
  {
    if n > 0 {
      var q := PassUpTo(ms, u, d, n - 1);
      MovesOn(ms, t, u, d, n - 1, q);
      MovesOnStep(ms, t, d, n - 1, q, p);
    }
  }

  lemma {:induction false} MovesOnStep(ms: seq<Migration>, t: Text, d: Doc, k: nat, q: Pass, p: Pass)
    requires Disciplined(ms) && Valid(t.lines) && k < |ms| && p == Step(ms[k], d, q)
    requires Valid(q.text.lines) && MovedOn(ms, t, q.text) && (t.terminated ==> q.text.terminated)
    ensures Valid(p.text.lines) && MovedOn(ms, t, p.text) && (t.terminated ==> p.text.terminated)
  {
    StepText(ms[k], d, q);
    if Adopts(ms[k], d, q.text) {
      LaterMove(ms, k, t, q.text, d);
    }
  }

  lemma MovedIsOther(ms: seq<Migration>, t: Text, u: Text)
    requires Disciplined(ms) && Valid(t.lines) && Valid(u.lines) && MovedOn(ms, t, u) && (t.terminated ==> u.terminated)
    ensures u != t && Stamp(u, DocOf(u.lines)).0 != t
  {
    var s := Stamp(u, DocOf(u.lines)).0;
    if !VersionCurrent(DocOf(u.lines)) {
      StampEntries(u, DocOf(u.lines));
      var es0, es, es' := Entries(Start, t.lines), Entries(Start, u.lines), Entries(Start, s.lines);
      if OneDone(ms, es0, es) {
        var i :| 0 <= i < |ms| && ms[i].Auto? && HasHit(ms[i].rewrite, es0) && !HasHit(ms[i].rewrite, es);
        assert forall e :: e in es' && HitsEntry(ms[i].rewrite, e) ==> e.site != VersionSite && e in es;
      }
    }
  }

  /** No later pass, and no stamp, brings back the text the run began with. */
  lemma {:induction false} NeverBack(ms: seq<Migration>, t: Text, us: seq<Text>, i: nat)
    requires Disciplined(ms) && Valid(t.lines) && Passes(ms, t, us) && 0 < i < |us|
    ensures MovedOn(ms, t, us[i]) && (t.terminated ==> us[i].terminated)
  {
    if i == 1 {
      MovedOrQuiet(ms, t, DocOf(t.lines), |ms|, RunPass(ms, t, DocOf(t.lines)));
    } else {
      NeverBack(ms, t, us, i - 1);
      var u := us[i - 1];
      assert us[i - 1 + 1] == Rest(ms, us[i - 1]);
      MovesOn(ms, t, u, DocOf(u.lines), |ms|, RunPass(ms, u, DocOf(u.lines)));
    }
  }

  /** A run says it did something exactly when it returns another text than it was given: `migrate` writes the file on
      the strength of this. */
  lemma RunSaysIff(ms: seq<Migration>, t: Text, passes: nat, r: MigrationResult)
    requires Disciplined(ms) && Valid(t.lines) && RunFrom(ms, t, [], passes) == Some(r)
    ensures r.applied == [] <==> r.text == t
  {
    var us := RunLists(ms, t, [], passes, Some(r));
    var u := us[|us| - 1];
    FirstSays(ms, t, us);
    if |us| > 1 {
      NeverBack(ms, t, us, |us| - 1);
      MovedIsOther(ms, t, u);
    }
  }

  lemma FirstSays(ms: seq<Migration>, t: Text, us: seq<Text>)
    requires Disciplined(ms) && Valid(t.lines) && Passes(ms, t, us)
    ensures AppliedOver(ms, us) == [] <==> |us| == 1
  {
    PassSaysIff(ms, t);
    assert us[0] == t && AppliedOver(ms, us) == RunPass(ms, t, DocOf(t.lines)).applied + AppliedOver(ms, us[1..]);
    if |us| > 1 {
      assert us[0 + 1] == Rest(ms, us[0]);
    }
  }
}
