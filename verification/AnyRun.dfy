/** The migration run comes to rest on every file that parses, and its output is a fixpoint, whether or not the last
    line is ended: a relocation that runs two lines into one ends the last line, and only a rewrite of the last
    line can change which relocations would. */
module AnyRun {
  import opened Wrappers
  import opened Toml
  import opened Rewrites
  import opened RewriteMeaning
  import opened Migrations
  import opened MigrationFixpoint
  import opened MissingNewline
  import opened LastLine
  import opened AnyFile

  // ---------------------------------------------------------------- rewrites that leave the last line open

  /** `rw` is adopted without running lines together, and leaves the last line without its newline. */
  ghost predicate StaysOpen(rw: Rewrite, t: Text) {
    && rw.Proper() && Valid(t.lines) && HasHit(rw, Entries(Start, t.lines)) && !Glues(rw, t)
    && Valid(Apply(rw, t).lines) && !Apply(rw, t).terminated
  }

  /** The relocated line is the last one. */
  predicate MovesEnd(rw: Rewrite, lines: seq<Line>) {
    rw.Relocate? && HitsEnd(rw, lines)
  }

  lemma OpenHits(rw: Rewrite, t: Text)
    requires StaysOpen(rw, t)
    ensures t.lines != [] && !t.terminated
    ensures rw.Relocate? ==> |HitsUpTo(rw, t.lines, |t.lines|)| == 1
    ensures rw.Drop? ==> !HitsEnd(rw, t.lines)
  {
    ChangesIff(rw, t);
    HitsAreEntries(rw, t.lines);
    HitsEndIs(rw, t.lines);
  }

  lemma RelocateOpen(rw: Rewrite, t: Text, h: nat, base: seq<Line>)
    requires rw.Relocate? && !t.terminated && |HitsUpTo(rw, t.lines, |t.lines|)| == 1
    requires h == HitIndex(rw, t.lines) && base == Without(t.lines, h) && !Apply(rw, t).terminated
    ensures Dest(rw.to, base).None? ==> h + 1 == |t.lines|
  {
    assert HitsUpTo(rw, t.lines, |t.lines|)[0] == h;
  }

  lemma RelocateKeepsEnd(rw: Rewrite, t: Text, h: nat, base: seq<Line>)
    requires rw.Relocate? && !t.terminated && !Glues(rw, t) && !Apply(rw, t).terminated && !HitsEnd(rw, t.lines)
    requires |HitsUpTo(rw, t.lines, |t.lines|)| == 1 && h == HitIndex(rw, t.lines) && base == Without(t.lines, h)
    ensures EndKept(t.lines, Apply(rw, t).lines, rw)
  {
    OnlyLast(rw, t.lines, h);
    InnerDest(rw, t, h, base);
    RelocateShape(rw, t);
    MovedInside(rw, t.lines, h, base, Dest(rw.to, base).value, Apply(rw, t).lines);
  }

  lemma MovedInside(rw: Rewrite, lines: seq<Line>, h: nat, base: seq<Line>, d: nat, r: seq<Line>)
    requires rw.Relocate? && h + 1 < |lines| && lines[h].Assign? && base == Without(lines, h) && d + 1 < |base|
    requires r == base[..d + 1] + [MovedLine(rw, lines[h])] + base[d + 1..]
    ensures EndKept(lines, r, rw)
  {
    MoveKeepsEnd(rw, lines, h, base, d + 1, MovedLine(rw, lines[h]), r);
  }

  lemma InnerDest(rw: Rewrite, t: Text, h: nat, base: seq<Line>)
    requires rw.Relocate? && !t.terminated && !Glues(rw, t) && |HitsUpTo(rw, t.lines, |t.lines|)| == 1
    requires h == HitIndex(rw, t.lines) && h + 1 < |t.lines| && base == Without(t.lines, h) && !Apply(rw, t).terminated
    ensures Dest(rw.to, base).Some? && Dest(rw.to, base).value + 1 < |base|
  {
    RelocateOpen(rw, t, h, base);
    DestEnds(rw.to, base, Dest(rw.to, base).value);
    assert t == Text(t.lines, false);
    GluesIs(rw, t.lines, false, h, base);
  }

  /** Unless it moves the last line, such a rewrite leaves the end of the file as it was. */
  lemma OpenKeepsEnd(rw: Rewrite, t: Text)
    requires StaysOpen(rw, t) && !MovesEnd(rw, t.lines)
    ensures EndKept(t.lines, Apply(rw, t).lines, rw)
  {
    OpenHits(rw, t);
    ChangesIff(rw, t);
    match rw
    case Relocate(_, _, _, _) => RelocateKeepsEnd(rw, t, HitIndex(rw, t.lines), Without(t.lines, HitIndex(rw, t.lines)));
    case Drop(_, _) => DropKeepsEnd(rw, t);
    case _ => EditKeepsEnd(rw, t);
  }

  /** And if it moves the last line, that opens a new table with the moved line at its end. */
  lemma MovedEnd(rw: Rewrite, t: Text)
    requires StaysOpen(rw, t) && MovesEnd(rw, t.lines)
    ensures var r := Apply(rw, t).lines;
            r != [] && EndSection(r) == Table(rw.to) && r[|r| - 1].Assign? && r[|r| - 1].key == rw.newKey
  {
    OpenHits(rw, t);
    GluesIff(rw, t);
    var h := HitIndex(rw, t.lines);
    var base := Without(t.lines, h);
    CutEntries(t.lines, h);
    DestIff(rw.to, base);
    RelocateShape(rw, t);
    NewEnd(rw.to, base, MovedLine(rw, t.lines[h]));
  }

  lemma NewEnd(to: Path, base: seq<Line>, m: Line)
    requires m.Assign?
    ensures EndSection(base + [Header(to, ""), m]) == Table(to)
  {
    AfterAppend(Start, base, [Header(to, ""), m]);
    var c := Next(After(Start, base), Header(to, ""));
    assert [Header(to, ""), m][1..] == [m] && [m][1..] == [];
    assert After(c, [m]) == After(Next(c, m), []) == c;
  }

  // ---------------------------------------------------------------- what such a rewrite means for the others

  lemma GluesStays(a: Rewrite, b: Rewrite, t: Text)
    requires StaysOpen(a, t) && !MovesEnd(a, t.lines) && Apart(a, b) && a != b && b.Proper() && Glues(b, t)
    ensures Glues(b, Apply(a, t))
  {
    var t' := Apply(a, t);
    var es, hs, es', hs' := Entries(Start, t.lines), Heads(t.lines), Entries(Start, t'.lines), Heads(t'.lines);
    GluesIff(b, t);
    GluesIff(b, t');
    AppliedFootprint(a, t);
    OpenKeepsEnd(a, t);
    var e :| e in es && HitsEntry(b, e);
    HitsStay(a, b, es, hs, es', hs', e);
    if HitsEnd(b, t.lines) {
      NotBothLast(a, b, t.lines);
    }
  }

  lemma NotBothLast(a: Rewrite, b: Rewrite, lines: seq<Line>)
    requires Apart(a, b) && a != b && HitsEnd(b, lines)
    ensures !HitsEnd(a, lines)
  {
    var s := Site(EndSection(lines), lines[|lines| - 1].key);
    assert !(Slot(a, s) && Slot(b, s));
  }

  /** `rw` has nothing it could still rewrite without running lines together. */
  ghost predicate Blocked(rw: Rewrite, t: Text) {
    HasLive(rw, Entries(Start, t.lines)) ==> Glues(rw, t) || Collides(rw, Entries(Start, t.lines), Heads(t.lines))
  }

  lemma BlockedStays(a: Rewrite, b: Rewrite, t: Text)
    requires StaysOpen(a, t) && !MovesEnd(a, t.lines) && Apart(a, b) && Apart(b, a) && a != b && b.Proper() && Blocked(b, t)
    ensures Blocked(b, Apply(a, t))
  {
    var t' := Apply(a, t);
    var es, hs, es', hs' := Entries(Start, t.lines), Heads(t.lines), Entries(Start, t'.lines), Heads(t'.lines);
    AppliedFootprint(a, t);
    if HasLive(b, es') {
      var e :| e in es' && Live(b, e);
      NoNewHits(a, b, es, hs, es', hs', e);
      if Glues(b, t) {
        GluesStays(a, b, t);
      } else {
        CollisionStays(a, b, es, hs, es', hs');
      }
    }
  }

  /** No registered rewrite looks for the last line. */
  ghost predicate LastSafe(ms: seq<Migration>, lines: seq<Line>) {
    forall i :: 0 <= i < |ms| && ms[i].Auto? ==> !HitsEnd(ms[i].rewrite, lines)
  }

  lemma LastSafeStays(ms: seq<Migration>, k: nat, t: Text)
    requires k < |ms| && ms[k].Auto? && StaysOpen(ms[k].rewrite, t) && LastSafe(ms, t.lines)
    ensures LastSafe(ms, Apply(ms[k].rewrite, t).lines)
  {
    OpenKeepsEnd(ms[k].rewrite, t);
  }

  lemma LastSafeAfter(ms: seq<Migration>, k: nat, t: Text)
    requires Disciplined(ms) && k < |ms| && ms[k].Auto? && StaysOpen(ms[k].rewrite, t) && MovesEnd(ms[k].rewrite, t.lines)
    ensures LastSafe(ms, Apply(ms[k].rewrite, t).lines)
  {
    var a := ms[k].rewrite;
    MovedEnd(a, t);
    forall i | 0 <= i < |ms| && ms[i].Auto?
      ensures !HitsEnd(ms[i].rewrite, Apply(a, t).lines)
    {
      var s := Site(Table(a.to), a.newKey);
      assert Apart(a, ms[i].rewrite) && Target(a, s);
      assert !Slot(ms[i].rewrite, s);
    }
  }

  // ---------------------------------------------------------------- one pass over an open text

  ghost predicate BlockedUpTo(ms: seq<Migration>, t: Text, n: nat)
    requires n <= |ms|
  {
    forall i :: 0 <= i < n && ms[i].Auto? ==> Blocked(ms[i].rewrite, t)
  }

  /** After `n` migrations of a pass over `u`: the last line is ended, or nobody looks for it any more, or every rewrite
      that was run is blocked; and if nobody looked for it when the pass began, both. */
  ghost predicate OpenInv(ms: seq<Migration>, u: Text, now: Text, n: nat)
    requires n <= |ms|
  {
    && Valid(now.lines)
    && (!now.terminated ==>
          && NoneNew(ms, Entries(Start, u.lines), Entries(Start, now.lines))
          && (LastSafe(ms, now.lines) || BlockedUpTo(ms, now, n))
          && (LastSafe(ms, u.lines) ==> LastSafe(ms, now.lines) && BlockedUpTo(ms, now, n)))
  }

  lemma BlockedStep(ms: seq<Migration>, k: nat, t: Text)
    requires Disciplined(ms) && k < |ms| && ms[k].Auto? && StaysOpen(ms[k].rewrite, t) && !MovesEnd(ms[k].rewrite, t.lines)
    requires BlockedUpTo(ms, t, k)
    ensures BlockedUpTo(ms, Apply(ms[k].rewrite, t), k + 1)
  {
    var a := ms[k].rewrite;
    forall i | 0 <= i < k + 1 && ms[i].Auto?
      ensures Blocked(ms[i].rewrite, Apply(a, t))
    {
      if i == k {
        AppliedSettles(a, t);
      } else {
        BlockedStays(a, ms[i].rewrite, t);
      }
    }
  }

  lemma AdoptedOpen(m: Migration, d: Doc, t: Text)
    requires m.Auto? && m.rewrite.Proper() && Valid(t.lines) && Adopts(m, d, t) && !Apply(m.rewrite, t).terminated
    ensures StaysOpen(m.rewrite, t) && !t.terminated
  {
    if t.terminated || Glues(m.rewrite, t) {
      StaysTerminated(m.rewrite, t);
    }
    AdoptedHits(m, d, t);
  }

  lemma OpenAdopted(ms: seq<Migration>, k: nat, u: Text, now: Text, d: Doc)
    requires Disciplined(ms) && k < |ms| && OpenInv(ms, u, now, k) && Adopts(ms[k], d, now)
    ensures OpenInv(ms, u, Apply(ms[k].rewrite, now), k + 1)
  {
    var a := ms[k].rewrite;
    if !Apply(a, now).terminated {
      AdoptedOpen(ms[k], d, now);
      NoneNewStep(ms, k, Entries(Start, u.lines), now);
      if MovesEnd(a, now.lines) {
        LastSafeAfter(ms, k, now);
      } else {
        if LastSafe(ms, now.lines) {
          LastSafeStays(ms, k, now);
        }
        if BlockedUpTo(ms, now, k) {
          BlockedStep(ms, k, now);
        }
      }
    }
  }

  lemma RejectedBlocks(ms: seq<Migration>, k: nat, u: Text, now: Text)
    requires Disciplined(ms) && k < |ms| && ms[k].Auto? && Valid(u.lines) && Valid(now.lines)
    requires NoneNew(ms, Entries(Start, u.lines), Entries(Start, now.lines)) && !Adopts(ms[k], DocOf(u.lines), now)
    ensures Blocked(ms[k].rewrite, now)
  {
    var rw := ms[k].rewrite;
    LiveStillDetected(ms, u, k, now);
    if HasLive(rw, Entries(Start, now.lines)) && !Glues(rw, now) {
      ChangesIff(rw, now);
      ParsesIff(rw, now);
    }
  }

  lemma OpenStep(ms: seq<Migration>, k: nat, u: Text, p: Pass, p': Pass)
    requires Disciplined(ms) && k < |ms| && Valid(u.lines) && p' == Step(ms[k], DocOf(u.lines), p) && OpenInv(ms, u, p.text, k)
    ensures OpenInv(ms, u, p'.text, k + 1)
  {
    StepText(ms[k], DocOf(u.lines), p);
    if Adopts(ms[k], DocOf(u.lines), p.text) {
      OpenAdopted(ms, k, u, p.text, DocOf(u.lines));
    } else if ms[k].Auto? && !p.text.terminated {
      RejectedBlocks(ms, k, u, p.text);
    }
  }

  lemma OpenAtFirst(ms: seq<Migration>, u: Text)
    requires Valid(u.lines)
    ensures OpenInv(ms, u, u, 0)
  {
  }

  lemma {:induction false} OpenPass(ms: seq<Migration>, u: Text, d: Doc, n: nat, p: Pass)
    requires Disciplined(ms) && Valid(u.lines) && d == DocOf(u.lines) && n <= |ms| && p == PassUpTo(ms, u, d, n)
    ensures OpenInv(ms, u, p.text, n)
    decreases n
  {
    if n > 0 {
      var q := PassUpTo(ms, u, d, n - 1);
      OpenPass(ms, u, d, n - 1, q);
      OpenStep(ms, n - 1, u, q, p);
    } else {
      OpenAtFirst(ms, u);
    }
  }

  // A pass over a text on which every rewrite is blocked changes nothing, or ends the last line.

  lemma BlockedAdopts(m: Migration, t: Text)
    requires m.Auto? && m.rewrite.Proper() && Valid(t.lines) && Blocked(m.rewrite, t) && Adopts(m, DocOf(t.lines), t)
    ensures Apply(m.rewrite, t).terminated
  {
    var rw := m.rewrite;
    if Glues(rw, t) {
      GlueTerminates(rw, t);
    } else {
      AdoptedHits(m, DocOf(t.lines), t);
      LiveDetected(rw, t.lines);
      ParsesIff(rw, t);
      assert HasLive(rw, Entries(Start, t.lines));
      assert false;
    }
  }

  lemma {:induction false} BlockedPass(ms: seq<Migration>, t: Text, d: Doc, n: nat, p: Pass)
    requires Disciplined(ms) && Valid(t.lines) && d == DocOf(t.lines) && n <= |ms| && p == PassUpTo(ms, t, d, n)
    requires BlockedUpTo(ms, t, |ms|)
    ensures Valid(p.text.lines) && (p.text == t || p.text.terminated)
    decreases n
  {
    if n > 0 {
      var q := PassUpTo(ms, t, d, n - 1);
      BlockedPass(ms, t, d, n - 1, q);
      BlockedPassStep(ms, t, n - 1, q, p);
    }
  }

  lemma BlockedPassStep(ms: seq<Migration>, t: Text, k: nat, p: Pass, p': Pass)
    requires Disciplined(ms) && Valid(t.lines) && k < |ms| && p' == Step(ms[k], DocOf(t.lines), p)
    requires BlockedUpTo(ms, t, |ms|) && Valid(p.text.lines) && (p.text == t || p.text.terminated)
    ensures Valid(p'.text.lines) && (p'.text == t || p'.text.terminated)
  {
    StepText(ms[k], DocOf(t.lines), p);
    if Adopts(ms[k], DocOf(t.lines), p.text) {
      if p.text.terminated {
        StaysTerminated(ms[k].rewrite, p.text);
      } else {
        BlockedAdopts(ms[k], t);
      }
    }
  }

  // ---------------------------------------------------------------- the run returns

  /** How many passes are enough: two once the last line is ended, one more for each thing that stands before that. */
  ghost predicate RestsWithin(ms: seq<Migration>, t: Text, passes: nat)
    requires Valid(t.lines)
  {
    || (t.terminated && passes >= 2)
    || (BlockedUpTo(ms, t, |ms|) && passes >= 3)
    || (LastSafe(ms, t.lines) && passes >= 4)
    || passes >= 5
  }

  lemma OnePassNearer(ms: seq<Migration>, t: Text, passes: nat)
    requires Disciplined(ms) && Valid(t.lines) && !t.terminated && RestsWithin(ms, t, passes) && Rest(ms, t) != t
    ensures passes > 0 && Valid(Rest(ms, t).lines) && RestsWithin(ms, Rest(ms, t), passes - 1)
  {
    var p := RunPass(ms, t, DocOf(t.lines));
    OpenPass(ms, t, DocOf(t.lines), |ms|, p);
    if BlockedUpTo(ms, t, |ms|) {
      BlockedPass(ms, t, DocOf(t.lines), |ms|, p);
    }
  }

  lemma TerminatedRests(ms: seq<Migration>, t: Text, applied: seq<string>, passes: nat)
    requires Disciplined(ms) && t.terminated && Valid(t.lines) && passes >= 2
    ensures RunFrom(ms, t, applied, passes).Some?
  {
    if Rest(ms, t) == t {
      RestsHere(ms, t, applied, passes);
    } else {
      var p := RunPass(ms, t, DocOf(t.lines));
      FirstSettles(ms, t, p);
      NextPass(ms, t, applied, passes, p);
      SettledReturns(ms, p.text, applied + p.applied, passes - 1);
    }
  }

  lemma FirstSettles(ms: seq<Migration>, t: Text, p: Pass)
    requires Disciplined(ms) && t.terminated && Valid(t.lines) && p == RunPass(ms, t, DocOf(t.lines))
    ensures p.text.terminated && Valid(p.text.lines) && SettledUpTo(ms, p.text.lines, |ms|)
  {
    PassKeepsInv(ms, t, DocOf(t.lines), |ms|, p);
  }

  lemma SettledReturns(ms: seq<Migration>, t: Text, applied: seq<string>, passes: nat)
    requires Disciplined(ms) && t.terminated && Valid(t.lines) && SettledUpTo(ms, t.lines, |ms|) && passes > 0
    ensures RunFrom(ms, t, applied, passes).Some?
  {
    QuietRun(ms, t, applied, passes);
  }

  lemma {:induction false} RunReturns(ms: seq<Migration>, t: Text, applied: seq<string>, passes: nat)
    requires Disciplined(ms) && Valid(t.lines) && RestsWithin(ms, t, passes)
    ensures RunFrom(ms, t, applied, passes).Some?
    decreases passes
  {
    if t.terminated {
      TerminatedRests(ms, t, applied, passes);
    } else if Rest(ms, t) != t {
      var p := RunPass(ms, t, DocOf(t.lines));
      OnePassNearer(ms, t, passes);
      NextPass(ms, t, applied, passes, p);
      RunReturns(ms, p.text, applied + p.applied, passes - 1);
    }
  }

  // ---------------------------------------------------------------- and its output is a fixpoint

  lemma AdoptedHeads(m: Migration, d: Doc, t: Text)
    requires m.Auto? && m.rewrite.Proper() && Valid(t.lines) && Adopts(m, d, t)
    ensures forall h :: h in Heads(Apply(m.rewrite, t).lines) ==>
              h in Heads(t.lines) || (m.rewrite.Relocate? && h == Head(m.rewrite.to, false))
  {
    var rw := m.rewrite;
    if !Glues(rw, t) {
      AdoptedHits(m, d, t);
      AppliedFootprint(rw, t);
    } else if MovesLast(rw, t) {
      OneHeadLess(rw, t);
      FewerMembers(Heads(t.lines), Heads(Apply(rw, t).lines));
    } else {
      GluedHeads(rw, t);
    }
  }

  lemma FewerMembers(hs: seq<Head>, hs': seq<Head>)
    requires multiset(hs') <= multiset(hs)
    ensures forall h :: h in hs' ==> h in hs
  {
    forall h | h in hs'
      ensures h in hs
    {
      assert h in multiset(hs');
    }
  }

  ghost predicate VersionFree(t: Text) {
    Valid(t.lines) && NoVersionTable(Heads(t.lines))
  }

  ghost predicate KeepsVersionFree(m: Migration, d: Doc) {
    forall p: Pass :: VersionFree(p.text) ==> VersionFree(Step(m, d, p).text)
  }

  lemma StepKeepsVersionFree(m: Migration, d: Doc)
    requires m.Auto? ==> m.rewrite.Proper() && (m.rewrite.Relocate? ==> !([VERSION_KEY] <= m.rewrite.to))
    ensures KeepsVersionFree(m, d)
  {
    forall p: Pass | VersionFree(p.text)
      ensures VersionFree(Step(m, d, p).text)
    {
      StepText(m, d, p);
      if Adopts(m, d, p.text) {
        AdoptedHeads(m, d, p.text);
      }
    }
  }

  lemma {:induction false} PassVersionFree(ms: seq<Migration>, t: Text, d: Doc, n: nat)
    requires n <= |ms| && VersionFree(t) && forall i :: 0 <= i < |ms| ==> KeepsVersionFree(ms[i], d)
    ensures VersionFree(PassUpTo(ms, t, d, n).text)
  {
    if n > 0 {
      PassVersionFree(ms, t, d, n - 1);
      assert KeepsVersionFree(ms[n - 1], d);
    }
  }

  lemma RestVersionFree(ms: seq<Migration>, t: Text, d: Doc)
    requires Disciplined(ms) && LeavesVersionAlone(ms) && VersionFree(t)
    ensures VersionFree(RunPass(ms, t, d).text)
  {
    forall i | 0 <= i < |ms|
      ensures KeepsVersionFree(ms[i], d)
    {
      StepKeepsVersionFree(ms[i], d);
    }
    PassVersionFree(ms, t, d, |ms|);
  }

  /** The text a run comes to rest on. */
  lemma {:induction false} RestingText(ms: seq<Migration>, t: Text, applied: seq<string>, passes: nat, run: Option<MigrationResult>)
    returns (u: Text)
    requires Disciplined(ms) && LeavesVersionAlone(ms) && Valid(t.lines) && NoVersionTable(Heads(t.lines))
    requires run == RunFrom(ms, t, applied, passes) && run.Some?
    ensures Rests(run, ms, u) && NoVersionTable(Heads(u.lines))
    decreases passes
  {
    if Rest(ms, t) == t {
      RestsHere(ms, t, applied, passes);
      u := t;
    } else {
      var p := RunPass(ms, t, DocOf(t.lines));
      NextPass(ms, t, applied, passes, p);
      RestVersionFree(ms, t, DocOf(t.lines));
      u := RestingText(ms, p.text, applied + p.applied, passes - 1, run);
    }
  }

  /** Every run returns, however its last line ends, well within the bound of `MAX_MIGRATION_PASSES`; and a second run on
      what it returns applies nothing, gives the same text and reports the same. */
  lemma RunIsIdempotent(ms: seq<Migration>, t: Text, passes: nat)
    requires Disciplined(ms) && LeavesVersionAlone(ms) && Valid(t.lines) && NoVersionTable(Heads(t.lines)) && passes >= 5
    ensures var run := RunFrom(ms, t, [], passes);
            && run.Some?
            && Valid(run.value.text.lines)
            && VersionCurrent(DocOf(run.value.text.lines))
            && RunFrom(ms, run.value.text, [], passes)
            == Some(MigrationResult(run.value.text, [], run.value.manual, run.value.advisory))
  {
    RunReturns(ms, t, [], passes);
    var u := RestingText(ms, t, [], passes, RunFrom(ms, t, [], passes));
    SecondRun(ms, u, Stamp(u, DocOf(u.lines)).0, passes);
  }

  lemma SecondRun(ms: seq<Migration>, u: Text, s: Text, passes: nat)
    requires Disciplined(ms) && Valid(u.lines) && Quiet(ms, u) && NoVersionTable(Heads(u.lines)) && passes > 0
    requires s == Stamp(u, DocOf(u.lines)).0
    ensures Valid(s.lines) && VersionCurrent(DocOf(s.lines))
    ensures var r := QuietReports(ms, DocOf(u.lines), u, |ms|); RunFrom(ms, s, [], passes) == Some(MigrationResult(s, [], r.0, r.1))
  {
    StampedQuiet(ms, u, DocOf(u.lines), s);
    QuietEnds(ms, s, DocOf(s.lines), [], passes);
    var none: seq<string> := [];
    assert none + [] == none;
  }

  // ---------------------------------------------------------------- what a run that glues nothing does to the bindings

  /** No relocation that a pass of the run adopts runs lines together. */
  ghost predicate GluesNothing(ms: seq<Migration>, t: Text, passes: nat)
    requires Valid(t.lines)
    decreases passes
  {
    passes > 0 ==> NothingGlued(ms, t, DocOf(t.lines), |ms|) && NextGluesNothing(ms, Rest(ms, t), t, passes)
  }

  ghost predicate NextGluesNothing(ms: seq<Migration>, u: Text, t: Text, passes: nat)
    requires passes > 0
    decreases passes, 0
  {
    Valid(u.lines) && u != t ==> GluesNothing(ms, u, passes - 1)
  }

  lemma {:induction false} TerminatedNever(ms: seq<Migration>, t: Text, passes: nat)
    requires Disciplined(ms) && t.terminated && Valid(t.lines)
    ensures GluesNothing(ms, t, passes)
    decreases passes
  {
    if passes > 0 {
      TerminatedGluesNothing(ms, t, DocOf(t.lines), |ms|);
      RestTerminated(ms, t, Rest(ms, t));
      TerminatedNever(ms, Rest(ms, t), passes - 1);
    }
  }

  lemma RestTerminated(ms: seq<Migration>, t: Text, u: Text)
    requires Disciplined(ms) && t.terminated && Valid(t.lines) && u == Rest(ms, t)
    ensures u.terminated && Valid(u.lines)
  {
    FirstSettles(ms, t, RunPass(ms, t, DocOf(t.lines)));
  }

  /** Two passes in a row rewrite no binding twice. */
  lemma AccountedTwice(ms: seq<Migration>, es0: seq<Entry>, es1: seq<Entry>, es2: seq<Entry>)
    requires Disciplined(ms) && Accounted(ms, |ms|, es0, es1) && Accounted(ms, |ms|, es1, es2)
    ensures Accounted(ms, |ms|, es0, es2)
  {
    forall e, e' | RewrittenBy(ms, |ms|, e, e')
      ensures !DroppedBy(ms, |ms|, e') && forall e'' :: !RewrittenBy(ms, |ms|, e', e'')
    {
      RewrittenOnce(ms, e, e');
    }
  }

  lemma RewrittenOnce(ms: seq<Migration>, e: Entry, e': Entry)
    requires Disciplined(ms) && RewrittenBy(ms, |ms|, e, e')
    ensures !DroppedBy(ms, |ms|, e') && forall e'' :: !RewrittenBy(ms, |ms|, e', e'')
  {
    var i :| 0 <= i < |ms| && ms[i].Auto? && HitsEntry(ms[i].rewrite, e) && !ms[i].rewrite.Drop? && e' == Image(ms[i].rewrite, e);
    forall k | 0 <= k < |ms| && ms[k].Auto?
      ensures !HitsEntry(ms[k].rewrite, e')
    {
      ImageSafe(ms, i, k, e);
    }
  }

  /** What a run may do to a file, before the stamp. */
  ghost predicate Carried(ms: seq<Migration>, t: Text, u: Text) {
    Accounted(ms, |ms|, Entries(Start, t.lines), Entries(Start, u.lines)) && HeadsGrown(ms, |ms|, Heads(t.lines), Heads(u.lines))
  }

  lemma CarriedTwice(ms: seq<Migration>, t: Text, u: Text, v: Text)
    requires Disciplined(ms) && Carried(ms, t, u) && Carried(ms, u, v)
    ensures Carried(ms, t, v)
  {
    AccountedTwice(ms, Entries(Start, t.lines), Entries(Start, u.lines), Entries(Start, v.lines));
  }

  lemma RestCarries(ms: seq<Migration>, t: Text, u: Text)
    requires Disciplined(ms) && Valid(t.lines) && NothingGlued(ms, t, DocOf(t.lines), |ms|) && u == Rest(ms, t)
    ensures Valid(u.lines) && Carried(ms, t, u)
  {
    PassKeepsAccount(ms, t, DocOf(t.lines), |ms|, RunPass(ms, t, DocOf(t.lines)));
  }

  /** The run comes to rest on `u`, and that is what has become of `t`. */
  ghost predicate EndsCarried(ms: seq<Migration>, t: Text, run: Option<MigrationResult>, u: Text) {
    Rests(run, ms, u) && Carried(ms, t, u)
  }

  lemma {:induction false} RunCarries(ms: seq<Migration>, t: Text, applied: seq<string>, passes: nat, run: Option<MigrationResult>)
    returns (u: Text)
    requires Disciplined(ms) && Valid(t.lines) && GluesNothing(ms, t, passes)
    requires run == RunFrom(ms, t, applied, passes) && run.Some?
    ensures EndsCarried(ms, t, run, u)
    decreases passes
  {
    var p := RunPass(ms, t, DocOf(t.lines));
    GluesOn(ms, t, passes, p.text);
    RestCarries(ms, t, p.text);
    if p.text == t {
      RestsHere(ms, t, applied, passes);
      u := t;
    } else {
      NextPass(ms, t, applied, passes, p);
      u := RunCarries(ms, p.text, applied + p.applied, passes - 1, run);
      CarriedOn(ms, t, p.text, run, u);
    }
  }

  lemma GluesOn(ms: seq<Migration>, t: Text, passes: nat, u: Text)
    requires Valid(t.lines) && GluesNothing(ms, t, passes) && passes > 0 && u == Rest(ms, t)
    ensures NothingGlued(ms, t, DocOf(t.lines), |ms|) && NextGluesNothing(ms, u, t, passes)
  {
  }

  lemma CarriedOn(ms: seq<Migration>, t: Text, next: Text, run: Option<MigrationResult>, u: Text)
    requires Disciplined(ms) && Carried(ms, t, next) && EndsCarried(ms, next, run, u)
    ensures EndsCarried(ms, t, run, u)
  {
    CarriedTwice(ms, t, next, u);
  }

  lemma {:induction false} QuietReportIn(ms: seq<Migration>, d: Doc, t: Text, n: nat, k: nat)
    requires k < n <= |ms|
    ensures forall r :: r in QuietReport(ms[k], d, t).0 ==> r in QuietReports(ms, d, t, n).0
  {
    if k < n - 1 {
      QuietReportIn(ms, d, t, n - 1, k);
    }
  }

  lemma LiveChanges(rw: Rewrite, t: Text)
    requires rw.Proper() && Valid(t.lines) && HasLive(rw, Entries(Start, t.lines))
    ensures Detect(rw, DocOf(t.lines)) && Apply(rw, t) != t
  {
    LiveDetected(rw, t.lines);
    if Glues(rw, t) {
      GlueTerminates(rw, t);
    } else {
      ChangesIff(rw, t);
    }
  }

  lemma LeftReported(ms: seq<Migration>, u: Text, d: Doc, manual: seq<string>)
    requires Disciplined(ms) && Valid(u.lines) && d == DocOf(u.lines) && manual == QuietReports(ms, d, u, |ms|).0
    ensures AllReported(ms, Entries(Start, u.lines), manual)
  {
    forall k, e | 0 <= k < |ms| && ms[k].Auto? && e in Entries(Start, u.lines) && Live(ms[k].rewrite, e)
      ensures ms[k].describe + COLLISION in manual
    {
      LiveReported(ms[k], u, d);
      QuietReportIn(ms, d, u, |ms|, k);
    }
  }

  lemma LiveReported(m: Migration, u: Text, d: Doc)
    requires m.Auto? && m.rewrite.Proper() && Valid(u.lines) && d == DocOf(u.lines) && HasLive(m.rewrite, Entries(Start, u.lines))
    ensures m.describe + COLLISION in QuietReport(m, d, u).0
  {
    LiveChanges(m.rewrite, u);
  }

  /** A whole run, as the reader of the file sees it, where no relocation it adopts runs lines together; in a file whose
      last line is ended none ever does. The output parses, its version is current, and all the rest is carried over. */
  lemma RunKeepsMeaning(ms: seq<Migration>, t: Text, passes: nat)
    requires Disciplined(ms) && LeavesVersionAlone(ms) && Valid(t.lines) && NoVersionTable(Heads(t.lines))
    requires RestsWithin(ms, t, passes) && (t.terminated || GluesNothing(ms, t, passes))
    ensures var run := RunFrom(ms, t, [], passes);
            && run.Some?
            && Valid(run.value.text.lines)
            && VersionCurrent(DocOf(run.value.text.lines))
            && CarriedOver(ms, t, run.value)
  {
    RunReturns(ms, t, [], passes);
    if t.terminated {
      TerminatedNever(ms, t, passes);
    }
    var u := RunCarries(ms, t, [], passes, RunFrom(ms, t, [], passes));
    StampMeaning(u);
    LeftReported(ms, u, DocOf(u.lines), QuietReports(ms, DocOf(u.lines), u, |ms|).0);
    StampedCarries(ms, t, u, RunFrom(ms, t, [], passes).value);
  }

  lemma StampedCarries(ms: seq<Migration>, t: Text, u: Text, r: MigrationResult)
    requires Valid(u.lines) && r.text == Stamp(u, DocOf(u.lines)).0 && Carried(ms, t, u) && AllReported(ms, Entries(Start, u.lines), r.manual)
    ensures CarriedOver(ms, t, r)
  {
    if !VersionCurrent(DocOf(u.lines)) {
      StampEntries(u, DocOf(u.lines));
    }
  }
}
