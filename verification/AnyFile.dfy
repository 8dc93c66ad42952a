/** The migration run on any file that parses, its last line ended or not. A relocation may then run two lines into
    one, which no collision test foresees; but it does so once, and ends the last line. */
module AnyFile {
  import opened Wrappers
  import opened Toml
  import opened Rewrites
  import opened RewriteMeaning
  import opened Migrations
  import opened MigrationFixpoint
  import opened MissingNewline

  // ---------------------------------------------------------------- a pass that changes nothing adopts nothing

  /** No rewrite of the registry would be adopted. */
  ghost predicate Quiet(ms: seq<Migration>, t: Text)
    requires Valid(t.lines)
  {
    forall i :: 0 <= i < |ms| ==> !Adopts(ms[i], DocOf(t.lines), t)
  }

  /** Lines that run together leave the file with a last newline. */
  lemma GlueTerminates(rw: Rewrite, t: Text)
    requires Glues(rw, t)
    ensures Apply(rw, t).terminated
  {
    var h := HitIndex(rw, t.lines);
    assert HitsUpTo(rw, t.lines, |t.lines|)[0] == h;
    DestMeans(rw.to, Without(t.lines, h), |Without(t.lines, h)|);
  }

  lemma StaysTerminated(rw: Rewrite, t: Text)
    requires rw.Proper() && Valid(t.lines) && (t.terminated || Glues(rw, t))
    ensures Apply(rw, t).terminated
  {
    if Glues(rw, t) {
      GlueTerminates(rw, t);
    } else {
      ChangesIff(rw, t);
    }
  }

  /** A registered rewrite that had something to do has nothing left. */
  ghost predicate OneDone(ms: seq<Migration>, es0: seq<Entry>, es: seq<Entry>) {
    exists i :: 0 <= i < |ms| && ms[i].Auto? && HasHit(ms[i].rewrite, es0) && !HasHit(ms[i].rewrite, es)
  }

  /** The text is not the one the pass began with. */
  ghost predicate MovedOn(ms: seq<Migration>, t: Text, now: Text) {
    var es0, es := Entries(Start, t.lines), Entries(Start, now.lines);
    (now.terminated && !t.terminated) || (NoneNew(ms, es0, es) && OneDone(ms, es0, es))
  }

  lemma FirstMove(ms: seq<Migration>, k: nat, t: Text)
    requires Disciplined(ms) && k < |ms| && Valid(t.lines) && Adopts(ms[k], DocOf(t.lines), t)
    ensures MovedOn(ms, t, Apply(ms[k].rewrite, t))
  {
    var rw := ms[k].rewrite;
    if Glues(rw, t) {
      GlueTerminates(rw, t);
    } else {
      AdoptedHits(ms[k], DocOf(t.lines), t);
      NoneNewStep(ms, k, Entries(Start, t.lines), t);
      AppliedSettles(rw, t);
    }
  }

  lemma DoneStays(ms: seq<Migration>, k: nat, es0: seq<Entry>, now: Text)
    requires Disciplined(ms) && k < |ms| && ms[k].Auto? && !Glues(ms[k].rewrite, now) && Valid(now.lines)
    requires HasHit(ms[k].rewrite, Entries(Start, now.lines)) && OneDone(ms, es0, Entries(Start, now.lines))
    ensures OneDone(ms, es0, Entries(Start, Apply(ms[k].rewrite, now).lines))
  {
    var a, es, es' := ms[k].rewrite, Entries(Start, now.lines), Entries(Start, Apply(ms[k].rewrite, now).lines);
    var i :| 0 <= i < |ms| && ms[i].Auto? && HasHit(ms[i].rewrite, es0) && !HasHit(ms[i].rewrite, es);
    AppliedFootprint(a, now);
    if HasHit(ms[i].rewrite, es') {
      var e :| e in es' && HitsEntry(ms[i].rewrite, e);
      NoNewHits(a, ms[i].rewrite, es, Heads(now.lines), es', Heads(Apply(a, now).lines), e);
      assert false;
    }
  }

  lemma LaterMove(ms: seq<Migration>, k: nat, t: Text, now: Text, d: Doc)
    requires Disciplined(ms) && k < |ms| && Valid(t.lines) && Valid(now.lines) && Adopts(ms[k], d, now)
    requires MovedOn(ms, t, now) && (t.terminated ==> now.terminated)
    ensures MovedOn(ms, t, Apply(ms[k].rewrite, now)) && (t.terminated ==> Apply(ms[k].rewrite, now).terminated)
  {
    var rw := ms[k].rewrite;
    if now.terminated || Glues(rw, now) {
      StaysTerminated(rw, now);
    }
    if !Glues(rw, now) && !(now.terminated && !t.terminated) {
      AdoptedHits(ms[k], d, now);
      NoneNewStep(ms, k, Entries(Start, t.lines), now);
      DoneStays(ms, k, Entries(Start, t.lines), now);
    }
  }

  ghost predicate Back(ms: seq<Migration>, t: Text, now: Text, n: nat)
    requires Valid(t.lines) && n <= |ms|
  {
    && Valid(now.lines)
    && (t.terminated ==> now.terminated)
    && (MovedOn(ms, t, now) || (now == t && forall i :: 0 <= i < n ==> !Adopts(ms[i], DocOf(t.lines), t)))
  }

  lemma {:induction false} MovedOrQuiet(ms: seq<Migration>, t: Text, d: Doc, n: nat, p: Pass)
    requires Disciplined(ms) && Valid(t.lines) && d == DocOf(t.lines) && n <= |ms| && p == PassUpTo(ms, t, d, n)
    ensures Back(ms, t, p.text, n)
    decreases n
  {
    if n > 0 {
      var q := PassUpTo(ms, t, d, n - 1);
      MovedOrQuiet(ms, t, d, n - 1, q);
      BackStep(ms, t, n - 1, q, p);
    } else {
      BackAtFirst(ms, t);
    }
  }

  lemma BackAtFirst(ms: seq<Migration>, t: Text)
    requires Valid(t.lines)
    ensures Back(ms, t, t, 0)
  {
  }

  lemma BackStep(ms: seq<Migration>, t: Text, k: nat, p: Pass, p': Pass)
    requires Disciplined(ms) && Valid(t.lines) && k < |ms| && p' == Step(ms[k], DocOf(t.lines), p) && Back(ms, t, p.text, k)
    ensures Back(ms, t, p'.text, k + 1)
  {
    StepText(ms[k], DocOf(t.lines), p);
    if Adopts(ms[k], DocOf(t.lines), p.text) {
      if MovedOn(ms, t, p.text) {
        LaterMove(ms, k, t, p.text, DocOf(t.lines));
      } else {
        FirstMove(ms, k, t);
        if t.terminated {
          StaysTerminated(ms[k].rewrite, t);
        }
      }
    }
  }

  /** A pass that ends where it began has adopted nothing: no two rewrites undo each other. */
  lemma RestIsQuiet(ms: seq<Migration>, t: Text)
    requires Disciplined(ms) && Valid(t.lines)
    ensures Rest(ms, t) == t <==> Quiet(ms, t)
  {
    MovedOrQuiet(ms, t, DocOf(t.lines), |ms|, RunPass(ms, t, DocOf(t.lines)));
    if Quiet(ms, t) {
      QuietStays(ms, t, |ms|);
    }
  }

  lemma {:induction false} QuietStays(ms: seq<Migration>, t: Text, n: nat)
    requires Valid(t.lines) && Quiet(ms, t) && n <= |ms|
    ensures PassUpTo(ms, t, DocOf(t.lines), n).text == t && PassUpTo(ms, t, DocOf(t.lines), n).applied == []
  {
    if n > 0 {
      QuietStays(ms, t, n - 1);
    }
  }

  // ---------------------------------------------------------------- lines in front of all headers

  predicate HeaderFree(lines: seq<Line>) {
    forall l :: l in lines ==> !l.IsHeader()
  }

  lemma {:induction false} AfterFront(p: seq<Line>)
    requires HeaderFree(p)
    ensures After(Start, p) == Start
  {
    if p != [] {
      assert p[0] in p && forall l :: l in p[1..] ==> l in p;
      AfterFront(p[1..]);
    }
  }

  lemma AtBehind(p: seq<Line>, rest: seq<Line>, all: seq<Line>, k: nat)
    requires HeaderFree(p) && k <= |rest| && all == p + rest
    ensures At(all, |p| + k) == At(rest, k) && (k < |rest| ==> all[|p| + k] == rest[k])
  {
    assert all[..|p| + k] == p + rest[..k];
    AfterAppend(Start, p, rest[..k]);
    AfterFront(p);
  }

  function Shift(hits: seq<nat>, k: nat): (r: seq<nat>)
    ensures |r| == |hits| && forall i :: 0 <= i < |hits| ==> r[i] == hits[i] + k
  {
    seq(|hits|, i requires 0 <= i < |hits| => hits[i] + k)
  }

  /** Lines before the first header are in no table, so no rewrite hits them. */
  lemma {:induction false} NoHitsInFront(rw: Rewrite, p: seq<Line>, rest: seq<Line>, m: nat)
    requires HeaderFree(p) && m <= |p|
    ensures HitsUpTo(rw, p + rest, m) == []
  {
    if m > 0 {
      NoHitsInFront(rw, p, rest, m - 1);
      var front := p[..m - 1];
      assert forall l :: l in front ==> l in p;
      assert (p + rest)[..m - 1] == front;
      AfterFront(front);
    }
  }

  /** The hits among `n` lines of `rest` are those of `all`, `k` lines on. */
  ghost predicate HitsAlike(rw: Rewrite, k: nat, rest: seq<Line>, all: seq<Line>, n: nat)
    requires n <= |rest| && |all| == k + |rest|
  {
    HitsUpTo(rw, all, k + n) == Shift(HitsUpTo(rw, rest, n), k)
  }

  lemma {:induction false} HitsBehind(rw: Rewrite, p: seq<Line>, rest: seq<Line>, all: seq<Line>, n: nat)
    requires HeaderFree(p) && n <= |rest| && all == p + rest
    ensures HitsAlike(rw, |p|, rest, all, n)
  {
    if n > 0 {
      HitsBehind(rw, p, rest, all, n - 1);
      AtBehind(p, rest, all, n - 1);
      OneMoreBehind(rw, |p|, rest, all, n - 1);
    } else {
      NoneBehind(rw, p, rest, all);
    }
  }

  lemma NoneBehind(rw: Rewrite, p: seq<Line>, rest: seq<Line>, all: seq<Line>)
    requires HeaderFree(p) && all == p + rest
    ensures HitsAlike(rw, |p|, rest, all, 0)
  {
    NoHitsInFront(rw, p, rest, |p|);
  }

  lemma {:induction false} OneMoreBehind(rw: Rewrite, k: nat, rest: seq<Line>, all: seq<Line>, n: nat)
    requires n < |rest| && |all| == k + |rest| && all[k + n] == rest[n] && At(all, k + n) == At(rest, n)
    requires HitsAlike(rw, k, rest, all, n)
    ensures HitsAlike(rw, k, rest, all, n + 1)
  {
    var hits, hits' := HitsUpTo(rw, rest, n), HitsUpTo(rw, all, k + n);
    assert HitAt(rw, all, k + n) == HitAt(rw, rest, n);
    HitsMore(rw, rest, n, hits);
    HitsMore(rw, all, k + n, hits');
    ShiftMore(hits, n, k);
  }

  lemma {:induction false} HitsMore(rw: Rewrite, lines: seq<Line>, n: nat, hits: seq<nat>)
    requires n < |lines| && hits == HitsUpTo(rw, lines, n)
    ensures HitsUpTo(rw, lines, n + 1) == hits + if HitAt(rw, lines, n) then [n] else []
  {
  }

  lemma ShiftMore(hits: seq<nat>, n: nat, k: nat)
    ensures Shift(hits + [n], k) == Shift(hits, k) + [k + n] && Shift(hits + [], k) == Shift(hits, k) + []
  {
    assert hits + [] == hits;
  }

  function ShiftScan(st: DestScan, k: nat): DestScan {
    DestScan(st.cursor, Shifted(st.dest, k), st.closed)
  }

  lemma {:induction false} NoDestInFront(to: Path, p: seq<Line>, rest: seq<Line>, m: nat)
    requires HeaderFree(p) && m <= |p|
    ensures DestUpTo(to, p + rest, m) == DestScan(Start, None, false)
  {
    if m > 0 {
      NoDestInFront(to, p, rest, m - 1);
      assert (p + rest)[m - 1] == p[m - 1] && p[m - 1] in p;
    }
  }

  ghost predicate ScansAlike(to: Path, k: nat, rest: seq<Line>, all: seq<Line>, n: nat)
    requires n <= |rest| && |all| == k + |rest|
  {
    DestUpTo(to, all, k + n) == ShiftScan(DestUpTo(to, rest, n), k)
  }

  lemma {:induction false} DestBehind(to: Path, p: seq<Line>, rest: seq<Line>, all: seq<Line>, n: nat)
    requires HeaderFree(p) && n <= |rest| && all == p + rest
    ensures ScansAlike(to, |p|, rest, all, n)
  {
    if n > 0 {
      DestBehind(to, p, rest, all, n - 1);
      assert all[|p| + n - 1] == rest[n - 1];
      OneMoreScan(to, |p|, rest, all, n - 1);
    } else {
      NoDestInFront(to, p, rest, |p|);
    }
  }

  lemma {:induction false} OneMoreScan(to: Path, k: nat, rest: seq<Line>, all: seq<Line>, n: nat)
    requires n < |rest| && |all| == k + |rest| && all[k + n] == rest[n] && ScansAlike(to, k, rest, all, n)
    ensures ScansAlike(to, k, rest, all, n + 1)
  {
  }

  lemma WithoutBehind(p: seq<Line>, rest: seq<Line>, h: nat)
    requires h < |rest|
    ensures Without(p + rest, |p| + h) == p + Without(rest, h)
  {
    assert (p + rest)[..|p| + h] == p + rest[..h];
    assert (p + rest)[|p| + h + 1..] == rest[h + 1..];
  }

  lemma {:induction false} GluesBehind(rw: Rewrite, p: seq<Line>, rest: seq<Line>, all: seq<Line>, terminated: bool)
    requires HeaderFree(p) && all == p + rest
    ensures Glues(rw, Text(all, terminated)) <==> Glues(rw, Text(rest, terminated))
  {
    HitsBehind(rw, p, rest, all, |rest|);
    if rw.Relocate? && |HitsUpTo(rw, rest, |rest|)| == 1 {
      GluesWith(rw, p, rest, all, terminated, HitIndex(rw, rest));
    }
  }

  lemma {:induction false} GluesWith(rw: Rewrite, p: seq<Line>, rest: seq<Line>, all: seq<Line>, terminated: bool, h: nat)
    requires HeaderFree(p) && all == p + rest && rw.Relocate?
    requires |HitsUpTo(rw, rest, |rest|)| == 1 && h == HitIndex(rw, rest)
    requires |HitsUpTo(rw, all, |all|)| == 1 && h + |p| == HitIndex(rw, all)
    ensures Glues(rw, Text(all, terminated)) <==> Glues(rw, Text(rest, terminated))
  {
    var base := Without(rest, h);
    WithoutBehind(p, rest, h);
    GluesAtBehind(rw, p, base);
    GluesIs(rw, rest, terminated, h, base);
    GluesIs(rw, all, terminated, h + |p|, p + base);
  }

  predicate GluesAt(dest: Option<nat>, n: nat, last: bool) {
    dest.Some? && if last then dest.value + 1 < n else dest.value + 1 == n
  }

  lemma GluesIs(rw: Rewrite, lines: seq<Line>, terminated: bool, h: nat, base: seq<Line>)
    requires rw.Relocate? && |HitsUpTo(rw, lines, |lines|)| == 1 && h == HitIndex(rw, lines) && base == Without(lines, h)
    ensures Glues(rw, Text(lines, terminated)) <==> !terminated && GluesAt(Dest(rw.to, base), |base|, h + 1 == |lines|)
  {
  }

  lemma GluesAtBehind(rw: Rewrite, p: seq<Line>, base: seq<Line>)
    requires HeaderFree(p) && rw.Relocate?
    ensures Dest(rw.to, p + base) == Shifted(Dest(rw.to, base), |p|)
  {
    DestBehind(rw.to, p, base, p + base, |base|);
  }

  lemma JoinedBehind(p: seq<Line>, a: Text, b: Text)
    requires a.lines != []
    ensures Joined(Text(p + a.lines, a.terminated), b) == Text(p + Joined(a, b).lines, Joined(a, b).terminated)
    ensures Joined(a, b).lines != []
  {
    var n := |a.lines| - 1;
    assert (p + a.lines)[..|p| + n] == p + a.lines[..n];
  }

  lemma {:induction false} ApplyBehind(rw: Rewrite, p: seq<Line>, rest: seq<Line>, all: seq<Line>)
    requires HeaderFree(p) && all == p + rest && Glues(rw, Text(rest, false))
    ensures Behind(p, Apply(rw, Text(rest, false)), Apply(rw, Text(all, false)))
  {
    HitsBehind(rw, p, rest, all, |rest|);
    ApplyWith(rw, p, rest, all, HitIndex(rw, rest));
  }

  lemma {:induction false} ApplyWith(rw: Rewrite, p: seq<Line>, rest: seq<Line>, all: seq<Line>, h: nat)
    requires HeaderFree(p) && all == p + rest && rw.Relocate?
    requires |HitsUpTo(rw, rest, |rest|)| == 1 && h == HitIndex(rw, rest) && Dest(rw.to, Without(rest, h)).Some?
    requires |HitsUpTo(rw, all, |all|)| == 1 && h + |p| == HitIndex(rw, all)
    ensures Behind(p, Apply(rw, Text(rest, false)), Apply(rw, Text(all, false)))
  {
    ApplyIs(rw, rest, h);
    ApplyIs(rw, all, h + |p|);
    DestInside(rw.to, Without(rest, h));
    RelocateBehind(rw, p, rest, all, h);
  }

  lemma DestInside(to: Path, lines: seq<Line>)
    ensures Dest(to, lines).Some? ==> Dest(to, lines).value < |lines|
  {
    DestMeans(to, lines, |lines|);
  }

  lemma ApplyIs(rw: Rewrite, lines: seq<Line>, h: nat)
    requires rw.Relocate? && |HitsUpTo(rw, lines, |lines|)| == 1 && HitIndex(rw, lines) == h
    ensures lines[h].Assign? && Apply(rw, Text(lines, false)) == RelocateAt(rw, Text(lines, false), h)
  {
  }

  lemma {:induction false} RelocateBehind(rw: Rewrite, p: seq<Line>, rest: seq<Line>, all: seq<Line>, h: nat)
    requires HeaderFree(p) && rw.Relocate? && h < |rest| && rest[h].Assign? && Dest(rw.to, Without(rest, h)).Some?
    requires all == p + rest && Dest(rw.to, Without(rest, h)).value < |Without(rest, h)|
    ensures Behind(p, RelocateAt(rw, Text(rest, false), h), RelocateAt(rw, Text(all, false), h + |p|))
  {
    var base, d := Without(rest, h), Dest(rw.to, Without(rest, h)).value;
    WithoutBehind(p, rest, h);
    GluesAtBehind(rw, p, base);
    var moved := Text([MovedLine(rw, rest[h])], h + 1 < |rest|);
    assert all[h + |p|] == rest[h];
    RelocateIs(rw, rest, h, base, d, moved);
    RelocateIs(rw, all, h + |p|, p + base, d + |p|, moved);
    RelocateWith(rw, p, rest, all, h, base, d, moved);
  }

  lemma {:induction false} RelocateWith(rw: Rewrite, p: seq<Line>, rest: seq<Line>, all: seq<Line>, h: nat, base: seq<Line>, d: nat, moved: Text)
    requires rw.Relocate? && h < |rest| && rest[h].Assign? && |all| == |p| + |rest| && all[h + |p|].Assign? && d < |base|
    requires RelocateAt(rw, Text(rest, false), h) == PutIn(base, d, moved, h + 1 == |rest|)
    requires RelocateAt(rw, Text(all, false), h + |p|) == PutIn(p + base, d + |p|, moved, h + 1 == |rest|)
    ensures Behind(p, RelocateAt(rw, Text(rest, false), h), RelocateAt(rw, Text(all, false), h + |p|))
  {
    JoinBehind(p, base, p + base, d, moved, h + 1 == |rest|);
  }

  lemma RelocateIs(rw: Rewrite, lines: seq<Line>, h: nat, base: seq<Line>, d: nat, moved: Text)
    requires rw.Relocate? && h < |lines| && lines[h].Assign? && base == Without(lines, h) && d < |base| && Dest(rw.to, base) == Some(d)
    requires moved == Text([MovedLine(rw, lines[h])], h + 1 < |lines|)
    ensures RelocateAt(rw, Text(lines, false), h) == PutIn(base, d, moved, h + 1 == |lines|)
  {
  }

  /** `b` is `a` with the lines `p` in front. */
  predicate Behind(p: seq<Line>, a: Text, b: Text) {
    b.lines == p + a.lines
  }

  /** A text with another put in behind line `d`. */
  function PutIn(base: seq<Line>, d: nat, moved: Text, terminated: bool): Text
    requires d < |base|
  {
    Joined(Joined(Text(base[..d + 1], d + 1 < |base| || terminated), moved), Text(base[d + 1..], terminated))
  }

  lemma JoinBehind(p: seq<Line>, base: seq<Line>, all: seq<Line>, d: nat, moved: Text, terminated: bool)
    requires d < |base| && all == p + base
    ensures Behind(p, PutIn(base, d, moved, terminated), PutIn(all, d + |p|, moved, terminated))
  {
    var front := Text(base[..d + 1], d + 1 < |base| || terminated);
    assert all[..d + |p| + 1] == p + base[..d + 1];
    assert all[d + |p| + 1..] == base[d + 1..];
    JoinedBehind(p, front, moved);
    JoinedBehind(p, Joined(front, moved), Text(base[d + 1..], terminated));
  }

  // ---------------------------------------------------------------- the stamp on a text that may glue

  lemma {:induction false} FrontOfVersion(lines: seq<Line>)
    ensures var i := VersionLine(lines);
            i.Some? ==> HeaderFree(lines[..i.value]) && lines[i.value].Assign? && lines[i.value].key == VERSION_KEY
  {
    if lines != [] && !lines[0].IsHeader() && !IsVersionLine(lines[0]) {
      FrontOfVersion(lines[1..]);
      if VersionLine(lines).Some? {
        var i := VersionLine(lines).value;
        assert lines[..i] == [lines[0]] + lines[1..][..i - 1];
      }
    }
  }

  /** A line more in front takes nothing from a file's faults. */
  lemma FrontValid(line: Line, lines: seq<Line>)
    requires line.Assign? && Valid([line] + lines)
    ensures Valid(lines)
  {
    var all := [line] + lines;
    assert all[1..] == lines;
    var es, es' := Entries(Start, lines), Entries(Start, all);
    assert es' == EntryOf(Start, line) + es;
    assert forall i :: 0 <= i < |es| ==> es[i] == es'[i + 1];
    assert forall l :: l in lines ==> l in all;
    assert Heads(all) == HeadOf(line) + Heads(lines) && HeadOf(line) + Heads(lines) == Heads(lines);
  }

  /** Nor does another value for a key. */
  lemma RevaluedValid(a: seq<Line>, was: Line, line: Line, b: seq<Line>, r: seq<Line>, r': seq<Line>)
    requires was.Assign? && line.Assign? && was.key == line.key && r == a + [was] + b && r' == a + [line] + b
    requires Valid(r')
    ensures Valid(r)
  {
    PutAssign(a, was, b);
    PutAssign(a, line, b);
    PutAssignFrame(a, was, b);
    PutAssignFrame(a, line, b);
    var es, es' := Entries(Start, r), Entries(Start, r');
    assert |es| == |es'| && forall i :: 0 <= i < |es| ==> es[i].site == es'[i].site;
    SameSitesValid(es, es', Heads(r));
    assert forall l :: l in r ==> l == was || l in r';
  }

  lemma SameSitesValid(es: seq<Entry>, es': seq<Entry>, hs: seq<Head>)
    requires |es| == |es'| && forall i :: 0 <= i < |es| ==> es[i].site == es'[i].site
    requires DistinctSites(es') && NoClash(es', hs)
    ensures DistinctSites(es) && NoClash(es, hs)
  {
    forall e, h | e in es && h in hs
      ensures !Through(e.site, h.table)
    {
      var i :| 0 <= i < |es| && es[i] == e;
      assert es'[i] in es';
    }
  }

  /** The stamp does not change whether a relocation glues, and mends no glued text. */
  ghost predicate GluesAlike(rw: Rewrite, t: Text, s: Text) {
    && (Glues(rw, s) <==> Glues(rw, t))
    && (Glues(rw, t) && Valid(Apply(rw, s).lines) ==> Valid(Apply(rw, t).lines))
  }

  lemma StampInFrontGlues(rw: Rewrite, t: Text, line: Line)
    requires line.Assign? && t.lines != []
    ensures GluesAlike(rw, t, Text([line] + t.lines, t.terminated))
  {
    var s := Text([line] + t.lines, t.terminated);
    GluesBehind(rw, [line], t.lines, s.lines, t.terminated);
    if Glues(rw, t) {
      ApplyBehind(rw, [line], t.lines, s.lines);
      assert s == Text(s.lines, false) && t == Text(t.lines, false);
      if Valid(Apply(rw, s).lines) {
        FrontValid(line, Apply(rw, t).lines);
      }
    }
  }

  lemma StampInPlaceGlues(rw: Rewrite, t: Text, a: seq<Line>, was: Line, line: Line, b: seq<Line>)
    requires HeaderFree(a) && was.Assign? && line.Assign? && was.key == line.key && t.lines == a + [was] + b
    ensures GluesAlike(rw, t, Text(a + [line] + b, t.terminated))
  {
    var s := Text(a + [line] + b, t.terminated);
    GluesBehind(rw, a + [was], b, t.lines, t.terminated);
    GluesBehind(rw, a + [line], b, s.lines, t.terminated);
    if Glues(rw, t) {
      ApplyBehind(rw, a + [was], b, t.lines);
      ApplyBehind(rw, a + [line], b, s.lines);
      assert s == Text(s.lines, false) && t == Text(t.lines, false);
      if Valid(Apply(rw, s).lines) {
        RevaluedValid(a, was, line, Apply(rw, Text(b, false)).lines, Apply(rw, t).lines, Apply(rw, s).lines);
      }
    }
  }

  lemma StampGlues(rw: Rewrite, t: Text)
    requires Valid(t.lines) && !VersionCurrent(DocOf(t.lines))
    ensures GluesAlike(rw, t, Stamp(t, DocOf(t.lines)).0)
  {
    match VersionLine(t.lines)
    case None =>
      if t.lines != [] {
        StampInFrontGlues(rw, t, StampLine(""));
      }
    case Some(i) =>
      var line := StampLine(t.lines[i].indent);
      FrontOfVersion(t.lines);
      Replaced3(t.lines, i, line);
      StampInPlaceGlues(rw, t, t.lines[..i], t.lines[i], line, t.lines[i + 1..]);
  }

  // ---------------------------------------------------------------- the reports of a quiet text

  /** What a migration that is not adopted reports. */
  function QuietReport(m: Migration, d: Doc, t: Text): (seq<string>, seq<string>) {
    match m
    case Manual(detect, report, advisory) =>
      if !detect(d) then ([], []) else if advisory then ([], [report(d)]) else ([report(d)], [])
    case Auto(rw, describe) =>
      if !Detect(rw, d) then ([], []) else ([if Apply(rw, t) == t then describe else describe + COLLISION], [])
  }

  function QuietReports(ms: seq<Migration>, d: Doc, t: Text, n: nat): (seq<string>, seq<string>)
    requires n <= |ms|
  {
    if n == 0 then ([], [])
    else
      var r, s := QuietReports(ms, d, t, n - 1), QuietReport(ms[n - 1], d, t);
      (r.0 + s.0, r.1 + s.1)
  }

  lemma QuietStepGives(m: Migration, t: Text, d: Doc, p: Pass)
    requires p.text == t && !Adopts(m, d, t)
    ensures var r := QuietReport(m, d, t); Step(m, d, p) == p.(manual := p.manual + r.0, advisory := p.advisory + r.1)
  {
  }

  lemma {:induction false} QuietPassGives(ms: seq<Migration>, t: Text, d: Doc, n: nat)
    requires Valid(t.lines) && d == DocOf(t.lines) && Quiet(ms, t) && n <= |ms|
    ensures var r := QuietReports(ms, d, t, n); PassUpTo(ms, t, d, n) == Pass(t, [], r.0, r.1)
  {
    if n > 0 {
      QuietPassGives(ms, t, d, n - 1);
      QuietStepGives(ms[n - 1], t, d, PassUpTo(ms, t, d, n - 1));
    }
  }

  // ---------------------------------------------------------------- a second run

  lemma HitBlind(rw: Rewrite, es: seq<Entry>, es': seq<Entry>)
    requires Stamped(es, es')
    ensures HasHit(rw, es') <==> HasHit(rw, es)
  {
    assert forall e :: HitsEntry(rw, e) ==> e.site != VersionSite;
  }

  /** The stamp makes no rewrite adoptable, and changes none of the reports. */
  lemma AdoptBlind(rw: Rewrite, t: Text, s: Text)
    requires rw.Proper() && Valid(t.lines) && !VersionCurrent(DocOf(t.lines)) && s == Stamp(t, DocOf(t.lines)).0 && Valid(s.lines)
    ensures Apply(rw, s) == s <==> Apply(rw, t) == t
    ensures Apply(rw, t) != t && Valid(Apply(rw, s).lines) ==> Valid(Apply(rw, t).lines)
  {
    var es, es' := Entries(Start, t.lines), Entries(Start, s.lines);
    StampGlues(rw, t);
    StampEntries(t, DocOf(t.lines));
    if Glues(rw, t) {
      GlueTerminates(rw, t);
      GlueTerminates(rw, s);
    } else {
      ChangesIff(rw, t);
      ChangesIff(rw, s);
      HitBlind(rw, es, es');
      if HasHit(rw, es) {
        ParsesIff(rw, t);
        ParsesIff(rw, s);
        SettledBlind(rw, es, Heads(t.lines), es');
      }
    }
  }

  lemma DetectsAlike(rw: Rewrite, d: Doc, v: Value)
    ensures Detect(rw, Restamp(d, v)) == Detect(rw, d)
  {
    var d' := Restamp(d, v);
    assert forall s :: s != VersionSite ==> (s in d.values <==> s in d'.values);
    assert forall s :: s != VersionSite && s in d.values ==> d.values[s] == d'.values[s];
    DetectBlind(rw, d, d');
    DetectBlind(rw, d', d);
  }

  lemma ReportBlind(m: Migration, t: Text, s: Text, v: Value)
    requires m.Auto? ==> m.rewrite.Proper()
    requires m.Manual? ==> forall d, v :: m.detect(Restamp(d, v)) == m.detect(d) && m.report(Restamp(d, v)) == m.report(d)
    requires Valid(t.lines) && !VersionCurrent(DocOf(t.lines)) && s == Stamp(t, DocOf(t.lines)).0 && Valid(s.lines)
    requires DocOf(s.lines) == Restamp(DocOf(t.lines), v) && !Adopts(m, DocOf(t.lines), t)
    ensures !Adopts(m, DocOf(s.lines), s) && QuietReport(m, DocOf(s.lines), s) == QuietReport(m, DocOf(t.lines), t)
  {
    if m.Auto? {
      AdoptBlind(m.rewrite, t, s);
      DetectsAlike(m.rewrite, DocOf(t.lines), v);
    }
  }

  ghost predicate SameReport(m: Migration, d: Doc, t: Text, d': Doc, s: Text) {
    !Adopts(m, d', s) && QuietReport(m, d', s) == QuietReport(m, d, t)
  }

  lemma AllBlind(ms: seq<Migration>, t: Text, s: Text, d: Doc, v: Value)
    requires Disciplined(ms) && Valid(t.lines) && d == DocOf(t.lines) && Quiet(ms, t)
    requires !VersionCurrent(d) && s == Stamp(t, d).0 && Valid(s.lines) && DocOf(s.lines) == Restamp(d, v)
    ensures forall i :: 0 <= i < |ms| ==> SameReport(ms[i], d, t, DocOf(s.lines), s)
  {
    forall i | 0 <= i < |ms|
      ensures SameReport(ms[i], d, t, DocOf(s.lines), s)
    {
      ReportBlind(ms[i], t, s, v);
    }
  }

  lemma {:induction false} ReportsSame(ms: seq<Migration>, d: Doc, t: Text, d': Doc, s: Text, n: nat)
    requires n <= |ms| && forall i :: 0 <= i < |ms| ==> SameReport(ms[i], d, t, d', s)
    ensures QuietReports(ms, d', s, n) == QuietReports(ms, d, t, n)
  {
    if n > 0 {
      ReportsSame(ms, d, t, d', s, n - 1);
      assert SameReport(ms[n - 1], d, t, d', s);
    }
  }

  /** What a run returns that comes to rest on `u`. */
  ghost predicate EndsOn(run: Option<MigrationResult>, ms: seq<Migration>, u: Text, d: Doc) {
    var r := QuietReports(ms, d, u, |ms|);
    run.Some? && run.value.text == Stamp(u, d).0 && run.value.manual == r.0 && run.value.advisory == r.1
  }

  lemma QuietEnds(ms: seq<Migration>, t: Text, d: Doc, applied: seq<string>, passes: nat)
    requires Valid(t.lines) && d == DocOf(t.lines) && Quiet(ms, t) && passes > 0
    ensures EndsOn(RunFrom(ms, t, applied, passes), ms, t, d)
    ensures RunFrom(ms, t, applied, passes).value.applied == applied + if Stamp(t, d).1 then [STAMPED] else []
  {
    QuietPassGives(ms, t, d, |ms|);
    assert applied + [] == applied;
  }

  /** A stamped quiet text is quiet, and reports the same. */
  lemma StampedQuiet(ms: seq<Migration>, u: Text, d: Doc, s: Text)
    requires Disciplined(ms) && Valid(u.lines) && d == DocOf(u.lines) && Quiet(ms, u) && NoVersionTable(Heads(u.lines))
    requires s == Stamp(u, d).0
    ensures Valid(s.lines) && Quiet(ms, s) && VersionCurrent(DocOf(s.lines))
    ensures QuietReports(ms, DocOf(s.lines), s, |ms|) == QuietReports(ms, d, u, |ms|)
  {
    StampMeaning(u);
    if !VersionCurrent(d) {
      AllBlind(ms, u, s, d, Int(CURRENT_SCHEMA_VERSION));
      ReportsSame(ms, d, u, DocOf(s.lines), s, |ms|);
    }
  }

  /** A run that comes to rest ends on a quiet text. */
  ghost predicate Rests(run: Option<MigrationResult>, ms: seq<Migration>, u: Text) {
    Valid(u.lines) && Quiet(ms, u) && EndsOn(run, ms, u, DocOf(u.lines))
  }

  lemma NextPass(ms: seq<Migration>, t: Text, applied: seq<string>, passes: nat, p: Pass)
    requires Valid(t.lines) && passes > 0 && p == RunPass(ms, t, DocOf(t.lines)) && p.text != t
    ensures Valid(p.text.lines) && RunFrom(ms, t, applied, passes) == RunFrom(ms, p.text, applied + p.applied, passes - 1)
  {
    PassParses(ms, t, DocOf(t.lines), |ms|);
  }

  lemma RestsHere(ms: seq<Migration>, t: Text, applied: seq<string>, passes: nat)
    requires Disciplined(ms) && Valid(t.lines) && passes > 0 && Rest(ms, t) == t
    ensures Rests(RunFrom(ms, t, applied, passes), ms, t)
  {
    RestIsQuiet(ms, t);
    QuietEnds(ms, t, DocOf(t.lines), applied, passes);
  }
}
