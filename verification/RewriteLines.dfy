/** What a rewrite does to the lines of a file: which of them it touches, and that it touches no more of them than the
    key or the value; a user's indents, equals signs and comments stay. */
module RewriteLines {
  import opened Wrappers
  import opened Toml
  import opened Rewrites
  import opened RewriteMeaning

  // ---------------------------------------------------------------- the table a line stands in

  /** Line `h` is the last header before place `i`. */
  predicate LastHeader(lines: seq<Line>, i: nat, h: nat)
    requires i <= |lines|
  {
    h < i && lines[h].IsHeader() && NoHeaderIn(lines, h + 1, i)
  }

  predicate NoHeaderIn(lines: seq<Line>, a: nat, b: nat)
    requires b <= |lines|
  {
    forall k :: a <= k < b ==> !lines[k].IsHeader()
  }

  function OpenedBy(lines: seq<Line>, h: nat): Section
    requires h < |lines| && lines[h].IsHeader()
  {
    if lines[h].Header? then Table(lines[h].table)
    else Element(lines[h].table, ElementsBefore(lines, lines[h].table, h))
  }

  function ElementsBefore(lines: seq<Line>, table: Path, n: nat): nat
    requires n <= |lines|
  {
    if n == 0 then 0
    else
      var l := lines[n - 1];
      ElementsBefore(lines, table, n - 1) + if l.ElementHeader? && l.table == table then 1 else 0
  }

  lemma {:induction false} ElementsCount(lines: seq<Line>, table: Path, n: nat)
    requires n <= |lines|
    ensures At(lines, n).elements[table] == ElementsBefore(lines, table, n)
  {
    if n > 0 {
      ElementsCount(lines, table, n - 1);
      AtStep(lines, n - 1);
    }
  }

  /** A line stands in the table or element of the last header before it, and at the top level if there is none. */
  lemma {:induction false} SectionMeans(lines: seq<Line>, i: nat)
    requires i <= |lines|
    ensures NoHeaderIn(lines, 0, i) ==> At(lines, i).section == Top
    ensures forall h: nat :: LastHeader(lines, i, h) ==> At(lines, i).section == OpenedBy(lines, h)
  {
    if i > 0 {
      AtStep(lines, i - 1);
      SectionMeans(lines, i - 1);
      forall h: nat | LastHeader(lines, i, h)
        ensures At(lines, i).section == OpenedBy(lines, h)
      {
        if h == i - 1 {
          ElementsCount(lines, lines[h].table, h);
        } else {
          assert LastHeader(lines, i - 1, h);
        }
      }
    }
  }

  // ---------------------------------------------------------------- the lines a rewrite takes

  predicate InTable(spec: TableSpec, s: Section) {
    && s.Table?
    && match spec
       case Exact(p) => s.path == p
       case Phase => exists name :: name in s.path && s.path == ["phases", name]
       case PhaseSub(leaf) => exists name :: name in s.path && s.path == ["phases", name, leaf]
  }

  predicate AnySpace(s: string) {
    ' ' in s || '\t' in s || '\n' in s || '\r' in s
  }

  /** Line `i` assigns the key of the rewrite in a table it looks in; a wrap takes strings only. */
  predicate Takes(rw: Rewrite, lines: seq<Line>, i: nat)
    requires i < |lines|
  {
    && lines[i].Assign?
    && lines[i].key == rw.key
    && (if rw.Relocate? then At(lines, i).section == Table(rw.from) else InTable(rw.table, At(lines, i).section))
    && (rw.Wrap? ==> lines[i].value.Str? && (rw.skipSpace ==> !AnySpace(lines[i].value.text)))
  }

  lemma MatchesMeans(spec: TableSpec, s: Section)
    ensures Matches(spec, s) <==> InTable(spec, s)
  {
    if Matches(spec, s) && !spec.Exact? {
      assert s.path[1] in s.path;
      assert s.path == if spec.Phase? then ["phases", s.path[1]] else ["phases", s.path[1], spec.leaf];
    }
  }

  lemma SpaceMeans(s: string)
    ensures HasSpace(s) <==> AnySpace(s)
  {
    if AnySpace(s) {
      var c :| c in s && (c == ' ' || c == '\t' || c == '\n' || c == '\r');
      assert " \t\n\r"[0] == ' ' && " \t\n\r"[1] == '\t' && " \t\n\r"[2] == '\n' && " \t\n\r"[3] == '\r';
      assert c in " \t\n\r";
    }
  }

  lemma HitMeans(rw: Rewrite, lines: seq<Line>, i: nat)
    requires i < |lines|
    ensures HitAt(rw, lines, i) <==> Takes(rw, lines, i)
  {
    MatchesMeans(rw.Spec(), At(lines, i).section);
    if lines[i].Assign? && lines[i].value.Str? {
      SpaceMeans(lines[i].value.text);
    }
  }

  predicate TakesOne(rw: Rewrite, lines: seq<Line>) {
    exists i :: 0 <= i < |lines| && Takes(rw, lines, i)
  }

  /** Under a literal table name two lines to take are a refusal. */
  predicate TakesTwo(rw: Rewrite, lines: seq<Line>) {
    exists i, j :: 0 <= i < j < |lines| && Takes(rw, lines, i) && Takes(rw, lines, j)
  }

  /** One literal table is named. */
  predicate OneTable(rw: Rewrite) {
    rw.Relocate? || rw.table.Exact?
  }

  predicate Acts(rw: Rewrite, lines: seq<Line>) {
    TakesOne(rw, lines) && !(OneTable(rw) && TakesTwo(rw, lines))
  }

  lemma HitsAreTaken(rw: Rewrite, lines: seq<Line>, hits: seq<nat>)
    requires hits == HitsUpTo(rw, lines, |lines|)
    ensures forall a :: 0 <= a < |hits| ==> hits[a] < |lines| && Takes(rw, lines, hits[a])
    ensures forall i :: 0 <= i < |lines| && Takes(rw, lines, i) ==> i in hits
  {
    forall i | 0 <= i < |lines|
      ensures HitAt(rw, lines, i) <==> Takes(rw, lines, i)
    {
      HitMeans(rw, lines, i);
    }
  }

  lemma {:induction false} HitsCount(rw: Rewrite, lines: seq<Line>, hits: seq<nat>)
    requires forall a :: 0 <= a < |hits| ==> hits[a] < |lines| && Takes(rw, lines, hits[a])
    requires forall i :: 0 <= i < |lines| && Takes(rw, lines, i) ==> i in hits
    requires forall a, b :: 0 <= a < b < |hits| ==> hits[a] < hits[b]
    ensures hits != [] <==> TakesOne(rw, lines)
    ensures |hits| > 1 <==> TakesTwo(rw, lines)
  {
    if hits != [] {
      assert Takes(rw, lines, hits[0]);
    }
    if |hits| > 1 {
      assert hits[0] < hits[1] && Takes(rw, lines, hits[1]);
    }
    if TakesTwo(rw, lines) {
      var i, j :| 0 <= i < j < |lines| && Takes(rw, lines, i) && Takes(rw, lines, j);
      assert i in hits && j in hits;
    }
  }

  lemma ActsIff(rw: Rewrite, t: Text)
    ensures var hits := HitsUpTo(rw, t.lines, |t.lines|);
            Acts(rw, t.lines) <==> hits != [] && (rw.Spec().Exact? ==> |hits| == 1)
  {
    HitsAreTaken(rw, t.lines, HitsUpTo(rw, t.lines, |t.lines|));
    HitsCount(rw, t.lines, HitsUpTo(rw, t.lines, |t.lines|));
  }

  /** What takes nothing, or is refused, leaves the file alone. */
  lemma IdleKeepsFile(rw: Rewrite, t: Text)
    requires !Acts(rw, t.lines)
    ensures Apply(rw, t) == t
  {
    ActsIff(rw, t);
  }

  // ---------------------------------------------------------------- rename and wrap

  /** The line with its new key, or its string in brackets; all else on it stays. */
  function Replacement(rw: Rewrite, l: Line): Line
    requires l.Assign? && (rw.Rename? || (rw.Wrap? && l.value.Str?))
  {
    if rw.Rename? then Assign(l.indent, rw.newKey, l.sp, l.value, l.comment)
    else Assign(l.indent, l.key, l.sp, StrList([l.value.text]), l.comment)
  }

  predicate EditedLine(rw: Rewrite, lines: seq<Line>, i: nat, now: Line)
    requires i < |lines| && (rw.Rename? || rw.Wrap?)
  {
    now == if Takes(rw, lines, i) then Replacement(rw, lines[i]) else lines[i]
  }

  /** Renaming or wrapping rewrites each line it takes and leaves each other line, and every comment, as it was. */
  lemma EditedLines(rw: Rewrite, t: Text)
    requires (rw.Rename? || rw.Wrap?) && Acts(rw, t.lines)
    ensures var r := Apply(rw, t);
            && r.terminated == t.terminated
            && |r.lines| == |t.lines|
            && (forall i :: 0 <= i < |t.lines| ==> EditedLine(rw, t.lines, i, r.lines[i]))
            && Comments(r.lines) == Comments(t.lines)
  {
    ActsIff(rw, t);
    var r := Apply(rw, t);
    forall i | 0 <= i < |t.lines|
      ensures EditedLine(rw, t.lines, i, r.lines[i])
    {
      EditIndex(rw, Start, t.lines, i);
      HitMeans(rw, t.lines, i);
    }
    SameComments(t.lines, r.lines);
  }

  // ---------------------------------------------------------------- comments

  function CommentOf(line: Line): string {
    match line
    case Header(_, c) => c
    case ElementHeader(_, c) => c
    case Assign(_, _, _, _, c) => c
    case Comment(t) => t
    case _ => ""
  }

  /** The comments of a file in order, behind a setting or a header or on a line of their own. */
  function Comments(lines: seq<Line>): seq<string> {
    if lines == [] then [] else (if CommentOf(lines[0]) == "" then [] else [CommentOf(lines[0])]) + Comments(lines[1..])
  }

  lemma {:induction false} SameComments(a: seq<Line>, b: seq<Line>)
    requires |a| == |b| && forall i :: 0 <= i < |a| ==> CommentOf(a[i]) == CommentOf(b[i])
    ensures Comments(a) == Comments(b)
  {
    if a != [] {
      SameComments(a[1..], b[1..]);
    }
  }

  lemma {:induction false} CommentsAppend(a: seq<Line>, b: seq<Line>)
    ensures Comments(a + b) == Comments(a) + Comments(b)
  {
    if a == [] {
      assert a + b == b;
    } else {
      assert (a + b)[1..] == a[1..] + b;
      CommentsAppend(a[1..], b);
    }
  }

  lemma CommentsAround(a: seq<Line>, line: Line, b: seq<Line>)
    ensures multiset(Comments(a + [line] + b)) == multiset(Comments(a + b)) + multiset(Comments([line]))
  {
    CommentsAppend(a + [line], b);
    CommentsAppend(a, [line]);
    CommentsAppend(a, b);
  }

  // ---------------------------------------------------------------- drop

  function Picked(lines: seq<Line>, at: seq<nat>): (r: seq<Line>)
    requires forall i :: 0 <= i < |at| ==> at[i] < |lines|
    ensures |r| == |at| && forall i :: 0 <= i < |at| ==> r[i] == lines[at[i]]
  {
    seq(|at|, i requires 0 <= i < |at| => lines[at[i]])
  }

  /** Places below `n`, each once and in order. */
  predicate Ascending(at: seq<nat>, n: nat) {
    && (forall a :: 0 <= a < |at| ==> at[a] < n)
    && (forall a, b :: 0 <= a < b < |at| ==> at[a] < at[b])
  }

  /** `taken` and `left` are the places the rewrite takes and those it leaves. */
  ghost predicate Parts(rw: Rewrite, lines: seq<Line>, taken: seq<nat>, left: seq<nat>) {
    && Ascending(taken, |lines|)
    && Ascending(left, |lines|)
    && forall i: nat :: i < |lines| ==> if Takes(rw, lines, i) then i in taken && i !in left else i in left && i !in taken
  }

  function LeftUpTo(rw: Rewrite, lines: seq<Line>, n: nat): (left: seq<nat>)
    requires n <= |lines|
    ensures forall a :: 0 <= a < |left| ==> left[a] < n && !HitAt(rw, lines, left[a])
    ensures forall i :: 0 <= i < n && !HitAt(rw, lines, i) ==> i in left
    ensures forall a, b :: 0 <= a < b < |left| ==> left[a] < left[b]
  {
    if n == 0 then [] else LeftUpTo(rw, lines, n - 1) + if HitAt(rw, lines, n - 1) then [] else [n - 1]
  }

  lemma {:induction false} PartsUp(rw: Rewrite, lines: seq<Line>, taken: seq<nat>, left: seq<nat>)
    requires taken == HitsUpTo(rw, lines, |lines|) && left == LeftUpTo(rw, lines, |lines|)
    ensures Parts(rw, lines, taken, left)
  {
    forall i: nat | i < |lines|
      ensures if Takes(rw, lines, i) then i in taken && i !in left else i in left && i !in taken
    {
      HitMeans(rw, lines, i);
    }
  }

  function Rendered(hit: bool, line: Line): seq<Line> {
    if hit then [] else [line]
  }

  lemma {:induction false} DropKeeps(rw: Rewrite, lines: seq<Line>, n: nat, left: seq<nat>)
    requires n <= |lines| && left == LeftUpTo(rw, lines, n)
    ensures DropAll(rw, Start, lines) == Picked(lines, left) + DropAll(rw, At(lines, n), lines[n..])
  {
    if n == 0 {
      assert lines[0..] == lines && Picked(lines, left) == [];
    } else {
      var before := LeftUpTo(rw, lines, n - 1);
      DropKeeps(rw, lines, n - 1, before);
      DropAtHit(rw, lines, n - 1);
      OneMorePicked(lines, before, n - 1, HitAt(rw, lines, n - 1), left);
      Regroup(Picked(lines, before), Rendered(HitAt(rw, lines, n - 1), lines[n - 1]), DropAll(rw, At(lines, n), lines[n..]));
    }
  }

  lemma Regroup<T>(a: seq<T>, b: seq<T>, c: seq<T>)
    ensures a + (b + c) == a + b + c
  {
  }

  lemma OneMorePicked(lines: seq<Line>, at: seq<nat>, k: nat, skip: bool, more: seq<nat>)
    requires k < |lines| && more == at + (if skip then [] else [k]) && forall a :: 0 <= a < |at| ==> at[a] < k
    ensures Picked(lines, more) == Picked(lines, at) + Rendered(skip, lines[k])
  {
    if skip {
      assert more == at;
    }
  }

  lemma {:induction false} PickedComments(lines: seq<Line>, at: seq<nat>, k: nat, skip: bool, more: seq<nat>)
    requires k < |lines| && more == at + (if skip then [] else [k]) && forall a :: 0 <= a < |at| ==> at[a] < k
    ensures Comments(Picked(lines, more)) == Comments(Picked(lines, at)) + Comments(Rendered(skip, lines[k]))
  {
    OneMorePicked(lines, at, k, skip, more);
    CommentsAppend(Picked(lines, at), Rendered(skip, lines[k]));
  }

  lemma {:induction false} CommentsMore(lines: seq<Line>, n: nat)
    requires n < |lines|
    ensures Comments(lines[..n + 1]) == Comments(lines[..n]) + Comments([lines[n]])
  {
    assert lines[..n + 1] == lines[..n] + [lines[n]];
    CommentsAppend(lines[..n], [lines[n]]);
  }

  lemma {:induction false} CommentsParted(rw: Rewrite, lines: seq<Line>, n: nat, taken: seq<nat>, left: seq<nat>)
    requires n <= |lines| && taken == HitsUpTo(rw, lines, n) && left == LeftUpTo(rw, lines, n)
    ensures multiset(Comments(lines[..n])) == multiset(Comments(Picked(lines, taken))) + multiset(Comments(Picked(lines, left)))
  {
    if n > 0 {
      var hit := HitAt(rw, lines, n - 1);
      CommentsParted(rw, lines, n - 1, HitsUpTo(rw, lines, n - 1), LeftUpTo(rw, lines, n - 1));
      CommentsMore(lines, n - 1);
      PickedComments(lines, LeftUpTo(rw, lines, n - 1), n - 1, hit, left);
      PickedComments(lines, HitsUpTo(rw, lines, n - 1), n - 1, !hit, taken);
      OneGoes(Comments(Picked(lines, HitsUpTo(rw, lines, n - 1))), Comments(Picked(lines, LeftUpTo(rw, lines, n - 1))),
              Comments(lines[..n - 1]), Comments([lines[n - 1]]), hit);
    }
  }

  lemma OneGoes(taken: seq<string>, left: seq<string>, all: seq<string>, more: seq<string>, hit: bool)
    requires multiset(all) == multiset(taken) + multiset(left)
    ensures multiset(all + more) == multiset(taken + if hit then more else []) + multiset(left + if hit then [] else more)
  {
    assert taken + [] == taken && left + [] == left;
  }

  lemma {:induction false} AllParted(rw: Rewrite, lines: seq<Line>, taken: seq<nat>, left: seq<nat>)
    requires taken == HitsUpTo(rw, lines, |lines|) && left == LeftUpTo(rw, lines, |lines|)
    ensures multiset(Comments(lines)) == multiset(Comments(Picked(lines, taken))) + multiset(Comments(Picked(lines, left)))
  {
    CommentsParted(rw, lines, |lines|, taken, left);
    assert lines[..|lines|] == lines;
  }

  /** `r` is `t` without the lines the rewrite takes: the others stand in order, and only the comments of those taken go. */
  ghost predicate Dropped(rw: Rewrite, t: Text, r: Text, taken: seq<nat>, left: seq<nat>) {
    && Parts(rw, t.lines, taken, left)
    && r.lines == Picked(t.lines, left)
    && (r.terminated <==> t.terminated || (t.lines != [] && Takes(rw, t.lines, |t.lines| - 1)))
    && multiset(Comments(t.lines)) == multiset(Comments(Picked(t.lines, taken))) + multiset(Comments(r.lines))
  }

  lemma {:induction false} DroppedLines(rw: Rewrite, t: Text)
    requires rw.Drop? && Acts(rw, t.lines)
    ensures exists taken, left :: Dropped(rw, t, Apply(rw, t), taken, left)
  {
    var taken, left := HitsUpTo(rw, t.lines, |t.lines|), LeftUpTo(rw, t.lines, |t.lines|);
    PartsUp(rw, t.lines, taken, left);
    DropIs(rw, t, left);
    AllParted(rw, t.lines, taken, left);
    assert Dropped(rw, t, Apply(rw, t), taken, left);
  }

  lemma {:induction false} DropIs(rw: Rewrite, t: Text, left: seq<nat>)
    requires rw.Drop? && Acts(rw, t.lines) && left == LeftUpTo(rw, t.lines, |t.lines|)
    ensures Apply(rw, t).lines == Picked(t.lines, left)
    ensures Apply(rw, t).terminated <==> t.terminated || Takes(rw, t.lines, |t.lines| - 1)
  {
    var n := |t.lines|;
    ActsIff(rw, t);
    DropKeeps(rw, t.lines, n, left);
    HitMeans(rw, t.lines, n - 1);
    assert t.lines[n..] == [];
  }

  // ---------------------------------------------------------------- relocation

  predicate IsHeading(to: Path, line: Line) {
    line.Header? && line.table == to
  }

  predicate Undeclared(to: Path, lines: seq<Line>, n: nat)
    requires n <= |lines|
  {
    forall i :: 0 <= i < n ==> !IsHeading(to, lines[i])
  }

  /** Line `g` is the first header `[to]`, and up to place `k` no other header follows it. */
  predicate FirstBlock(to: Path, lines: seq<Line>, g: nat, k: nat) {
    g < k <= |lines| && IsHeading(to, lines[g]) && Undeclared(to, lines, g) && NoHeaderIn(lines, g + 1, k)
  }

  ghost predicate InFirstBlock(to: Path, lines: seq<Line>, k: nat) {
    exists g: nat :: FirstBlock(to, lines, g, k)
  }

  /** Where the scan stands after `n` lines, counted from the first header `[to]`. */
  ghost predicate ScanBlock(to: Path, lines: seq<Line>, n: nat, st: DestScan)
    requires n <= |lines|
  {
    if st.dest.None? then Undeclared(to, lines, n)
    else
      && st.dest.value < n
      && InFirstBlock(to, lines, st.dest.value + 1)
      && if st.closed then st.dest.value + 1 < n && lines[st.dest.value + 1].IsHeader() else st.dest.value + 1 == n
  }

  lemma {:induction false} ScanBlockStep(to: Path, lines: seq<Line>, n: nat, st: DestScan)
    requires n < |lines| && ScanMeans(to, lines, n, st) && ScanBlock(to, lines, n, st)
    ensures ScanBlock(to, lines, n + 1, DestStep(to, st, n, lines[n]))
  {
    if !st.closed && st.dest.Some? && !lines[n].IsHeader() {
      var g: nat :| FirstBlock(to, lines, g, st.dest.value + 1);
      assert FirstBlock(to, lines, g, n + 1);
    } else if !st.closed && st.dest.None? && IsHeading(to, lines[n]) {
      assert FirstBlock(to, lines, n, n + 1);
    }
  }

  lemma {:induction false} ScanIsBlock(to: Path, lines: seq<Line>, n: nat)
    requires n <= |lines|
    ensures ScanBlock(to, lines, n, DestUpTo(to, lines, n))
  {
    if n > 0 {
      ScanIsBlock(to, lines, n - 1);
      DestMeans(to, lines, n - 1);
      ScanBlockStep(to, lines, n - 1, DestUpTo(to, lines, n - 1));
    }
  }

  /** The line under its new name, at the margin; equals sign, value and comment stay. */
  function Carried(rw: Rewrite, l: Line): Line
    requires rw.Relocate? && l.Assign?
  {
    Assign("", rw.newKey, l.sp, l.value, l.comment)
  }

  /** Line `h` of `t` has become line `k` of `r`, the last of the first table `[to]`; a new one at the end of the file if
      there was none. All other lines stand in order. */
  ghost predicate Relocated(rw: Rewrite, t: Text, r: Text, h: nat, k: nat)
    requires rw.Relocate?
  {
    && h < |t.lines|
    && Takes(rw, t.lines, h)
    && k < |r.lines|
    && r.lines[k] == Carried(rw, t.lines[h])
    && if Undeclared(rw.to, t.lines, |t.lines|) then
         && r.lines == Without(t.lines, h) + [Header(rw.to, ""), r.lines[k]]
         && (r.terminated <==> t.terminated || h + 1 < |t.lines|)
       else
         && Without(r.lines, k) == Without(t.lines, h)
         && InFirstBlock(rw.to, r.lines, k)
         && (k + 1 < |r.lines| ==> r.lines[k + 1].IsHeader())
         && r.terminated == t.terminated
  }

  lemma UndeclaredWithout(to: Path, lines: seq<Line>, h: nat, base: seq<Line>)
    requires h < |lines| && lines[h].Assign? && base == Without(lines, h)
    ensures Undeclared(to, lines, |lines|) <==> Undeclared(to, base, |base|)
  {
    if Undeclared(to, base, |base|) {
      forall i | 0 <= i < |lines|
        ensures !IsHeading(to, lines[i])
      {
        assert i < h ==> lines[i] == base[i];
        assert i > h ==> lines[i] == base[i - 1];
      }
    }
  }

  lemma PutIn(to: Path, base: seq<Line>, k: nat, m: Line, r: seq<Line>, g: nat)
    requires k <= |base| && r == base[..k] + [m] + base[k..] && FirstBlock(to, base, g, k)
    ensures Without(r, k) == base && FirstBlock(to, r, g, k)
  {
    assert forall i :: 0 <= i < k ==> r[i] == base[i];
  }

  lemma {:induction false} ShapeIn(rw: Rewrite, t: Text, h: nat, base: seq<Line>, d: nat)
    requires rw.Relocate? && !Glues(rw, t) && |HitsUpTo(rw, t.lines, |t.lines|)| == 1 && h == HitIndex(rw, t.lines)
    requires base == Without(t.lines, h) && Dest(rw.to, base) == Some(d) && d < |base|
    ensures Apply(rw, t).lines == base[..d + 1] + [MovedLine(rw, t.lines[h])] + base[d + 1..]
    ensures Apply(rw, t).terminated == t.terminated
  {
    RelocateShape(rw, t);
  }

  lemma {:induction false} MovedIn(rw: Rewrite, t: Text, r: Text, h: nat, base: seq<Line>, k: nat, g: nat)
    requires rw.Relocate? && h < |t.lines| && Takes(rw, t.lines, h) && base == Without(t.lines, h) && k <= |base|
    requires r.lines == base[..k] + [Carried(rw, t.lines[h])] + base[k..] && r.terminated == t.terminated
    requires FirstBlock(rw.to, base, g, k) && (k < |base| ==> base[k].IsHeader())
    ensures Relocated(rw, t, r, h, k)
  {
    UndeclaredWithout(rw.to, t.lines, h, base);
    PutIn(rw.to, base, k, Carried(rw, t.lines[h]), r.lines, g);
  }

  lemma {:induction false} BlockOf(to: Path, lines: seq<Line>, d: nat) returns (g: nat)
    requires Dest(to, lines) == Some(d)
    ensures d < |lines| && FirstBlock(to, lines, g, d + 1) && (d + 1 < |lines| ==> lines[d + 1].IsHeader())
  {
    ScanIsBlock(to, lines, |lines|);
    g :| FirstBlock(to, lines, g, d + 1);
  }

  lemma {:induction false} RelocatedIn(rw: Rewrite, t: Text, h: nat, base: seq<Line>, d: nat)
    requires rw.Relocate? && !Glues(rw, t) && |HitsUpTo(rw, t.lines, |t.lines|)| == 1 && h == HitIndex(rw, t.lines)
    requires base == Without(t.lines, h) && Dest(rw.to, base) == Some(d)
    ensures Relocated(rw, t, Apply(rw, t), h, d + 1)
  {
    HitMeans(rw, t.lines, h);
    var g := BlockOf(rw.to, base, d);
    ShapeIn(rw, t, h, base, d);
    MovedIn(rw, t, Apply(rw, t), h, base, d + 1, g);
  }

  lemma RelocatedBehind(rw: Rewrite, t: Text, h: nat, base: seq<Line>)
    requires rw.Relocate? && |HitsUpTo(rw, t.lines, |t.lines|)| == 1 && h == HitIndex(rw, t.lines)
    requires base == Without(t.lines, h) && Dest(rw.to, base).None?
    ensures Relocated(rw, t, Apply(rw, t), h, |base| + 1)
  {
    HitMeans(rw, t.lines, h);
    ScanIsBlock(rw.to, base, |base|);
    UndeclaredWithout(rw.to, t.lines, h, base);
  }

  /** A relocation that runs no lines together moves one line and leaves all others, and every comment, as they were. */
  lemma RelocatedLine(rw: Rewrite, t: Text)
    requires rw.Relocate? && !Glues(rw, t) && Acts(rw, t.lines)
    ensures exists h: nat, k: nat :: Relocated(rw, t, Apply(rw, t), h, k)
    ensures multiset(Comments(Apply(rw, t).lines)) == multiset(Comments(t.lines))
  {
    ActsIff(rw, t);
    var h := HitIndex(rw, t.lines);
    var base := Without(t.lines, h);
    match Dest(rw.to, base)
    case None =>
      RelocatedBehind(rw, t, h, base);
      MovedComments(rw, t, Apply(rw, t), h, |base| + 1);
    case Some(d) =>
      RelocatedIn(rw, t, h, base, d);
      MovedComments(rw, t, Apply(rw, t), h, d + 1);
  }

  lemma {:induction false} CommentsWithout(lines: seq<Line>, h: nat)
    requires h < |lines|
    ensures multiset(Comments(lines)) == multiset(Comments(Without(lines, h))) + multiset(Comments([lines[h]]))
  {
    CommentsCut(lines[..h], lines[h], lines[h + 1..], lines, Without(lines, h));
  }

  lemma {:induction false} CommentsCut(a: seq<Line>, line: Line, b: seq<Line>, all: seq<Line>, rest: seq<Line>)
    requires all == a + [line] + b && rest == a + b
    ensures multiset(Comments(all)) == multiset(Comments(rest)) + multiset(Comments([line]))
  {
    CommentsAround(a, line, b);
  }

  lemma {:induction false} MovedComments(rw: Rewrite, t: Text, r: Text, h: nat, k: nat)
    requires rw.Relocate? && Relocated(rw, t, r, h, k)
    ensures multiset(Comments(r.lines)) == multiset(Comments(t.lines))
  {
    var m := r.lines[k];
    CommentsWithout(t.lines, h);
    SameComments([t.lines[h]], [m]);
    if Undeclared(rw.to, t.lines, |t.lines|) {
      HeaderAdds(rw.to, Without(t.lines, h), m);
    } else {
      CommentsWithout(r.lines, k);
    }
  }

  lemma {:induction false} HeaderAdds(to: Path, base: seq<Line>, m: Line)
    ensures Comments(base + [Header(to, ""), m]) == Comments(base) + Comments([m])
  {
    CommentsAppend(base, [Header(to, ""), m]);
    assert [Header(to, ""), m][1..] == [m];
  }
}
