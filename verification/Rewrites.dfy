/** The line rewriters of the config migrations: what each does to a file, and what that does to
    the parsed document. */
module Rewrites {
  import opened Wrappers
  import opened Toml

  /** The tables a rewrite looks in: one literal name, every `[phases.<name>]`, or every
      `[phases.<name>.<leaf>]`. */
  datatype TableSpec = Exact(path: Path) | Phase | PhaseSub(leaf: string)

  predicate Matches(spec: TableSpec, section: Section) {
    && section.Table?
    && match spec
       case Exact(p) => section.path == p
       case Phase => |section.path| == 2 && section.path[0] == "phases"
       case PhaseSub(leaf) => |section.path| == 3 && section.path[0] == "phases" && section.path[2] == leaf
  }

  /** `skipSpace`: a wrap leaves values with white space alone. `spaceFree`: it is not even detected
      for them. */
  datatype Rewrite =
    | Rename(key: string, newKey: string, table: TableSpec)
    | Drop(key: string, table: TableSpec)
    | Relocate(key: string, newKey: string, from: Path, to: Path)
    | Wrap(key: string, table: TableSpec, skipSpace: bool, spaceFree: bool)
  {
    function Spec(): TableSpec {
      match this
      case Relocate(_, _, from, _) => Exact(from)
      case _ => table
    }

    predicate Proper() {
      match this
      case Rename(o, n, _) => o != n
      case Relocate(_, _, f, t) => f != t
      case _ => true
    }
  }

  predicate HasSpace(s: string) {
    exists c :: c in s && c in " \t\n\r"
  }

  predicate HitsEntry(rw: Rewrite, e: Entry) {
    && Matches(rw.Spec(), e.site.section)
    && e.site.key == rw.key
    && (rw.Wrap? ==> e.value.Str? && !(rw.skipSpace && HasSpace(e.value.text)))
  }

  predicate HitsLine(rw: Rewrite, section: Section, line: Line) {
    line.Assign? && HitsEntry(rw, Entry(Site(section, line.key), line.value))
  }

  predicate HitAt(rw: Rewrite, lines: seq<Line>, i: nat)
    requires i < |lines|
  {
    HitsLine(rw, At(lines, i).section, lines[i])
  }

  /** The hits among the first `n` lines, in order. */
  function HitsUpTo(rw: Rewrite, lines: seq<Line>, n: nat): (hits: seq<nat>)
    requires n <= |lines|
    ensures forall a :: 0 <= a < |hits| ==> hits[a] < n && HitAt(rw, lines, hits[a])
    ensures forall i :: 0 <= i < n && HitAt(rw, lines, i) ==> i in hits
    ensures forall a, b :: 0 <= a < b < |hits| ==> hits[a] < hits[b]
  {
    if n == 0 then [] else HitsUpTo(rw, lines, n - 1) + if HitAt(rw, lines, n - 1) then [n - 1] else []
  }

  function EditLine(rw: Rewrite, line: Line): Line
    requires line.Assign?
  {
    match rw
    case Rename(_, n, _) => line.(key := n)
    case Wrap(_, _, _, _) => if line.value.Str? then line.(value := StrList([line.value.text])) else line
    case _ => line
  }

  function EditAll(rw: Rewrite, c: Cursor, lines: seq<Line>): (r: seq<Line>)
    ensures |r| == |lines|
    decreases lines
  {
    if lines == [] then [] else
      [if HitsLine(rw, c.section, lines[0]) then EditLine(rw, lines[0]) else lines[0]]
      + EditAll(rw, Next(c, lines[0]), lines[1..])
  }

  function DropAll(rw: Rewrite, c: Cursor, lines: seq<Line>): seq<Line>
    decreases lines
  {
    if lines == [] then [] else
      (if HitsLine(rw, c.section, lines[0]) then [] else [lines[0]])
      + DropAll(rw, Next(c, lines[0]), lines[1..])
  }

  // Writing lines next to each other. Only the last line of a file may lack its newline; put anything
  // after it and the two become one line.

  function Decimal(n: int): string
    decreases if n < 0 then 1 - n else n
  {
    if n < 0 then "-" + Decimal(-n)
    else if n < 10 then [('0' as int + n) as char]
    else Decimal(n / 10) + [('0' as int + n % 10) as char]
  }

  function RenderValue(v: Value): string {
    match v
    case Str(t) => "\"" + t + "\""
    case StrList(items) => "[" + RenderItems(items) + "]"
    case Int(n) => Decimal(n)
    case Token(t) => t
  }

  function RenderItems(items: seq<string>): string {
    if items == [] then "" else "\"" + items[0] + "\"," + RenderItems(items[1..])
  }

  function RenderPath(p: Path): string {
    if p == [] then "" else if |p| == 1 then p[0] else p[0] + "." + RenderPath(p[1..])
  }

  function Render(line: Line): string {
    match line
    case Header(t, c) => "[" + RenderPath(t) + "]" + c
    case ElementHeader(t, c) => "[[" + RenderPath(t) + "]]" + c
    case Assign(ind, k, sp, v, c) => ind + k + sp + RenderValue(v) + c
    case Blank(ws) => ws
    case Comment(t) => t
    case Broken(t) => t
  }

  function WithComment(line: Line, c: string): Line {
    match line
    case Header(t, _) => Header(t, c)
    case ElementHeader(t, _) => ElementHeader(t, c)
    case Assign(ind, k, sp, v, _) => Assign(ind, k, sp, v, c)
    case _ => line
  }

  /** The one line that `a` without its newline and `b` make together. */
  function Merge(a: Line, b: Line): Line {
    match a
    case Blank(ws) =>
      (match b
       case Assign(ind, _, _, _, _) => b.(indent := ws + ind)
       case Blank(ws') => Blank(ws + ws')
       case _ => b)
    case Comment(t) => Comment(t + Render(b))
    case Broken(t) => Broken(t + Render(b))
    case _ =>
      if a.comment != "" then WithComment(a, a.comment + Render(b))
      else if b.Blank? then a
      else if b.Comment? then WithComment(a, b.text)
      else Broken(Render(a) + Render(b))
  }

  /** It reads as the two in a row, but for white space at its ends. */
  lemma MergeRenders(a: Line, b: Line)
    ensures var r := Render(Merge(a, b));
            if a.Blank? && !b.Assign? && !b.Blank? then r == Render(b)
            else if b.Blank? && !a.Blank? && !a.Comment? && !a.Broken? && a.comment == "" then r == Render(a)
            else r == Render(a) + Render(b)
  {
    match a
    case Blank(ws) =>
      if b.Assign? {
        assert ws + b.indent + b.key + b.sp + RenderValue(b.value) + b.comment
            == ws + (b.indent + b.key + b.sp + RenderValue(b.value) + b.comment);
      }
    case Header(t, c) => assert "[" + RenderPath(t) + "]" + (c + Render(b)) == "[" + RenderPath(t) + "]" + c + Render(b);
    case ElementHeader(t, c) => assert "[[" + RenderPath(t) + "]]" + (c + Render(b)) == "[[" + RenderPath(t) + "]]" + c + Render(b);
    case Assign(ind, k, sp, v, c) =>
      assert ind + k + sp + RenderValue(v) + (c + Render(b)) == ind + k + sp + RenderValue(v) + c + Render(b);
    case _ =>
  }

  function Joined(a: Text, b: Text): Text {
    if a.lines == [] then b
    else if b.lines == [] then a
    else if a.terminated then Text(a.lines + b.lines, b.terminated)
    else
      var n := |a.lines| - 1;
      Text(a.lines[..n] + [Merge(a.lines[n], b.lines[0])] + b.lines[1..], b.terminated)
  }

  // Where a relocated key lands.

  /** The scan for the last line of the first `[to]` table. */
  datatype DestScan = DestScan(cursor: Cursor, dest: Option<nat>, closed: bool)

  function DestStep(to: Path, st: DestScan, i: nat, line: Line): DestScan {
    if st.closed then st
    else if line.IsHeader() then
      if st.dest.Some? && st.cursor.section == Table(to) then st.(closed := true)
      else
        var c := Next(st.cursor, line);
        DestScan(c, if c.section == Table(to) then Some(i) else st.dest, false)
    else if st.cursor.section == Table(to) then st.(dest := Some(i))
    else st
  }

  function DestUpTo(to: Path, lines: seq<Line>, n: nat): DestScan
    requires n <= |lines|
  {
    if n == 0 then DestScan(Start, None, false) else DestStep(to, DestUpTo(to, lines, n - 1), n - 1, lines[n - 1])
  }

  function Dest(to: Path, lines: seq<Line>): Option<nat> {
    DestUpTo(to, lines, |lines|).dest
  }

  /** What the scan knows after `n` lines: while it goes on the destination is the line before, if there is one; once it has
      stopped a header follows the destination; and either way that line is in `[to]`. */
  predicate ScanMeans(to: Path, lines: seq<Line>, n: nat, st: DestScan)
    requires n <= |lines|
  {
    && (!st.closed ==> st.cursor == At(lines, n) && (st.dest.Some? ==> st.dest.value == n - 1))
    && (st.closed ==> st.dest.Some? && st.dest.value + 1 < n && lines[st.dest.value + 1].IsHeader())
    && (st.dest.Some? ==> st.dest.value < n && At(lines, st.dest.value + 1).section == Table(to))
    && (!st.closed && st.dest.None? ==> At(lines, n).section != Table(to))
  }

  lemma {:induction false} ScanStep(to: Path, lines: seq<Line>, n: nat, st: DestScan)
    requires n < |lines| && ScanMeans(to, lines, n, st) && At(lines, n + 1) == Next(At(lines, n), lines[n])
    ensures ScanMeans(to, lines, n + 1, DestStep(to, st, n, lines[n]))
  {
  }

  lemma {:induction false} ScanHeads(to: Path, lines: seq<Line>, n: nat, st: DestScan)
    requires n < |lines| && ScanMeans(to, lines, n, st)
    requires st.dest.None? ==> Head(to, false) !in Heads(lines[..n])
    ensures DestStep(to, st, n, lines[n]).dest.None? ==> Head(to, false) !in Heads(lines[..n + 1])
  {
    HeadsMore(lines[..n], lines[n], lines[..n + 1]);
  }

  lemma {:induction false} HeadsMore(front: seq<Line>, line: Line, all: seq<Line>)
    requires all == front + [line]
    ensures Heads(all) == Heads(front) + HeadOf(line)
  {
    HeadsAppend(front, [line]);
    assert [line][1..] == [] && HeadOf(line) + [] == HeadOf(line);
  }

  /** A destination is the end of the `[to]` table; with none the file has no such table. */
  lemma {:induction false} DestMeans(to: Path, lines: seq<Line>, n: nat)
    requires n <= |lines|
    ensures ScanMeans(to, lines, n, DestUpTo(to, lines, n))
    ensures DestUpTo(to, lines, n).dest.None? ==> Head(to, false) !in Heads(lines[..n])
  {
    if n > 0 {
      var st := DestUpTo(to, lines, n - 1);
      DestMeans(to, lines, n - 1);
      AtStep(lines, n - 1);
      ScanStep(to, lines, n - 1, st);
      ScanHeads(to, lines, n - 1, st);
    }
  }

  function MovedLine(rw: Rewrite, line: Line): Line
    requires rw.Relocate? && line.Assign?
  {
    Assign("", rw.newKey, line.sp, line.value, line.comment)
  }

  function Without(lines: seq<Line>, h: nat): seq<Line>
    requires h < |lines|
  {
    lines[..h] + lines[h + 1..]
  }

  function RelocateAt(rw: Rewrite, t: Text, h: nat): Text
    requires rw.Relocate? && h < |t.lines| && t.lines[h].Assign?
  {
    var base := Without(t.lines, h);
    var baseTerminated := h + 1 == |t.lines| || t.terminated;
    var moved := Text([MovedLine(rw, t.lines[h])], h + 1 < |t.lines| || t.terminated);
    match Dest(rw.to, base)
    case None => Text(base + [Header(rw.to, "")] + moved.lines, moved.terminated)
    case Some(d) =>
      DestMeans(rw.to, base, |base|);
      var front := Text(base[..d + 1], d + 1 < |base| || baseTerminated);
      Joined(Joined(front, moved), Text(base[d + 1..], baseTerminated))
  }

  /** The rewrite of one file. No hit, or more than one under a literal table name, leaves it alone. */
  function Apply(rw: Rewrite, t: Text): Text {
    var hits := HitsUpTo(rw, t.lines, |t.lines|);
    if hits == [] || (rw.Spec().Exact? && |hits| != 1) then t
    else match rw
      case Rename(_, _, _) => Text(EditAll(rw, Start, t.lines), t.terminated)
      case Wrap(_, _, _, _) => Text(EditAll(rw, Start, t.lines), t.terminated)
      case Drop(_, _) => Text(DropAll(rw, Start, t.lines), t.terminated || HitAt(rw, t.lines, |t.lines| - 1))
      case Relocate(_, _, _, _) =>
        assert hits[0] in hits;
        RelocateAt(rw, t, hits[0])
  }

  // ---------------------------------------------------------------- the loops

  /** The shared scan: hit lines of the wanted tables, or a refusal. */
  method FindTableHits(rw: Rewrite, lines: seq<Line>) returns (hits: Option<seq<nat>>)
    ensures hits == (var all := HitsUpTo(rw, lines, |lines|);
                     if all == [] || (rw.Spec().Exact? && |all| != 1) then None else Some(all))
  {
    var cur := Start;
    var found: seq<nat> := [];
    for i := 0 to |lines|
      invariant cur == At(lines, i)
      invariant found == HitsUpTo(rw, lines, i)
    {
      AtStep(lines, i);
      if HitsLine(rw, cur.section, lines[i]) {
        found := found + [i];
      }
      cur := Next(cur, lines[i]);
    }
    if found == [] || (rw.Spec().Exact? && |found| != 1) {
      return None;
    }
    return Some(found);
  }

  lemma {:induction false} EditIndex(rw: Rewrite, c: Cursor, lines: seq<Line>, i: nat)
    requires i < |lines|
    ensures EditAll(rw, c, lines)[i] ==
            if HitsLine(rw, After(c, lines[..i]).section, lines[i]) then EditLine(rw, lines[i]) else lines[i]
    decreases lines
  {
    if i > 0 {
      EditIndex(rw, Next(c, lines[0]), lines[1..], i - 1);
      assert lines[..i][1..] == lines[1..][..i - 1];
    }
  }

  /** The lines at the places `done` are edited, the others as they were. */
  ghost predicate EditedAt(rw: Rewrite, lines: seq<Line>, done: seq<nat>, edited: seq<Line>) {
    && |edited| == |lines|
    && forall i :: 0 <= i < |lines| ==>
      edited[i] == if HitAt(rw, lines, i) && i in done then EditLine(rw, lines[i]) else lines[i]
  }

  lemma EditedNext(rw: Rewrite, lines: seq<Line>, done: seq<nat>, h: nat, edited: seq<Line>)
    requires EditedAt(rw, lines, done, edited) && h < |lines| && HitAt(rw, lines, h)
    ensures EditedAt(rw, lines, done + [h], edited[h := EditLine(rw, lines[h])])
  {
  }

  /** Overwrite the lines at `hits` in place. */
  method EditHits(rw: Rewrite, lines: seq<Line>, hits: seq<nat>) returns (edited: seq<Line>)
    requires forall k :: 0 <= k < |hits| ==> hits[k] < |lines| && HitAt(rw, lines, hits[k])
    ensures EditedAt(rw, lines, hits, edited)
  {
    edited := lines;
    for k := 0 to |hits|
      invariant EditedAt(rw, lines, hits[..k], edited)
    {
      EditedNext(rw, lines, hits[..k], hits[k], edited);
      assert hits[..k + 1] == hits[..k] + [hits[k]];
      edited := edited[hits[k] := EditLine(rw, lines[hits[k]])];
    }
    assert hits[..|hits|] == hits;
  }

  /** Rename and wrap: overwrite the hit lines. */
  method EditInPlace(rw: Rewrite, t: Text) returns (r: Text)
    requires rw.Rename? || rw.Wrap?
    ensures r == Apply(rw, t)
  {
    var hits := FindTableHits(rw, t.lines);
    if hits.None? {
      return t;
    }
    var lines := EditHits(rw, t.lines, hits.value);
    EditAllIs(rw, t.lines, hits.value, lines);
    r := Text(lines, t.terminated);
  }

  lemma EditAllIs(rw: Rewrite, lines: seq<Line>, hits: seq<nat>, edited: seq<Line>)
    requires hits == HitsUpTo(rw, lines, |lines|) && EditedAt(rw, lines, hits, edited)
    ensures edited == EditAll(rw, Start, lines)
  {
    forall i | 0 <= i < |lines|
      ensures edited[i] == EditAll(rw, Start, lines)[i]
    {
      EditIndex(rw, Start, lines, i);
    }
  }

  /** Deleting the hits from `n` on leaves the lines before `n` and drops the rest's hits. */
  lemma {:induction false} DropAtHit(rw: Rewrite, lines: seq<Line>, n: nat)
    requires n < |lines|
    ensures DropAll(rw, At(lines, n), lines[n..]) ==
            (if HitAt(rw, lines, n) then [] else [lines[n]]) + DropAll(rw, At(lines, n + 1), lines[n + 1..])
  {
    AtStep(lines, n);
    assert lines[n..][1..] == lines[n + 1..];
  }

  lemma OneLineMore<T>(all: seq<T>, a: nat, b: nat, tail: seq<T>)
    requires a < b <= |all|
    ensures [all[a]] + (all[a + 1..b] + tail) == all[a..b] + tail
  {
  }

  lemma {:induction false} DropNothing(rw: Rewrite, lines: seq<Line>, a: nat, b: nat)
    requires a <= b <= |lines|
    requires forall i :: a <= i < b ==> !HitAt(rw, lines, i)
    ensures DropAll(rw, At(lines, a), lines[a..]) == lines[a..b] + DropAll(rw, At(lines, b), lines[b..])
    decreases b - a
  {
    if a < b {
      DropAtHit(rw, lines, a);
      DropNothing(rw, lines, a + 1, b);
      OneLineMore(lines, a, b, DropAll(rw, At(lines, b), lines[b..]));
    } else {
      assert lines[a..b] == [];
    }
  }

  /** Where the part of the file still untouched ends, with the first `k` hits left to delete. */
  function Untouched(hits: seq<nat>, k: nat, size: nat): nat
    requires k <= |hits|
  {
    if k == |hits| then size else hits[k]
  }

  lemma CutAt<T>(all: seq<T>, tail: seq<T>, h: nat, n: nat)
    requires h < n <= |all|
    ensures (all[..n] + tail)[..h] == all[..h]
    ensures (all[..n] + tail)[h + 1..] == all[h + 1..n] + tail
  {
  }

  /** Between one hit and the next there is none. */
  lemma NoHitIn(rw: Rewrite, all: seq<Line>, a: int, b: nat)
    requires b <= |all|
    requires forall j :: 0 <= j < |HitsUpTo(rw, all, |all|)| ==> !(a < HitsUpTo(rw, all, |all|)[j] < b)
    ensures forall i :: 0 <= i && a < i < b ==> !HitAt(rw, all, i)
  {
    forall i | 0 <= i && a < i < b
      ensures !HitAt(rw, all, i)
    {
      assert i !in HitsUpTo(rw, all, |all|);
    }
  }

  lemma NoHitBetween(rw: Rewrite, all: seq<Line>, hits: seq<nat>, k: nat)
    requires hits == HitsUpTo(rw, all, |all|) && k < |hits|
    ensures hits[k] < Untouched(hits, k + 1, |all|) <= |all|
    ensures forall i :: hits[k] < i < Untouched(hits, k + 1, |all|) ==> !HitAt(rw, all, i)
  {
    var h, n := hits[k], Untouched(hits, k + 1, |all|);
    forall j | 0 <= j < |hits|
      ensures !(h < hits[j] < n)
    {
    }
    NoHitIn(rw, all, h, n);
  }

  /** From hit `k` on: nothing of its line, then the lines up to the next hit as they are. */
  lemma DropTail(rw: Rewrite, all: seq<Line>, hits: seq<nat>, k: nat)
    requires hits == HitsUpTo(rw, all, |all|) && k < |hits|
    ensures var h, n := hits[k], Untouched(hits, k + 1, |all|);
            && h < n <= |all|
            && DropAll(rw, At(all, h), all[h..]) == all[h + 1..n] + DropAll(rw, At(all, n), all[n..])
  {
    NoHitBetween(rw, all, hits, k);
    DropNothing(rw, all, hits[k] + 1, Untouched(hits, k + 1, |all|));
    DropAtHit(rw, all, hits[k]);
  }

  /** So deleting hit `k` completes the tail from it on. */
  lemma DropStep(rw: Rewrite, all: seq<Line>, hits: seq<nat>, k: nat, lines: seq<Line>)
    requires hits == HitsUpTo(rw, all, |all|) && k < |hits|
    requires var n := Untouched(hits, k + 1, |all|);
             lines == all[..n] + DropAll(rw, At(all, n), all[n..])
    ensures hits[k] < |lines|
    ensures lines[..hits[k]] + lines[hits[k] + 1..]
         == all[..hits[k]] + DropAll(rw, At(all, hits[k]), all[hits[k]..])
  {
    var n := Untouched(hits, k + 1, |all|);
    DropTail(rw, all, hits, k);
    CutAt(all, DropAll(rw, At(all, n), all[n..]), hits[k], n);
  }

  lemma DropFirst(rw: Rewrite, all: seq<Line>, hits: seq<nat>)
    requires hits == HitsUpTo(rw, all, |all|) && hits != []
    ensures all[..hits[0]] + DropAll(rw, At(all, hits[0]), all[hits[0]..]) == DropAll(rw, Start, all)
  {
    NoHitIn(rw, all, -1, hits[0]);
    DropNothing(rw, all, 0, hits[0]);
    assert all[0..hits[0]] == all[..hits[0]];
    assert all[0..] == all;
  }

  lemma LastHit(rw: Rewrite, all: seq<Line>)
    requires HitsUpTo(rw, all, |all|) != []
    ensures |all| > 0
    ensures var hits := HitsUpTo(rw, all, |all|);
            HitAt(rw, all, |all| - 1) <==> hits[|hits| - 1] == |all| - 1
  {
    var hits := HitsUpTo(rw, all, |all|);
    if HitAt(rw, all, |all| - 1) {
      var j :| 0 <= j < |hits| && hits[j] == |all| - 1;
    }
  }

  /** Drop: delete the hit lines, last first so that earlier indices stay good. */
  method DropKey(rw: Rewrite, t: Text) returns (r: Text)
    requires rw.Drop?
    ensures r == Apply(rw, t)
  {
    var found := FindTableHits(rw, t.lines);
    if found.None? {
      return t;
    }
    var hits := found.value;
    var lines := t.lines;
    var k := |hits|;
    assert t.lines[..|t.lines|] == t.lines;
    while k > 0
      invariant 0 <= k <= |hits|
      invariant var n := Untouched(hits, k, |t.lines|);
                lines == t.lines[..n] + DropAll(rw, At(t.lines, n), t.lines[n..])
    {
      k := k - 1;
      DropStep(rw, t.lines, hits, k, lines);
      lines := lines[..hits[k]] + lines[hits[k] + 1..];
    }
    DropFirst(rw, t.lines, hits);
    LastHit(rw, t.lines);
    r := Text(lines, t.terminated || hits[|hits| - 1] == |t.lines| - 1);
  }

  /** The one hit of a relocation, or a refusal. */
  method FindSingleHit(rw: Rewrite, lines: seq<Line>) returns (hit: Option<nat>)
    ensures hit == (var all := HitsUpTo(rw, lines, |lines|); if |all| == 1 then Some(all[0]) else None)
  {
    var cur := Start;
    hit := None;
    for i := 0 to |lines|
      invariant cur == At(lines, i)
      invariant HitsUpTo(rw, lines, i) == if hit.None? then [] else [hit.value]
    {
      AtStep(lines, i);
      if HitsLine(rw, cur.section, lines[i]) {
        if hit.Some? {
          TwoHits(rw, lines, i + 1, |lines|);
          return None;
        }
        hit := Some(i);
      }
      cur := Next(cur, lines[i]);
    }
  }

  lemma {:induction false} TwoHits(rw: Rewrite, lines: seq<Line>, m: nat, n: nat)
    requires m <= n <= |lines| && |HitsUpTo(rw, lines, m)| > 1
    ensures |HitsUpTo(rw, lines, n)| > 1
    decreases n
  {
    if m < n {
      TwoHits(rw, lines, m, n - 1);
    }
  }

  /** Relocate: take the one hit out of its table and write it at the end of `[to]`. */
  method RelocateKey(rw: Rewrite, t: Text) returns (r: Text)
    requires rw.Relocate?
    ensures r == Apply(rw, t)
  {
    var hit := FindSingleHit(rw, t.lines);
    if hit.None? {
      return t;
    }
    r := MoveLine(rw, t, hit.value);
  }

  method MoveLine(rw: Rewrite, t: Text, h: nat) returns (r: Text)
    requires rw.Relocate? && h < |t.lines| && t.lines[h].Assign?
    ensures r == RelocateAt(rw, t, h)
  {
    var moved := Text([MovedLine(rw, t.lines[h])], h + 1 < |t.lines| || t.terminated);
    var base := Without(t.lines, h);
    var baseTerminated := h + 1 == |t.lines| || t.terminated;
    var dest := FindDest(rw.to, base);
    if dest.None? {
      r := Text(base + [Header(rw.to, "")] + moved.lines, moved.terminated);
    } else {
      DestMeans(rw.to, base, |base|);
      var front := Text(base[..dest.value + 1], dest.value + 1 < |base| || baseTerminated);
      r := Joined(Joined(front, moved), Text(base[dest.value + 1..], baseTerminated));
    }
  }

  method FindDest(to: Path, lines: seq<Line>) returns (dest: Option<nat>)
    ensures dest == Dest(to, lines)
  {
    var st := DestScan(Start, None, false);
    for i := 0 to |lines|
      invariant st == DestUpTo(to, lines, i)
    {
      st := DestStep(to, st, i, lines[i]);
    }
    return st.dest;
  }

  method Run(rw: Rewrite, t: Text) returns (r: Text)
    ensures r == Apply(rw, t)
  {
    match rw
    case Rename(_, _, _) => r := EditInPlace(rw, t);
    case Wrap(_, _, _, _) => r := EditInPlace(rw, t);
    case Drop(_, _) => r := DropKey(rw, t);
    case Relocate(_, _, _, _) => r := RelocateKey(rw, t);
  }
}
