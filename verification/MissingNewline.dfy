/** Relocating a key in a file whose last line has no newline. The rewriter keeps each line's own
    ending, so two lines can be written side by side and read back as one. The decoder then rejects
    most of these files, but a trailing comment hides the second line from it. */
module MissingNewline {
  import opened Wrappers
  import opened Toml
  import opened Rewrites
  import opened RewriteMeaning

  /** The bindings are what the adopted relocation promises, at every site. */
  ghost predicate BindingsKept(rw: Rewrite, t: Text)
    requires Valid(t.lines) && Valid(Apply(rw, t).lines)
  {
    forall s :: Lookup(DocOf(Apply(rw, t).lines), s) == Expected(rw, DocOf(t.lines), s)
  }

  /** And so are the tables: the relocation did what an adopted rewrite otherwise does. */
  ghost predicate Kept(rw: Rewrite, t: Text)
    requires Valid(t.lines) && Valid(Apply(rw, t).lines)
  {
    && BindingsKept(rw, t)
    && DocOf(Apply(rw, t).lines).heads == DocOf(t.lines).heads + NewHeads(rw, DocOf(t.lines).heads)
  }

  /** A table is there if a header declares it, or one of its sub-tables. */
  ghost predicate IsTable(heads: multiset<Head>, p: Path) {
    exists h :: h in heads && p <= h.table
  }

  /** The same tables, declared or not, and as many elements in each array. */
  ghost predicate TablesAlike(hs: multiset<Head>, hs': multiset<Head>) {
    && (forall p :: IsTable(hs', p) <==> IsTable(hs, p))
    && (forall p :: hs'[Head(p, true)] == hs[Head(p, true)])
  }

  /** A reader that does not tell a declared table from one that is there for its sub-tables sees no difference. */
  ghost predicate ReadsAlike(rw: Rewrite, t: Text)
    requires Valid(t.lines) && Valid(Apply(rw, t).lines)
  {
    var hs := DocOf(t.lines).heads;
    BindingsKept(rw, t) && TablesAlike(hs + NewHeads(rw, hs), DocOf(Apply(rw, t).lines).heads)
  }

  function Base(rw: Rewrite, t: Text): seq<Line>
    requires Glues(rw, t)
  {
    Without(t.lines, HitIndex(rw, t.lines))
  }

  /** The line `[to]` ends with, in a file whose relocation glues. */
  function DestLine(rw: Rewrite, t: Text): (d: nat)
    requires Glues(rw, t)
    ensures d < |Base(rw, t)| && At(Base(rw, t), d + 1).section == Table(rw.to)
  {
    DestMeans(rw.to, Base(rw, t), |Base(rw, t)|);
    Dest(rw.to, Base(rw, t)).value
  }

  predicate MovesLast(rw: Rewrite, t: Text)
    requires Glues(rw, t)
  {
    HitIndex(rw, t.lines) + 1 == |t.lines|
  }

  lemma GluedShape(rw: Rewrite, t: Text)
    requires Glues(rw, t)
    ensures var base, d := Base(rw, t), DestLine(rw, t);
            var m := MovedLine(rw, t.lines[HitIndex(rw, t.lines)]);
            if MovesLast(rw, t) then
              && d + 1 < |base|
              && base[d + 1].IsHeader()
              && Apply(rw, t).lines == base[..d + 1] + [Merge(m, base[d + 1])] + base[d + 2..]
            else
              && d + 1 == |base|
              && Apply(rw, t).lines == base[..d] + [Merge(base[d], m)]
  {
    var h := HitIndex(rw, t.lines);
    assert HitsUpTo(rw, t.lines, |t.lines|)[0] == h;
    ShapeAt(rw, t, h, Base(rw, t), DestLine(rw, t));
  }

  lemma ShapeAt(rw: Rewrite, t: Text, h: nat, base: seq<Line>, d: nat)
    requires rw.Relocate? && !t.terminated && h < |t.lines| && t.lines[h].Assign?
    requires base == Without(t.lines, h) && Dest(rw.to, base) == Some(d)
    requires d < |base| && (if h + 1 == |t.lines| then d + 1 < |base| else d + 1 == |base|)
    ensures var m := MovedLine(rw, t.lines[h]);
            if h + 1 == |t.lines| then
              && base[d + 1].IsHeader()
              && RelocateAt(rw, t, h).lines == base[..d + 1] + [Merge(m, base[d + 1])] + base[d + 2..]
            else
              RelocateAt(rw, t, h).lines == base[..d] + [Merge(base[d], m)]
  {
    DestMeans(rw.to, base, |base|);
    if h + 1 == |t.lines| {
      InnerShape(rw, t, h, base, d);
    } else {
      OuterShape(rw, t, h, base, d);
    }
  }

  lemma InnerShape(rw: Rewrite, t: Text, h: nat, base: seq<Line>, d: nat)
    requires rw.Relocate? && !t.terminated && h + 1 == |t.lines| && t.lines[h].Assign?
    requires base == Without(t.lines, h) && Dest(rw.to, base) == Some(d) && d + 1 < |base|
    ensures RelocateAt(rw, t, h).lines == base[..d + 1] + [Merge(MovedLine(rw, t.lines[h]), base[d + 1])] + base[d + 2..]
  {
    JoinInner(base, d + 1, MovedLine(rw, t.lines[h]));
  }

  lemma OuterShape(rw: Rewrite, t: Text, h: nat, base: seq<Line>, d: nat)
    requires rw.Relocate? && !t.terminated && h + 1 < |t.lines| && t.lines[h].Assign?
    requires base == Without(t.lines, h) && Dest(rw.to, base) == Some(d) && d + 1 == |base|
    ensures RelocateAt(rw, t, h).lines == base[..d] + [Merge(base[d], MovedLine(rw, t.lines[h]))]
  {
    JoinOuter(base, MovedLine(rw, t.lines[h]));
  }

  lemma JoinInner(base: seq<Line>, k: nat, m: Line)
    requires 0 < k < |base|
    ensures Joined(Joined(Text(base[..k], true), Text([m], false)), Text(base[k..], true)).lines
         == base[..k] + [Merge(m, base[k])] + base[k + 1..]
  {
    var inner := Joined(Text(base[..k], true), Text([m], false));
    assert inner == Text(base[..k] + [m], false);
    assert inner.lines[..k] == base[..k];
  }

  lemma JoinOuter(base: seq<Line>, m: Line)
    requires base != []
    ensures Joined(Joined(Text(base[..|base|], false), Text([m], true)), Text(base[|base|..], false)).lines
         == base[..|base| - 1] + [Merge(base[|base| - 1], m)]
  {
    assert base[..|base|] == base;
  }

  // ---------------------------------------------------------------- the moved line after the last one

  lemma LastEntry(a: seq<Line>, line: Line)
    ensures Entries(Start, a + [line]) == Entries(Start, a) + EntryOf(After(Start, a), line)
  {
    EntriesAppend(Start, a, [line]);
    assert [line][1..] == [];
    assert EntryOf(After(Start, a), line) + [] == EntryOf(After(Start, a), line);
  }

  lemma LastEntries(base: seq<Line>, front: seq<Line>, last: Line, line: Line)
    requires base == front + [last]
    ensures Entries(Start, front + [line]) == Entries(Start, front) + EntryOf(After(Start, front), line)
    ensures Entries(Start, base) == Entries(Start, front) + EntryOf(After(Start, front), last)
  {
    LastEntry(front, line);
    LastEntry(front, last);
  }

  /** `[to]` is last and the file's last line runs into the moved key. If the decoder takes the result, all tables
      are still there, but the key has survived only behind blanks; behind a comment it is gone, unless `[to]`
      bound it to the same value before. */
  lemma GluedToLast(rw: Rewrite, t: Text)
    requires rw.Proper() && Glues(rw, t) && !MovesLast(rw, t)
    requires Valid(t.lines) && Valid(Apply(rw, t).lines)
    ensures Kept(rw, t)
        <==> (t.lines[|t.lines| - 1].Blank?
              || Lookup(DocOf(t.lines), MovedEntry(rw, t.lines).site) == Some(MovedEntry(rw, t.lines).value))
  {
    GluedHeads(rw, t);
    GluedBindings(rw, t);
  }

  lemma GluedBindings(rw: Rewrite, t: Text)
    requires rw.Proper() && Glues(rw, t) && !MovesLast(rw, t)
    requires Valid(t.lines) && Valid(Apply(rw, t).lines)
    ensures BindingsKept(rw, t)
        <==> (t.lines[|t.lines| - 1].Blank?
              || Lookup(DocOf(t.lines), MovedEntry(rw, t.lines).site) == Some(MovedEntry(rw, t.lines).value))
  {
    var base, d := Base(rw, t), DestLine(rw, t);
    var es, es' := Entries(Start, t.lines), Entries(Start, Apply(rw, t).lines);
    var hit, moved := HitEntry(rw, t.lines), MovedEntry(rw, t.lines);
    GluedShape(rw, t);
    RemovedEntry(rw, t.lines);
    GluedEntries(rw, t);
    var doc := DocOf(t.lines);
    assert base[d] == t.lines[|t.lines| - 1];
    if base[d].Blank? {
      forall s
        ensures Find(es', s) == Expected(rw, doc, s)
      {
        RelocatedLookup(rw, es, es', hit, doc, s);
      }
    } else {
      LostKey(rw, es, es', hit, moved.value, doc);
    }
  }

  /** No header is lost on the last line, and `[to]` was there. */
  lemma GluedHeads(rw: Rewrite, t: Text)
    requires rw.Proper() && Glues(rw, t) && !MovesLast(rw, t)
    requires Valid(t.lines) && Valid(Apply(rw, t).lines)
    ensures Heads(Apply(rw, t).lines) == Heads(t.lines) && Head(rw.to, false) in Heads(t.lines)
  {
    var base, d := Base(rw, t), DestLine(rw, t);
    var m := MovedLine(rw, t.lines[HitIndex(rw, t.lines)]);
    GluedShape(rw, t);
    RemovedEntry(rw, t.lines);
    assert Merge(base[d], m) in Apply(rw, t).lines;
    CutLast(base, d);
    LastHeads(base[..d], base[d], m, base, Apply(rw, t).lines);
    DestStays(rw, t);
  }

  lemma DestStays(rw: Rewrite, t: Text)
    requires Glues(rw, t) && DistinctSites(Entries(Start, t.lines))
    ensures Head(rw.to, false) in Heads(t.lines)
  {
    RemovedEntry(rw, t.lines);
    TableHasHead(Base(rw, t), DestLine(rw, t) + 1, rw.to);
  }

  lemma LastHeads(front: seq<Line>, last: Line, m: Line, base: seq<Line>, r: seq<Line>)
    requires m.Assign? && base == front + [last] && r == front + [Merge(last, m)] && !Merge(last, m).Broken?
    ensures Heads(r) == Heads(base)
  {
    HeadsAppend(front, [last]);
    HeadsAppend(front, [Merge(last, m)]);
    assert [last][1..] == [] && [Merge(last, m)][1..] == [];
  }

  /** The entries of the glued file: the moved one is added behind blanks, and lost behind anything else. */
  lemma GluedEntries(rw: Rewrite, t: Text)
    requires rw.Proper() && Glues(rw, t) && !MovesLast(rw, t)
    requires Valid(t.lines) && Valid(Apply(rw, t).lines)
    ensures var base, es' := Base(rw, t), Entries(Start, Apply(rw, t).lines);
            es' == Entries(Start, base) + if base[DestLine(rw, t)].Blank? then [MovedEntry(rw, t.lines)] else []
  {
    var base, d := Base(rw, t), DestLine(rw, t);
    var m := MovedLine(rw, t.lines[HitIndex(rw, t.lines)]);
    GluedShape(rw, t);
    assert Merge(base[d], m) in Apply(rw, t).lines;
    AtStep(base, d);
    CutLast(base, d);
    GluedTail(base[..d], base[d], m, base, Apply(rw, t).lines);
  }

  lemma CutLast(lines: seq<Line>, d: nat)
    requires d + 1 == |lines|
    ensures lines == lines[..d] + [lines[d]]
  {
  }

  lemma CutThree(lines: seq<Line>, k: nat)
    requires k < |lines|
    ensures lines == lines[..k] + [lines[k]] + lines[k + 1..]
  {
  }

  /** One line run into the last: an assignment behind blanks is read, behind anything else it is not. */
  lemma GluedTail(front: seq<Line>, last: Line, m: Line, base: seq<Line>, r: seq<Line>)
    requires m.Assign? && base == front + [last] && r == front + [Merge(last, m)] && !Merge(last, m).Broken?
    ensures Entries(Start, r) == Entries(Start, base) + if last.Blank? then EntryOf(Next(After(Start, front), last), m) else []
  {
    LastEntries(base, front, last, Merge(last, m));
    if !last.Blank? {
      MergeHides(After(Start, front), last, m);
    }
  }

  /** A line with a comment reads the same whatever is glued to it. */
  lemma MergeHides(c: Cursor, a: Line, b: Line)
    requires !a.Blank? && b.Assign? && !Merge(a, b).Broken?
    ensures EntryOf(c, Merge(a, b)) == EntryOf(c, a) && Next(c, Merge(a, b)) == Next(c, a)
  {
  }

  lemma LostKey(rw: Rewrite, es: seq<Entry>, es': seq<Entry>, hit: Entry, v: Value, d: Doc)
    requires rw.Relocate? && rw.Proper() && DistinctSites(es) && DistinctSites(es') && hit in es
    requires hit.site == Site(Table(rw.from), rw.key) && hit.value == v && d.values == ValuesOf(es)
    requires forall e :: e in es' <==> e in es && e != hit
    ensures (forall s :: Find(es', s) == Expected(rw, d, s)) <==> Find(es, Site(Table(rw.to), rw.newKey)) == Some(v)
  {
    var target := Site(Table(rw.to), rw.newKey);
    FindIff(es, hit.site, v);
    forall s
      ensures s != hit.site ==> Find(es', s) == Find(es, s)
      ensures s == hit.site ==> Find(es', s) == None
    {
      SameFind(es, es', s, s != hit.site);
      if s == hit.site && Find(es', s).Some? {
        FindIff(es', s, Find(es', s).value);
        FindIff(es, s, Find(es', s).value);
      }
    }
    assert Expected(rw, d, target) == Some(v);
  }

  // ---------------------------------------------------------------- the moved line before a header

  /** No assignment stands before the next header. */
  predicate Keyless(lines: seq<Line>) {
    lines == [] || lines[0].IsHeader() || (!lines[0].Assign? && Keyless(lines[1..]))
  }

  lemma {:induction false} KeylessBlind(c: Cursor, c': Cursor, lines: seq<Line>)
    requires Keyless(lines) && c.elements == c'.elements
    ensures Entries(c, lines) == Entries(c', lines)
    decreases lines
  {
    if lines != [] && !lines[0].IsHeader() {
      KeylessBlind(c, c', lines[1..]);
    }
  }

  lemma {:induction false} KeyedEntry(c: Cursor, lines: seq<Line>) returns (e: Entry)
    requires !Keyless(lines)
    ensures e in Entries(c, lines) && e.site.section == c.section
    decreases lines
  {
    if lines[0].Assign? {
      e := EntryOf(c, lines[0])[0];
    } else {
      e := KeyedEntry(c, lines[1..]);
    }
  }

  /** Where the swallowed header stood. */
  function SwallowedAt(rw: Rewrite, t: Text): (k: nat)
    requires Glues(rw, t) && MovesLast(rw, t)
    ensures k < |Base(rw, t)| && Base(rw, t)[k].IsHeader() && At(Base(rw, t), k).section == Table(rw.to)
  {
    GluedShape(rw, t);
    DestLine(rw, t) + 1
  }

  function Swallowed(rw: Rewrite, t: Text): Line
    requires Glues(rw, t) && MovesLast(rw, t)
  {
    Base(rw, t)[SwallowedAt(rw, t)]
  }

  /** The line that swallowed it. */
  function Swallowing(rw: Rewrite, t: Text): Line
    requires Glues(rw, t) && MovesLast(rw, t)
  {
    Merge(MovedLine(rw, t.lines[HitIndex(rw, t.lines)]), Swallowed(rw, t))
  }

  /** The moved line is the unterminated one and a header comes to stand behind it. If the decoder takes the
      result, that header has vanished into a comment, so the meaning is never kept: the file declares one
      table, or one element of an array, less. */
  lemma HeaderSwallowed(rw: Rewrite, t: Text)
    requires rw.Proper() && Glues(rw, t) && MovesLast(rw, t)
    requires Valid(t.lines) && Valid(Apply(rw, t).lines)
    ensures var lost := Head(Swallowed(rw, t).table, Swallowed(rw, t).ElementHeader?);
            && lost in DocOf(t.lines).heads
            && DocOf(Apply(rw, t).lines).heads == DocOf(t.lines).heads - multiset{lost}
    ensures !Kept(rw, t)
  {
    OneHeadLess(rw, t);
    FewerHeads(DocOf(t.lines).heads, DocOf(Apply(rw, t).lines).heads, NewHeads(rw, DocOf(t.lines).heads),
               Head(Swallowed(rw, t).table, Swallowed(rw, t).ElementHeader?));
  }

  lemma OneHeadLess(rw: Rewrite, t: Text)
    requires rw.Proper() && Glues(rw, t) && MovesLast(rw, t)
    requires Valid(t.lines) && Valid(Apply(rw, t).lines)
    ensures var lost := Head(Swallowed(rw, t).table, Swallowed(rw, t).ElementHeader?);
            && lost in DocOf(t.lines).heads
            && DocOf(Apply(rw, t).lines).heads == DocOf(t.lines).heads - multiset{lost}
  {
    var a, b := HeadsAround(rw, t);
    LessOne(a, Head(Swallowed(rw, t).table, Swallowed(rw, t).ElementHeader?), b);
  }

  lemma FewerHeads(hs: multiset<Head>, hs': multiset<Head>, more: multiset<Head>, x: Head)
    requires x in hs && hs' == hs - multiset{x}
    ensures hs' != hs + more
  {
    assert hs'[x] < hs[x] <= (hs + more)[x];
  }

  lemma HeadsAround(rw: Rewrite, t: Text) returns (a: seq<Head>, b: seq<Head>)
    requires rw.Proper() && Glues(rw, t) && MovesLast(rw, t)
    requires Valid(t.lines) && Valid(Apply(rw, t).lines)
    ensures Heads(t.lines) == a + [Head(Swallowed(rw, t).table, Swallowed(rw, t).ElementHeader?)] + b
    ensures Heads(Apply(rw, t).lines) == a + b
  {
    var base, k := Base(rw, t), SwallowedAt(rw, t);
    SwallowedShape(rw, t);
    RemovedEntry(rw, t.lines);
    CutThree(base, k);
    HeadsSwapped(base[..k], base[k], base[k + 1..], Swallowing(rw, t), base, Apply(rw, t).lines);
    a, b := Heads(base[..k]), Heads(base[k + 1..]);
  }

  lemma LessOne(a: seq<Head>, x: Head, b: seq<Head>)
    ensures multiset(a + b) == multiset(a + [x] + b) - multiset{x} && x in multiset(a + [x] + b)
  {
    assert multiset(a + [x] + b) == multiset(a) + multiset{x} + multiset(b);
  }

  /** The bindings alone survive a swallowed `[t]` exactly when that table bound no key. */
  lemma GluedToHeader(rw: Rewrite, t: Text)
    requires rw.Proper() && Glues(rw, t) && MovesLast(rw, t) && Swallowed(rw, t).Header?
    requires Valid(t.lines) && Valid(Apply(rw, t).lines)
    ensures BindingsKept(rw, t) <==> Keyless(Base(rw, t)[SwallowedAt(rw, t) + 1..])
  {
    if Keyless(Base(rw, t)[SwallowedAt(rw, t) + 1..]) {
      NoKeyLost(rw, t);
    } else {
      KeyLost(rw, t);
    }
  }

  lemma {:induction false} NoEntryLost(rw: Rewrite, t: Text, base: seq<Line>, k: nat)
    requires rw.Proper() && Glues(rw, t) && MovesLast(rw, t) && Swallowed(rw, t).Header? && base == Base(rw, t) && k == SwallowedAt(rw, t)
    requires Valid(t.lines) && Valid(Apply(rw, t).lines) && Keyless(base[k + 1..])
    ensures forall e :: e in Entries(Start, Apply(rw, t).lines) <==> e == MovedEntry(rw, t.lines) || e in Entries(Start, base)
  {
    SwallowedShape(rw, t);
    KeylessEntries(base, k, Swallowing(rw, t), MovedEntry(rw, t.lines), Apply(rw, t).lines);
  }

  lemma {:induction false} NoKeyLostAt(rw: Rewrite, t: Text, base: seq<Line>, k: nat)
    requires rw.Proper() && Glues(rw, t) && MovesLast(rw, t) && Swallowed(rw, t).Header? && base == Base(rw, t) && k == SwallowedAt(rw, t)
    requires Valid(t.lines) && Valid(Apply(rw, t).lines) && Keyless(base[k + 1..])
    ensures BindingsKept(rw, t)
  {
    NoEntryLost(rw, t, base, k);
    KeylessHeaderKept(rw, t, base);
  }

  lemma {:induction false} NoKeyLost(rw: Rewrite, t: Text)
    requires rw.Proper() && Glues(rw, t) && MovesLast(rw, t) && Swallowed(rw, t).Header?
    requires Valid(t.lines) && Valid(Apply(rw, t).lines) && Keyless(Base(rw, t)[SwallowedAt(rw, t) + 1..])
    ensures BindingsKept(rw, t)
  {
    NoKeyLostAt(rw, t, Base(rw, t), SwallowedAt(rw, t));
  }

  lemma KeyLost(rw: Rewrite, t: Text)
    requires rw.Proper() && Glues(rw, t) && MovesLast(rw, t) && Swallowed(rw, t).Header?
    requires Valid(t.lines) && Valid(Apply(rw, t).lines) && !Keyless(Base(rw, t)[SwallowedAt(rw, t) + 1..])
    ensures !BindingsKept(rw, t)
  {
    var e := SomeKeyLost(rw, t);
    BindingLost(rw, t, Base(rw, t), e);
  }

  lemma BaseHeads(rw: Rewrite, t: Text)
    requires Glues(rw, t) && Valid(t.lines)
    ensures DistinctHeads(Heads(Base(rw, t)))
  {
    RemovedEntry(rw, t.lines);
  }

  lemma SomeKeyLost(rw: Rewrite, t: Text) returns (e: Entry)
    requires Glues(rw, t) && MovesLast(rw, t) && Swallowed(rw, t).Header?
    requires Valid(t.lines) && Valid(Apply(rw, t).lines) && !Keyless(Base(rw, t)[SwallowedAt(rw, t) + 1..])
    ensures e in Entries(Start, Base(rw, t)) && e.site.section != Table(rw.to)
    ensures forall v :: Entry(e.site, v) !in Entries(Start, Apply(rw, t).lines)
  {
    BaseHeads(rw, t);
    SwallowedShape(rw, t);
    e := LostWithHeader(rw.to, Base(rw, t), SwallowedAt(rw, t), Swallowing(rw, t), Apply(rw, t).lines);
  }

  lemma LostWithHeader(to: Path, base: seq<Line>, k: nat, line: Line, r: seq<Line>) returns (e: Entry)
    requires k < |base| && base[k].Header? && line.Assign? && DistinctHeads(Heads(base)) && !Keyless(base[k + 1..])
    requires At(base, k).section == Table(to) && r == base[..k] + [line] + base[k + 1..]
    ensures e in Entries(Start, base) && e.site.section != Table(to)
    ensures forall v :: Entry(e.site, v) !in Entries(Start, r)
  {
    e := KeyedBase(base, k);
    LostHeader(to, base, k, line, e.site);
  }

  /** Swallowed or not, the parsed tables differ unless the lost one was there for another header's sake too: the
      result reads like what was promised exactly when the lost header was a `[t]` that bound no key, and another
      header declares a sub-table of it. */
  lemma ReadsAlikeIff(rw: Rewrite, t: Text)
    requires rw.Proper() && Glues(rw, t) && MovesLast(rw, t)
    requires Valid(t.lines) && Valid(Apply(rw, t).lines)
    ensures ReadsAlike(rw, t) <==>
              && Swallowed(rw, t).Header? && Keyless(Base(rw, t)[SwallowedAt(rw, t) + 1..])
              && RunsThrough(DocOf(t.lines).heads, Head(Swallowed(rw, t).table, false))
  {
    TablesAfter(rw, t);
    if Swallowed(rw, t).Header? {
      GluedToHeader(rw, t);
    }
  }

  /** Another header declares a sub-table of the lost one. */
  predicate RunsThrough(hs: multiset<Head>, x: Head) {
    exists h :: h in hs && h != x && x.table <= h.table
  }

  lemma TablesAfter(rw: Rewrite, t: Text)
    requires rw.Proper() && Glues(rw, t) && MovesLast(rw, t)
    requires Valid(t.lines) && Valid(Apply(rw, t).lines)
    ensures var hs := DocOf(t.lines).heads;
            TablesAlike(hs + NewHeads(rw, hs), DocOf(Apply(rw, t).lines).heads)
            <==> Swallowed(rw, t).Header? && RunsThrough(hs, Head(Swallowed(rw, t).table, false))
  {
    var hs, hs' := DocOf(t.lines).heads, DocOf(Apply(rw, t).lines).heads;
    var x := Head(Swallowed(rw, t).table, Swallowed(rw, t).ElementHeader?);
    OneHeadLess(rw, t);
    DestStays(rw, t);
    assert hs + NewHeads(rw, hs) == hs;
    if !x.element {
      OnceDeclared(Heads(t.lines), x);
    }
    AlikeIff(hs, hs', x);
  }

  lemma AlikeIff(hs: multiset<Head>, hs': multiset<Head>, x: Head)
    requires x in hs && hs' == hs - multiset{x} && (!x.element ==> hs[x] == 1)
    ensures TablesAlike(hs, hs') <==> !x.element && RunsThrough(hs, x)
  {
    if x.element {
      assert hs'[Head(x.table, true)] != hs[Head(x.table, true)];
    } else {
      TablesLeft(hs, hs', x);
      assert forall p :: Head(p, true) != x;
    }
  }

  lemma OnceDeclared(hs: seq<Head>, x: Head)
    requires DistinctHeads(hs) && x in hs && !x.element
    ensures multiset(hs)[x] == 1
  {
    var i :| 0 <= i < |hs| && hs[i] == x;
    assert hs == hs[..i] + [x] + hs[i + 1..];
    assert x !in hs[..i] && x !in hs[i + 1..];
  }

  /** Without one header of a table it is still there exactly when another header runs through it. */
  lemma TablesLeft(hs: multiset<Head>, hs': multiset<Head>, x: Head)
    requires hs[x] == 1 && hs' == hs - multiset{x}
    ensures (forall p :: IsTable(hs', p) <==> IsTable(hs, p)) <==> RunsThrough(hs, x)
  {
    if h :| h in hs && h != x && x.table <= h.table {
      forall p
        ensures IsTable(hs', p) <==> IsTable(hs, p)
      {
        if g :| g in hs && p <= g.table {
          var f := if g == x then h else g;
          assert f in hs' && p <= f.table;
        }
      }
    } else {
      assert IsTable(hs, x.table);
    }
  }

  // ---------------------------------------------------------------- a swallowed element of an array

  predicate InArray(e: Entry, t: Path) {
    e.site.section.Element? && e.site.section.path == t
  }

  predicate Unkeyed(c: Cursor, lines: seq<Line>, t: Path) {
    forall e :: e in Entries(c, lines) ==> !InArray(e, t)
  }

  /** Two readers of the same lines, the second of which has read one `[[t]]` more. */
  predicate Behind(c: Cursor, c': Cursor, t: Path) {
    && c'.elements == c.elements + multiset{t}
    && if c'.section.Element? && c'.section.path == t then
         && c'.section.ordinal < c'.elements[t]
         && (c.section.Element? && c.section.path == t ==> c.section.ordinal < c'.section.ordinal)
       else c.section == c'.section
  }

  /** The first element of `[[t]]` the second reader can still bind a key in. */
  function Low(c: Cursor, t: Path): nat {
    if c.section.Element? && c.section.path == t then c.section.ordinal else c.elements[t]
  }

  /** If the second finds no more keys in `[[t]]`, both read the same. */
  lemma {:induction false} ShiftBlind(c: Cursor, c': Cursor, lines: seq<Line>, t: Path)
    requires Behind(c, c', t) && Unkeyed(c', lines, t)
    ensures Entries(c, lines) == Entries(c', lines)
    decreases lines
  {
    if lines != [] {
      var e, rest := EntryOf(c', lines[0]), Entries(Next(c', lines[0]), lines[1..]);
      assert Entries(c', lines) == e + rest;
      assert forall x :: x in rest ==> x in e + rest;
      assert lines[0].Assign? ==> e[0] in e + rest;
      ShiftBlind(Next(c, lines[0]), Next(c', lines[0]), lines[1..], t);
    }
  }

  /** Otherwise there is a key in `[[t]]` that the first reader finds nowhere. */
  lemma {:induction false} LastInArray(c: Cursor, c': Cursor, lines: seq<Line>, t: Path) returns (e: Entry)
    requires Behind(c, c', t) && !Unkeyed(c', lines, t)
    ensures e in Entries(c', lines) && InArray(e, t) && e.site.section.ordinal >= Low(c', t)
    ensures forall x :: x in Entries(c, lines) && InArray(x, t) ==> x.site.section.ordinal < e.site.section.ordinal
    decreases lines
  {
    var n, n' := Next(c, lines[0]), Next(c', lines[0]);
    if Unkeyed(n', lines[1..], t) {
      ShiftBlind(n, n', lines[1..], t);
      e := EntryOf(c', lines[0])[0];
    } else {
      e := LastInArray(n, n', lines[1..], t);
    }
  }

  lemma {:induction false} OrdinalsBelow(c: Cursor, lines: seq<Line>, t: Path)
    requires c.section.Element? && c.section.path == t ==> c.section.ordinal < c.elements[t]
    ensures After(c, lines).elements[t] >= c.elements[t]
    ensures forall x :: x in Entries(c, lines) && InArray(x, t) ==> x.site.section.ordinal < After(c, lines).elements[t]
    decreases lines
  {
    if lines != [] {
      OrdinalsBelow(Next(c, lines[0]), lines[1..], t);
    }
  }

  /** The bindings alone survive a swallowed `[[t]]` exactly when no key is bound in that element or in a later one
      of its array: a key of that element would fall to `[to]`, and one of a later element to the element before. */
  lemma GluedToElement(rw: Rewrite, t: Text)
    requires rw.Proper() && Glues(rw, t) && MovesLast(rw, t) && Swallowed(rw, t).ElementHeader?
    requires Valid(t.lines) && Valid(Apply(rw, t).lines)
    ensures var base, k := Base(rw, t), SwallowedAt(rw, t);
            BindingsKept(rw, t) <==> Unkeyed(At(base, k + 1), base[k + 1..], base[k].table)
  {
    var base, k := Base(rw, t), SwallowedAt(rw, t);
    SwallowedShape(rw, t);
    AtStep(base, k);
    WithLine(base, k, Swallowing(rw, t));
    WithHeader(base, k);
    ElementCut(base[..k], base[k], base[k + 1..], Entries(Start, base), Entries(Start, Apply(rw, t).lines), MovedEntry(rw, t.lines));
    if Unkeyed(At(base, k + 1), base[k + 1..], base[k].table) {
      KeylessHeaderKept(rw, t, base);
    } else {
      var e :| e in Entries(Start, base) && e.site.section.Element?
               && forall v :: Entry(e.site, v) !in Entries(Start, Apply(rw, t).lines);
      BindingLost(rw, t, base, e);
    }
  }

  /** What an element header swallowed does to the entries: nothing, if no key follows in the array, and else one
      place in it is bound no longer. */
  lemma ElementCut(a: seq<Line>, h: Line, b: seq<Line>, es: seq<Entry>, es': seq<Entry>, moved: Entry)
    requires h.ElementHeader? && !moved.site.section.Element? && After(Start, a).section.Table?
    requires es == Entries(Start, a) + Entries(Next(After(Start, a), h), b)
    requires es' == Entries(Start, a) + [moved] + Entries(After(Start, a), b)
    ensures if Unkeyed(Next(After(Start, a), h), b, h.table) then forall e :: e in es' <==> e == moved || e in es
            else exists e :: e in es && e.site.section.Element? && forall v :: Entry(e.site, v) !in es'
  {
    var c, c' := After(Start, a), Next(After(Start, a), h);
    if Unkeyed(c', b, h.table) {
      ShiftBlind(c, c', b, h.table);
    } else {
      var e := LastInArray(c, c', b, h.table);
      OrdinalsBelow(Start, a, h.table);
      forall v
        ensures Entry(e.site, v) !in es'
      {
        assert Entry(e.site, v) !in Entries(Start, a) && Entry(e.site, v) != moved && Entry(e.site, v) !in Entries(c, b);
      }
      assert e in es;
    }
  }

  lemma BindingLost(rw: Rewrite, t: Text, base: seq<Line>, e: Entry)
    requires rw.Relocate? && |HitsUpTo(rw, t.lines, |t.lines|)| == 1 && base == Without(t.lines, HitIndex(rw, t.lines))
    requires Valid(t.lines) && Valid(Apply(rw, t).lines)
    requires e in Entries(Start, base) && e.site.section != Table(rw.to)
    requires forall v :: Entry(e.site, v) !in Entries(Start, Apply(rw, t).lines)
    ensures !BindingsKept(rw, t)
  {
    RemovedEntry(rw, t.lines);
    LostBinding(rw, Entries(Start, t.lines), Entries(Start, Apply(rw, t).lines), HitEntry(rw, t.lines), e, DocOf(t.lines));
    assert Lookup(DocOf(Apply(rw, t).lines), e.site) != Expected(rw, DocOf(t.lines), e.site);
  }

  // ---------------------------------------------------------------- how a swallowed header reads

  lemma SwallowedShape(rw: Rewrite, t: Text)
    requires Glues(rw, t) && MovesLast(rw, t) && Valid(Apply(rw, t).lines)
    ensures var base, k := Base(rw, t), SwallowedAt(rw, t);
            && Apply(rw, t).lines == base[..k] + [Swallowing(rw, t)] + base[k + 1..]
            && Swallowing(rw, t).Assign?
            && EntryOf(At(base, k), Swallowing(rw, t)) == [MovedEntry(rw, t.lines)]
  {
    GluedShape(rw, t);
    assert Swallowing(rw, t) in Apply(rw, t).lines;
  }

  lemma KeylessHeaderKept(rw: Rewrite, t: Text, base: seq<Line>)
    requires rw.Relocate? && rw.Proper() && |HitsUpTo(rw, t.lines, |t.lines|)| == 1
    requires base == Without(t.lines, HitIndex(rw, t.lines))
    requires forall e :: e in Entries(Start, Apply(rw, t).lines) <==>
               e == MovedEntry(rw, t.lines) || e in Entries(Start, base)
    requires Valid(t.lines) && Valid(Apply(rw, t).lines)
    ensures BindingsKept(rw, t)
  {
    RemovedEntry(rw, t.lines);
    Members(Entries(Start, t.lines), Entries(Start, base), Entries(Start, Apply(rw, t).lines),
            HitEntry(rw, t.lines), MovedEntry(rw, t.lines));
    AllAsExpected(rw, t);
  }

  lemma Members(es: seq<Entry>, rest: seq<Entry>, es': seq<Entry>, hit: Entry, moved: Entry)
    requires forall e :: e in rest <==> e in es && e != hit
    requires forall e :: e in es' <==> e == moved || e in rest
    ensures forall e :: e in es' <==> e == moved || (e in es && e != hit)
  {
  }

  lemma AllAsExpected(rw: Rewrite, t: Text)
    requires rw.Relocate? && rw.Proper() && |HitsUpTo(rw, t.lines, |t.lines|)| == 1
    requires Valid(t.lines) && Valid(Apply(rw, t).lines) && HitEntry(rw, t.lines) in Entries(Start, t.lines)
    requires forall e :: e in Entries(Start, Apply(rw, t).lines) <==>
               e == MovedEntry(rw, t.lines) || (e in Entries(Start, t.lines) && e != HitEntry(rw, t.lines))
    ensures BindingsKept(rw, t)
  {
    var es, es' := Entries(Start, t.lines), Entries(Start, Apply(rw, t).lines);
    forall s
      ensures Lookup(DocOf(Apply(rw, t).lines), s) == Expected(rw, DocOf(t.lines), s)
    {
      RelocatedLookup(rw, es, es', HitEntry(rw, t.lines), DocOf(t.lines), s);
    }
  }

  lemma LostBinding(rw: Rewrite, es: seq<Entry>, es': seq<Entry>, hit: Entry, e: Entry, d: Doc)
    requires rw.Relocate? && DistinctSites(es) && DistinctSites(es') && d.values == ValuesOf(es)
    requires hit in es && hit.site == Site(Table(rw.from), rw.key)
    requires e in es && e != hit && e.site.section != Table(rw.to)
    requires forall v :: Entry(e.site, v) !in es'
    ensures Find(es', e.site) != Expected(rw, d, e.site)
  {
    FindIff(es, e.site, e.value);
    FindIff(es, hit.site, hit.value);
    if Find(es', e.site).Some? {
      FindIff(es', e.site, Find(es', e.site).value);
    }
  }

  lemma WithLine(base: seq<Line>, k: nat, line: Line)
    requires k < |base| && base[k].IsHeader() && line.Assign?
    ensures Entries(Start, base[..k] + [line] + base[k + 1..])
         == Entries(Start, base[..k]) + EntryOf(At(base, k), line) + Entries(At(base, k), base[k + 1..])
  {
    PutAssign(base[..k], line, base[k + 1..]);
  }

  lemma WithHeader(base: seq<Line>, k: nat)
    requires k < |base| && base[k].IsHeader()
    ensures Entries(Start, base)
         == Entries(Start, base[..k]) + Entries(Next(At(base, k), base[k]), base[k + 1..])
  {
    EntriesSplit(base, k);
    assert base[k..][1..] == base[k + 1..];
    assert Entries(At(base, k), base[k..]) == Entries(Next(At(base, k), base[k]), base[k + 1..]);
  }

  lemma KeylessEntries(base: seq<Line>, k: nat, line: Line, moved: Entry, r: seq<Line>)
    requires k < |base| && base[k].Header? && line.Assign? && Keyless(base[k + 1..])
    requires EntryOf(At(base, k), line) == [moved] && r == base[..k] + [line] + base[k + 1..]
    ensures forall e :: e in Entries(Start, r) <==> e == moved || e in Entries(Start, base)
  {
    WithLine(base, k, line);
    WithHeader(base, k);
    KeylessBlind(At(base, k), Next(At(base, k), base[k]), base[k + 1..]);
  }

  lemma KeyedBase(base: seq<Line>, k: nat) returns (e: Entry)
    requires k < |base| && base[k].Header? && !Keyless(base[k + 1..])
    ensures e in Entries(Start, base) && e.site.section == Table(base[k].table)
  {
    WithHeader(base, k);
    e := KeyedEntry(Next(At(base, k), base[k]), base[k + 1..]);
  }

  lemma HeadsMiddle(a: seq<Line>, h: Line, b: seq<Line>)
    requires h.IsHeader()
    ensures Heads(a + [h] + b) == Heads(a) + [HeadOf(h)[0]] + Heads(b)
  {
    assert a + [h] + b == a + ([h] + b);
    assert ([h] + b)[1..] == b;
    HeadsAppend(a, [h] + b);
  }

  lemma HeadsSwapped(a: seq<Line>, h: Line, b: seq<Line>, line: Line, base: seq<Line>, r: seq<Line>)
    requires h.IsHeader() && line.Assign? && base == a + [h] + b && r == a + [line] + b
    ensures Heads(base) == Heads(a) + [HeadOf(h)[0]] + Heads(b)
    ensures Heads(r) == Heads(a) + Heads(b)
  {
    HeadsMiddle(a, h, b);
    PutAssignFrame(a, line, b);
    HeadsAppend(a, b);
  }

  lemma OnlyHead(a: seq<Head>, x: Head, b: seq<Head>)
    requires DistinctHeads(a + [x] + b) && !x.element
    ensures forall h :: h in a + b ==> h.table != x.table
  {
    var hs := a + [x] + b;
    forall h | h in a + b
      ensures h.table != x.table
    {
      var i :| 0 <= i < |a + b| && (a + b)[i] == h;
      assert hs[|a|] == x && hs[if i < |a| then i else i + 1] == h;
    }
  }

  /** Without its only header a table binds nothing. */
  lemma LostHeader(to: Path, base: seq<Line>, k: nat, line: Line, s: Site)
    requires k < |base| && base[k].Header? && line.Assign? && DistinctHeads(Heads(base))
    requires At(base, k).section == Table(to) && s.section == Table(base[k].table)
    ensures base[k].table != to
    ensures forall v :: Entry(s, v) !in Entries(Start, base[..k] + [line] + base[k + 1..])
  {
    CutThree(base, k);
    LostBetween(to, base[..k], base[k], base[k + 1..], line, s, base, base[..k] + [line] + base[k + 1..]);
  }

  lemma LostBetween(to: Path, a: seq<Line>, h: Line, b: seq<Line>, line: Line, s: Site, base: seq<Line>, r: seq<Line>)
    requires h.Header? && line.Assign? && base == a + [h] + b && r == a + [line] + b && DistinctHeads(Heads(base))
    requires After(Start, a).section == Table(to) && s.section == Table(h.table)
    ensures h.table != to
    ensures forall v :: Entry(s, v) !in Entries(Start, r)
  {
    HeadsLeft(a, h, b, line, base, r);
    HeadOfLast(a, to);
    forall v
      ensures Entry(s, v) !in Entries(Start, r)
    {
      NoHeadNoEntry(r, s, v, h.table);
    }
  }

  lemma HeadOfLast(lines: seq<Line>, p: Path)
    requires After(Start, lines).section == Table(p)
    ensures Head(p, false) in Heads(lines)
  {
    assert lines[..|lines|] == lines;
    TableHasHead(lines, |lines|, p);
  }

  lemma HeadsLeft(a: seq<Line>, h: Line, b: seq<Line>, line: Line, base: seq<Line>, r: seq<Line>)
    requires h.Header? && line.Assign? && base == a + [h] + b && r == a + [line] + b && DistinctHeads(Heads(base))
    ensures forall x :: x in Heads(a) ==> x.table != h.table
    ensures forall x :: x in Heads(r) ==> x.table != h.table
  {
    HeadsSwapped(a, h, b, line, base, r);
    OnlyHead(Heads(a), Head(h.table, false), Heads(b));
    assert forall x :: x in Heads(a) ==> x in Heads(a) + Heads(b);
  }

  lemma NoHeadNoEntry(lines: seq<Line>, s: Site, v: Value, p: Path)
    requires s.section == Table(p) && forall x :: x in Heads(lines) ==> x.table != p
    ensures Entry(s, v) !in Entries(Start, lines)
  {
    if Entry(s, v) in Entries(Start, lines) {
      var i := EntryLine(lines, Entry(s, v));
      TableHasHead(lines, i, p);
    }
  }

  // ---------------------------------------------------------------- a file that loses a setting

  const RELOCATION := Relocate("mem_free_low_mb", "free_low_mb", ["monitor", "host_health"], ["monitor", "host_health", "memory"])

  const FROM := Header(["monitor", "host_health"], "")
  const SETTING := Assign("", "mem_free_low_mb", " = ", Int(80), "")
  const TO := Header(["monitor", "host_health", "memory"], "")
  const NOTE := Comment("# end")

  /** `[monitor.host_health]` with one legacy key, then `[monitor.host_health.memory]` and a last
      comment without a newline. */
  const LOSING_FILE := Text([FROM, SETTING, TO, NOTE], false)

  lemma LosingEntries()
    ensures Entries(Start, LOSING_FILE.lines)
         == [Entry(Site(Table(["monitor", "host_health"]), "mem_free_low_mb"), Int(80))]
    ensures Heads(LOSING_FILE.lines) == [Head(["monitor", "host_health"], false), Head(["monitor", "host_health", "memory"], false)]
    ensures Valid(LOSING_FILE.lines)
  {
    LosingBindings();
    LosingHeads();
    NotThrough();
  }

  lemma LosingHeads()
    ensures Heads(LOSING_FILE.lines) == [Head(FROM.table, false), Head(TO.table, false)]
  {
    var ls := LOSING_FILE.lines;
    assert ls[1..] == [SETTING, TO, NOTE] && [SETTING, TO, NOTE][1..] == [TO, NOTE];
    assert [TO, NOTE][1..] == [NOTE] && [NOTE][1..] == [];
    assert Heads([NOTE]) == [];
    assert Heads([TO, NOTE]) == [Head(TO.table, false)];
    assert Heads([SETTING, TO, NOTE]) == Heads([TO, NOTE]);
  }

  lemma LosingBindings()
    ensures Entries(Start, LOSING_FILE.lines) == [Entry(Site(Table(FROM.table), "mem_free_low_mb"), Int(80))]
  {
    var ls := LOSING_FILE.lines;
    var from, to := Cursor(Table(FROM.table), multiset{}), Cursor(Table(TO.table), multiset{});
    assert ls[1..] == [SETTING, TO, NOTE] && [SETTING, TO, NOTE][1..] == [TO, NOTE];
    assert [TO, NOTE][1..] == [NOTE] && [NOTE][1..] == [];
    assert Entries(to, [NOTE]) == [];
    assert Entries(from, [TO, NOTE]) == [];
    assert Entries(from, [SETTING, TO, NOTE]) == [Entry(Site(Table(FROM.table), "mem_free_low_mb"), Int(80))];
  }

  lemma NotThrough()
    ensures !Through(Site(Table(FROM.table), "mem_free_low_mb"), FROM.table)
    ensures !Through(Site(Table(FROM.table), "mem_free_low_mb"), TO.table)
  {
    assert (FROM.table + ["mem_free_low_mb"])[2] != TO.table[2] by {
      assert "mem_free_low_mb"[3] != "memory"[3];
    }
  }

  /** A file hit at one line only. */
  lemma {:induction false} OnlyHitAt(rw: Rewrite, lines: seq<Line>, h: nat, n: nat)
    requires n <= |lines| && forall i: nat :: i < |lines| ==> (HitAt(rw, lines, i) <==> i == h)
    ensures HitsUpTo(rw, lines, n) == if n <= h then [] else [h]
  {
    if n > 0 {
      OnlyHitAt(rw, lines, h, n - 1);
    }
  }

  lemma LosingSections()
    ensures var ls := LOSING_FILE.lines;
            && At(ls, 0) == Start
            && At(ls, 1) == At(ls, 2) == Cursor(Table(FROM.table), multiset{})
            && At(ls, 3) == Cursor(Table(TO.table), multiset{})
  {
    var ls := LOSING_FILE.lines;
    assert ls[..0] == [];
    AtStep(ls, 0);
    AtStep(ls, 1);
    AtStep(ls, 2);
  }

  lemma LosingHits()
    ensures HitsUpTo(RELOCATION, LOSING_FILE.lines, 4) == [1]
    ensures Glues(RELOCATION, LOSING_FILE) && !MovesLast(RELOCATION, LOSING_FILE)
  {
    var ls := LOSING_FILE.lines;
    LosingSections();
    assert HitAt(RELOCATION, ls, 1);
    assert !HitAt(RELOCATION, ls, 0) && !HitAt(RELOCATION, ls, 2) && !HitAt(RELOCATION, ls, 3);
    OnlyHitAt(RELOCATION, ls, 1, 4);
    assert Without(ls, 1) == [FROM, TO, NOTE];
    LosingDest();
  }

  lemma LosingDest()
    ensures Dest(RELOCATION.to, [FROM, TO, NOTE]) == Some(2)
  {
    var base := [FROM, TO, NOTE];
    assert DestUpTo(RELOCATION.to, base, 1) == DestScan(Cursor(Table(FROM.table), multiset{}), None, false);
    assert DestUpTo(RELOCATION.to, base, 2) == DestScan(Cursor(Table(TO.table), multiset{}), Some(1), false);
    assert DestUpTo(RELOCATION.to, base, 3).dest == Some(2);
  }

  lemma LostFile(last: Line)
    requires last.Comment?
    ensures var r := [FROM, TO, last];
            && Entries(Start, r) == []
            && Heads(r) == [Head(FROM.table, false), Head(TO.table, false)]
            && Valid(r)
  {
    LostBindings(last);
    LostHeads(last);
  }

  lemma LostBindings(last: Line)
    requires last.Comment?
    ensures Entries(Start, [FROM, TO, last]) == []
  {
    var from, to := Cursor(Table(FROM.table), multiset{}), Cursor(Table(TO.table), multiset{});
    assert [FROM, TO, last][1..] == [TO, last] && [TO, last][1..] == [last] && [last][1..] == [];
    assert Entries(to, [last]) == [];
    assert Entries(from, [TO, last]) == [];
  }

  lemma LostHeads(last: Line)
    requires last.Comment?
    ensures Heads([FROM, TO, last]) == [Head(FROM.table, false), Head(TO.table, false)]
  {
    assert [FROM, TO, last][1..] == [TO, last] && [TO, last][1..] == [last] && [last][1..] == [];
    assert Heads([last]) == [];
    assert Heads([TO, last]) == [Head(TO.table, false)];
  }

  lemma LosingResult()
    ensures Valid(Apply(RELOCATION, LOSING_FILE).lines) && Entries(Start, Apply(RELOCATION, LOSING_FILE).lines) == []
  {
    LosingHits();
    LosingShape();
    LostFile(Merge(NOTE, MovedLine(RELOCATION, SETTING)));
  }

  /** The migrator adopts the rewrite of this file, and the setting is gone from it. */
  lemma SettingLost()
    ensures Valid(LOSING_FILE.lines) && Valid(Apply(RELOCATION, LOSING_FILE).lines)
    ensures Apply(RELOCATION, LOSING_FILE) != LOSING_FILE
    ensures !BindingsKept(RELOCATION, LOSING_FILE)
    ensures Entries(Start, Apply(RELOCATION, LOSING_FILE).lines) == []
  {
    LosingEntries();
    LosingHits();
    LosingResult();
    GluedBindings(RELOCATION, LOSING_FILE);
  }

  lemma LosingShape()
    requires Glues(RELOCATION, LOSING_FILE) && !MovesLast(RELOCATION, LOSING_FILE)
    requires HitsUpTo(RELOCATION, LOSING_FILE.lines, 4) == [1]
    ensures Apply(RELOCATION, LOSING_FILE).lines == [FROM, TO, Merge(NOTE, MovedLine(RELOCATION, SETTING))]
  {
    GluedShape(RELOCATION, LOSING_FILE);
    var base := Base(RELOCATION, LOSING_FILE);
    assert base == [FROM, TO, NOTE];
    assert base[..2] == [FROM, TO];
  }
}
