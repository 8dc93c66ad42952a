/** What a rewrite does to the parsed document. A file is compared with its rewrite through
    `Entries`, the bindings in file order, and `Heads`, its table headers. */
module RewriteMeaning {
  import opened Wrappers
  import opened Toml
  import opened Rewrites

  // ---------------------------------------------------------------- rename and wrap

  function EditEntry(rw: Rewrite, e: Entry): Entry {
    if !HitsEntry(rw, e) then e
    else match rw
      case Rename(_, n, _) => Entry(Site(e.site.section, n), e.value)
      case Wrap(_, _, _, _) => Entry(e.site, if e.value.Str? then StrList([e.value.text]) else e.value)
      case _ => e
  }

  lemma {:induction false} EditFrame(rw: Rewrite, c: Cursor, lines: seq<Line>)
    requires rw.Rename? || rw.Wrap?
    ensures var r := EditAll(rw, c, lines);
            && Heads(r) == Heads(lines)
            && Frame(r) == Frame(lines)
            && (forall i :: 0 <= i < |r| ==> r[i].Broken? == lines[i].Broken?)
    decreases lines
  {
    if lines != [] {
      EditFrame(rw, Next(c, lines[0]), lines[1..]);
      var r := EditAll(rw, c, lines);
      assert r[1..] == EditAll(rw, Next(c, lines[0]), lines[1..]);
    }
  }

  lemma {:induction false} EditBindings(rw: Rewrite, c: Cursor, lines: seq<Line>)
    requires rw.Rename? || rw.Wrap?
    ensures var es, es' := Entries(c, lines), Entries(c, EditAll(rw, c, lines));
            |es'| == |es| && forall i :: 0 <= i < |es'| ==> es'[i] == EditEntry(rw, es[i])
    decreases lines
  {
    if lines != [] {
      EditBindings(rw, Next(c, lines[0]), lines[1..]);
      var r := EditAll(rw, c, lines);
      assert r[1..] == EditAll(rw, Next(c, lines[0]), lines[1..]);
      assert Next(c, r[0]) == Next(c, lines[0]);
    }
  }

  lemma EditEntries(rw: Rewrite, c: Cursor, lines: seq<Line>)
    requires rw.Rename? || rw.Wrap?
    ensures var r := EditAll(rw, c, lines);
            && Heads(r) == Heads(lines)
            && Frame(r) == Frame(lines)
            && (forall i :: 0 <= i < |r| ==> r[i].Broken? == lines[i].Broken?)
            && |Entries(c, r)| == |Entries(c, lines)|
            && forall i :: 0 <= i < |Entries(c, r)| ==> Entries(c, r)[i] == EditEntry(rw, Entries(c, lines)[i])
  {
    EditFrame(rw, c, lines);
    EditBindings(rw, c, lines);
  }

  // ---------------------------------------------------------------- drop

  function Kept(rw: Rewrite, es: seq<Entry>): seq<Entry> {
    if es == [] then [] else (if HitsEntry(rw, es[0]) then [] else [es[0]]) + Kept(rw, es[1..])
  }

  lemma {:induction false} KeptAppend(rw: Rewrite, a: seq<Entry>, b: seq<Entry>)
    ensures Kept(rw, a + b) == Kept(rw, a) + Kept(rw, b)
  {
    if a == [] {
      assert a + b == b;
    } else {
      assert (a + b)[1..] == a[1..] + b;
      KeptAppend(rw, a[1..], b);
    }
  }

  lemma {:induction false} KeptMembers(rw: Rewrite, es: seq<Entry>)
    ensures forall e :: e in Kept(rw, es) <==> e in es && !HitsEntry(rw, e)
    ensures DistinctSites(es) ==> DistinctSites(Kept(rw, es))
  {
    if es != [] {
      KeptMembers(rw, es[1..]);
      assert forall e :: e in es <==> e == es[0] || e in es[1..];
      if DistinctSites(es) {
        assert forall e :: e in es[1..] ==> e.site != es[0].site;
      }
    }
  }

  lemma {:induction false} DropFrame(rw: Rewrite, c: Cursor, lines: seq<Line>)
    requires rw.Drop?
    ensures var r := DropAll(rw, c, lines);
            Heads(r) == Heads(lines) && Frame(r) == Frame(lines) && forall l :: l in r ==> l in lines
    decreases lines
  {
    if lines != [] {
      var rest := DropAll(rw, Next(c, lines[0]), lines[1..]);
      DropFrame(rw, Next(c, lines[0]), lines[1..]);
      var r := DropAll(rw, c, lines);
      assert HitsLine(rw, c.section, lines[0]) ==> r == rest;
      assert !HitsLine(rw, c.section, lines[0]) ==> r[0] == lines[0] && r[1..] == rest;
    }
  }

  lemma {:induction false} DropBindings(rw: Rewrite, c: Cursor, lines: seq<Line>)
    requires rw.Drop?
    ensures Entries(c, DropAll(rw, c, lines)) == Kept(rw, Entries(c, lines))
    decreases lines
  {
    if lines != [] {
      var rest := DropAll(rw, Next(c, lines[0]), lines[1..]);
      DropBindings(rw, Next(c, lines[0]), lines[1..]);
      KeptAppend(rw, EntryOf(c, lines[0]), Entries(Next(c, lines[0]), lines[1..]));
      var r := DropAll(rw, c, lines);
      if HitsLine(rw, c.section, lines[0]) {
        assert r == rest;
      } else {
        assert r[0] == lines[0] && r[1..] == rest;
      }
    }
  }

  lemma DropEntries(rw: Rewrite, c: Cursor, lines: seq<Line>)
    requires rw.Drop?
    ensures var r := DropAll(rw, c, lines);
            && Heads(r) == Heads(lines)
            && Frame(r) == Frame(lines)
            && (forall l :: l in r ==> l in lines)
            && Entries(c, r) == Kept(rw, Entries(c, lines))
  {
    DropFrame(rw, c, lines);
    DropBindings(rw, c, lines);
  }

  // ---------------------------------------------------------------- relocate

  /** An assignment adds one entry at its place and no header. */
  lemma PutAssign(a: seq<Line>, line: Line, b: seq<Line>)
    requires line.Assign?
    ensures Entries(Start, a + [line] + b)
         == Entries(Start, a) + EntryOf(After(Start, a), line) + Entries(After(Start, a), b)
    ensures Entries(Start, a + b) == Entries(Start, a) + Entries(After(Start, a), b)
  {
    assert a + [line] + b == a + ([line] + b);
    assert ([line] + b)[1..] == b;
    EntriesAppend(Start, a, [line] + b);
    EntriesAppend(Start, a, b);
  }

  lemma PutAssignFrame(a: seq<Line>, line: Line, b: seq<Line>)
    requires line.Assign?
    ensures Heads(a + [line] + b) == Heads(a + b) && Frame(a + [line] + b) == Frame(a + b)
  {
    assert a + [line] + b == a + ([line] + b);
    assert ([line] + b)[1..] == b;
    HeadsAppend(a, [line] + b);
    HeadsAppend(a, b);
    FrameAppend(a, [line] + b);
    FrameAppend(a, b);
  }

  lemma CutEntries(lines: seq<Line>, h: nat)
    requires h < |lines| && lines[h].Assign?
    ensures var a, b := Entries(Start, lines[..h]), Entries(At(lines, h), lines[h + 1..]);
            && Entries(Start, lines) == a + EntryOf(At(lines, h), lines[h]) + b
            && Entries(Start, Without(lines, h)) == a + b
            && Heads(Without(lines, h)) == Heads(lines)
            && Frame(Without(lines, h)) == Frame(lines)
  {
    CutAssign(lines[..h], lines[h], lines[h + 1..], lines, Without(lines, h));
  }

  lemma CutAssign(a: seq<Line>, line: Line, b: seq<Line>, all: seq<Line>, rest: seq<Line>)
    requires line.Assign? && all == a + [line] + b && rest == a + b
    ensures Entries(Start, all) == Entries(Start, a) + EntryOf(After(Start, a), line) + Entries(After(Start, a), b)
    ensures Entries(Start, rest) == Entries(Start, a) + Entries(After(Start, a), b)
    ensures Heads(rest) == Heads(all) && Frame(rest) == Frame(all)
  {
    PutAssign(a, line, b);
    PutAssignFrame(a, line, b);
  }

  lemma PutEntries(lines: seq<Line>, k: nat, line: Line)
    requires k <= |lines| && line.Assign?
    ensures var r := lines[..k] + [line] + lines[k..];
            && Entries(Start, r) == Entries(Start, lines[..k]) + EntryOf(At(lines, k), line) + Entries(At(lines, k), lines[k..])
            && Heads(r) == Heads(lines)
            && Frame(r) == Frame(lines)
  {
    assert lines == lines[..k] + lines[k..];
    PutAssign(lines[..k], line, lines[k..]);
    PutAssignFrame(lines[..k], line, lines[k..]);
  }

  lemma DistinctInsert(a: seq<Entry>, x: Entry, b: seq<Entry>)
    ensures DistinctSites(a + [x] + b) <==>
            DistinctSites(a + b) && forall e :: e in a + b ==> e.site != x.site
  {
    var s, t := a + [x] + b, a + b;
    if DistinctSites(s) {
      forall i, j | 0 <= i < j < |t|
        ensures t[i].site != t[j].site
      {
        var i', j' := if i < |a| then i else i + 1, if j < |a| then j else j + 1;
        assert t[i] == s[i'] && t[j] == s[j'];
      }
      forall e | e in t
        ensures e.site != x.site
      {
        var i :| 0 <= i < |t| && t[i] == e;
        assert s[|a|] == x && e == s[if i < |a| then i else i + 1];
      }
    }
    if DistinctSites(t) && forall e :: e in t ==> e.site != x.site {
      forall i, j | 0 <= i < j < |s|
        ensures s[i].site != s[j].site
      {
        if i != |a| && j != |a| {
          var i', j' := if i < |a| then i else i - 1, if j < |a| then j else j - 1;
          assert t[i'] == s[i] && t[j'] == s[j];
        } else if i == |a| {
          assert s[j] == t[j - 1];
        } else {
          assert s[i] == t[i];
        }
      }
    }
  }

  /** The one hit of a relocation. */
  function HitIndex(rw: Rewrite, lines: seq<Line>): (h: nat)
    requires |HitsUpTo(rw, lines, |lines|)| == 1
    ensures h < |lines| && HitAt(rw, lines, h)
  {
    HitsUpTo(rw, lines, |lines|)[0]
  }

  /** A relocation sets two lines of the file side by side without a newline between them: the file's
      last line has none, and it is the moved line and `[to]` is not last, or it stays and `[to]` is. */
  predicate Glues(rw: Rewrite, t: Text) {
    && rw.Relocate?
    && !t.terminated
    && |HitsUpTo(rw, t.lines, |t.lines|)| == 1
    && var h := HitIndex(rw, t.lines);
       var base := Without(t.lines, h);
       && Dest(rw.to, base).Some?
       && if h + 1 == |t.lines| then Dest(rw.to, base).value + 1 < |base| else Dest(rw.to, base).value + 1 == |base|
  }

  lemma JoinThree(a: Text, b: Text, c: Text)
    requires a.terminated && b.lines != [] && (c.lines != [] ==> b.terminated)
    ensures Joined(Joined(a, b), c).lines == a.lines + b.lines + c.lines
    ensures Joined(Joined(a, b), c).terminated == if c.lines == [] then b.terminated else c.terminated
  {
  }

  /** Otherwise the key lands at the end of `[to]`, or in a new `[to]` at the end of the file. */
  lemma {:induction false} RelocateShape(rw: Rewrite, t: Text)
    requires rw.Relocate? && !Glues(rw, t) && |HitsUpTo(rw, t.lines, |t.lines|)| == 1
    ensures var base := Without(t.lines, HitIndex(rw, t.lines));
            var m := MovedLine(rw, t.lines[HitIndex(rw, t.lines)]);
            && (t.terminated ==> Apply(rw, t).terminated)
            && Apply(rw, t).lines ==
               match Dest(rw.to, base)
               case None => base + [Header(rw.to, ""), m]
               case Some(d) => if d < |base| then base[..d + 1] + [m] + base[d + 1..] else []
  {
    var h := HitIndex(rw, t.lines);
    var base := Without(t.lines, h);
    DestMeans(rw.to, base, |base|);
    AppliedAt(rw, t, h);
    match Dest(rw.to, base)
    case None => EndShape(rw, t, h, base);
    case Some(d) =>
      KeepsApart(rw, t, h, base, d);
      DestShape(rw, t, h, base, d);
  }

  lemma {:induction false} KeepsApart(rw: Rewrite, t: Text, h: nat, base: seq<Line>, d: nat)
    requires rw.Relocate? && !Glues(rw, t) && |HitsUpTo(rw, t.lines, |t.lines|)| == 1 && h == HitIndex(rw, t.lines)
    requires base == Without(t.lines, h) && Dest(rw.to, base) == Some(d) && d < |base|
    ensures !t.terminated ==> if h + 1 == |t.lines| then d + 1 == |base| else d + 1 < |base|
  {
  }

  lemma {:induction false} AppliedAt(rw: Rewrite, t: Text, h: nat)
    requires rw.Relocate? && |HitsUpTo(rw, t.lines, |t.lines|)| == 1 && h == HitIndex(rw, t.lines)
    ensures Apply(rw, t) == RelocateAt(rw, t, h)
  {
  }

  lemma {:induction false} EndShape(rw: Rewrite, t: Text, h: nat, base: seq<Line>)
    requires rw.Relocate? && h < |t.lines| && t.lines[h].Assign? && base == Without(t.lines, h) && Dest(rw.to, base).None?
    ensures RelocateAt(rw, t, h).lines == base + [Header(rw.to, ""), MovedLine(rw, t.lines[h])]
    ensures t.terminated ==> RelocateAt(rw, t, h).terminated
  {
  }

  lemma DestShape(rw: Rewrite, t: Text, h: nat, base: seq<Line>, d: nat)
    requires rw.Relocate? && h < |t.lines| && t.lines[h].Assign? && base == Without(t.lines, h)
    requires Dest(rw.to, base) == Some(d) && d < |base|
    requires !t.terminated ==> if h + 1 == |t.lines| then d + 1 == |base| else d + 1 < |base|
    ensures RelocateAt(rw, t, h).lines == base[..d + 1] + [MovedLine(rw, t.lines[h])] + base[d + 1..]
    ensures t.terminated ==> RelocateAt(rw, t, h).terminated
  {
    var baseTerminated := h + 1 == |t.lines| || t.terminated;
    JoinThree(Text(base[..d + 1], d + 1 < |base| || baseTerminated),
              Text([MovedLine(rw, t.lines[h])], h + 1 < |t.lines| || t.terminated),
              Text(base[d + 1..], baseTerminated));
  }

  /** Bindings and headers before (`es`, `hs`) and after (`es'`, `hs'`) the one entry `hit` became `moved`. */
  ghost predicate Moved(to: Path, es: seq<Entry>, hs: seq<Head>, es': seq<Entry>, hs': seq<Head>, hit: Entry, moved: Entry) {
    && hit in es
    && (forall e :: e in es' <==> e == moved || (e in es && e != hit))
    && (DistinctSites(es') <==> forall e :: e in es && e != hit ==> e.site != moved.site)
    && (hs' == hs || (hs' == hs + [Head(to, false)] && Head(to, false) !in hs))
    && Head(to, false) in hs'
  }

  function HitEntry(rw: Rewrite, lines: seq<Line>): Entry
    requires rw.Relocate? && |HitsUpTo(rw, lines, |lines|)| == 1
  {
    Entry(Site(Table(rw.from), rw.key), lines[HitIndex(rw, lines)].value)
  }

  function MovedEntry(rw: Rewrite, lines: seq<Line>): Entry
    requires rw.Relocate? && |HitsUpTo(rw, lines, |lines|)| == 1
  {
    Entry(Site(Table(rw.to), rw.newKey), lines[HitIndex(rw, lines)].value)
  }

  lemma RelocateEntries(rw: Rewrite, t: Text)
    requires rw.Relocate? && !Glues(rw, t) && |HitsUpTo(rw, t.lines, |t.lines|)| == 1
    requires DistinctSites(Entries(Start, t.lines))
    ensures Moved(rw.to, Entries(Start, t.lines), Heads(t.lines),
                  Entries(Start, Apply(rw, t).lines), Heads(Apply(rw, t).lines),
                  HitEntry(rw, t.lines), MovedEntry(rw, t.lines))
  {
    var h := HitIndex(rw, t.lines);
    var base := Without(t.lines, h);
    RelocateShape(rw, t);
    RemovedEntry(rw, t.lines);
    PutBack(rw, base, MovedLine(rw, t.lines[h]), Apply(rw, t).lines);
    MovedOver(rw.to, Entries(Start, t.lines), Entries(Start, base), Heads(base),
              Entries(Start, Apply(rw, t).lines), Heads(Apply(rw, t).lines),
              HitEntry(rw, t.lines), MovedEntry(rw, t.lines));
  }

  /** `moved` is new in (`es'`, `hs'`), which else holds what (`es`, `hs`) does, with a header for `[to]`. */
  ghost predicate Added(to: Path, es: seq<Entry>, hs: seq<Head>, es': seq<Entry>, hs': seq<Head>, moved: Entry) {
    && (forall e :: e in es' <==> e == moved || e in es)
    && (DistinctSites(es') <==> forall e :: e in es ==> e.site != moved.site)
    && (hs' == hs || (hs' == hs + [Head(to, false)] && Head(to, false) !in hs))
    && Head(to, false) in hs'
  }

  lemma MovedOver(to: Path, es0: seq<Entry>, es: seq<Entry>, hs: seq<Head>, es': seq<Entry>, hs': seq<Head>, hit: Entry, moved: Entry)
    requires hit in es0 && forall e :: e in es <==> e in es0 && e != hit
    requires Added(to, es, hs, es', hs', moved)
    ensures Moved(to, es0, hs, es', hs', hit, moved)
  {
  }

  /** The moved line put back where the shape of a relocation says. */
  lemma PutBack(rw: Rewrite, base: seq<Line>, m: Line, r: seq<Line>)
    requires rw.Relocate? && m.Assign? && m.key == rw.newKey && DistinctSites(Entries(Start, base))
    requires r == match Dest(rw.to, base)
                  case None => base + [Header(rw.to, ""), m]
                  case Some(d) => if d < |base| then base[..d + 1] + [m] + base[d + 1..] else []
    ensures Added(rw.to, Entries(Start, base), Heads(base), Entries(Start, r), Heads(r), Entry(Site(Table(rw.to), rw.newKey), m.value))
  {
    DestMeans(rw.to, base, |base|);
    match Dest(rw.to, base)
    case None =>
      PutAtEnd(rw, base, m);
    case Some(d) =>
      PutAtDest(rw, base, d + 1, m);
  }

  lemma RemovedEntry(rw: Rewrite, lines: seq<Line>)
    requires rw.Relocate? && |HitsUpTo(rw, lines, |lines|)| == 1
    requires DistinctSites(Entries(Start, lines))
    ensures var es, base := Entries(Start, lines), Without(lines, HitIndex(rw, lines));
            && HitEntry(rw, lines) in es
            && DistinctSites(Entries(Start, base))
            && (forall e :: e in Entries(Start, base) <==> e in es && e != HitEntry(rw, lines))
            && Heads(base) == Heads(lines)
            && Frame(base) == Frame(lines)
  {
    var h := HitIndex(rw, lines);
    CutEntries(lines, h);
    var a, b := Entries(Start, lines[..h]), Entries(At(lines, h), lines[h + 1..]);
    DistinctInsert(a, HitEntry(rw, lines), b);
  }

  lemma PutAtDest(rw: Rewrite, base: seq<Line>, k: nat, m: Line)
    requires rw.Relocate? && m.Assign? && m.key == rw.newKey
    requires k <= |base| && At(base, k).section == Table(rw.to) && DistinctSites(Entries(Start, base))
    ensures var r := base[..k] + [m] + base[k..];
            var moved := Entry(Site(Table(rw.to), rw.newKey), m.value);
            && (forall e :: e in Entries(Start, r) <==> e == moved || e in Entries(Start, base))
            && (DistinctSites(Entries(Start, r)) <==> forall e :: e in Entries(Start, base) ==> e.site != moved.site)
            && Heads(r) == Heads(base)
            && Frame(r) == Frame(base)
            && Head(rw.to, false) in Heads(base)
  {
    PutEntries(base, k, m);
    EntriesSplit(base, k);
    DistinctInsert(Entries(Start, base[..k]), Entry(Site(Table(rw.to), rw.newKey), m.value),
                   Entries(At(base, k), base[k..]));
    TableHasHead(base, k, rw.to);
  }

  lemma PutAtEnd(rw: Rewrite, base: seq<Line>, m: Line)
    requires rw.Relocate? && m.Assign? && m.key == rw.newKey
    requires Dest(rw.to, base).None?
    ensures var r := base + [Header(rw.to, ""), m];
            var moved := Entry(Site(Table(rw.to), rw.newKey), m.value);
            && Entries(Start, r) == Entries(Start, base) + [moved]
            && (DistinctSites(Entries(Start, r)) <==>
                DistinctSites(Entries(Start, base)) && forall e :: e in Entries(Start, base) ==> e.site != moved.site)
            && Heads(r) == Heads(base) + [Head(rw.to, false)]
            && Head(rw.to, false) !in Heads(base)
  {
    DestMeans(rw.to, base, |base|);
    assert base[..|base|] == base;
    NewTable(rw.to, base, m);
    AppendDistinct(Entries(Start, base), Entry(Site(Table(rw.to), rw.newKey), m.value));
  }

  lemma NewTable(to: Path, base: seq<Line>, m: Line)
    requires m.Assign?
    ensures var r := base + [Header(to, ""), m];
            && Entries(Start, r) == Entries(Start, base) + [Entry(Site(Table(to), m.key), m.value)]
            && Heads(r) == Heads(base) + [Head(to, false)]
  {
    var tail := [Header(to, ""), m];
    assert tail[1..] == [m] && [m][1..] == [];
    assert Heads([m]) == [];
    EntriesAppend(Start, base, tail);
    HeadsAppend(base, tail);
    var c := Next(After(Start, base), tail[0]);
    assert Entries(c, [m]) == [Entry(Site(Table(to), m.key), m.value)];
  }

  lemma AppendDistinct(es: seq<Entry>, x: Entry)
    ensures DistinctSites(es + [x]) <==> DistinctSites(es) && forall e :: e in es ==> e.site != x.site
  {
    DistinctInsert(es, x, []);
    assert es + [x] + [] == es + [x] && es + [] == es;
  }

  /** Standing in `[p]`, its header has been read. */
  lemma {:induction false} TableHasHead(lines: seq<Line>, n: nat, p: Path)
    requires n <= |lines| && At(lines, n).section == Table(p)
    ensures Head(p, false) in Heads(lines)
    decreases n
  {
    if n > 0 {
      AtStep(lines, n - 1);
      if lines[n - 1].IsHeader() {
        assert lines == lines[..n - 1] + lines[n - 1..];
        HeadsAppend(lines[..n - 1], lines[n - 1..]);
      } else {
        TableHasHead(lines, n - 1, p);
      }
    }
  }

  // ---------------------------------------------------------------- hits and bindings

  predicate HasHit(rw: Rewrite, es: seq<Entry>) {
    exists e :: e in es && HitsEntry(rw, e)
  }

  lemma HitsAreEntries(rw: Rewrite, lines: seq<Line>)
    ensures HitsUpTo(rw, lines, |lines|) != [] <==> HasHit(rw, Entries(Start, lines))
  {
    var hits := HitsUpTo(rw, lines, |lines|);
    if hits != [] {
      LineEntry(lines, hits[0]);
    }
    if HasHit(rw, Entries(Start, lines)) {
      var e :| e in Entries(Start, lines) && HitsEntry(rw, e);
      var i := EntryLine(lines, e);
      assert EntryOf(At(lines, i), lines[i])[0] == e;
      assert HitAt(rw, lines, i);
    }
  }

  /** Two hits under one literal table name would bind one key twice. */
  lemma OneLiteralHit(rw: Rewrite, lines: seq<Line>)
    requires rw.Spec().Exact? && DistinctSites(Entries(Start, lines))
    ensures |HitsUpTo(rw, lines, |lines|)| <= 1
  {
    if |HitsUpTo(rw, lines, |lines|)| > 1 {
      BoundTwice(rw, lines);
    }
  }

  lemma BoundTwice(rw: Rewrite, lines: seq<Line>)
    requires rw.Spec().Exact? && |HitsUpTo(rw, lines, |lines|)| > 1
    ensures !DistinctSites(Entries(Start, lines))
  {
    var hits := HitsUpTo(rw, lines, |lines|);
    var i, j := hits[0], hits[1];
    EntriesSplit(lines, i);
    var rest := Entries(At(lines, i), lines[i..]);
    assert rest[0] == Entry(Site(At(lines, i).section, lines[i].key), lines[i].value);
    AtStep(lines, i);
    assert lines[i..][1..] == lines[i + 1..];
    EntryAfter(lines, i + 1, j);
    var es := Entries(Start, lines);
    var n := |Entries(Start, lines[..i])|;
    var k :| 0 <= k < |rest| - 1 && rest[1..][k].site == rest[0].site;
    assert es[n] == rest[0] && es[n + 1 + k] == rest[1..][k];
  }

  lemma EntryAfter(lines: seq<Line>, k: nat, j: nat)
    requires k <= j < |lines| && lines[j].Assign?
    ensures exists i :: 0 <= i < |Entries(At(lines, k), lines[k..])|
              && Entries(At(lines, k), lines[k..])[i].site == Site(At(lines, j).section, lines[j].key)
  {
    assert lines[..j] == lines[..k] + lines[k..j];
    AfterAppend(Start, lines[..k], lines[k..j]);
    assert lines[k..] == lines[k..j] + lines[j..];
    EntriesAppend(At(lines, k), lines[k..j], lines[j..]);
    var n := |Entries(At(lines, k), lines[k..j])|;
    assert Entries(At(lines, k), lines[k..])[n] == EntryOf(At(lines, j), lines[j])[0];
  }

  /** On a valid file a rewrite does something exactly when it has something to hit. */
  lemma ChangesIff(rw: Rewrite, t: Text)
    requires rw.Proper() && !Glues(rw, t) && DistinctSites(Entries(Start, t.lines))
    ensures Apply(rw, t) != t <==> HasHit(rw, Entries(Start, t.lines))
    ensures HasHit(rw, Entries(Start, t.lines)) && rw.Relocate? ==> |HitsUpTo(rw, t.lines, |t.lines|)| == 1
    ensures t.terminated ==> Apply(rw, t).terminated
  {
    var es := Entries(Start, t.lines);
    HitsAreEntries(rw, t.lines);
    if rw.Spec().Exact? {
      OneLiteralHit(rw, t.lines);
    }
    if HasHit(rw, es) {
      var e :| e in es && HitsEntry(rw, e);
      match rw
      case Relocate(_, _, _, _) =>
        RelocateShape(rw, t);
        RelocateEntries(rw, t);
      case Drop(_, _) =>
        DropEntries(rw, Start, t.lines);
        KeptMembers(rw, es);
      case _ =>
        EditEntries(rw, Start, t.lines);
        var i :| 0 <= i < |es| && es[i] == e;
        assert EditEntry(rw, es[i]) != es[i];
    }
  }

  // ---------------------------------------------------------------- when a rewrite still parses

  predicate Taken(s: Site, es: seq<Entry>, hs: seq<Head>) {
    || (exists e :: e in es && e.site == s)
    || (exists h :: h in hs && Through(s, h.table))
  }

  /** The destination of a rename or a relocation is in use already. Drops and wraps never collide. */
  predicate Collides(rw: Rewrite, es: seq<Entry>, hs: seq<Head>) {
    match rw
    case Rename(_, n, _) =>
      exists e :: e in es && HitsEntry(rw, e) && Taken(Site(e.site.section, n), es, hs)
    case Relocate(_, n, _, to) =>
      || Taken(Site(Table(to), n), es, hs)
      || (Head(to, false) !in hs
          && (Head(to, true) in hs || exists e :: e in es && !HitsEntry(rw, e) && Through(e.site, to)))
    case _ => false
  }

  /** The decoder accepts an applied rewrite exactly when nothing collides. */
  lemma ParsesIff(rw: Rewrite, t: Text)
    requires rw.Proper() && !Glues(rw, t) && Valid(t.lines) && HasHit(rw, Entries(Start, t.lines))
    ensures Valid(Apply(rw, t).lines) <==> !Collides(rw, Entries(Start, t.lines), Heads(t.lines))
  {
    ChangesIff(rw, t);
    HitsAreEntries(rw, t.lines);
    match rw
    case Rename(_, _, _) => RenameParses(rw, t);
    case Wrap(_, _, _, _) => WrapParses(rw, t);
    case Drop(_, _) => DropParses(rw, t);
    case Relocate(_, _, _, _) => RelocateParses(rw, t);
  }

  lemma BrokenFree(a: seq<Line>, b: seq<Line>)
    requires |a| == |b| && forall i :: 0 <= i < |a| ==> a[i].Broken? == b[i].Broken?
    ensures (forall l :: l in a ==> !l.Broken?) ==> (forall l :: l in b ==> !l.Broken?)
  {
    if forall l :: l in a ==> !l.Broken? {
      forall l | l in b
        ensures !l.Broken?
      {
        var i :| 0 <= i < |b| && b[i] == l;
        assert a[i] in a;
      }
    }
  }

  lemma RenameParses(rw: Rewrite, t: Text)
    requires rw.Rename? && rw.Proper() && Valid(t.lines) && Apply(rw, t).lines == EditAll(rw, Start, t.lines)
    ensures Valid(Apply(rw, t).lines) <==> !Collides(rw, Entries(Start, t.lines), Heads(t.lines))
  {
    var es, hs := Entries(Start, t.lines), Heads(t.lines);
    var es' := Entries(Start, Apply(rw, t).lines);
    EditEntries(rw, Start, t.lines);
    BrokenFree(t.lines, Apply(rw, t).lines);
    if Collides(rw, es, hs) {
      RenameClash(rw, es, es', hs);
    } else {
      RenameClear(rw, es, es', hs);
    }
  }

  lemma RenameClash(rw: Rewrite, es: seq<Entry>, es': seq<Entry>, hs: seq<Head>)
    requires rw.Rename? && rw.Proper() && Collides(rw, es, hs)
    requires |es'| == |es| && forall i :: 0 <= i < |es| ==> es'[i] == EditEntry(rw, es[i])
    ensures !(DistinctSites(es') && NoClash(es', hs))
  {
    var e :| e in es && HitsEntry(rw, e) && Taken(Site(e.site.section, rw.newKey), es, hs);
    var i :| 0 <= i < |es| && es[i] == e;
    var target := Site(e.site.section, rw.newKey);
    assert es'[i].site == target && es'[i] in es';
    if exists f :: f in es && f.site == target {
      var f :| f in es && f.site == target;
      var j :| 0 <= j < |es| && es[j] == f;
      assert es'[j].site == target && (i < j || j < i);
    }
  }

  lemma RenameClear(rw: Rewrite, es: seq<Entry>, es': seq<Entry>, hs: seq<Head>)
    requires rw.Rename? && !Collides(rw, es, hs) && DistinctSites(es) && NoClash(es, hs)
    requires |es'| == |es| && forall i :: 0 <= i < |es| ==> es'[i] == EditEntry(rw, es[i])
    ensures DistinctSites(es') && NoClash(es', hs)
  {
    forall i, j | 0 <= i < j < |es'|
      ensures es'[i].site != es'[j].site
    {
      assert es[i] in es && es[j] in es;
      assert es[i].site != es[j].site;
      assert HitsEntry(rw, es[i]) ==> !Taken(Site(es[i].site.section, rw.newKey), es, hs);
      assert HitsEntry(rw, es[j]) ==> !Taken(Site(es[j].site.section, rw.newKey), es, hs);
    }
    forall e, h | e in es' && h in hs
      ensures !Through(e.site, h.table)
    {
      var i :| 0 <= i < |es'| && es'[i] == e;
      assert es[i] in es;
      assert HitsEntry(rw, es[i]) ==> !Taken(Site(es[i].site.section, rw.newKey), es, hs);
    }
  }

  lemma WrapParses(rw: Rewrite, t: Text)
    requires rw.Wrap? && Valid(t.lines) && Apply(rw, t).lines == EditAll(rw, Start, t.lines)
    ensures Valid(Apply(rw, t).lines)
  {
    var es, hs := Entries(Start, t.lines), Heads(t.lines);
    EditEntries(rw, Start, t.lines);
    BrokenFree(t.lines, Apply(rw, t).lines);
    var es' := Entries(Start, Apply(rw, t).lines);
    assert forall i :: 0 <= i < |es'| ==> es'[i].site == es[i].site;
    forall e, h | e in es' && h in hs
      ensures !Through(e.site, h.table)
    {
      var i :| 0 <= i < |es'| && es'[i] == e;
      assert es[i] in es;
    }
  }

  lemma DropParses(rw: Rewrite, t: Text)
    requires rw.Drop? && Valid(t.lines) && Apply(rw, t).lines == DropAll(rw, Start, t.lines)
    ensures Valid(Apply(rw, t).lines)
  {
    DropEntries(rw, Start, t.lines);
    KeptMembers(rw, Entries(Start, t.lines));
  }

  lemma RelocateParses(rw: Rewrite, t: Text)
    requires rw.Relocate? && rw.Proper() && !Glues(rw, t) && Valid(t.lines)
    requires |HitsUpTo(rw, t.lines, |t.lines|)| == 1
    ensures Valid(Apply(rw, t).lines) <==> !Collides(rw, Entries(Start, t.lines), Heads(t.lines))
  {
    RelocateShape(rw, t);
    RelocateEntries(rw, t);
    RelocateBroken(rw, t);
    var es, hs := Entries(Start, t.lines), Heads(t.lines);
    var es', hs' := Entries(Start, Apply(rw, t).lines), Heads(Apply(rw, t).lines);
    var hit, moved := HitEntry(rw, t.lines), MovedEntry(rw, t.lines);
    OnlyHit(rw, es, hit);
    if Collides(rw, es, hs) {
      RelocateClash(rw, es, hs, es', hs', hit, moved);
    } else {
      RelocateClear(rw, es, hs, es', hs', hit, moved);
    }
  }

  lemma OnlyHit(rw: Rewrite, es: seq<Entry>, hit: Entry)
    requires rw.Relocate? && DistinctSites(es) && hit in es && HitsEntry(rw, hit)
    ensures forall e :: e in es && HitsEntry(rw, e) ==> e == hit
  {
    forall e | e in es && HitsEntry(rw, e)
      ensures e == hit
    {
      var i :| 0 <= i < |es| && es[i] == e;
      var j :| 0 <= j < |es| && es[j] == hit;
    }
  }

  lemma RelocateClear(rw: Rewrite, es: seq<Entry>, hs: seq<Head>, es': seq<Entry>, hs': seq<Head>, hit: Entry, moved: Entry)
    requires rw.Relocate? && !Collides(rw, es, hs)
    requires moved.site == Site(Table(rw.to), rw.newKey)
    requires forall e :: e in es && HitsEntry(rw, e) ==> e == hit
    requires Moved(rw.to, es, hs, es', hs', hit, moved)
    requires DistinctHeads(hs) && NoClash(es, hs)
    ensures DistinctSites(es') && DistinctHeads(hs') && NoClash(es', hs')
  {
    if hs' != hs {
      RelocateNewHead(hs, rw.to);
    }
    assert !Taken(moved.site, es, hs);
    forall e, h | e in es' && h in hs'
      ensures !Through(e.site, h.table)
    {
      if h !in hs {
        assert h == Head(rw.to, false);
        assert e != moved ==> !HitsEntry(rw, e);
      }
    }
  }

  lemma RelocateNewHead(hs: seq<Head>, to: Path)
    requires DistinctHeads(hs) && Head(to, false) !in hs
    ensures DistinctHeads(hs + [Head(to, false)]) <==> Head(to, true) !in hs
  {
    var hs' := hs + [Head(to, false)];
    if Head(to, true) in hs {
      var i :| 0 <= i < |hs| && hs[i] == Head(to, true);
      assert hs'[i] == hs[i] && hs'[|hs|] == Head(to, false);
    }
    forall i | 0 <= i < |hs| && hs[i].table == to
      ensures hs[i] == Head(to, true) && hs[i] in hs
    {
      assert hs[i] in hs;
    }
  }

  lemma RelocateClash(rw: Rewrite, es: seq<Entry>, hs: seq<Head>, es': seq<Entry>, hs': seq<Head>, hit: Entry, moved: Entry)
    requires rw.Relocate? && Collides(rw, es, hs)
    requires moved.site == Site(Table(rw.to), rw.newKey) && hit.site != moved.site && HitsEntry(rw, hit)
    requires Moved(rw.to, es, hs, es', hs', hit, moved)
    ensures !(DistinctSites(es') && DistinctHeads(hs') && NoClash(es', hs'))
  {
    if h :| h in hs && Through(moved.site, h.table) {
      assert moved in es' && h in hs';
    } else if e :| e in es && e.site == moved.site {
      assert e != hit;
    } else if Head(rw.to, true) in hs {
      assert Head(rw.to, true) in hs';
      var i :| 0 <= i < |hs'| && hs'[i] == Head(rw.to, true);
      var j :| 0 <= j < |hs'| && hs'[j] == Head(rw.to, false);
      assert i < j || j < i;
    } else {
      var e :| e in es && !HitsEntry(rw, e) && Through(e.site, rw.to);
      assert e in es' && Head(rw.to, false) in hs';
    }
  }

  lemma RelocateBroken(rw: Rewrite, t: Text)
    requires rw.Relocate? && rw.Proper() && !Glues(rw, t) && |HitsUpTo(rw, t.lines, |t.lines|)| == 1
    requires forall l :: l in t.lines ==> !l.Broken?
    ensures forall l :: l in Apply(rw, t).lines ==> !l.Broken?
  {
    RelocateShape(rw, t);
    var base := Without(t.lines, HitIndex(rw, t.lines));
    assert forall l :: l in base ==> l in t.lines;
  }

  // ---------------------------------------------------------------- the document after a rewrite

  /** The binding a rewrite promises at `s`: the value under its new name or place, nothing under the
      old one, the wrapped list, and everything else as it was. */
  function Expected(rw: Rewrite, d: Doc, s: Site): Option<Value> {
    match rw
    case Rename(k, n, table) =>
      if Matches(table, s.section) && s.key == n && Site(s.section, k) in d.values then Lookup(d, Site(s.section, k))
      else if Matches(table, s.section) && s.key == k then None
      else Lookup(d, s)
    case Drop(k, table) =>
      if Matches(table, s.section) && s.key == k then None else Lookup(d, s)
    case Relocate(k, n, from, to) =>
      if s == Site(Table(to), n) then Lookup(d, Site(Table(from), k))
      else if s == Site(Table(from), k) then None
      else Lookup(d, s)
    case Wrap(_, _, _, _) =>
      if s in d.values && HitsEntry(rw, Entry(s, d.values[s])) then Some(StrList([d.values[s].text])) else Lookup(d, s)
  }

  /** The table a relocation declares, if the file does not yet. */
  function NewHeads(rw: Rewrite, heads: multiset<Head>): multiset<Head> {
    if rw.Relocate? && Head(rw.to, false) !in heads then multiset{Head(rw.to, false)} else multiset{}
  }

  lemma FindExpected(rw: Rewrite, t: Text, s: Site)
    requires rw.Proper() && !Glues(rw, t) && Valid(t.lines)
    requires Apply(rw, t) != t && Valid(Apply(rw, t).lines)
    ensures Find(Entries(Start, Apply(rw, t).lines), s) == Expected(rw, DocOf(t.lines), s)
  {
    var es, es' := Entries(Start, t.lines), Entries(Start, Apply(rw, t).lines);
    var d := DocOf(t.lines);
    ChangesIff(rw, t);
    match rw
    case Relocate(_, _, _, _) =>
      RelocateEntries(rw, t);
      RelocatedLookup(rw, es, es', HitEntry(rw, t.lines), d, s);
    case Drop(_, _) =>
      DropEntries(rw, Start, t.lines);
      KeptMembers(rw, es);
      DroppedLookup(rw, es, es', s);
    case Rename(_, _, _) =>
      EditEntries(rw, Start, t.lines);
      RenamedLookup(rw, es, es', d, s);
    case Wrap(_, _, _, _) =>
      EditEntries(rw, Start, t.lines);
      WrappedLookup(rw, es, es', d, s);
  }

  /** The lines that are no assignments stay, in order, but for the header of a new destination table behind them;
      so do the tables declared. */
  lemma HeadsKept(rw: Rewrite, t: Text)
    requires rw.Proper() && !Glues(rw, t) && DistinctSites(Entries(Start, t.lines)) && Apply(rw, t) != t
    ensures var isNew := rw.Relocate? && Head(rw.to, false) !in Heads(t.lines);
            Frame(Apply(rw, t).lines) == Frame(t.lines) + if isNew then [Header(rw.to, "")] else []
    ensures !rw.Relocate? ==> Heads(Apply(rw, t).lines) == Heads(t.lines)
    ensures multiset(Heads(Apply(rw, t).lines)) == multiset(Heads(t.lines)) + NewHeads(rw, multiset(Heads(t.lines)))
  {
    ChangesIff(rw, t);
    match rw
    case Relocate(_, _, _, _) =>
      RelocateHeads(rw, t);
      RelocateFrame(rw, t);
    case Drop(_, _) => DropEntries(rw, Start, t.lines);
    case _ => EditEntries(rw, Start, t.lines);
  }

  lemma RelocateHeads(rw: Rewrite, t: Text)
    requires rw.Relocate? && !Glues(rw, t) && |HitsUpTo(rw, t.lines, |t.lines|)| == 1
    requires DistinctSites(Entries(Start, t.lines))
    ensures multiset(Heads(Apply(rw, t).lines)) == multiset(Heads(t.lines)) + NewHeads(rw, multiset(Heads(t.lines)))
  {
    RelocateEntries(rw, t);
  }

  lemma {:induction false} RelocateFrame(rw: Rewrite, t: Text)
    requires rw.Relocate? && !Glues(rw, t) && |HitsUpTo(rw, t.lines, |t.lines|)| == 1
    requires DistinctSites(Entries(Start, t.lines))
    ensures Frame(Apply(rw, t).lines) == Frame(t.lines) + if Head(rw.to, false) in Heads(t.lines) then [] else [Header(rw.to, "")]
  {
    RelocateShape(rw, t);
    FrameMoved(rw, t.lines, HitIndex(rw, t.lines), Without(t.lines, HitIndex(rw, t.lines)), Apply(rw, t).lines);
  }

  lemma {:induction false} FrameMoved(rw: Rewrite, lines: seq<Line>, h: nat, base: seq<Line>, r: seq<Line>)
    requires rw.Relocate? && h < |lines| && lines[h].Assign? && base == Without(lines, h)
    requires r == match Dest(rw.to, base)
                  case None => base + [Header(rw.to, ""), MovedLine(rw, lines[h])]
                  case Some(d) => if d < |base| then base[..d + 1] + [MovedLine(rw, lines[h])] + base[d + 1..] else []
    ensures Frame(r) == Frame(lines) + if Head(rw.to, false) in Heads(lines) then [] else [Header(rw.to, "")]
  {
    CutEntries(lines, h);
    FramePutBack(rw, base, MovedLine(rw, lines[h]), r);
  }

  lemma {:induction false} FramePutBack(rw: Rewrite, base: seq<Line>, m: Line, r: seq<Line>)
    requires rw.Relocate? && m.Assign?
    requires r == match Dest(rw.to, base)
                  case None => base + [Header(rw.to, ""), m]
                  case Some(d) => if d < |base| then base[..d + 1] + [m] + base[d + 1..] else []
    ensures Frame(r) == if Head(rw.to, false) in Heads(base) then Frame(base) else Frame(base) + [Header(rw.to, "")]
  {
    DestMeans(rw.to, base, |base|);
    assert base[..|base|] == base;
    match Dest(rw.to, base)
    case None =>
      FramePutAtEnd(base, Header(rw.to, ""), m, r);
    case Some(d) =>
      TableHasHead(base, d + 1, rw.to);
      FramePutIn(base[..d + 1], m, base[d + 1..], base, r);
  }

  lemma {:induction false} FramePutAtEnd(base: seq<Line>, h: Line, m: Line, r: seq<Line>)
    requires h.Header? && m.Assign? && r == base + [h, m]
    ensures Frame(r) == Frame(base) + [h]
  {
    FrameAppend(base, [h, m]);
    assert [h, m][1..] == [m];
    FrameOne(m);
  }

  /** One assignment among other lines leaves no mark on them. */
  lemma {:induction false} FramePutIn(a: seq<Line>, m: Line, b: seq<Line>, base: seq<Line>, r: seq<Line>)
    requires m.Assign? && base == a + b && r == a + [m] + b
    ensures Frame(r) == Frame(base)
  {
    FrameAppend(a + [m], b);
    FrameAppend(a, [m]);
    FrameAppend(a, b);
    FrameOne(m);
  }

  lemma FrameOne(m: Line)
    requires m.Assign?
    ensures Frame([m]) == []
  {
    assert [m][1..] == [];
  }

  /** An adopted rewrite changes just the binding it is for. */
  lemma MeaningKept(rw: Rewrite, t: Text)
    requires rw.Proper() && !Glues(rw, t) && Valid(t.lines)
    requires Apply(rw, t) != t && Valid(Apply(rw, t).lines)
    ensures forall s :: Lookup(DocOf(Apply(rw, t).lines), s) == Expected(rw, DocOf(t.lines), s)
    ensures DocOf(Apply(rw, t).lines).heads == DocOf(t.lines).heads + NewHeads(rw, DocOf(t.lines).heads)
  {
    HeadsKept(rw, t);
    forall s
      ensures Lookup(DocOf(Apply(rw, t).lines), s) == Expected(rw, DocOf(t.lines), s)
    {
      FindExpected(rw, t, s);
    }
  }

  lemma RelocatedLookup(rw: Rewrite, es: seq<Entry>, es': seq<Entry>, hit: Entry, d: Doc, s: Site)
    requires rw.Relocate? && rw.Proper() && DistinctSites(es) && DistinctSites(es') && hit in es
    requires hit.site == Site(Table(rw.from), rw.key)
    requires forall e :: e in es' <==> e == Entry(Site(Table(rw.to), rw.newKey), hit.value) || (e in es && e != hit)
    requires d.values == ValuesOf(es)
    ensures Find(es', s) == Expected(rw, d, s)
  {
    FindIff(es, hit.site, hit.value);
    FindIff(es', Site(Table(rw.to), rw.newKey), hit.value);
    SameFind(es, es', s, s != hit.site && s != Site(Table(rw.to), rw.newKey));
    if s == hit.site && Find(es', s).Some? {
      var v := Find(es', s).value;
      FindIff(es', s, v);
      FindIff(es, s, v);
    }
  }

  /** Two files agree at a site where they have the same entries. */
  lemma SameFind(es: seq<Entry>, es': seq<Entry>, s: Site, same: bool)
    requires DistinctSites(es) && DistinctSites(es')
    requires same ==> forall v :: Entry(s, v) in es <==> Entry(s, v) in es'
    ensures same ==> Find(es, s) == Find(es', s)
  {
    if same {
      if Find(es, s).Some? {
        FindIff(es, s, Find(es, s).value);
        FindIff(es', s, Find(es, s).value);
      } else if Find(es', s).Some? {
        FindIff(es, s, Find(es', s).value);
        FindIff(es', s, Find(es', s).value);
      }
    }
  }

  lemma DroppedLookup(rw: Rewrite, es: seq<Entry>, es': seq<Entry>, s: Site)
    requires rw.Drop? && DistinctSites(es) && DistinctSites(es')
    requires forall e :: e in es' <==> e in es && !HitsEntry(rw, e)
    ensures Find(es', s) == if Matches(rw.table, s.section) && s.key == rw.key then None else Find(es, s)
  {
    SameFind(es, es', s, !(Matches(rw.table, s.section) && s.key == rw.key));
    if Find(es', s).Some? {
      FindIff(es', s, Find(es', s).value);
    }
  }

  ghost predicate Edited(rw: Rewrite, es: seq<Entry>, es': seq<Entry>) {
    && DistinctSites(es)
    && DistinctSites(es')
    && |es'| == |es|
    && forall i :: 0 <= i < |es| ==> es'[i] == EditEntry(rw, es[i])
  }

  lemma RenamedAway(rw: Rewrite, es: seq<Entry>, es': seq<Entry>, s: Site)
    requires rw.Rename? && rw.Proper() && Edited(rw, es, es')
    requires Matches(rw.table, s.section) && s.key == rw.key
    ensures Find(es', s).None?
  {
    var e := EditedBack(rw, es, es', s);
  }

  lemma RenamedTo(rw: Rewrite, es: seq<Entry>, es': seq<Entry>, s: Site)
    requires rw.Rename? && rw.Proper() && Edited(rw, es, es')
    requires Matches(rw.table, s.section) && s.key == rw.newKey && Find(es, Site(s.section, rw.key)).Some?
    ensures Find(es', s) == Find(es, Site(s.section, rw.key))
  {
    EditedForward(rw, es, es', Site(s.section, rw.key));
  }

  lemma NotRenamed(rw: Rewrite, es: seq<Entry>, es': seq<Entry>, s: Site)
    requires rw.Rename? && rw.Proper() && Edited(rw, es, es')
    requires Matches(rw.table, s.section) ==> s.key != rw.key && (s.key == rw.newKey ==> Find(es, Site(s.section, rw.key)).None?)
    ensures Find(es', s) == Find(es, s)
  {
    EditedForward(rw, es, es', s);
    var e := EditedBack(rw, es, es', s);
  }

  lemma RenamedLookup(rw: Rewrite, es: seq<Entry>, es': seq<Entry>, d: Doc, s: Site)
    requires rw.Rename? && rw.Proper() && Edited(rw, es, es')
    requires d.values == ValuesOf(es)
    ensures Find(es', s) == Expected(rw, d, s)
  {
    if Matches(rw.table, s.section) && s.key == rw.newKey && Find(es, Site(s.section, rw.key)).Some? {
      RenamedTo(rw, es, es', s);
    } else if Matches(rw.table, s.section) && s.key == rw.key {
      RenamedAway(rw, es, es', s);
    } else {
      NotRenamed(rw, es, es', s);
    }
  }

  lemma WrappedLookup(rw: Rewrite, es: seq<Entry>, es': seq<Entry>, d: Doc, s: Site)
    requires rw.Wrap? && Edited(rw, es, es')
    requires d.values == ValuesOf(es)
    ensures Find(es', s) == Expected(rw, d, s)
  {
    EditedForward(rw, es, es', s);
    var e := EditedBack(rw, es, es', s);
  }

  lemma EditedForward(rw: Rewrite, es: seq<Entry>, es': seq<Entry>, s: Site)
    requires Edited(rw, es, es')
    ensures Find(es, s).Some? ==>
            var e := EditEntry(rw, Entry(s, Find(es, s).value)); Find(es', e.site) == Some(e.value)
  {
    if Find(es, s).Some? {
      var e := Entry(s, Find(es, s).value);
      FindIff(es, s, e.value);
      var i :| 0 <= i < |es| && es[i] == e;
      assert es'[i] == EditEntry(rw, e);
      FindIff(es', es'[i].site, es'[i].value);
    }
  }

  lemma EditedBack(rw: Rewrite, es: seq<Entry>, es': seq<Entry>, s: Site) returns (e: Entry)
    requires Edited(rw, es, es')
    ensures Find(es', s).Some? ==>
            EditEntry(rw, e) == Entry(s, Find(es', s).value) && Find(es, e.site) == Some(e.value)
  {
    e := Entry(s, Int(0));
    if Find(es', s).Some? {
      FindIff(es', s, Find(es', s).value);
      var i :| 0 <= i < |es'| && es'[i] == Entry(s, Find(es', s).value);
      e := es[i];
      FindIff(es, e.site, e.value);
    }
  }
}
