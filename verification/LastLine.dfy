/** When a relocation would run two lines into one, in terms of the file's last line and last table, and how far
    a rewrite that ends no line can change that. */
module LastLine {
  import opened Wrappers
  import opened Toml
  import opened Rewrites
  import opened RewriteMeaning
  import opened Migrations
  import opened MigrationFixpoint
  import opened MissingNewline

  /** Where the file ends. */
  function EndSection(lines: seq<Line>): Section {
    After(Start, lines).section
  }

  /** The rewrite hits the last line. */
  predicate HitsEnd(rw: Rewrite, lines: seq<Line>) {
    lines != [] && HitsLine(rw, EndSection(lines), lines[|lines| - 1])
  }

  lemma HitsEndIs(rw: Rewrite, lines: seq<Line>)
    requires lines != []
    ensures HitsEnd(rw, lines) <==> HitAt(rw, lines, |lines| - 1)
  {
    AtStep(lines, |lines| - 1);
    assert lines[..|lines|] == lines;
  }

  lemma EndPut(a: seq<Line>, line: Line, b: seq<Line>, all: seq<Line>, rest: seq<Line>)
    requires line.Assign? && all == a + [line] + b && rest == a + b
    ensures EndSection(all) == EndSection(rest)
  {
    assert a + [line] + b == a + ([line] + b);
    assert ([line] + b)[1..] == b;
    AfterAppend(Start, a, [line] + b);
    AfterAppend(Start, a, b);
  }

  lemma EndWithout(lines: seq<Line>, h: nat)
    requires h < |lines| && lines[h].Assign?
    ensures EndSection(Without(lines, h)) == EndSection(lines)
  {
    assert lines == lines[..h] + [lines[h]] + lines[h + 1..];
    EndPut(lines[..h], lines[h], lines[h + 1..], lines, Without(lines, h));
  }

  /** A table that a stretch of lines ends in was opened there or before. */
  lemma {:induction false} EndHead(c: Cursor, lines: seq<Line>, to: Path)
    ensures After(c, lines).section == Table(to) ==> c.section == Table(to) || Head(to, false) in Heads(lines)
    decreases lines
  {
    if lines != [] {
      EndHead(Next(c, lines[0]), lines[1..], to);
    }
  }

  /** No file that parses opens a table twice. */
  lemma NotTwice(front: seq<Line>, rest: seq<Line>, all: seq<Line>, to: Path)
    requires all == front + rest && rest != [] && rest[0].IsHeader() && DistinctHeads(Heads(all))
    requires EndSection(front) == Table(to)
    ensures EndSection(all) != Table(to)
  {
    if EndSection(all) == Table(to) {
      AfterAppend(Start, front, rest);
      EndHead(Start, front, to);
      EndHead(Next(After(Start, front), rest[0]), rest[1..], to);
      HeadsAppend(front, rest);
      assert Head(to, false) in Heads(front) && Head(to, false) in Heads(rest);
      TwiceHeads(Heads(front), Heads(rest), Head(to, false));
      assert false;
    }
  }

  lemma TwiceHeads(a: seq<Head>, b: seq<Head>, h: Head)
    requires h in a && h in b && !h.element
    ensures !DistinctHeads(a + b)
  {
    var i :| 0 <= i < |a| && a[i] == h;
    var j :| 0 <= j < |b| && b[j] == h;
    assert (a + b)[i] == h && (a + b)[|a| + j] == h;
  }

  lemma DestEnds(to: Path, base: seq<Line>, d: nat)
    requires Dest(to, base) == Some(d)
    ensures d < |base| && EndSection(base[..d + 1]) == Table(to) && (d + 1 < |base| ==> base[d + 1].IsHeader())
  {
    DestMeans(to, base, |base|);
  }

  /** The scan finds `[to]` at the end of the file exactly if the file ends in that table. */
  lemma DestAtEnd(to: Path, base: seq<Line>, d: nat)
    requires DistinctHeads(Heads(base)) && Dest(to, base) == Some(d)
    ensures d + 1 == |base| <==> EndSection(base) == Table(to)
  {
    DestEnds(to, base, d);
    if d + 1 < |base| {
      assert base == base[..d + 1] + base[d + 1..];
      NotTwice(base[..d + 1], base[d + 1..], base, to);
    } else {
      assert base[..d + 1] == base;
    }
  }

  lemma DestIff(to: Path, base: seq<Line>)
    ensures Dest(to, base).Some? <==> Head(to, false) in Heads(base)
  {
    DestMeans(to, base, |base|);
    assert base[..|base|] == base;
    if Dest(to, base).Some? {
      TableHasHead(base, Dest(to, base).value + 1, to);
    }
  }

  /** A relocation glues if and only if the file's last line is not ended, there is something to move and a table to move
      it to, and that line is the one to move or that table the last one. */
  lemma GluesIff(rw: Rewrite, t: Text)
    requires rw.Proper() && rw.Relocate? && Valid(t.lines)
    ensures Glues(rw, t) <==>
              && !t.terminated && HasHit(rw, Entries(Start, t.lines)) && Head(rw.to, false) in Heads(t.lines)
              && (HitsEnd(rw, t.lines) || EndSection(t.lines) == Table(rw.to))
  {
    OneLiteralHit(rw, t.lines);
    HitsAreEntries(rw, t.lines);
    if |HitsUpTo(rw, t.lines, |t.lines|)| == 1 {
      GluesWhere(rw, t, HitIndex(rw, t.lines), Without(t.lines, HitIndex(rw, t.lines)));
    }
  }

  lemma GluesWhere(rw: Rewrite, t: Text, h: nat, base: seq<Line>)
    requires rw.Proper() && rw.Relocate? && Valid(t.lines)
    requires |HitsUpTo(rw, t.lines, |t.lines|)| == 1 && h == HitIndex(rw, t.lines) && base == Without(t.lines, h)
    ensures Glues(rw, t) <==>
              !t.terminated && Head(rw.to, false) in Heads(t.lines) && (HitsEnd(rw, t.lines) || EndSection(t.lines) == Table(rw.to))
  {
    CutEntries(t.lines, h);
    EndWithout(t.lines, h);
    DestIff(rw.to, base);
    OnlyLast(rw, t.lines, h);
    if h + 1 == |t.lines| {
      EndsInFrom(rw, t.lines);
    }
    if Dest(rw.to, base).Some? {
      DestAtEnd(rw.to, base, Dest(rw.to, base).value);
      DestEnds(rw.to, base, Dest(rw.to, base).value);
    }
  }

  lemma OnlyLast(rw: Rewrite, lines: seq<Line>, h: nat)
    requires |HitsUpTo(rw, lines, |lines|)| == 1 && h == HitIndex(rw, lines)
    ensures HitsEnd(rw, lines) <==> h + 1 == |lines|
  {
    HitsEndIs(rw, lines);
    var hits := HitsUpTo(rw, lines, |lines|);
    if HitAt(rw, lines, |lines| - 1) {
      assert |lines| - 1 in hits;
    }
  }

  lemma EndsInFrom(rw: Rewrite, lines: seq<Line>)
    requires rw.Relocate? && HitsEnd(rw, lines)
    ensures EndSection(lines) == Table(rw.from)
  {
  }

  // ---------------------------------------------------------------- what a rewrite does to the end of the file

  lemma {:induction false} EditEnd(rw: Rewrite, c: Cursor, lines: seq<Line>)
    requires rw.Rename? || rw.Wrap?
    ensures After(c, EditAll(rw, c, lines)) == After(c, lines)
    decreases lines
  {
    if lines != [] {
      EditEnd(rw, Next(c, lines[0]), lines[1..]);
      var r := EditAll(rw, c, lines);
      assert r[1..] == EditAll(rw, Next(c, lines[0]), lines[1..]);
    }
  }

  lemma {:induction false} DropEnd(rw: Rewrite, c: Cursor, lines: seq<Line>)
    requires rw.Drop?
    ensures After(c, DropAll(rw, c, lines)) == After(c, lines)
    decreases lines
  {
    if lines != [] {
      DropEnd(rw, Next(c, lines[0]), lines[1..]);
      var rest := DropAll(rw, Next(c, lines[0]), lines[1..]);
      assert ([lines[0]] + rest)[1..] == rest;
      assert [] + rest == rest;
    }
  }

  lemma {:induction false} DropLast(rw: Rewrite, c: Cursor, lines: seq<Line>)
    requires rw.Drop? && lines != [] && !HitsLine(rw, After(c, lines).section, lines[|lines| - 1])
    ensures var r := DropAll(rw, c, lines); r != [] && r[|r| - 1] == lines[|lines| - 1]
    decreases lines
  {
    if |lines| > 1 {
      DropLast(rw, Next(c, lines[0]), lines[1..]);
    } else {
      assert lines[1..] == [];
    }
  }

  /** The end of the file stays as it was. */
  ghost predicate EndKept(lines: seq<Line>, lines': seq<Line>, rw: Rewrite) {
    && EndSection(lines') == EndSection(lines)
    && (!HitsEnd(rw, lines) ==> lines != [] && lines' != [] && lines'[|lines'| - 1] == lines[|lines| - 1])
  }

  lemma EditKeepsEnd(rw: Rewrite, t: Text)
    requires (rw.Rename? || rw.Wrap?) && t.lines != []
    ensures EndKept(t.lines, EditAll(rw, Start, t.lines), rw)
  {
    EditEnd(rw, Start, t.lines);
    EditIndex(rw, Start, t.lines, |t.lines| - 1);
    HitsEndIs(rw, t.lines);
  }

  lemma DropKeepsEnd(rw: Rewrite, t: Text)
    requires rw.Drop? && t.lines != [] && !HitsEnd(rw, t.lines)
    ensures EndKept(t.lines, DropAll(rw, Start, t.lines), rw)
  {
    DropEnd(rw, Start, t.lines);
    DropLast(rw, Start, t.lines);
  }

  lemma MoveKeepsEnd(rw: Rewrite, lines: seq<Line>, h: nat, base: seq<Line>, k: nat, m: Line, r: seq<Line>)
    requires h + 1 < |lines| && lines[h].Assign? && base == Without(lines, h) && k < |base| && m.Assign?
    requires r == base[..k] + [m] + base[k..]
    ensures EndSection(r) == EndSection(lines) && r[|r| - 1] == lines[|lines| - 1]
  {
    EndWithout(lines, h);
    assert base == base[..k] + base[k..];
    EndPut(base[..k], m, base[k..], r, base);
  }
}
