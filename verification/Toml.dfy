/** The line-oriented fragment of TOML (v1.0.0, sections "Keys", "Table" and
    "Array of Tables") that the migration rewriter edits: headers, single-line
    bare-key assignments, comments and blank lines. `Parse` plays the part of
    `tomllib.loads`: `None` is its decode error. */
module Toml {
  import opened Wrappers

  type Path = seq<string>

  datatype Value = Str(text: string) | StrList(items: seq<string>) | Int(n: int) | Token(text: string)

  /** One line without its newline. `sp` is the equals sign with the spaces around it. A `comment`
      starts with '#' or is empty. `Broken` is a line the decoder rejects. */
  datatype Line =
    | Header(table: Path, comment: string)
    | ElementHeader(table: Path, comment: string)
    | Assign(indent: string, key: string, sp: string, value: Value, comment: string)
    | Blank(ws: string)
    | Comment(text: string)
    | Broken(text: string)
  {
    predicate IsHeader() {
      Header? || ElementHeader?
    }
  }

  /** A file. Every line but the last ends in a newline; `terminated` says whether the last does. */
  datatype Text = Text(lines: seq<Line>, terminated: bool)

  /** The place an assignment binds in: the top level, a `[table]`, or one element of a `[[table]]`, by its
      place among the elements of that array. */
  datatype Section = Top | Table(path: Path) | Element(path: Path, ordinal: nat)

  datatype Site = Site(section: Section, key: string)

  datatype Entry = Entry(site: Site, value: Value)

  datatype Head = Head(table: Path, element: bool)

  /** The reader's state between two lines: where it binds, and the elements read so far, array by array. */
  datatype Cursor = Cursor(section: Section, elements: multiset<Path>)

  const Start := Cursor(Top, multiset{})

  function Next(c: Cursor, line: Line): Cursor {
    match line
    case Header(t, _) => c.(section := Table(t))
    case ElementHeader(t, _) => Cursor(Element(t, c.elements[t]), c.elements + multiset{t})
    case _ => c
  }

  function After(c: Cursor, lines: seq<Line>): Cursor
    decreases lines
  {
    if lines == [] then c else After(Next(c, lines[0]), lines[1..])
  }

  function EntryOf(c: Cursor, line: Line): seq<Entry> {
    if line.Assign? then [Entry(Site(c.section, line.key), line.value)] else []
  }

  function Entries(c: Cursor, lines: seq<Line>): seq<Entry>
    decreases lines
  {
    if lines == [] then [] else EntryOf(c, lines[0]) + Entries(Next(c, lines[0]), lines[1..])
  }

  function HeadOf(line: Line): seq<Head> {
    if line.IsHeader() then [Head(line.table, line.ElementHeader?)] else []
  }

  function Heads(lines: seq<Line>): seq<Head> {
    if lines == [] then [] else HeadOf(lines[0]) + Heads(lines[1..])
  }

  predicate DistinctSites(es: seq<Entry>) {
    forall i, j :: 0 <= i < j < |es| ==> es[i].site != es[j].site
  }

  /** A table is declared once; only `[[t]]` may repeat, and then never beside `[t]`. */
  predicate DistinctHeads(hs: seq<Head>) {
    forall i, j :: 0 <= i < j < |hs| && hs[i].table == hs[j].table ==> hs[i].element && hs[j].element
  }

  /** A bound key is not also a table: `h` does not run through the path `s` binds. */
  predicate Through(s: Site, h: Path) {
    match s.section
    case Top => [s.key] <= h
    case Table(p) => p + [s.key] <= h
    case Element(_, _) => false
  }

  predicate NoClash(es: seq<Entry>, hs: seq<Head>) {
    forall e, h :: e in es && h in hs ==> !Through(e.site, h.table)
  }

  predicate Valid(lines: seq<Line>) {
    && (forall l :: l in lines ==> !l.Broken?)
    && DistinctSites(Entries(Start, lines))
    && DistinctHeads(Heads(lines))
    && NoClash(Entries(Start, lines), Heads(lines))
  }

  /** What a file means: the tables it declares, an array's once for each element, and its bindings. */
  datatype Doc = Doc(heads: multiset<Head>, values: map<Site, Value>)

  function ValuesOf(es: seq<Entry>): map<Site, Value>
    requires DistinctSites(es)
  {
    map i | 0 <= i < |es| :: es[i].site := es[i].value
  }

  function Find(es: seq<Entry>, s: Site): Option<Value>
    requires DistinctSites(es)
  {
    if s in ValuesOf(es) then Some(ValuesOf(es)[s]) else None
  }

  /** What is bound is what some line binds. */
  lemma FindIff(es: seq<Entry>, s: Site, v: Value)
    requires DistinctSites(es)
    ensures Find(es, s) == Some(v) <==> Entry(s, v) in es
  {
    var m := ValuesOf(es);
    assert forall i :: 0 <= i < |es| ==> es[i].site in m && m[es[i].site] == es[i].value;
    if Find(es, s) == Some(v) {
      var i :| 0 <= i < |es| && es[i].site == s;
      assert es[i] == Entry(s, v);
    }
  }

  function DocOf(lines: seq<Line>): Doc
    requires Valid(lines)
  {
    Doc(multiset(Heads(lines)), ValuesOf(Entries(Start, lines)))
  }

  function Parse(lines: seq<Line>): Option<Doc> {
    if Valid(lines) then Some(DocOf(lines)) else None
  }

  function Lookup(d: Doc, s: Site): Option<Value> {
    if s in d.values then Some(d.values[s]) else None
  }

  /** Everything that is not an assignment, in file order. */
  function Frame(lines: seq<Line>): seq<Line> {
    if lines == [] then [] else (if lines[0].Assign? then [] else [lines[0]]) + Frame(lines[1..])
  }

  // Reading a file in two halves.

  lemma {:induction false} AfterAppend(c: Cursor, a: seq<Line>, b: seq<Line>)
    ensures After(c, a + b) == After(After(c, a), b)
    decreases a
  {
    if a == [] {
      assert a + b == b;
    } else {
      assert (a + b)[1..] == a[1..] + b;
      AfterAppend(Next(c, a[0]), a[1..], b);
    }
  }

  lemma {:induction false} EntriesAppend(c: Cursor, a: seq<Line>, b: seq<Line>)
    ensures Entries(c, a + b) == Entries(c, a) + Entries(After(c, a), b)
    decreases a
  {
    if a == [] {
      assert a + b == b;
    } else {
      assert (a + b)[1..] == a[1..] + b;
      EntriesAppend(Next(c, a[0]), a[1..], b);
    }
  }

  lemma {:induction false} HeadsAppend(a: seq<Line>, b: seq<Line>)
    ensures Heads(a + b) == Heads(a) + Heads(b)
  {
    if a == [] {
      assert a + b == b;
    } else {
      assert (a + b)[1..] == a[1..] + b;
      HeadsAppend(a[1..], b);
    }
  }

  lemma {:induction false} FrameAppend(a: seq<Line>, b: seq<Line>)
    ensures Frame(a + b) == Frame(a) + Frame(b)
  {
    if a == [] {
      assert a + b == b;
    } else {
      assert (a + b)[1..] == a[1..] + b;
      FrameAppend(a[1..], b);
    }
  }

  /** The cursor the reader holds when it reaches line `i`. */
  function At(lines: seq<Line>, i: nat): Cursor
    requires i <= |lines|
  {
    After(Start, lines[..i])
  }

  lemma AtStep(lines: seq<Line>, i: nat)
    requires i < |lines|
    ensures At(lines, i + 1) == Next(At(lines, i), lines[i])
  {
    assert lines[..i + 1] == lines[..i] + [lines[i]];
    AfterAppend(Start, lines[..i], [lines[i]]);
  }

  /** The entries of a file, cut at line `i`. */
  lemma EntriesSplit(lines: seq<Line>, i: nat)
    requires i <= |lines|
    ensures Entries(Start, lines) == Entries(Start, lines[..i]) + Entries(At(lines, i), lines[i..])
  {
    assert lines == lines[..i] + lines[i..];
    EntriesAppend(Start, lines[..i], lines[i..]);
  }

  /** An entry of the file sits on a line of it. */
  lemma {:induction false} EntryLine(lines: seq<Line>, e: Entry) returns (i: nat)
    requires e in Entries(Start, lines)
    ensures i < |lines| && EntryOf(At(lines, i), lines[i]) == [e]
  {
    i := EntryLineFrom(lines, 0, e);
  }

  lemma {:induction false} EntryLineFrom(lines: seq<Line>, k: nat, e: Entry) returns (i: nat)
    requires k <= |lines| && e in Entries(At(lines, k), lines[k..])
    ensures k <= i < |lines| && EntryOf(At(lines, i), lines[i]) == [e]
    decreases |lines| - k
  {
    if e in EntryOf(At(lines, k), lines[k]) {
      i := k;
    } else {
      AtStep(lines, k);
      assert lines[k..][1..] == lines[k + 1..];
      i := EntryLineFrom(lines, k + 1, e);
    }
  }

  lemma LineEntry(lines: seq<Line>, i: nat)
    requires i < |lines| && lines[i].Assign?
    ensures Entry(Site(At(lines, i).section, lines[i].key), lines[i].value) in Entries(Start, lines)
  {
    EntriesSplit(lines, i);
  }
}
