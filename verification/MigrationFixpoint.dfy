/** The migration run comes to rest after one rewriting pass, and its output is a fixpoint. The argument
    needs the registry's rewrites to keep out of each other's way; those of the program do, as
    `MigrationRegistry` shows. */
module MigrationFixpoint {
  import opened Wrappers
  import opened Toml
  import opened Rewrites
  import opened RewriteMeaning
  import opened Migrations

  /** The keys a rewrite looks for, whatever their value. */
  predicate Slot(rw: Rewrite, s: Site) {
    Matches(rw.Spec(), s.section) && s.key == rw.key
  }

  /** The sites a rewrite writes to. */
  predicate Target(rw: Rewrite, s: Site) {
    match rw
    case Rename(_, n, table) => Matches(table, s.section) && s.key == n
    case Relocate(_, n, _, to) => s == Site(Table(to), n)
    case _ => false
  }

  /** `b` does not look where `a` writes or opens a table, and the two look for different keys. */
  ghost predicate Apart(a: Rewrite, b: Rewrite) {
    && (a != b ==> forall s :: !(Slot(a, s) && Slot(b, s)))
    && (forall s :: !(Target(a, s) && Slot(b, s)))
    && (a.Relocate? ==> forall s :: !(Through(s, a.to) && Slot(b, s)))
  }

  function Restamp(d: Doc, v: Value): Doc {
    d.(values := d.values[VersionSite := v])
  }

  /** Two rewrites of one registry are apart, and no report reads the schema version. */
  ghost predicate Disciplined(ms: seq<Migration>) {
    && (forall i :: 0 <= i < |ms| && ms[i].Auto? ==> ms[i].rewrite.Proper())
    && (forall i, j :: 0 <= i < |ms| && 0 <= j < |ms| && ms[i].Auto? && ms[j].Auto? ==>
          Apart(ms[i].rewrite, ms[j].rewrite))
    && (forall i, j :: 0 <= i < j < |ms| && ms[i].Auto? && ms[j].Auto? ==> ms[i].rewrite != ms[j].rewrite)
    && (forall i :: 0 <= i < |ms| && ms[i].Manual? ==>
          forall d, v :: ms[i].detect(Restamp(d, v)) == ms[i].detect(d) && ms[i].report(Restamp(d, v)) == ms[i].report(d))
  }

  // ---------------------------------------------------------------- one adopted rewrite, seen by another

  /** What an adopted rewrite leaves and what it brings in. */
  ghost predicate Footprint(rw: Rewrite, es: seq<Entry>, hs: seq<Head>, es': seq<Entry>, hs': seq<Head>) {
    && (forall e :: e in es && !HitsEntry(rw, e) ==> e in es')
    && (forall e :: e in es' ==> (e in es && !HitsEntry(rw, e)) || Target(rw, e.site)
                                 || (rw.Wrap? && Slot(rw, e.site) && !e.value.Str?))
    && (forall h :: h in hs ==> h in hs')
    && (forall h :: h in hs' ==> h in hs || (rw.Relocate? && h == Head(rw.to, false)))
  }

  lemma EditFootprint(rw: Rewrite, es: seq<Entry>, es': seq<Entry>, hs: seq<Head>)
    requires rw.Rename? || rw.Wrap?
    requires |es'| == |es| && forall i :: 0 <= i < |es| ==> es'[i] == EditEntry(rw, es[i])
    ensures Footprint(rw, es, hs, es', hs)
  {
    forall e | e in es && !HitsEntry(rw, e)
      ensures e in es'
    {
      var i :| 0 <= i < |es| && es[i] == e;
      assert es'[i] == e;
    }
    forall e | e in es'
      ensures (e in es && !HitsEntry(rw, e)) || Target(rw, e.site) || (rw.Wrap? && Slot(rw, e.site) && !e.value.Str?)
    {
      var i :| 0 <= i < |es'| && es'[i] == e;
      assert es[i] in es;
    }
  }

  lemma MovedFootprint(rw: Rewrite, es: seq<Entry>, hs: seq<Head>, es': seq<Entry>, hs': seq<Head>, hit: Entry, moved: Entry)
    requires rw.Relocate? && DistinctSites(es) && Moved(rw.to, es, hs, es', hs', hit, moved)
    requires HitsEntry(rw, hit) && Target(rw, moved.site)
    ensures Footprint(rw, es, hs, es', hs')
  {
    OnlyHit(rw, es, hit);
  }

  lemma AppliedFootprint(rw: Rewrite, t: Text)
    requires rw.Proper() && !Glues(rw, t) && Valid(t.lines) && HasHit(rw, Entries(Start, t.lines))
    ensures Footprint(rw, Entries(Start, t.lines), Heads(t.lines),
                      Entries(Start, Apply(rw, t).lines), Heads(Apply(rw, t).lines))
  {
    ChangesIff(rw, t);
    match rw
    case Relocate(_, _, _, _) =>
      RelocateEntries(rw, t);
      MovedFootprint(rw, Entries(Start, t.lines), Heads(t.lines), Entries(Start, Apply(rw, t).lines),
                     Heads(Apply(rw, t).lines), HitEntry(rw, t.lines), MovedEntry(rw, t.lines));
    case Drop(_, _) =>
      DropEntries(rw, Start, t.lines);
      KeptMembers(rw, Entries(Start, t.lines));
    case _ =>
      EditEntries(rw, Start, t.lines);
      EditFootprint(rw, Entries(Start, t.lines), Entries(Start, Apply(rw, t).lines), Heads(t.lines));
  }

  predicate HasLive(rw: Rewrite, es: seq<Entry>) {
    exists e :: e in es && Live(rw, e)
  }

  /** Nothing is left for `rw` that it could still rewrite. */
  predicate Settled(rw: Rewrite, lines: seq<Line>) {
    HasLive(rw, Entries(Start, lines)) ==> Collides(rw, Entries(Start, lines), Heads(lines))
  }

  lemma NoNewHits(a: Rewrite, b: Rewrite, es: seq<Entry>, hs: seq<Head>, es': seq<Entry>, hs': seq<Head>, e: Entry)
    requires Apart(a, b) && Footprint(a, es, hs, es', hs') && e in es' && HitsEntry(b, e)
    ensures a != b && e in es
  {
  }

  lemma HitsStay(a: Rewrite, b: Rewrite, es: seq<Entry>, hs: seq<Head>, es': seq<Entry>, hs': seq<Head>, e: Entry)
    requires Apart(a, b) && a != b && Footprint(a, es, hs, es', hs') && e in es && HitsEntry(b, e)
    ensures e in es'
  {
    assert Slot(b, e.site);
  }

  /** A collision of `b` outlives an adopted rewrite `a`. */
  lemma CollisionStays(a: Rewrite, b: Rewrite, es: seq<Entry>, hs: seq<Head>, es': seq<Entry>, hs': seq<Head>)
    requires Apart(a, b) && Apart(b, a) && a != b && Footprint(a, es, hs, es', hs')
    requires DistinctHeads(hs') && NoClash(es', hs') && Collides(b, es, hs)
    ensures Collides(b, es', hs')
  {
    if b.Rename? {
      var e :| e in es && HitsEntry(b, e) && Taken(Site(e.site.section, b.newKey), es, hs);
      HitsStay(a, b, es, hs, es', hs', e);
      TakenStays(a, b, es, hs, es', hs', Site(e.site.section, b.newKey));
    } else if Taken(Site(Table(b.to), b.newKey), es, hs) {
      TakenStays(a, b, es, hs, es', hs', Site(Table(b.to), b.newKey));
    } else {
      BlockedTableStays(a, b, es, hs, es', hs');
    }
  }

  lemma TakenStays(a: Rewrite, b: Rewrite, es: seq<Entry>, hs: seq<Head>, es': seq<Entry>, hs': seq<Head>, s: Site)
    requires Apart(b, a) && Footprint(a, es, hs, es', hs') && Target(b, s) && Taken(s, es, hs)
    ensures Taken(s, es', hs')
  {
    if e :| e in es && e.site == s {
      assert !Slot(a, e.site);
      assert e in es';
    }
  }

  lemma NotBothHeads(hs: seq<Head>, p: Path)
    requires DistinctHeads(hs)
    ensures !(Head(p, true) in hs && Head(p, false) in hs)
  {
    if Head(p, true) in hs {
      var i :| 0 <= i < |hs| && hs[i] == Head(p, true);
      forall j | 0 <= j < |hs|
        ensures hs[j] != Head(p, false)
      {
        assert i < j || j < i || i == j;
      }
    }
  }

  lemma BlockedTableStays(a: Rewrite, b: Rewrite, es: seq<Entry>, hs: seq<Head>, es': seq<Entry>, hs': seq<Head>)
    requires Apart(b, a) && Footprint(a, es, hs, es', hs') && b.Relocate?
    requires DistinctHeads(hs') && NoClash(es', hs')
    requires Head(b.to, false) !in hs
    requires Head(b.to, true) in hs || exists e :: e in es && !HitsEntry(b, e) && Through(e.site, b.to)
    ensures Collides(b, es', hs')
  {
    if Head(b.to, true) in hs {
      NotBothHeads(hs', b.to);
    } else {
      var e :| e in es && !HitsEntry(b, e) && Through(e.site, b.to);
      assert !Slot(a, e.site);
      assert e in es';
    }
  }

  lemma SettledStays(a: Rewrite, b: Rewrite, t: Text)
    requires Apart(a, b) && Apart(b, a) && a != b && a.Proper() && !Glues(a, t) && Valid(t.lines)
    requires HasHit(a, Entries(Start, t.lines)) && Valid(Apply(a, t).lines) && Settled(b, t.lines)
    ensures Settled(b, Apply(a, t).lines)
  {
    var es, hs, es', hs' := Entries(Start, t.lines), Heads(t.lines), Entries(Start, Apply(a, t).lines), Heads(Apply(a, t).lines);
    AppliedFootprint(a, t);
    if HasLive(b, es') {
      var e :| e in es' && Live(b, e);
      NoNewHits(a, b, es, hs, es', hs', e);
      CollisionStays(a, b, es, hs, es', hs');
    }
  }

  lemma AppliedSettles(a: Rewrite, t: Text)
    requires Apart(a, a) && a.Proper() && !Glues(a, t) && Valid(t.lines) && HasHit(a, Entries(Start, t.lines))
    ensures Settled(a, Apply(a, t).lines) && !HasHit(a, Entries(Start, Apply(a, t).lines))
  {
    AppliedFootprint(a, t);
  }

  // ---------------------------------------------------------------- one pass

  ghost predicate SettledUpTo(ms: seq<Migration>, lines: seq<Line>, n: nat)
    requires n <= |ms|
  {
    forall i :: 0 <= i < n && ms[i].Auto? ==> Settled(ms[i].rewrite, lines)
  }

  /** No entry a registered rewrite could hit has appeared since `es0`. */
  ghost predicate NoneNew(ms: seq<Migration>, es0: seq<Entry>, es: seq<Entry>) {
    forall i, e :: 0 <= i < |ms| && ms[i].Auto? && e in es && HitsEntry(ms[i].rewrite, e) ==> e in es0
  }

  lemma LiveDetected(rw: Rewrite, lines: seq<Line>)
    requires Valid(lines)
    ensures HasLive(rw, Entries(Start, lines)) ==> Detect(rw, DocOf(lines))
    ensures rw.Wrap? && Detect(rw, DocOf(lines)) ==> HasLive(rw, Entries(Start, lines))
  {
    var es, d := Entries(Start, lines), DocOf(lines);
    if HasLive(rw, es) {
      var e :| e in es && Live(rw, e);
      FindIff(es, e.site, e.value);
      assert e.site in d.values && Live(rw, Entry(e.site, d.values[e.site]));
    }
    if rw.Wrap? && Detect(rw, d) {
      var s :| s in d.values && Live(rw, Entry(s, d.values[s]));
      FindIff(es, s, d.values[s]);
    }
  }

  lemma NoneNewStep(ms: seq<Migration>, k: nat, es0: seq<Entry>, t: Text)
    requires Disciplined(ms) && k < |ms| && ms[k].Auto? && !Glues(ms[k].rewrite, t) && Valid(t.lines)
    requires HasHit(ms[k].rewrite, Entries(Start, t.lines)) && NoneNew(ms, es0, Entries(Start, t.lines))
    ensures NoneNew(ms, es0, Entries(Start, Apply(ms[k].rewrite, t).lines))
  {
    var a := ms[k].rewrite;
    var es, hs, es', hs' := Entries(Start, t.lines), Heads(t.lines), Entries(Start, Apply(a, t).lines), Heads(Apply(a, t).lines);
    AppliedFootprint(a, t);
    forall i, e | 0 <= i < |ms| && ms[i].Auto? && e in es' && HitsEntry(ms[i].rewrite, e)
      ensures e in es0
    {
      NoNewHits(a, ms[i].rewrite, es, hs, es', hs', e);
    }
  }

  lemma SettledStep(ms: seq<Migration>, k: nat, t: Text)
    requires Disciplined(ms) && k < |ms| && ms[k].Auto? && !Glues(ms[k].rewrite, t) && Valid(t.lines)
    requires HasHit(ms[k].rewrite, Entries(Start, t.lines)) && Valid(Apply(ms[k].rewrite, t).lines)
    requires SettledUpTo(ms, t.lines, k)
    ensures SettledUpTo(ms, Apply(ms[k].rewrite, t).lines, k + 1)
  {
    forall i | 0 <= i < k + 1 && ms[i].Auto?
      ensures Settled(ms[i].rewrite, Apply(ms[k].rewrite, t).lines)
    {
      if i == k {
        AppliedSettles(ms[k].rewrite, t);
      } else {
        SettledStays(ms[k].rewrite, ms[i].rewrite, t);
      }
    }
  }

  /** What is live now was live when the pass began, so its detector fired. */
  lemma LiveStillDetected(ms: seq<Migration>, t: Text, k: nat, now: Text)
    requires k < |ms| && ms[k].Auto? && Valid(t.lines)
    requires NoneNew(ms, Entries(Start, t.lines), Entries(Start, now.lines))
    ensures HasLive(ms[k].rewrite, Entries(Start, now.lines)) ==> Detect(ms[k].rewrite, DocOf(t.lines))
  {
    LiveDetected(ms[k].rewrite, t.lines);
  }

  /** The pass adopts the rewrite of `m`. */
  predicate Adopts(m: Migration, d: Doc, text: Text) {
    m.Auto? && Detect(m.rewrite, d) && Apply(m.rewrite, text) != text && Valid(Apply(m.rewrite, text).lines)
  }

  lemma StepText(m: Migration, d: Doc, p: Pass)
    ensures Step(m, d, p).text == if Adopts(m, d, p.text) then Apply(m.rewrite, p.text) else p.text
  {
  }

  /** After `n` migrations: the text parses, shows no new hits, and every rewrite that was run is done or blocked. */
  ghost predicate PassInv(ms: seq<Migration>, es0: seq<Entry>, text: Text, n: nat)
    requires n <= |ms|
  {
    text.terminated && Valid(text.lines) && NoneNew(ms, es0, Entries(Start, text.lines)) && SettledUpTo(ms, text.lines, n)
  }

  lemma AdoptedHits(m: Migration, d: Doc, text: Text)
    requires m.Auto? && m.rewrite.Proper() && !Glues(m.rewrite, text) && Valid(text.lines) && Adopts(m, d, text)
    ensures HasHit(m.rewrite, Entries(Start, text.lines))
  {
    ChangesIff(m.rewrite, text);
  }

  lemma RejectedSettles(ms: seq<Migration>, k: nat, t: Text, text: Text)
    requires Disciplined(ms) && k < |ms| && ms[k].Auto? && Valid(t.lines)
    requires PassInv(ms, Entries(Start, t.lines), text, k) && !Adopts(ms[k], DocOf(t.lines), text)
    ensures Settled(ms[k].rewrite, text.lines)
  {
    var rw := ms[k].rewrite;
    LiveStillDetected(ms, t, k, text);
    ChangesIff(rw, text);
    if HasHit(rw, Entries(Start, text.lines)) {
      ParsesIff(rw, text);
    }
  }

  lemma StepSettles(ms: seq<Migration>, k: nat, t: Text, p: Pass, p': Pass)
    requires Disciplined(ms) && k < |ms| && Valid(t.lines) && p' == Step(ms[k], DocOf(t.lines), p)
    requires PassInv(ms, Entries(Start, t.lines), p.text, k)
    ensures PassInv(ms, Entries(Start, t.lines), p'.text, k + 1)
  {
    var m, d := ms[k], DocOf(t.lines);
    StepText(m, d, p);
    if Adopts(m, d, p.text) {
      AdoptedHits(m, d, p.text);
      ChangesIff(m.rewrite, p.text);
      NoneNewStep(ms, k, Entries(Start, t.lines), p.text);
      SettledStep(ms, k, p.text);
    } else if m.Auto? {
      RejectedSettles(ms, k, t, p.text);
    }
  }

  lemma NothingRunYet(ms: seq<Migration>, t: Text)
    requires t.terminated && Valid(t.lines)
    ensures PassInv(ms, Entries(Start, t.lines), t, 0)
  {
  }

  lemma {:induction false} PassKeepsInv(ms: seq<Migration>, t: Text, d: Doc, n: nat, p: Pass)
    requires Disciplined(ms) && t.terminated && Valid(t.lines) && d == DocOf(t.lines)
    requires n <= |ms| && p == PassUpTo(ms, t, d, n)
    ensures PassInv(ms, Entries(Start, t.lines), p.text, n)
    decreases n
  {
    if n > 0 {
      var q := PassUpTo(ms, t, d, n - 1);
      PassKeepsInv(ms, t, d, n - 1, q);
      StepSettles(ms, n - 1, t, q, p);
    } else {
      NothingRunYet(ms, t);
    }
  }

  /** After a pass every rewrite it ran is done or blocked. */
  lemma PassSettles(ms: seq<Migration>, t: Text, n: nat)
    requires Disciplined(ms) && t.terminated && Valid(t.lines) && n <= |ms|
    ensures PassInv(ms, Entries(Start, t.lines), PassUpTo(ms, t, DocOf(t.lines), n).text, n)
  {
    PassKeepsInv(ms, t, DocOf(t.lines), n, PassUpTo(ms, t, DocOf(t.lines), n));
  }

  // ---------------------------------------------------------------- a settled text

  /** What a registered rewrite reports on a settled text. */
  function Report(m: Migration, d: Doc, es: seq<Entry>): (seq<string>, seq<string>) {
    match m
    case Manual(detect, report, advisory) =>
      if !detect(d) then ([], []) else if advisory then ([], [report(d)]) else ([report(d)], [])
    case Auto(rw, describe) =>
      if !Detect(rw, d) then ([], [])
      else ([if HasHit(rw, es) then describe + COLLISION else describe], [])
  }

  lemma QuietStep(m: Migration, t: Text, p: Pass)
    requires m.Auto? ==> m.rewrite.Proper() && Settled(m.rewrite, t.lines)
    requires t.terminated && Valid(t.lines) && p.text == t
    ensures Step(m, DocOf(t.lines), p) ==
            p.(manual := p.manual + Report(m, DocOf(t.lines), Entries(Start, t.lines)).0,
               advisory := p.advisory + Report(m, DocOf(t.lines), Entries(Start, t.lines)).1)
  {
    if m.Auto? && Detect(m.rewrite, DocOf(t.lines)) {
      NothingToAdopt(m.rewrite, t);
    }
  }

  /** A settled rewrite finds nothing, or runs into a collision. */
  lemma NothingToAdopt(rw: Rewrite, t: Text)
    requires rw.Proper() && Settled(rw, t.lines) && t.terminated && Valid(t.lines) && Detect(rw, DocOf(t.lines))
    ensures if HasHit(rw, Entries(Start, t.lines)) then Apply(rw, t) != t && !Valid(Apply(rw, t).lines) else Apply(rw, t) == t
  {
    ChangesIff(rw, t);
    LiveDetected(rw, t.lines);
    if HasHit(rw, Entries(Start, t.lines)) {
      ParsesIff(rw, t);
    }
  }

  function Reports(ms: seq<Migration>, d: Doc, es: seq<Entry>, n: nat): (seq<string>, seq<string>)
    requires n <= |ms|
  {
    if n == 0 then ([], [])
    else
      var r, s := Reports(ms, d, es, n - 1), Report(ms[n - 1], d, es);
      (r.0 + s.0, r.1 + s.1)
  }

  /** A pass over a settled text rewrites nothing. */
  lemma {:induction false} QuietPass(ms: seq<Migration>, t: Text, n: nat)
    requires Disciplined(ms) && t.terminated && Valid(t.lines) && n <= |ms| && SettledUpTo(ms, t.lines, |ms|)
    ensures var r := Reports(ms, DocOf(t.lines), Entries(Start, t.lines), n);
            PassUpTo(ms, t, DocOf(t.lines), n) == Pass(t, [], r.0, r.1)
  {
    if n > 0 {
      QuietPass(ms, t, n - 1);
      QuietStep(ms[n - 1], t, PassUpTo(ms, t, DocOf(t.lines), n - 1));
    }
  }

  // ---------------------------------------------------------------- the stamp

  ghost predicate NoVersionTable(hs: seq<Head>) {
    forall h :: h in hs ==> !([VERSION_KEY] <= h.table)
  }

  const VersionEntry := Entry(VersionSite, Int(CURRENT_SCHEMA_VERSION))

  /** The stamp binds the version and nothing else. */
  ghost predicate Stamped(es: seq<Entry>, es': seq<Entry>) {
    && VersionEntry in es'
    && (forall e: Entry :: e.site != VersionSite ==> (e in es <==> e in es'))
    && DistinctSites(es')
  }

  lemma {:induction false} VersionLineTop(c: Cursor, lines: seq<Line>)
    requires c.section == Top
    ensures match VersionLine(lines)
            case None => forall e :: e in Entries(c, lines) ==> e.site != VersionSite
            case Some(i) => After(c, lines[..i]).section == Top
    decreases lines
  {
    if lines != [] {
      if lines[0].IsHeader() {
        NeverTop(Next(c, lines[0]), lines[1..]);
      } else {
        VersionLineTop(c, lines[1..]);
        if VersionLine(lines).Some? && VersionLine(lines).value > 0 {
          var i := VersionLine(lines).value;
          assert lines[..i][1..] == lines[1..][..i - 1];
        }
      }
    }
  }

  lemma {:induction false} NeverTop(c: Cursor, lines: seq<Line>)
    requires c.section != Top
    ensures forall e :: e in Entries(c, lines) ==> e.site.section != Top
    decreases lines
  {
    if lines != [] {
      NeverTop(Next(c, lines[0]), lines[1..]);
    }
  }

  lemma StampReplaced(a: seq<Entry>, v: Entry, b: seq<Entry>)
    requires v.site == VersionSite && DistinctSites(a + [v] + b)
    ensures Stamped(a + [v] + b, a + [VersionEntry] + b)
  {
    var es, es' := a + [v] + b, a + [VersionEntry] + b;
    assert es'[|a|] == VersionEntry;
    forall i, j | 0 <= i < j < |es'|
      ensures es'[i].site != es'[j].site
    {
      assert es[i].site == es'[i].site && es[j].site == es'[j].site;
    }
  }

  /** A stamped text: same headers, same entries but for the version. */
  lemma StampEntries(t: Text, d: Doc)
    requires Valid(t.lines) && d == DocOf(t.lines) && !VersionCurrent(d)
    ensures var r := Stamp(t, d).0;
            && (t.terminated ==> r.terminated)
            && Heads(r.lines) == Heads(t.lines)
            && (forall l :: l in r.lines ==> !l.Broken?)
            && Stamped(Entries(Start, t.lines), Entries(Start, r.lines))
  {
    VersionLineTop(Start, t.lines);
    match VersionLine(t.lines)
    case None =>
      StampInFront(t.lines, StampLine(""));
    case Some(i) =>
      var line := StampLine(t.lines[i].indent);
      Replaced3(t.lines, i, line);
      StampInPlace(t.lines[..i], t.lines[i], line, t.lines[i + 1..], t.lines, t.lines[i := line]);
  }

  lemma Replaced3(lines: seq<Line>, i: nat, line: Line)
    requires i < |lines|
    ensures lines == lines[..i] + [lines[i]] + lines[i + 1..]
    ensures lines[i := line] == lines[..i] + [line] + lines[i + 1..]
  {
  }

  lemma StampInFront(lines: seq<Line>, line: Line)
    requires line.Assign? && line.key == VERSION_KEY && line.value == Int(CURRENT_SCHEMA_VERSION)
    requires DistinctSites(Entries(Start, lines)) && forall e :: e in Entries(Start, lines) ==> e.site != VersionSite
    ensures Heads([line] + lines) == Heads(lines) && Stamped(Entries(Start, lines), Entries(Start, [line] + lines))
  {
    assert ([line] + lines)[1..] == lines;
  }

  lemma StampInPlace(a: seq<Line>, was: Line, line: Line, b: seq<Line>, lines: seq<Line>, r: seq<Line>)
    requires lines == a + [was] + b && r == a + [line] + b && was.Assign? && was.key == VERSION_KEY
    requires line.Assign? && line.key == VERSION_KEY && line.value == Int(CURRENT_SCHEMA_VERSION)
    requires After(Start, a).section == Top && DistinctSites(Entries(Start, lines))
    ensures Heads(r) == Heads(lines) && Stamped(Entries(Start, lines), Entries(Start, r))
  {
    PutAssign(a, was, b);
    PutAssign(a, line, b);
    PutAssignFrame(a, was, b);
    PutAssignFrame(a, line, b);
    StampReplaced(Entries(Start, a), EntryOf(After(Start, a), was)[0], Entries(After(Start, a), b));
  }

  /** The stamped text parses exactly when no table is called `schema_version`. */
  lemma StampParsesIff(t: Text)
    requires Valid(t.lines)
    ensures Valid(Stamp(t, DocOf(t.lines)).0.lines) <==> NoVersionTable(Heads(t.lines))
  {
    var d := DocOf(t.lines);
    var es, hs := Entries(Start, t.lines), Heads(t.lines);
    if VersionCurrent(d) {
      FindIff(es, VersionSite, d.values[VersionSite]);
      assert Through(VersionSite, [VERSION_KEY]);
    } else {
      StampEntries(t, d);
      var es' := Entries(Start, Stamp(t, d).0.lines);
      if NoVersionTable(hs) {
        forall e, h | e in es' && h in hs
          ensures !Through(e.site, h.table)
        {
        }
      } else {
        var h :| h in hs && [VERSION_KEY] <= h.table;
        assert Through(VersionEntry.site, h.table);
      }
    }
  }

  /** Stamping changes the version binding and no other. */
  lemma StampMeaning(t: Text)
    requires Valid(t.lines) && NoVersionTable(Heads(t.lines))
    ensures var d, r := DocOf(t.lines), Stamp(t, DocOf(t.lines)).0;
            && Valid(r.lines)
            && VersionCurrent(DocOf(r.lines))
            && DocOf(r.lines) == if VersionCurrent(d) then d else Restamp(d, Int(CURRENT_SCHEMA_VERSION))
  {
    StampParsesIff(t);
    var d := DocOf(t.lines);
    if !VersionCurrent(d) {
      StampEntries(t, d);
      StampedValues(Entries(Start, t.lines), Entries(Start, Stamp(t, d).0.lines));
    }
  }

  lemma StampedValues(es: seq<Entry>, es': seq<Entry>)
    requires DistinctSites(es) && Stamped(es, es')
    ensures ValuesOf(es') == ValuesOf(es)[VersionSite := Int(CURRENT_SCHEMA_VERSION)]
  {
    var m, m' := ValuesOf(es)[VersionSite := Int(CURRENT_SCHEMA_VERSION)], ValuesOf(es');
    FindIff(es', VersionSite, Int(CURRENT_SCHEMA_VERSION));
    forall s
      ensures s in m <==> s in m'
      ensures s in m ==> m[s] == m'[s]
    {
      SameFind(es, es', s, s != VersionSite);
    }
  }

  // ---------------------------------------------------------------- the run

  function Rest(ms: seq<Migration>, t: Text): Text
    requires Valid(t.lines)
  {
    RunPass(ms, t, DocOf(t.lines)).text
  }

  lemma QuietRun(ms: seq<Migration>, t: Text, applied: seq<string>, passes: nat)
    requires Disciplined(ms) && t.terminated && Valid(t.lines) && SettledUpTo(ms, t.lines, |ms|) && passes > 0
    ensures var d := DocOf(t.lines);
            var r := Reports(ms, d, Entries(Start, t.lines), |ms|);
            RunFrom(ms, t, applied, passes) ==
              Some(MigrationResult(Stamp(t, d).0, applied + (if Stamp(t, d).1 then [STAMPED] else []), r.0, r.1))
  {
    QuietPass(ms, t, |ms|);
    assert applied + [] == applied;
  }

  /** What a run whose first pass ends in `u` returns. */
  ghost predicate EndsWith(run: Option<MigrationResult>, ms: seq<Migration>, u: Text, d: Doc) {
    var r := Reports(ms, d, Entries(Start, u.lines), |ms|);
    && run.Some?
    && run.value.text == Stamp(u, d).0
    && run.value.manual == r.0
    && run.value.advisory == r.1
  }

  lemma QuietRunEnds(ms: seq<Migration>, u: Text, applied: seq<string>, passes: nat)
    requires Disciplined(ms) && u.terminated && Valid(u.lines) && SettledUpTo(ms, u.lines, |ms|) && passes > 0
    ensures EndsWith(RunFrom(ms, u, applied, passes), ms, u, DocOf(u.lines))
  {
    QuietRun(ms, u, applied, passes);
  }

  lemma FirstPass(ms: seq<Migration>, t: Text, p: Pass, passes: nat)
    requires Valid(t.lines) && passes > 0 && p == RunPass(ms, t, DocOf(t.lines)) && p.text != t && Valid(p.text.lines)
    ensures RunFrom(ms, t, [], passes) == RunFrom(ms, p.text, [] + p.applied, passes - 1)
  {
  }

  /** One pass rewrites, the next finds nothing: two passes are enough for every newline-terminated file, so the bound
      of `MAX_MIGRATION_PASSES` is never met. */
  lemma RunComesToRest(ms: seq<Migration>, t: Text, passes: nat)
    requires Disciplined(ms) && t.terminated && Valid(t.lines) && passes >= 2
    ensures Valid(Rest(ms, t).lines) && Rest(ms, t).terminated && SettledUpTo(ms, Rest(ms, t).lines, |ms|)
    ensures EndsWith(RunFrom(ms, t, [], passes), ms, Rest(ms, t), DocOf(Rest(ms, t).lines))
  {
    var p := RunPass(ms, t, DocOf(t.lines));
    PassKeepsInv(ms, t, DocOf(t.lines), |ms|, p);
    EndsAfter(ms, t, p, passes);
  }

  lemma EndsAfter(ms: seq<Migration>, t: Text, p: Pass, passes: nat)
    requires Disciplined(ms) && Valid(t.lines) && passes >= 2 && p == RunPass(ms, t, DocOf(t.lines))
    requires p.text.terminated && Valid(p.text.lines) && SettledUpTo(ms, p.text.lines, |ms|)
    ensures EndsWith(RunFrom(ms, t, [], passes), ms, p.text, DocOf(p.text.lines))
  {
    if p.text == t {
      QuietRunEnds(ms, t, [], passes);
    } else {
      FirstPass(ms, t, p, passes);
      EndsLikeRest(RunFrom(ms, t, [], passes), ms, p.text, [] + p.applied, passes - 1);
    }
  }

  lemma EndsLikeRest(run: Option<MigrationResult>, ms: seq<Migration>, u: Text, applied: seq<string>, passes: nat)
    requires Disciplined(ms) && u.terminated && Valid(u.lines) && SettledUpTo(ms, u.lines, |ms|) && passes > 0
    requires run == RunFrom(ms, u, applied, passes)
    ensures EndsWith(run, ms, u, DocOf(u.lines))
  {
    QuietRunEnds(ms, u, applied, passes);
  }

  lemma VersionBlind(m: Migration, d: Doc, v: Value, es: seq<Entry>, es': seq<Entry>)
    requires m.Manual? ==> m.detect(Restamp(d, v)) == m.detect(d) && m.report(Restamp(d, v)) == m.report(d)
    requires forall e: Entry :: e.site != VersionSite ==> (e in es <==> e in es')
    ensures Report(m, Restamp(d, v), es') == Report(m, d, es)
  {
    if m.Auto? {
      var rw, d' := m.rewrite, Restamp(d, v);
      assert forall e :: HitsEntry(rw, e) ==> e.site != VersionSite;
      assert HasHit(rw, es) == HasHit(rw, es');
      assert forall s :: s != VersionSite ==> (s in d.values <==> s in d'.values);
      assert forall s :: s != VersionSite && s in d.values ==> d.values[s] == d'.values[s];
      DetectBlind(rw, d, d');
      DetectBlind(rw, d', d);
    }
  }

  lemma DetectBlind(rw: Rewrite, d: Doc, d': Doc)
    requires d.heads == d'.heads
    requires forall s :: s != VersionSite && s in d.values ==> s in d'.values && d.values[s] == d'.values[s]
    ensures Detect(rw, d) ==> Detect(rw, d')
  {
    if s :| s in d.values && HitsEntry(rw, Entry(s, d.values[s])) && (rw.Wrap? ==> Live(rw, Entry(s, d.values[s]))) {
      assert s != VersionSite;
    }
  }

  lemma {:induction false} SameReports(ms: seq<Migration>, d: Doc, v: Value, es: seq<Entry>, es': seq<Entry>, n: nat)
    requires Disciplined(ms) && n <= |ms|
    requires forall e: Entry :: e.site != VersionSite ==> (e in es <==> e in es')
    ensures Reports(ms, Restamp(d, v), es', n) == Reports(ms, d, es, n)
  {
    if n > 0 {
      SameReports(ms, d, v, es, es', n - 1);
      VersionBlind(ms[n - 1], d, v, es, es');
    }
  }

  lemma SettledBlind(rw: Rewrite, es: seq<Entry>, hs: seq<Head>, es': seq<Entry>)
    requires Stamped(es, es')
    ensures HasLive(rw, es') ==> HasLive(rw, es)
    ensures Collides(rw, es, hs) ==> Collides(rw, es', hs)
  {
    forall s: Site | s.section.Table? && Taken(s, es, hs)
      ensures Taken(s, es', hs)
    {
      if e :| e in es && e.site == s {
        assert e in es';
      }
    }
    if e :| e in es' && Live(rw, e) {
      assert e.site != VersionSite;
      assert e in es;
    }
    if rw.Relocate? && (exists e :: e in es && !HitsEntry(rw, e) && Through(e.site, rw.to)) {
      var e :| e in es && !HitsEntry(rw, e) && Through(e.site, rw.to);
      var e' := if e.site == VersionSite then VersionEntry else e;
      assert e' in es' && !HitsEntry(rw, e') && Through(e'.site, rw.to);
    }
    if rw.Rename? && Collides(rw, es, hs) {
      var e :| e in es && HitsEntry(rw, e) && Taken(Site(e.site.section, rw.newKey), es, hs);
      assert e.site != VersionSite && e in es';
    }
  }

  lemma StampStaysSettled(ms: seq<Migration>, u: Text)
    requires Disciplined(ms) && u.terminated && Valid(u.lines) && SettledUpTo(ms, u.lines, |ms|)
    requires !VersionCurrent(DocOf(u.lines)) && NoVersionTable(Heads(u.lines))
    ensures var d, s := DocOf(u.lines), Stamp(u, DocOf(u.lines)).0;
            && s.terminated
            && Valid(s.lines)
            && SettledUpTo(ms, s.lines, |ms|)
            && Reports(ms, DocOf(s.lines), Entries(Start, s.lines), |ms|) == Reports(ms, d, Entries(Start, u.lines), |ms|)
  {
    var d, s := DocOf(u.lines), Stamp(u, DocOf(u.lines)).0;
    StampMeaning(u);
    StampEntries(u, d);
    var es, es' := Entries(Start, u.lines), Entries(Start, s.lines);
    forall i | 0 <= i < |ms| && ms[i].Auto?
      ensures Settled(ms[i].rewrite, s.lines)
    {
      assert Settled(ms[i].rewrite, u.lines);
      SettledBlind(ms[i].rewrite, es, Heads(u.lines), es');
    }
    SameReports(ms, d, Int(CURRENT_SCHEMA_VERSION), es, es', |ms|);
  }

  /** What a run on a settled text `u` ends with. */
  lemma StampedIsQuiet(ms: seq<Migration>, u: Text, passes: nat)
    requires Disciplined(ms) && u.terminated && Valid(u.lines) && SettledUpTo(ms, u.lines, |ms|) && passes > 0
    requires NoVersionTable(Heads(u.lines))
    ensures var s := Stamp(u, DocOf(u.lines)).0;
            var r := Reports(ms, DocOf(u.lines), Entries(Start, u.lines), |ms|);
            && Valid(s.lines)
            && RunFrom(ms, s, [], passes) == Some(MigrationResult(s, [], r.0, r.1))
  {
    var s := Stamp(u, DocOf(u.lines)).0;
    StampMeaning(u);
    if !VersionCurrent(DocOf(u.lines)) {
      StampStaysSettled(ms, u);
    }
    QuietRun(ms, s, [], passes);
    var none: seq<string> := [];
    assert none + [] == none;
  }

  // ---------------------------------------------------------------- what a run does to the bindings

  /** What becomes of an entry `rw` rewrites (and does not drop). */
  function Image(rw: Rewrite, e: Entry): Entry {
    match rw
    case Rename(_, n, _) => Entry(Site(e.site.section, n), e.value)
    case Relocate(_, n, _, to) => Entry(Site(Table(to), n), e.value)
    case Wrap(_, _, _, _) => Entry(e.site, if e.value.Str? then StrList([e.value.text]) else e.value)
    case Drop(_, _) => e
  }

  /** Exactly the hit entries are replaced by their images, or dropped. */
  ghost predicate Replaced(rw: Rewrite, es: seq<Entry>, es': seq<Entry>) {
    && (forall e :: e in es && !HitsEntry(rw, e) ==> e in es')
    && (forall e :: e in es && HitsEntry(rw, e) && !rw.Drop? ==> Image(rw, e) in es')
    && (forall e' :: e' in es' ==> (e' in es && !HitsEntry(rw, e'))
                                   || exists e :: e in es && HitsEntry(rw, e) && e' == Image(rw, e) && !rw.Drop?)
  }

  lemma EditReplaced(rw: Rewrite, es: seq<Entry>, es': seq<Entry>)
    requires rw.Rename? || rw.Wrap?
    requires |es'| == |es| && forall i :: 0 <= i < |es| ==> es'[i] == EditEntry(rw, es[i])
    ensures Replaced(rw, es, es')
  {
    forall e | e in es
      ensures EditEntry(rw, e) in es'
    {
      var i :| 0 <= i < |es| && es[i] == e;
      assert es'[i] in es';
    }
    forall e' | e' in es'
      ensures exists e :: e in es && e' == EditEntry(rw, e)
    {
      var i :| 0 <= i < |es'| && es'[i] == e';
      assert es[i] in es;
    }
  }

  lemma MovedReplaced(rw: Rewrite, es: seq<Entry>, hs: seq<Head>, es': seq<Entry>, hs': seq<Head>, hit: Entry, moved: Entry)
    requires rw.Relocate? && DistinctSites(es) && Moved(rw.to, es, hs, es', hs', hit, moved)
    requires HitsEntry(rw, hit) && moved == Image(rw, hit)
    ensures Replaced(rw, es, es')
  {
    OnlyHit(rw, es, hit);
  }

  lemma AppliedReplaced(rw: Rewrite, t: Text)
    requires rw.Proper() && !Glues(rw, t) && Valid(t.lines) && HasHit(rw, Entries(Start, t.lines))
    ensures Replaced(rw, Entries(Start, t.lines), Entries(Start, Apply(rw, t).lines))
  {
    ChangesIff(rw, t);
    match rw
    case Relocate(_, _, _, _) =>
      RelocateEntries(rw, t);
      MovedReplaced(rw, Entries(Start, t.lines), Heads(t.lines), Entries(Start, Apply(rw, t).lines),
                    Heads(Apply(rw, t).lines), HitEntry(rw, t.lines), MovedEntry(rw, t.lines));
    case Drop(_, _) =>
      DropEntries(rw, Start, t.lines);
      KeptMembers(rw, Entries(Start, t.lines));
    case _ =>
      EditEntries(rw, Start, t.lines);
      EditReplaced(rw, Entries(Start, t.lines), Entries(Start, Apply(rw, t).lines));
  }

  /** One of the first `n` migrations rewrote `e`. */
  ghost predicate RewrittenBy(ms: seq<Migration>, n: nat, e: Entry, e': Entry)
    requires n <= |ms|
  {
    exists i :: 0 <= i < n && ms[i].Auto? && HitsEntry(ms[i].rewrite, e) && !ms[i].rewrite.Drop? && e' == Image(ms[i].rewrite, e)
  }

  ghost predicate DroppedBy(ms: seq<Migration>, n: nat, e: Entry)
    requires n <= |ms|
  {
    exists i :: 0 <= i < n && ms[i].Auto? && HitsEntry(ms[i].rewrite, e) && ms[i].rewrite.Drop?
  }

  /** Every binding of `es0` is in `es` still, or its image is, or a migration drops it; and `es` has no others. */
  ghost predicate Accounted(ms: seq<Migration>, n: nat, es0: seq<Entry>, es: seq<Entry>)
    requires n <= |ms|
  {
    && (forall e :: e in es0 ==> e in es || DroppedBy(ms, n, e) || exists e' :: e' in es && RewrittenBy(ms, n, e, e'))
    && (forall e' :: e' in es ==> e' in es0 || exists e :: e in es0 && RewrittenBy(ms, n, e, e'))
  }

  /** No migration touches an image. */
  lemma ImageSafe(ms: seq<Migration>, i: nat, k: nat, e: Entry)
    requires Disciplined(ms) && i < |ms| && k < |ms| && ms[i].Auto? && ms[k].Auto?
    requires HitsEntry(ms[i].rewrite, e) && !ms[i].rewrite.Drop?
    ensures !HitsEntry(ms[k].rewrite, Image(ms[i].rewrite, e))
  {
    var a, b, e' := ms[i].rewrite, ms[k].rewrite, Image(ms[i].rewrite, e);
    assert Apart(a, b);
    assert a.Wrap? ==> Slot(a, e'.site);
    assert !a.Wrap? ==> Target(a, e'.site);
  }

  lemma AccountedStep(ms: seq<Migration>, k: nat, es0: seq<Entry>, es: seq<Entry>, es': seq<Entry>)
    requires Disciplined(ms) && k < |ms| && ms[k].Auto?
    requires Accounted(ms, k, es0, es) && NoneNew(ms, es0, es) && Replaced(ms[k].rewrite, es, es')
    ensures Accounted(ms, k + 1, es0, es')
  {
    var rw := ms[k].rewrite;
    forall e | e in es0
      ensures e in es' || DroppedBy(ms, k + 1, e) || exists e' :: e' in es' && RewrittenBy(ms, k + 1, e, e')
    {
      if e in es {
        if HitsEntry(rw, e) && !rw.Drop? {
          assert RewrittenBy(ms, k + 1, e, Image(rw, e));
        }
      } else if !DroppedBy(ms, k, e) {
        var e' :| e' in es && RewrittenBy(ms, k, e, e');
        var i :| 0 <= i < k && ms[i].Auto? && HitsEntry(ms[i].rewrite, e) && !ms[i].rewrite.Drop? && e' == Image(ms[i].rewrite, e);
        ImageSafe(ms, i, k, e);
        assert RewrittenBy(ms, k + 1, e, e');
      }
    }
    forall e' | e' in es'
      ensures e' in es0 || exists e :: e in es0 && RewrittenBy(ms, k + 1, e, e')
    {
      if e' in es && !HitsEntry(rw, e') {
        if e' !in es0 {
          var e :| e in es0 && RewrittenBy(ms, k, e, e');
          assert RewrittenBy(ms, k + 1, e, e');
        }
      } else {
        var e :| e in es && HitsEntry(rw, e) && e' == Image(rw, e) && !rw.Drop?;
        assert e in es0 && RewrittenBy(ms, k + 1, e, e');
      }
    }
  }

  lemma AccountedMore(ms: seq<Migration>, k: nat, es0: seq<Entry>, es: seq<Entry>)
    requires k < |ms| && Accounted(ms, k, es0, es)
    ensures Accounted(ms, k + 1, es0, es)
  {
    forall e, e' | RewrittenBy(ms, k, e, e')
      ensures RewrittenBy(ms, k + 1, e, e')
    {
    }
  }

  /** The migration is not adopted, or runs no lines together. */
  ghost predicate GluesNot(m: Migration, d: Doc, text: Text) {
    Adopts(m, d, text) ==> !Glues(m.rewrite, text)
  }

  ghost predicate NothingGlued(ms: seq<Migration>, t: Text, d: Doc, n: nat)
    requires n <= |ms|
  {
    forall k :: 0 <= k < n ==> GluesNotAt(ms, t, d, k)
  }

  ghost predicate GluesNotAt(ms: seq<Migration>, t: Text, d: Doc, k: nat)
    requires k < |ms|
  {
    GluesNot(ms[k], d, PassUpTo(ms, t, d, k).text)
  }

  lemma TerminatedGluesNothing(ms: seq<Migration>, t: Text, d: Doc, n: nat)
    requires Disciplined(ms) && t.terminated && Valid(t.lines) && d == DocOf(t.lines) && n <= |ms|
    ensures NothingGlued(ms, t, d, n)
  {
    forall k | 0 <= k < n
      ensures GluesNotAt(ms, t, d, k)
    {
      PassKeepsInv(ms, t, d, k, PassUpTo(ms, t, d, k));
    }
  }

  /** What a pass so far has done to bindings and tables. */
  ghost predicate KeptAccount(ms: seq<Migration>, t: Text, now: Text, n: nat)
    requires n <= |ms|
  {
    && Valid(now.lines)
    && NoneNew(ms, Entries(Start, t.lines), Entries(Start, now.lines))
    && Accounted(ms, n, Entries(Start, t.lines), Entries(Start, now.lines))
    && HeadsGrown(ms, n, Heads(t.lines), Heads(now.lines))
  }

  lemma StepAccounts(ms: seq<Migration>, k: nat, t: Text, d: Doc, p: Pass, p': Pass)
    requires Disciplined(ms) && k < |ms| && p' == Step(ms[k], d, p)
    requires GluesNot(ms[k], d, p.text) && KeptAccount(ms, t, p.text, k)
    ensures KeptAccount(ms, t, p'.text, k + 1)
  {
    StepText(ms[k], d, p);
    if Adopts(ms[k], d, p.text) {
      AdoptedHits(ms[k], d, p.text);
      AdoptedAccounts(ms, k, t, p.text);
    } else {
      AccountedMore(ms, k, Entries(Start, t.lines), Entries(Start, p.text.lines));
      HeadsGrownStep(ms, k, Heads(t.lines), Heads(p.text.lines), Heads(p.text.lines));
    }
  }

  lemma AdoptedAccounts(ms: seq<Migration>, k: nat, t: Text, now: Text)
    requires Disciplined(ms) && k < |ms| && ms[k].Auto? && !Glues(ms[k].rewrite, now) && KeptAccount(ms, t, now, k)
    requires HasHit(ms[k].rewrite, Entries(Start, now.lines)) && Valid(Apply(ms[k].rewrite, now).lines)
    ensures KeptAccount(ms, t, Apply(ms[k].rewrite, now), k + 1)
  {
    var rw := ms[k].rewrite;
    NoneNewStep(ms, k, Entries(Start, t.lines), now);
    AppliedReplaced(rw, now);
    AccountedStep(ms, k, Entries(Start, t.lines), Entries(Start, now.lines), Entries(Start, Apply(rw, now).lines));
    AppliedFootprint(rw, now);
    HeadsGrownStep(ms, k, Heads(t.lines), Heads(now.lines), Heads(Apply(rw, now).lines));
  }

  lemma AccountAtFirst(ms: seq<Migration>, t: Text)
    requires Valid(t.lines)
    ensures KeptAccount(ms, t, t, 0)
  {
  }

  lemma {:induction false} PassKeepsAccount(ms: seq<Migration>, t: Text, d: Doc, n: nat, p: Pass)
    requires Disciplined(ms) && Valid(t.lines) && n <= |ms| && NothingGlued(ms, t, d, n) && p == PassUpTo(ms, t, d, n)
    ensures KeptAccount(ms, t, p.text, n)
    decreases n
  {
    if n > 0 {
      var q := PassUpTo(ms, t, d, n - 1);
      assert GluesNotAt(ms, t, d, n - 1);
      PassKeepsAccount(ms, t, d, n - 1, q);
      StepAccounts(ms, n - 1, t, d, q, p);
    } else {
      AccountAtFirst(ms, t);
    }
  }

  ghost predicate OpenedBy(ms: seq<Migration>, n: nat, h: Head)
    requires n <= |ms|
  {
    exists i :: 0 <= i < n && ms[i].Auto? && ms[i].rewrite.Relocate? && h == Head(ms[i].rewrite.to, false)
  }

  ghost predicate HeadsGrown(ms: seq<Migration>, n: nat, hs0: seq<Head>, hs: seq<Head>)
    requires n <= |ms|
  {
    && (forall h :: h in hs0 ==> h in hs)
    && (forall h :: h in hs ==> h in hs0 || OpenedBy(ms, n, h))
  }

  lemma HeadsGrownStep(ms: seq<Migration>, k: nat, hs0: seq<Head>, hs: seq<Head>, hs': seq<Head>)
    requires k < |ms| && HeadsGrown(ms, k, hs0, hs)
    requires forall h :: h in hs ==> h in hs'
    requires forall h :: h in hs' ==> h in hs || (ms[k].Auto? && ms[k].rewrite.Relocate? && h == Head(ms[k].rewrite.to, false))
    ensures HeadsGrown(ms, k + 1, hs0, hs')
  {
    forall h | OpenedBy(ms, k, h)
      ensures OpenedBy(ms, k + 1, h)
    {
    }
  }

  lemma PassHeads(ms: seq<Migration>, t: Text, n: nat)
    requires Disciplined(ms) && t.terminated && Valid(t.lines) && n <= |ms|
    ensures HeadsGrown(ms, n, Heads(t.lines), Heads(PassUpTo(ms, t, DocOf(t.lines), n).text.lines))
  {
    TerminatedGluesNothing(ms, t, DocOf(t.lines), n);
    PassKeepsAccount(ms, t, DocOf(t.lines), n, PassUpTo(ms, t, DocOf(t.lines), n));
  }

  /** No relocation of the registry opens a table `schema_version`. */
  ghost predicate LeavesVersionAlone(ms: seq<Migration>) {
    forall i :: 0 <= i < |ms| && ms[i].Auto? && ms[i].rewrite.Relocate? ==> !([VERSION_KEY] <= ms[i].rewrite.to)
  }

  /** Every binding that is left for some migration to rewrite is reported as one whose target is taken. */
  ghost predicate AllReported(ms: seq<Migration>, es: seq<Entry>, manual: seq<string>) {
    forall k, e :: 0 <= k < |ms| && ms[k].Auto? && e in es && Live(ms[k].rewrite, e) ==> ms[k].describe + COLLISION in manual
  }

  lemma {:induction false} ReportIn(ms: seq<Migration>, d: Doc, es: seq<Entry>, n: nat, k: nat)
    requires k < n <= |ms|
    ensures forall r :: r in Report(ms[k], d, es).0 ==> r in Reports(ms, d, es, n).0
  {
    if k < n - 1 {
      ReportIn(ms, d, es, n - 1, k);
    }
  }

  lemma LeftIsReported(ms: seq<Migration>, lines: seq<Line>)
    requires Valid(lines)
    ensures AllReported(ms, Entries(Start, lines), Reports(ms, DocOf(lines), Entries(Start, lines), |ms|).0)
  {
    var d, es := DocOf(lines), Entries(Start, lines);
    forall k, e | 0 <= k < |ms| && ms[k].Auto? && e in es && Live(ms[k].rewrite, e)
      ensures ms[k].describe + COLLISION in Reports(ms, d, es, |ms|).0
    {
      LiveDetected(ms[k].rewrite, lines);
      assert HasHit(ms[k].rewrite, es);
      assert ms[k].describe + COLLISION in Report(ms[k], d, es).0;
      ReportIn(ms, d, es, |ms|, k);
    }
  }

  /** What became of the file: apart from the version it binds what the input bound, with each legacy entry left as it
      was and reported, replaced by its image, or dropped; and it has the tables it had and those the registered
      relocations open. */
  ghost predicate CarriedOver(ms: seq<Migration>, t: Text, r: MigrationResult) {
    && HeadsGrown(ms, |ms|, Heads(t.lines), Heads(r.text.lines))
    && exists rest: seq<Entry> ::
         && Accounted(ms, |ms|, Entries(Start, t.lines), rest)
         && AllReported(ms, rest, r.manual)
         && forall e: Entry :: e.site != VersionSite ==> (e in rest <==> e in Entries(Start, r.text.lines))
  }

  /** The output of a run is a fixpoint of it: a second run applies nothing, returns the same text and
      reports the same. */
  lemma RunIsIdempotent(ms: seq<Migration>, t: Text, passes: nat)
    requires Disciplined(ms) && t.terminated && Valid(t.lines) && passes >= 2
    requires NoVersionTable(Heads(t.lines)) && LeavesVersionAlone(ms)
    ensures var run := RunFrom(ms, t, [], passes);
            && run.Some?
            && Valid(run.value.text.lines)
            && RunFrom(ms, run.value.text, [], passes)
            == Some(MigrationResult(run.value.text, [], run.value.manual, run.value.advisory))
  {
    RunComesToRest(ms, t, passes);
    PassHeads(ms, t, |ms|);
    StampedIsQuiet(ms, Rest(ms, t), passes);
  }
}
