/** The config migrations: one detect-and-rewrite pass over the registry, the run to a fixpoint, and the
    schema stamp. */
module Migrations {
  import opened Wrappers
  import opened Toml
  import opened Rewrites
  import opened RewriteMeaning

  /** `Auto` rewrites a legacy key; `Manual` only reports, and never blocks when `advisory`. */
  datatype Migration =
    | Auto(rewrite: Rewrite, describe: string)
    | Manual(detect: Doc -> bool, report: Doc -> string, advisory: bool)

  /** A table or element header that puts a table under `key` in a table `spec` matches. */
  predicate NamesTable(spec: TableSpec, key: string, h: Path) {
    exists n :: 0 <= n < |h| && h[n] == key && Matches(spec, Table(h[..n]))
  }

  /** Is the legacy key present in the parsed document? */
  predicate Detect(rw: Rewrite, d: Doc) {
    if rw.Wrap? then
      exists s :: s in d.values && Live(rw, Entry(s, d.values[s]))
    else
      || (exists s :: s in d.values && HitsEntry(rw, Entry(s, d.values[s])))
      || (exists h :: h in d.heads && NamesTable(rw.Spec(), rw.key, h.table))
  }

  /** An entry that makes the detector of `rw` fire. */
  predicate Live(rw: Rewrite, e: Entry) {
    HitsEntry(rw, e) && (rw.Wrap? && rw.spaceFree && e.value.Str? ==> !HasSpace(e.value.text))
  }

  datatype Pass = Pass(text: Text, applied: seq<string>, manual: seq<string>, advisory: seq<string>)

  const COLLISION := " (target key already present — remove the deprecated key manually)"

  function Step(m: Migration, d: Doc, p: Pass): Pass {
    match m
    case Manual(detect, report, advisory) =>
      if !detect(d) then p
      else if advisory then p.(advisory := p.advisory + [report(d)])
      else p.(manual := p.manual + [report(d)])
    case Auto(rw, describe) =>
      if !Detect(rw, d) then p
      else
        var rewritten := Apply(rw, p.text);
        if rewritten == p.text then p.(manual := p.manual + [describe])
        else if Parse(rewritten.lines).None? then p.(manual := p.manual + [describe + COLLISION])
        else p.(text := rewritten, applied := p.applied + [describe])
  }

  function PassUpTo(ms: seq<Migration>, t: Text, d: Doc, n: nat): Pass
    requires n <= |ms|
  {
    if n == 0 then Pass(t, [], [], []) else Step(ms[n - 1], d, PassUpTo(ms, t, d, n - 1))
  }

  function RunPass(ms: seq<Migration>, t: Text, d: Doc): Pass {
    PassUpTo(ms, t, d, |ms|)
  }

  method RunMigrationsPass(ms: seq<Migration>, t: Text, d: Doc) returns (p: Pass)
    ensures p == RunPass(ms, t, d)
  {
    p := Pass(t, [], [], []);
    for i := 0 to |ms|
      invariant p == PassUpTo(ms, t, d, i)
    {
      var m := ms[i];
      match m {
        case Manual(detect, report, advisory) =>
          if detect(d) {
            if advisory {
              p := p.(advisory := p.advisory + [report(d)]);
            } else {
              p := p.(manual := p.manual + [report(d)]);
            }
          }
        case Auto(rw, describe) =>
          if Detect(rw, d) {
            var rewritten := Run(rw, p.text);
            if rewritten == p.text {
              p := p.(manual := p.manual + [describe]);
            } else if Parse(rewritten.lines).None? {
              p := p.(manual := p.manual + [describe + COLLISION]);
            } else {
              p := p.(text := rewritten, applied := p.applied + [describe]);
            }
          }
      }
    }
  }

  // ---------------------------------------------------------------- the stamp

  const CURRENT_SCHEMA_VERSION := 1
  const VERSION_KEY := "schema_version"
  const VersionSite := Site(Top, VERSION_KEY)

  predicate VersionCurrent(d: Doc) {
    && VersionSite in d.values
    && d.values[VersionSite].Int?
    && d.values[VersionSite].n >= CURRENT_SCHEMA_VERSION
  }

  predicate IsVersionLine(line: Line) {
    line.Assign? && line.key == VERSION_KEY
  }

  /** The version line before the first header. */
  function VersionLine(lines: seq<Line>): (r: Option<nat>)
    ensures r.Some? ==> r.value < |lines| && IsVersionLine(lines[r.value])
  {
    if lines == [] || lines[0].IsHeader() then None
    else if IsVersionLine(lines[0]) then Some(0)
    else match VersionLine(lines[1..])
      case None => None
      case Some(i) => Some(i + 1)
  }

  function StampLine(indent: string): Line {
    Assign(indent, VERSION_KEY, " = ", Int(CURRENT_SCHEMA_VERSION), "")
  }

  /** The text with its schema version current, and whether that took a change. */
  function Stamp(t: Text, d: Doc): (Text, bool) {
    if VersionCurrent(d) then (t, false)
    else match VersionLine(t.lines)
      case None => (Text([StampLine("")] + t.lines, t.lines == [] || t.terminated), true)
      case Some(i) => (Text(t.lines[i := StampLine(t.lines[i].indent)], t.terminated), true)
  }

  function Shifted(i: Option<nat>, n: nat): Option<nat> {
    match i
    case None => None
    case Some(k) => Some(k + n)
  }

  method FindVersionLine(lines: seq<Line>) returns (hit: Option<nat>)
    ensures hit == VersionLine(lines)
  {
    var i := 0;
    assert lines[0..] == lines;
    while i < |lines| && !lines[i].IsHeader()
      invariant 0 <= i <= |lines|
      invariant VersionLine(lines) == Shifted(VersionLine(lines[i..]), i)
    {
      if IsVersionLine(lines[i]) {
        return Some(i);
      }
      assert lines[i..][1..] == lines[i + 1..];
      i := i + 1;
    }
    return None;
  }

  method StampSchemaVersion(t: Text, d: Doc) returns (r: Text, changed: bool)
    ensures (r, changed) == Stamp(t, d)
  {
    if VersionCurrent(d) {
      return t, false;
    }
    var hit := FindVersionLine(t.lines);
    if hit.None? {
      r := Text([StampLine("")] + t.lines, t.lines == [] || t.terminated);
    } else {
      r := Text(t.lines[hit.value := StampLine(t.lines[hit.value].indent)], t.terminated);
    }
    changed := true;
  }

  // ---------------------------------------------------------------- the fixpoint

  const MAX_MIGRATION_PASSES := 12

  datatype MigrationResult = MigrationResult(text: Text, applied: seq<string>, manual: seq<string>, advisory: seq<string>)

  const STAMPED := "stamped schema_version = 1"

  lemma {:induction false} PassParses(ms: seq<Migration>, t: Text, d: Doc, n: nat)
    requires n <= |ms| && Valid(t.lines)
    ensures Valid(PassUpTo(ms, t, d, n).text.lines)
  {
    if n > 0 {
      PassParses(ms, t, d, n - 1);
    }
  }

  /** `None`: the passes ran out before the text came to rest. */
  function RunFrom(ms: seq<Migration>, t: Text, applied: seq<string>, passes: nat): Option<MigrationResult>
    requires Valid(t.lines)
    decreases passes
  {
    if passes == 0 then None
    else
      var d := DocOf(t.lines);
      var p := RunPass(ms, t, d);
      if p.text == t then
        var (stamped, changed) := Stamp(t, d);
        Some(MigrationResult(stamped, applied + p.applied + (if changed then [STAMPED] else []), p.manual, p.advisory))
      else
        PassParses(ms, t, d, |ms|);
        RunFrom(ms, p.text, applied + p.applied, passes - 1)
  }
}
