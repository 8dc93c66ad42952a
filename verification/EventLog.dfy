/** The month-sharded append-only event log, read by offset: the readers' loops, and the protocol of a
    tail that seeds its offsets, replays a backlog and then follows while writers keep appending.
    An offset counts whole lines. */
module EventLog {
  import opened Wrappers

  type Month = int

  datatype Event = Event(kind: string, ts: Option<int>)

  /** `Junk` is a line the parser passes over: blank, malformed, or not an object. */
  datatype Line = Json(event: Event) | Junk

  datatype Shard = Shard(month: Month, lines: seq<Line>)

  /** The log directory: its shards, oldest first. */
  type Store = seq<Shard>

  predicate Ascending(st: Store) {
    forall i, j :: 0 <= i < j < |st| ==> st[i].month < st[j].month
  }

  function Parsed(lines: seq<Line>): seq<Event> {
    if lines == [] then [] else (if lines[0].Json? then [lines[0].event] else []) + Parsed(lines[1..])
  }

  lemma {:induction false} ParsedHead(lines: seq<Line>, head: seq<Event>)
    requires lines != [] && head == if lines[0].Json? then [lines[0].event] else []
    ensures Parsed(lines) == head + Parsed(lines[1..])
  {
  }

  lemma {:induction false} ParsedAppend(a: seq<Line>, b: seq<Line>)
    ensures Parsed(a + b) == Parsed(a) + Parsed(b)
  {
    if a == [] {
      assert a + b == b;
    } else {
      var head: seq<Event> := if a[0].Json? then [a[0].event] else [];
      ParsedAppend(a[1..], b);
      assert (a + b)[1..] == a[1..] + b;
      ParsedHead(a, head);
      ParsedHead(a + b, head);
      assert head + (Parsed(a[1..]) + Parsed(b)) == head + Parsed(a[1..]) + Parsed(b);
    }
  }

  lemma ParsedSlice(lines: seq<Line>, a: nat, b: nat, c: nat)
    requires a <= b <= c <= |lines|
    ensures Parsed(lines[a..c]) == Parsed(lines[a..b]) + Parsed(lines[b..c])
  {
    assert lines[a..c] == lines[a..b] + lines[b..c];
    ParsedAppend(lines[a..b], lines[b..c]);
  }

  type Offsets = map<Month, nat>

  function OffsetOf(offsets: Offsets, m: Month): nat {
    if m in offsets then offsets[m] else 0
  }

  /** The shard of month `m`, if there is one. */
  function LinesOf(st: Store, m: Month): Option<seq<Line>> {
    if st == [] then None else if st[0].month == m then Some(st[0].lines) else LinesOf(st[1..], m)
  }

  lemma {:induction false} LinesOfAt(st: Store, i: nat)
    requires Ascending(st) && i < |st|
    ensures LinesOf(st, st[i].month) == Some(st[i].lines)
  {
    if i > 0 {
      assert st[0].month < st[i].month;
      assert st[1..][i - 1] == st[i];
      LinesOfAt(st[1..], i - 1);
    }
  }

  // ---------------------------------------------------------------- one read

  /** Where a reader with offset `pos` starts: a file shorter than the offset was replaced. */
  function StartOf(lines: seq<Line>, pos: nat): nat {
    if |lines| < pos then 0 else pos
  }

  /** The events one read of a shard yields, and the offset it leaves behind. */
  function ReadOne(lines: seq<Line>, pos: nat): (seq<Event>, nat) {
    var start := StartOf(lines, pos);
    (Parsed(lines[start..]), if |lines| == start then pos else |lines|)
  }

  /** `read_new_raw` over the first `n` paths. */
  function ReadUpTo(st: Store, paths: seq<Month>, offsets: Offsets, n: nat): (seq<Event>, Offsets)
    requires n <= |paths|
  {
    if n == 0 then ([], offsets)
    else
      var (out, offs) := ReadUpTo(st, paths, offsets, n - 1);
      match LinesOf(st, paths[n - 1])
      case None => (out, offs)
      case Some(lines) =>
        var (events, pos) := ReadOne(lines, OffsetOf(offs, paths[n - 1]));
        (out + events, if pos == OffsetOf(offs, paths[n - 1]) then offs else offs[paths[n - 1] := pos])
  }

  method ReadNewRaw(st: Store, paths: seq<Month>, offsets: Offsets) returns (out: seq<Event>, newOffsets: Offsets)
    ensures (out, newOffsets) == ReadUpTo(st, paths, offsets, |paths|)
  {
    out, newOffsets := [], offsets;
    for i := 0 to |paths|
      invariant (out, newOffsets) == ReadUpTo(st, paths, offsets, i)
    {
      var lines := LinesOf(st, paths[i]);
      if lines.Some? {
        var size := |lines.value|;
        var pos := OffsetOf(newOffsets, paths[i]);
        if size < pos {
          pos := 0;
        }
        if size != pos {
          out := out + Parsed(lines.value[pos..]);
          newOffsets := newOffsets[paths[i] := size];
        } else {
          assert lines.value[pos..] == [] && out + [] == out;
        }
      }
    }
  }

  /** What the first `n` shards hold past the offsets the reader came with. */
  function Fresh(st: Store, paths: seq<Month>, offsets: Offsets, n: nat): seq<Event>
    requires n <= |paths|
  {
    if n == 0 then []
    else
      var lines := LinesOf(st, paths[n - 1]).GetOr([]);
      var pos := OffsetOf(offsets, paths[n - 1]);
      Fresh(st, paths, offsets, n - 1) + Parsed(lines[StartOf(lines, pos)..])
  }

  predicate Distinct(paths: seq<Month>) {
    forall i, j :: 0 <= i < j < |paths| ==> paths[i] != paths[j]
  }

  /** One path does not disturb the offset of another. */
  lemma {:induction false} OtherOffset(st: Store, paths: seq<Month>, offsets: Offsets, n: nat, m: Month)
    requires n <= |paths| && forall i :: 0 <= i < n ==> paths[i] != m
    ensures OffsetOf(ReadUpTo(st, paths, offsets, n).1, m) == OffsetOf(offsets, m)
  {
    if n > 0 {
      OtherOffset(st, paths, offsets, n - 1, m);
    }
  }

  /** Reading shards with distinct names: out comes exactly what each of them gained past its offset, shard by
      shard in order, */
  lemma {:induction false} ReadDelivers(st: Store, paths: seq<Month>, offsets: Offsets, n: nat)
    requires n <= |paths| && Distinct(paths)
    ensures ReadUpTo(st, paths, offsets, n).0 == Fresh(st, paths, offsets, n)
  {
    if n > 0 {
      ReadDelivers(st, paths, offsets, n - 1);
      OtherOffset(st, paths, offsets, n - 1, paths[n - 1]);
      assert LinesOf(st, paths[n - 1]).None? ==> Parsed(LinesOf(st, paths[n - 1]).GetOr([])[0..]) == [];
    }
  }

  /** and each offset moves to the end of its shard. */
  lemma {:induction false} OffsetsMove(st: Store, paths: seq<Month>, offsets: Offsets, n: nat, i: nat)
    requires i < n <= |paths| && Distinct(paths)
    requires LinesOf(st, paths[i]).Some? && OffsetOf(offsets, paths[i]) <= |LinesOf(st, paths[i]).value|
    ensures OffsetOf(ReadUpTo(st, paths, offsets, n).1, paths[i]) == |LinesOf(st, paths[i]).value|
  {
    if i < n - 1 {
      OffsetsMove(st, paths, offsets, n - 1, i);
    } else {
      OtherOffset(st, paths, offsets, i, paths[i]);
    }
  }

  /** A second read right after the first yields nothing. */
  lemma {:induction false} ReadAgain(st: Store, paths: seq<Month>, offsets: Offsets, n: nat)
    requires n <= |paths|
    requires forall i :: 0 <= i < |paths| && LinesOf(st, paths[i]).Some? ==>
               OffsetOf(offsets, paths[i]) == |LinesOf(st, paths[i]).value|
    ensures ReadUpTo(st, paths, offsets, n) == ([], offsets)
  {
    if n > 0 {
      ReadAgain(st, paths, offsets, n - 1);
      var lines := LinesOf(st, paths[n - 1]);
      if lines.Some? {
        assert lines.value[|lines.value|..] == [];
        assert ReadOne(lines.value, |lines.value|) == ([], |lines.value|);
        var none: seq<Event> := [];
        assert none + none == none;
      }
    }
  }

  /** A read notices that a shard was replaced by a shorter one exactly when the new one is not empty: an
      emptied shard keeps its old offset, and if it has outgrown it by the next read, the lines before
      that offset are never delivered. */
  lemma TruncationSeenIff(lines: seq<Line>, pos: nat)
    requires |lines| < pos
    ensures ReadOne(lines, pos).1 == |lines| <==> lines != []
    ensures lines == [] ==> forall regrown: seq<Line> :: |regrown| >= pos ==>
              ReadOne(regrown, ReadOne(lines, pos).1).0 == Parsed(regrown[pos..])
    ensures lines != [] ==> forall more: seq<Line> ::
              ReadOne(lines + more, ReadOne(lines, pos).1).0 == Parsed(more)
  {
    forall more: seq<Line> | lines != []
      ensures ReadOne(lines + more, ReadOne(lines, pos).1).0 == Parsed(more)
    {
      assert (lines + more)[|lines|..] == more;
    }
  }

  method SeedAtEof(st: Store, paths: seq<Month>) returns (out: Offsets)
    ensures forall m :: m in out <==> m in paths && LinesOf(st, m).Some?
    ensures forall m :: m in out ==> out[m] == |LinesOf(st, m).value|
  {
    out := map[];
    for i := 0 to |paths|
      invariant forall m :: m in out <==> m in paths[..i] && LinesOf(st, m).Some?
      invariant forall m :: m in out ==> out[m] == |LinesOf(st, m).value|
    {
      var lines := LinesOf(st, paths[i]);
      if lines.Some? {
        out := out[paths[i] := |lines.value|];
      }
      assert paths[..i + 1] == paths[..i] + [paths[i]];
    }
    assert paths[..|paths|] == paths;
  }

  // ---------------------------------------------------------------- the backlog

  /** The events of the first `n` shards that belong to month `since` or later. */
  function BacklogUpTo(st: Store, since: Month, n: nat): seq<Event>
    requires n <= |st|
  {
    if n == 0 then []
    else BacklogUpTo(st, since, n - 1) + if st[n - 1].month < since then [] else Parsed(st[n - 1].lines)
  }

  /** `replay_since` on a log that stands still: the backlog, and the seed of the current shard only. */
  method ReplaySince(st: Store, since: Month, current: Month, seed: Offsets) returns (out: seq<Event>, seedOut: Offsets)
    requires Ascending(st)
    ensures out == BacklogUpTo(st, since, |st|)
    ensures seedOut == if LinesOf(st, current).Some? then seed[current := |LinesOf(st, current).value|] else seed
  {
    out, seedOut := [], seed;
    for i := 0 to |st|
      invariant out == BacklogUpTo(st, since, i)
      invariant seedOut == if exists k :: 0 <= k < i && st[k].month == current
                           then seed[current := |LinesOf(st, current).GetOr([])|] else seed
    {
      LinesOfAt(st, i);
      if st[i].month < since {
        if st[i].month == current {
          seedOut := seedOut[st[i].month := |st[i].lines|];
        }
      } else {
        out := out + Parsed(st[i].lines);
        if st[i].month == current {
          seedOut := seedOut[st[i].month := |st[i].lines|];
        }
      }
    }
    LinesOfSome(st, current);
  }

  lemma {:induction false} LinesOfSome(st: Store, m: Month)
    ensures LinesOf(st, m).Some? <==> exists k :: 0 <= k < |st| && st[k].month == m
  {
    if st != [] {
      LinesOfSome(st[1..], m);
      if st[0].month != m && LinesOf(st, m).Some? {
        var k :| 0 <= k < |st[1..]| && st[1..][k].month == m;
        assert st[k + 1].month == m;
      }
      if k :| 0 <= k < |st| && st[k].month == m && k > 0 {
        assert st[1..][k - 1].month == m;
      }
    }
  }

  function Matching(es: seq<Event>, kinds: set<string>, since: int): seq<Event> {
    if es == [] then []
    else (if es[0].kind in kinds && es[0].ts.Some? && es[0].ts.value >= since then [es[0]] else [])
         + Matching(es[1..], kinds, since)
  }

  lemma {:induction false} MatchingAppend(a: seq<Event>, b: seq<Event>, kinds: set<string>, since: int)
    ensures Matching(a + b, kinds, since) == Matching(a, kinds, since) + Matching(b, kinds, since)
  {
    if a == [] {
      assert a + b == b;
    } else {
      assert (a + b)[1..] == a[1..] + b;
      MatchingAppend(a[1..], b, kinds, since);
    }
  }

  lemma {:induction false} MatchingNone(es: seq<Event>, kinds: set<string>, since: int)
    requires forall e :: e in es && e.ts.Some? ==> e.ts.value < since
    ensures Matching(es, kinds, since) == []
  {
    if es != [] {
      MatchingNone(es[1..], kinds, since);
    }
  }

  /** All events of the first `n` shards. */
  function AllUpTo(st: Store, n: nat): seq<Event>
    requires n <= |st|
  {
    if n == 0 then [] else AllUpTo(st, n - 1) + Parsed(st[n - 1].lines)
  }

  /** What a writer that takes month and time stamp from one clock reading leaves in a shard. */
  ghost predicate OwnMonthOnly(shard: Shard, monthOf: int -> Month) {
    forall e :: e in Parsed(shard.lines) && e.ts.Some? ==> monthOf(e.ts.value) == shard.month
  }

  lemma EarlierMonth(shard: Shard, kinds: set<string>, since: int, monthOf: int -> Month)
    requires forall a, b :: a <= b ==> monthOf(a) <= monthOf(b)
    requires OwnMonthOnly(shard, monthOf) && shard.month < monthOf(since)
    ensures Matching(Parsed(shard.lines), kinds, since) == []
  {
    MatchingNone(Parsed(shard.lines), kinds, since);
  }

  /** The shards before the month of `since` hold nothing stamped `since` or later: not opening them loses no
      event of the backlog. */
  lemma {:induction false} SkippedMonthsHoldNothing(st: Store, kinds: set<string>, since: int, monthOf: int -> Month, n: nat)
    requires n <= |st|
    requires forall a, b :: a <= b ==> monthOf(a) <= monthOf(b)
    requires forall i :: 0 <= i < |st| ==> OwnMonthOnly(st[i], monthOf)
    ensures Matching(BacklogUpTo(st, monthOf(since), n), kinds, since) == Matching(AllUpTo(st, n), kinds, since)
  {
    if n > 0 {
      SkippedMonthsHoldNothing(st, kinds, since, monthOf, n - 1);
      var here := Parsed(st[n - 1].lines);
      MatchingAppend(AllUpTo(st, n - 1), here, kinds, since);
      if st[n - 1].month < monthOf(since) {
        EarlierMonth(st[n - 1], kinds, since, monthOf);
        var none: seq<Event> := [];
        assert BacklogUpTo(st, monthOf(since), n - 1) + none == BacklogUpTo(st, monthOf(since), n - 1);
      } else {
        MatchingAppend(BacklogUpTo(st, monthOf(since), n - 1), here, kinds, since);
      }
    }
  }
}
