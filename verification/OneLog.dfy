/** The month shards read as one log, and what a filter picks from it. */
module OneLog {
  import opened Wrappers
  import opened EventLog
  import EventTail

  // ---------------------------------------------------------------- the shards as one log

  /** A junk line is an event no kind asks for. */
  function AsEvent(line: Line): Event {
    match line
    case Json(e) => e
    case Junk => Event("", None)
  }

  function Events(lines: seq<Line>): (es: seq<Event>)
    ensures |es| == |lines| && forall i :: 0 <= i < |lines| ==> es[i] == AsEvent(lines[i])
  {
    seq(|lines|, i requires 0 <= i < |lines| => AsEvent(lines[i]))
  }

  /** The lines of the first `n` shards. */
  function LinesUpTo(st: Store, n: nat): seq<Line>
    requires n <= |st|
  {
    if n == 0 then [] else LinesUpTo(st, n - 1) + st[n - 1].lines
  }

  function LogOf(st: Store): seq<Event> {
    Events(LinesUpTo(st, |st|))
  }

  /** Where shard `n` begins in it. */
  function Base(st: Store, n: nat): nat
    requires n <= |st|
  {
    |LinesUpTo(st, n)|
  }

  lemma {:induction false} BaseGrows(st: Store, i: nat, j: nat)
    requires i < j <= |st|
    ensures LinesUpTo(st, i) + st[i].lines <= LinesUpTo(st, j)
    ensures Base(st, i) + |st[i].lines| <= Base(st, j)
    decreases j
  {
    if i + 1 < j {
      BaseGrows(st, i, j - 1);
    }
  }

  lemma BaseMonotone(st: Store, i: nat, j: nat)
    requires i <= j <= |st|
    ensures Base(st, i) <= Base(st, j)
  {
    if i < j {
      BaseGrows(st, i, j);
    }
  }

  lemma {:induction false} SameLines(st: Store, st': Store, n: nat)
    requires n <= |st| && n <= |st'| && forall i :: 0 <= i < n ==> st[i].lines == st'[i].lines
    ensures LinesUpTo(st, n) == LinesUpTo(st', n)
  {
    if n > 0 {
      SameLines(st, st', n - 1);
    }
  }

  /** A line at the end of the newest shard is one at the end of the log. */
  lemma GrownLog(st: Store, line: Line)
    requires st != []
    ensures var st' := EventTail.Grown(st, |st| - 1, line);
            && LogOf(st') == LogOf(st) + [AsEvent(line)]
            && forall i: nat :: i < |st| ==> Base(st', i) == Base(st, i)
  {
    var st' := EventTail.Grown(st, |st| - 1, line);
    forall i: nat | i < |st|
      ensures LinesUpTo(st', i) == LinesUpTo(st, i)
    {
      SameLines(st, st', i);
    }
    assert LinesUpTo(st', |st|) == LinesUpTo(st, |st|) + [line];
  }

  lemma CreatedLog(st: Store, m: Month, line: Line)
    ensures var st' := st + [Shard(m, [line])];
            && LogOf(st') == LogOf(st) + [AsEvent(line)]
            && forall i: nat :: i <= |st| ==> Base(st', i) == Base(st, i)
  {
    var st' := st + [Shard(m, [line])];
    forall i: nat | i <= |st|
      ensures LinesUpTo(st', i) == LinesUpTo(st, i)
    {
      SameLines(st, st', i);
    }
    assert LinesUpTo(st', |st'|) == LinesUpTo(st, |st|) + [line];
  }

  function IndexOf(st: Store, m: Month): (i: nat)
    ensures i <= |st| && (i < |st| ==> st[i].month == m)
  {
    if st == [] || st[0].month == m then 0 else 1 + IndexOf(st[1..], m)
  }

  lemma {:induction false} IndexOfAt(st: Store, i: nat)
    requires Ascending(st) && i < |st|
    ensures IndexOf(st, st[i].month) == i && EventTail.Lines(st, st[i].month) == st[i].lines
  {
    LinesOfAt(st, i);
    if i > 0 {
      assert st[0].month < st[i].month;
      IndexOfAt(st[1..], i - 1);
    }
  }

  // ---------------------------------------------------------------- what a filter picks

  predicate Lets(kinds: set<string>, since: Option<int>, e: Event) {
    e.kind in kinds && (since.Some? ==> e.ts.Some? && e.ts.value >= since.value)
  }

  /** The positions from `lo` on and before `hi` whose events pass. */
  function Picked(log: seq<Event>, kinds: set<string>, since: Option<int>, lo: nat, hi: nat): seq<nat>
    decreases hi - lo
  {
    if hi <= lo then []
    else (if lo < |log| && Lets(kinds, since, log[lo]) then [lo] else []) + Picked(log, kinds, since, lo + 1, hi)
  }

  lemma {:induction false} PickedOn(log: seq<Event>, kinds: set<string>, since: Option<int>, lo: nat, mid: nat, hi: nat)
    requires lo <= mid <= hi
    ensures Picked(log, kinds, since, lo, hi) == Picked(log, kinds, since, lo, mid) + Picked(log, kinds, since, mid, hi)
    decreases mid - lo
  {
    if lo < mid {
      PickedOn(log, kinds, since, lo + 1, mid, hi);
    }
  }

  lemma {:induction false} PickedNone(log: seq<Event>, kinds: set<string>, since: Option<int>, lo: nat, hi: nat)
    requires forall i :: lo <= i < hi && i < |log| ==> !Lets(kinds, since, log[i])
    ensures Picked(log, kinds, since, lo, hi) == []
    decreases hi - lo
  {
    if lo < hi {
      PickedNone(log, kinds, since, lo + 1, hi);
    }
  }

  /** Nothing passes before the first pick; nothing at all if there is none. */
  lemma {:induction false} PickedHead(log: seq<Event>, kinds: set<string>, since: Option<int>, lo: nat, hi: nat)
    requires hi <= |log|
    ensures var p := Picked(log, kinds, since, lo, hi);
            var stop := if p == [] then hi else p[0];
            && (p != [] ==> lo <= p[0] < hi && Lets(kinds, since, log[p[0]]) && p[1..] == Picked(log, kinds, since, p[0] + 1, hi))
            && forall i :: lo <= i < stop && i < |log| ==> !Lets(kinds, since, log[i])
    decreases hi - lo
  {
    if lo < hi && !Lets(kinds, since, log[lo]) {
      PickedHead(log, kinds, since, lo + 1, hi);
    }
  }

  lemma {:induction false} PickedLonger(log: seq<Event>, log': seq<Event>, kinds: set<string>, since: Option<int>, lo: nat, hi: nat)
    requires log <= log' && hi <= |log|
    ensures Picked(log', kinds, since, lo, hi) == Picked(log, kinds, since, lo, hi)
    decreases hi - lo
  {
    if lo < hi {
      PickedLonger(log, log', kinds, since, lo + 1, hi);
    }
  }

  // ---------------------------------------------------------------- picks and events

  function Passing(es: seq<Event>, kinds: set<string>, since: Option<int>): seq<Event> {
    if es == [] then [] else (if Lets(kinds, since, es[0]) then [es[0]] else []) + Passing(es[1..], kinds, since)
  }

  function EventsAt(log: seq<Event>, ps: seq<nat>): seq<Event> {
    if ps == [] then [] else (if ps[0] < |log| then [log[ps[0]]] else []) + EventsAt(log, ps[1..])
  }

  ghost predicate StandsAt(log: seq<Event>, base: nat, lines: seq<Line>) {
    base + |lines| <= |log| && forall k :: 0 <= k < |lines| ==> log[base + k] == AsEvent(lines[k])
  }

  lemma {:induction false} PickedAre(log: seq<Event>, base: nat, lines: seq<Line>, kinds: set<string>, since: Option<int>)
    requires StandsAt(log, base, lines) && "" !in kinds
    ensures EventsAt(log, Picked(log, kinds, since, base, base + |lines|)) == Passing(Parsed(lines), kinds, since)
    decreases |lines|
  {
    if lines != [] {
      assert log[base] == AsEvent(lines[0]);
      assert forall k :: 0 <= k < |lines[1..]| ==> lines[1..][k] == lines[k + 1];
      PickedAre(log, base + 1, lines[1..], kinds, since);
      OneMorePicked(log, base, base + |lines|, lines[0], Parsed(lines[1..]), kinds, since);
    }
  }

  lemma {:induction false} OneMorePicked(log: seq<Event>, lo: nat, hi: nat, line: Line, rest: seq<Event>, kinds: set<string>, since: Option<int>)
    requires lo < hi <= |log| && log[lo] == AsEvent(line) && "" !in kinds
    requires EventsAt(log, Picked(log, kinds, since, lo + 1, hi)) == Passing(rest, kinds, since)
    ensures EventsAt(log, Picked(log, kinds, since, lo, hi))
         == Passing((if line.Json? then [line.event] else []) + rest, kinds, since)
  {
    var more := Picked(log, kinds, since, lo + 1, hi);
    var none: seq<Event> := [];
    if Lets(kinds, since, log[lo]) {
      assert ([lo] + more)[1..] == more && ([line.event] + rest)[1..] == rest;
    } else {
      KeptOut(log, lo, hi, more, kinds, since);
      if line.Json? {
        assert ([line.event] + rest)[1..] == rest;
        assert none + Passing(rest, kinds, since) == Passing(rest, kinds, since);
      } else {
        assert none + rest == rest;
      }
    }
  }

  lemma {:induction false} KeptOut(log: seq<Event>, lo: nat, hi: nat, more: seq<nat>, kinds: set<string>, since: Option<int>)
    requires lo < hi <= |log| && !Lets(kinds, since, log[lo]) && more == Picked(log, kinds, since, lo + 1, hi)
    ensures Picked(log, kinds, since, lo, hi) == more
  {
  }

  lemma ShardStandsAt(st: Store, i: nat, from: nat)
    requires i < |st| && from <= |st[i].lines|
    ensures StandsAt(LogOf(st), Base(st, i) + from, st[i].lines[from..])
  {
    BaseGrows(st, i, |st|);
  }
}
