/** The managed ssh relay: its reconnect loop with the failure clock, and the protocol it runs against a
    remote `events --tail --since` while the remote log keeps growing and the link keeps dropping. */
module RemoteRelay {
  import opened Wrappers
  import EventLog

  // ---------------------------------------------------------------- the reconnect loop

  /** One line of the remote's output; `ts` is its time stamp in milliseconds, if it has a usable one. */
  datatype Line = Line(ts: Option<int>)

  /** One ssh connection: the lines it yields, and the monotonic clock when it ended. */
  datatype Link = Link(lines: seq<Line>, downAt: int)

  /** The resume point after one more line: only a later time stamp moves it. */
  function Later(last: Option<int>, line: Line): Option<int> {
    if line.ts.Some? && (last.None? || line.ts.value > last.value) then line.ts else last
  }

  function Resume(last: Option<int>, lines: seq<Line>): Option<int>
    decreases lines
  {
    if lines == [] then last else Resume(Later(last, lines[0]), lines[1..])
  }

  /** The resume point is the greatest time stamp relayed; it never goes back. */
  lemma {:induction false} ResumeIsLatest(last: Option<int>, lines: seq<Line>)
    ensures var r := Resume(last, lines);
            && (last.Some? ==> r.Some? && r.value >= last.value)
            && (forall l :: l in lines && l.ts.Some? ==> r.Some? && l.ts.value <= r.value)
            && (r.Some? ==> r == last || Line(r) in lines)
            && (r.None? <==> last.None? && forall l :: l in lines ==> l.ts.None?)
    decreases lines
  {
    if lines != [] {
      ResumeIsLatest(Later(last, lines[0]), lines[1..]);
      assert forall l :: l in lines <==> l == lines[0] || l in lines[1..];
    }
  }

  lemma {:induction false} ResumeAppend(last: Option<int>, a: seq<Line>, b: seq<Line>)
    ensures Resume(last, a + b) == Resume(Resume(last, a), b)
    decreases a
  {
    if a == [] {
      assert a + b == b;
    } else {
      assert (a + b)[1..] == a[1..] + b;
      ResumeAppend(Later(last, a[0]), a[1..], b);
    }
  }

  /** Everything the first `n` connections yielded. */
  function Yield(links: seq<Link>, n: nat): seq<Line>
    requires n <= |links|
  {
    if n == 0 then [] else Yield(links, n - 1) + links[n - 1].lines
  }

  /** The connection whose end began the outage that connection `k` ended in: the last one up to `k` that
      relayed a line, or the first of all. */
  function OutageStart(links: seq<Link>, k: nat): (j: nat)
    requires k < |links|
    ensures j <= k
    ensures forall i :: j < i <= k ==> links[i].lines == []
    ensures j > 0 ==> links[j].lines != []
  {
    if k == 0 || links[k].lines != [] then k else OutageStart(links, k - 1)
  }

  function Elapsed(links: seq<Link>, k: nat): int
    requires k < |links|
  {
    links[k].downAt - links[OutageStart(links, k)].downAt
  }

  /** The outage has lasted too long when connection `k` ends. */
  predicate GivesUp(links: seq<Link>, k: nat, tolerance: int)
    requires k < |links|
  {
    tolerance <= 0 || Elapsed(links, k) >= tolerance
  }

  /** Connection `j` ended, and none after it up to `k` relayed a line, as long as `tolerance` before `k` ended. */
  predicate OutageOf(links: seq<Link>, j: nat, k: nat, tolerance: int) {
    && j <= k < |links|
    && (forall i :: j < i <= k ==> links[i].lines == [])
    && (j == 0 || links[j].lines != [])
    && links[k].downAt - links[j].downAt >= tolerance
  }

  lemma {:induction false} GivesUpIff(links: seq<Link>, k: nat, tolerance: int)
    requires k < |links|
    ensures GivesUp(links, k, tolerance) <==> tolerance <= 0 || exists j: nat :: OutageOf(links, j, k, tolerance)
  {
    var j := OutageStart(links, k);
    assert Elapsed(links, k) >= tolerance <==> OutageOf(links, j, k, tolerance);
    forall i: nat | OutageOf(links, i, k, tolerance)
      ensures i == j
    {
    }
  }

  /** Milliseconds to sleep before the reconnect after the `attempt`-th failure in a row. */
  function Backoff(attempt: nat): int
    requires attempt > 0
  {
    match attempt
    case 1 => 1000
    case 2 => 2000
    case 3 => 4000
    case 4 => 8000
    case 5 => 16000
    case _ => 30000
  }

  function Min(a: int, b: int): int {
    if a < b then a else b
  }

  function SleepAfter(links: seq<Link>, k: nat, tolerance: int): int
    requires k < |links|
  {
    Min(Backoff(k - OutageStart(links, k) + 1), tolerance - Elapsed(links, k))
  }

  /** One second at the first failure of an outage, then twice the delay before it, up to half a minute. */
  function Ladder(links: seq<Link>, k: nat): int
    requires k < |links|
  {
    if k == 0 || links[k].lines != [] then 1000 else Min(2 * Ladder(links, k - 1), 30000)
  }

  /** The delay after connection `k` is a step of the ladder, cut at the deadline of an outage that began at `since`. */
  predicate OnLadder(links: seq<Link>, k: nat, since: int, tolerance: int, sleep: int)
    requires k < |links|
  {
    sleep == if Ladder(links, k) < since + tolerance - links[k].downAt then Ladder(links, k) else since + tolerance - links[k].downAt
  }

  lemma {:induction false} BackoffIsLadder(links: seq<Link>, k: nat)
    requires k < |links|
    ensures Backoff(k - OutageStart(links, k) + 1) == Ladder(links, k)
  {
    if k > 0 && links[k].lines == [] {
      BackoffIsLadder(links, k - 1);
    }
  }

  /** What connection `k` is to resume from. */
  function Since(links: seq<Link>, k: nat): Option<int>
    requires k <= |links|
  {
    Resume(None, Yield(links, k))
  }

  datatype Exit = GaveUp | Interrupted

  /** Pass one connection's lines through. A line, not a connection, proves the link and ends the outage. */
  method PassThrough(stdout: seq<Line>, out0: seq<Line>, last0: Option<int>, blipStart0: Option<int>, attempt0: nat)
    returns (out: seq<Line>, last: Option<int>, blipStart: Option<int>, attempt: nat)
    ensures out == out0 + stdout
    ensures last == Resume(last0, stdout)
    ensures blipStart == if stdout == [] then blipStart0 else None
    ensures attempt == if stdout == [] then attempt0 else 0
  {
    out, last, blipStart, attempt := out0, last0, blipStart0, attempt0;
    for i := 0 to |stdout|
      invariant out == out0 + stdout[..i]
      invariant last == Resume(last0, stdout[..i])
      invariant blipStart == if i == 0 then blipStart0 else None
      invariant attempt == if i == 0 then attempt0 else 0
    {
      assert stdout[..i + 1] == stdout[..i] + [stdout[i]];
      ResumeAppend(last0, stdout[..i], [stdout[i]]);
      out := out + [stdout[i]];
      last := Later(last, stdout[i]);
      blipStart := None;
      attempt := 0;
    }
    assert stdout[..|stdout|] == stdout;
  }

  /** The relay over the connections it gets, until it gives up or is interrupted while connecting again.
      Each connection resumes from the latest time stamp relayed before it; the relay gives up at the end
      of the first connection that finds the outage as old as the tolerance; and no sleep runs past it. */
  method RelayRemoteEvents(links: seq<Link>, tolerance: int)
    returns (out: seq<Line>, sinces: seq<Option<int>>, sleeps: seq<int>, exit: Exit)
    ensures |sinces| <= |links|
    ensures out == Yield(links, |sinces|)
    ensures forall k :: 0 <= k < |sinces| ==> sinces[k] == Since(links, k)
    ensures |sleeps| <= |links| && forall k :: 0 <= k < |sleeps| ==> SleepsWell(links, k, sleeps[k], tolerance)
    ensures exit.GaveUp? ==> |sinces| > 0 && GivesUp(links, |sinces| - 1, tolerance) && |sleeps| == |sinces| - 1
    ensures exit.Interrupted? ==> |sinces| == |links| && |sleeps| == |links|
  {
    out, sinces, sleeps := [], [], [];
    var last: Option<int> := None;
    var blipStart: Option<int> := None;
    var attempt := 0;
    for k := 0 to |links|
      invariant |sinces| == k && |sleeps| == k
      invariant forall i :: 0 <= i < k ==> sinces[i] == Since(links, i) && SleepsWell(links, i, sleeps[i], tolerance)
      invariant out == Yield(links, k)
      invariant last == Resume(None, out)
      invariant OutageClock(links, k, blipStart, attempt)
    {
      sinces := sinces + [last];
      var gaveUp, sleep;
      out, last, blipStart, attempt, gaveUp, sleep := OneLink(links, k, tolerance, out, last, blipStart, attempt);
      if gaveUp {
        return out, sinces, sleeps, GaveUp;
      }
      sleeps := sleeps + [sleep];
    }
    exit := Interrupted;
  }

  /** Connection `k` from its first line to its end. */
  method OneLink(links: seq<Link>, k: nat, tolerance: int, out0: seq<Line>, last0: Option<int>, blipStart0: Option<int>, attempt0: nat)
    returns (out: seq<Line>, last: Option<int>, blipStart: Option<int>, attempt: nat, gaveUp: bool, sleep: int)
    requires k < |links| && last0 == Resume(None, out0) && OutageClock(links, k, blipStart0, attempt0)
    ensures out == out0 + links[k].lines && last == Resume(None, out)
    ensures OutageClock(links, k + 1, blipStart, attempt)
    ensures gaveUp <==> GivesUp(links, k, tolerance)
    ensures !gaveUp ==> SleepsWell(links, k, sleep, tolerance)
  {
    ResumeAppend(None, out0, links[k].lines);
    var linked, tries;
    out, last, linked, tries := PassThrough(links[k].lines, out0, last0, blipStart0, attempt0);
    OutageGoesOn(links, k, blipStart0, attempt0);
    gaveUp, blipStart, attempt, sleep := LinkDown(links[k].downAt, tolerance, linked, tries);
    if !gaveUp {
      SleepWithinTolerance(links, k, tolerance);
    }
  }

  /** The failure clock after `k` connections. */
  predicate OutageClock(links: seq<Link>, k: nat, blipStart: Option<int>, attempt: nat)
    requires k <= |links|
  {
    if k == 0 then blipStart == None && attempt == 0
    else blipStart == Some(links[OutageStart(links, k - 1)].downAt) && attempt == k - OutageStart(links, k - 1)
  }

  lemma OutageGoesOn(links: seq<Link>, k: nat, blipStart: Option<int>, attempt: nat)
    requires k < |links| && OutageClock(links, k, blipStart, attempt)
    ensures if links[k].lines == [] then
              && blipStart.GetOr(links[k].downAt) == links[OutageStart(links, k)].downAt
              && attempt + 1 == k - OutageStart(links, k) + 1
            else OutageStart(links, k) == k
  {
  }

  /** The end of a connection: the outage begins here unless one is under way; give up when it is as old as
      the tolerance, else sleep, but not past it. */
  method LinkDown(now: int, tolerance: int, blipStart0: Option<int>, attempt0: nat)
    returns (gaveUp: bool, blipStart: Option<int>, attempt: nat, sleep: int)
    ensures blipStart == Some(blipStart0.GetOr(now)) && attempt == attempt0 + 1
    ensures gaveUp <==> tolerance <= 0 || now - blipStart.value >= tolerance
    ensures !gaveUp ==> sleep == Min(Backoff(attempt), tolerance - (now - blipStart.value))
  {
    blipStart, attempt, sleep := blipStart0, attempt0, 0;
    if blipStart.None? {
      blipStart := Some(now);
    }
    attempt := attempt + 1;
    var elapsed := now - blipStart.value;
    if tolerance <= 0 || elapsed >= tolerance {
      return true, blipStart, attempt, 0;
    }
    return false, blipStart, attempt, Min(Backoff(attempt), tolerance - elapsed);
  }

  /** The sleep after connection `k` is a step of the ladder, takes some time, and is over by the deadline of the outage. */
  predicate EndsInTime(links: seq<Link>, k: nat, sleep: int, tolerance: int)
    requires k < |links|
  {
    && OnLadder(links, k, links[OutageStart(links, k)].downAt, tolerance, sleep)
    && 0 < sleep
    && links[k].downAt + sleep <= links[OutageStart(links, k)].downAt + tolerance
  }

  /** The outage still has time, and the sleep fits in it. */
  predicate SleepsWell(links: seq<Link>, k: nat, sleep: int, tolerance: int)
    requires k < |links|
  {
    !GivesUp(links, k, tolerance) && sleep == SleepAfter(links, k, tolerance) && EndsInTime(links, k, sleep, tolerance)
  }

  lemma SleepWithinTolerance(links: seq<Link>, k: nat, tolerance: int)
    requires k < |links| && !GivesUp(links, k, tolerance)
    ensures SleepsWell(links, k, SleepAfter(links, k, tolerance), tolerance)
  {
    BackoffIsLadder(links, k);
  }

  /** An outage ends in time: once a reconnect has slept to the deadline and yielded no line, it was the last. */
  lemma LastTry(links: seq<Link>, k: nat, tolerance: int)
    requires k + 1 < |links| && links[k + 1].lines == []
    requires SleepAfter(links, k, tolerance) == tolerance - Elapsed(links, k)
    requires links[k + 1].downAt >= links[k].downAt + SleepAfter(links, k, tolerance)
    ensures GivesUp(links, k + 1, tolerance)
  {
  }

  // ---------------------------------------------------------------- the protocol

  type Event = EventLog.Event

  /** A live connection: `since` is what it was opened with, `pos` the next event of the log it looks at;
      while `replaying` it lets through only events stamped `since` or later. `known` keeps the length of
      the log when it was opened. */
  datatype Conn = Conn(since: Option<int>, pos: nat, replaying: bool, known: nat)

  /** `out` are the log positions relayed, in order. `first` and `top` keep the first and the greatest of
      them that bears a time stamp. */
  datatype Relay = Relay(
    kinds: set<string>,
    log: seq<Event>,
    conn: Option<Conn>,
    out: seq<nat>,
    last: Option<int>,
    first: nat,
    top: nat)

  datatype Step = Append(event: Event) | Connect | Deliver | EndReplay | Hangup

  /** The stamped events of the log are in time order. */
  predicate InTimeOrder(log: seq<Event>) {
    forall i, j :: 0 <= i < j < |log| && log[i].ts.Some? && log[j].ts.Some? ==> log[i].ts.value <= log[j].ts.value
  }

  predicate Wanted(s: Relay, i: nat) {
    i < |s.log| && s.log[i].kind in s.kinds && s.log[i].ts.Some?
  }

  /** The remote's filter: by kind alone when following, by kind and time stamp when replaying. */
  predicate LetsThrough(s: Relay, c: Conn, i: nat)
    requires i < |s.log|
  {
    && s.log[i].kind in s.kinds
    && (c.replaying && c.since.Some? ==> s.log[i].ts.Some? && s.log[i].ts.value >= c.since.value)
  }

  predicate Enabled(s: Relay, a: Step) {
    match a
    case Append(e) => InTimeOrder(s.log + [e])
    case Connect => s.conn.None?
    case Deliver => s.conn.Some? && s.conn.value.pos < |s.log|
    case EndReplay => s.conn.Some? && s.conn.value.replaying && s.conn.value.known <= s.conn.value.pos
    case Hangup => s.conn.Some?
  }

  function Relayed(s: Relay, i: nat): Relay
    requires i < |s.log|
  {
    var stamped := s.log[i].ts.Some?;
    s.(out := s.out + [i],
       last := Later(s.last, Line(s.log[i].ts)),
       first := if stamped && s.last.None? then i else s.first,
       top := if stamped && (s.last.None? || i > s.top) then i else s.top)
  }

  function Do(s: Relay, a: Step): Relay
    requires Enabled(s, a)
  {
    match a
    case Append(e) => s.(log := s.log + [e])
    case Connect =>
      s.(conn := Some(if s.last.None? then Conn(None, |s.log|, false, |s.log|) else Conn(s.last, 0, true, |s.log|)))
    case Deliver =>
      var c := s.conn.value;
      var s' := s.(conn := Some(c.(pos := c.pos + 1)));
      if LetsThrough(s, c, c.pos) then Relayed(s', c.pos) else s'
    case EndReplay => s.(conn := Some(s.conn.value.(replaying := false)))
    case Hangup => s.(conn := None)
  }

  predicate Init(s: Relay) {
    InTimeOrder(s.log) && s.conn.None? && s.out == [] && s.last.None?
  }

  /** Past this position the live connection has let nothing slip. */
  function Frontier(s: Relay): int {
    if s.conn.Some? && s.conn.value.pos > s.top + 1 then s.conn.value.pos else s.top + 1
  }

  /** The bookkeeping is right: `first` is the first stamped position relayed, `top` the greatest, at the resume point. */
  ghost predicate Books(s: Relay) {
    && InTimeOrder(s.log)
    && (forall i :: i in s.out ==> i < |s.log| && s.log[i].kind in s.kinds)
    && (s.last.None? ==> forall i :: i in s.out ==> s.log[i].ts.None?)
    && (s.last.Some? ==>
          && s.first in s.out && s.top in s.out && s.first <= s.top
          && s.log[s.first].ts.Some? && s.log[s.top].ts == s.last
          && forall i :: i in s.out && s.log[i].ts.Some? ==> i <= s.top)
  }

  ghost predicate NoGap(s: Relay) {
    s.last.Some? ==> forall i: nat :: Wanted(s, i) && s.first <= i < Frontier(s) ==> i in s.out
  }

  /** What the live connection has yet to look at is either new or stamped no later than it resumed from. */
  ghost predicate Live(s: Relay)
    requires Books(s)
  {
    s.conn.Some? ==>
      var c := s.conn.value;
      && c.pos <= |s.log| && c.known <= |s.log|
      && (c.since.Some? ==> s.last.Some? && c.since.value <= s.last.value)
      && (c.since.None? ==> !c.replaying && c.known <= c.pos)
      && (!c.replaying ==> c.known <= c.pos)
      && (c.replaying ==> c.since.Some?)
      && (forall i :: i in s.out ==> i < c.known || i < c.pos)
      && (forall i :: i in s.out && i >= c.pos && s.log[i].ts.Some? ==> c.since.Some? && s.log[i].ts.value <= c.since.value)
  }

  ghost predicate Inv(s: Relay) {
    Books(s) && NoGap(s) && Live(s)
  }

  lemma StepKeepsInv(s: Relay, a: Step)
    requires Inv(s) && Enabled(s, a)
    ensures Inv(Do(s, a))
  {
    match a
    case Append(e) =>
    case Connect =>
    case Deliver => DeliverKeepsInv(s);
    case EndReplay =>
    case Hangup =>
  }

  /** Everything wanted before the live position and after the first line is out, so nothing older than the
      replay filter admits is missing either. */
  lemma NothingSkipped(s: Relay)
    requires Inv(s) && Enabled(s, Deliver) && s.last.Some?
    requires Wanted(s, s.conn.value.pos) && s.first <= s.conn.value.pos
    ensures LetsThrough(s, s.conn.value, s.conn.value.pos) || s.conn.value.pos in s.out
  {
    var c := s.conn.value;
    if !LetsThrough(s, c, c.pos) {
      assert s.log[c.pos].ts.value < s.log[s.top].ts.value;
      assert c.pos < s.top;
    }
  }

  lemma DeliverKeepsBooks(s: Relay)
    requires Inv(s) && Enabled(s, Deliver)
    ensures Books(Do(s, Deliver))
  {
    var c, s' := s.conn.value, Do(s, Deliver);
    if LetsThrough(s, c, c.pos) {
      assert forall i :: i in s'.out <==> i in s.out || i == c.pos;
    }
  }

  lemma DeliverKeepsNoGap(s: Relay)
    requires Inv(s) && Enabled(s, Deliver)
    ensures NoGap(Do(s, Deliver))
  {
    var c, s' := s.conn.value, Do(s, Deliver);
    assert LetsThrough(s, c, c.pos) ==> c.pos in s'.out;
    assert forall i :: i in s.out ==> i in s'.out;
    if s.last.Some? && Wanted(s, c.pos) && s.first <= c.pos {
      NothingSkipped(s);
    }
  }

  lemma DeliverKeepsLive(s: Relay)
    requires Inv(s) && Enabled(s, Deliver) && Books(Do(s, Deliver))
    ensures Live(Do(s, Deliver))
  {
    var c, s' := s.conn.value, Do(s, Deliver);
    assert forall i :: i in s'.out ==> i in s.out || i == c.pos;
  }

  lemma DeliverKeepsInv(s: Relay)
    requires Inv(s) && Enabled(s, Deliver)
    ensures Inv(Do(s, Deliver))
  {
    DeliverKeepsBooks(s);
    DeliverKeepsNoGap(s);
    DeliverKeepsLive(s);
  }

  ghost predicate IsRun(ss: seq<Relay>, as_: seq<Step>) {
    GoesOn(ss, as_) && Init(ss[0])
  }

  /** Part of a run. */
  ghost predicate GoesOn(ss: seq<Relay>, as_: seq<Step>) {
    && |ss| == |as_| + 1
    && forall i :: 0 <= i < |as_| ==> Enabled(ss[i], as_[i]) && ss[i + 1] == Do(ss[i], as_[i])
  }

  lemma {:induction false} EveryRunKeepsInv(ss: seq<Relay>, as_: seq<Step>, n: nat)
    requires IsRun(ss, as_) && n < |ss|
    ensures Inv(ss[n])
  {
    if n > 0 {
      EveryRunKeepsInv(ss, as_, n - 1);
      StepKeepsInv(ss[n - 1], as_[n - 1]);
    }
  }

  /** No holes: in every run of appends, connects, drops and replays, each stamped event of a wanted kind
      between the first stamped line relayed and the newest one has been relayed. */
  lemma NoHoles(ss: seq<Relay>, as_: seq<Step>, n: nat, a: nat, i: nat, b: nat)
    requires IsRun(ss, as_) && n < |ss|
    requires var s := ss[n]; a == s.first && b in s.out && Wanted(s, i) && b < |s.log| && s.log[b].ts.Some? && a <= i <= b
    ensures i in ss[n].out
  {
    EveryRunKeepsInv(ss, as_, n);
  }

  /** `first` is the first stamped line there was, and stays it; the resume point never goes back. */
  lemma BooksKept(s: Relay, a: Step)
    requires Inv(s) && Enabled(s, a)
    ensures var s' := Do(s, a);
            && s.out <= s'.out
            && (s.last.Some? ==> s'.first == s.first && s'.last.Some? && s'.last.value >= s.last.value && s'.top >= s.top)
            && (s.last.None? && s'.last.Some? ==> s'.out == s.out + [s'.first])
  {
  }

  /** At least once, and hardly more: only events stamped exactly at the resume point are relayed again. */
  lemma OnlyTheBoundaryRepeats(s: Relay)
    requires Inv(s) && Enabled(s, Deliver) && LetsThrough(s, s.conn.value, s.conn.value.pos)
    requires s.conn.value.pos in s.out
    ensures s.conn.value.replaying && s.log[s.conn.value.pos].ts == s.conn.value.since
  {
  }

  /** Once the live connection has looked at the whole log, everything wanted since the first line is out. */
  lemma CaughtUp(s: Relay, i: nat)
    requires Inv(s) && s.conn.Some? && s.conn.value.pos == |s.log| && s.last.Some?
    requires Wanted(s, i) && s.first <= i
    ensures i in s.out
  {
  }

  // ---------------------------------------------------------------- why the first line needs a time stamp

  /** A wanted event between the first one relayed and another that was not relayed itself. */
  predicate HoleAt(s: Relay, i: nat, j: nat) {
    s.out != [] && j in s.out && s.out[0] < i < j && Wanted(s, i) && Wanted(s, j) && i !in s.out
  }

  /** Some time stamp no event of the log is later than. */
  lemma {:induction false} Latest(log: seq<Event>) returns (ts: int)
    ensures forall i :: 0 <= i < |log| && log[i].ts.Some? ==> log[i].ts.value <= ts
  {
    if log == [] {
      ts := 0;
    } else {
      var front := log[..|log| - 1];
      ts := Latest(front);
      assert forall i :: 0 <= i < |front| ==> log[i] == front[i];
      if log[|log| - 1].ts.Some? && log[|log| - 1].ts.value > ts {
        ts := log[|log| - 1].ts.value;
      }
    }
  }

  ghost predicate HasHole(s: Relay) {
    exists i: nat, j: nat :: HoleAt(s, i, j)
  }

  /** A run that has got to `s` can go on to a hole. */
  ghost predicate CanLeaveAHole(s: Relay) {
    exists ss: seq<Relay>, as_: seq<Step> :: GoesOn(ss, as_) && ss[0] == s && HasHole(ss[|as_|])
  }

  lemma HoleBefore(s: Relay, a: Step)
    requires Enabled(s, a) && CanLeaveAHole(Do(s, a))
    ensures CanLeaveAHole(s)
  {
    var ss: seq<Relay>, as_: seq<Step> :| GoesOn(ss, as_) && ss[0] == Do(s, a) && HasHole(ss[|as_|]);
    var ss', as' := [s] + ss, [a] + as_;
    assert forall i :: 0 < i < |as'| ==> as'[i] == as_[i - 1] && ss'[i] == ss[i - 1] && ss'[i + 1] == ss[i];
    assert GoesOn(ss', as') && ss'[|as'|] == ss[|as_|];
  }

  lemma HoleNow(s: Relay)
    requires HasHole(s)
    ensures CanLeaveAHole(s)
  {
    var ss: seq<Relay>, as_: seq<Step> := [s], [];
    assert GoesOn(ss, as_) && ss[0] == s;
  }

  /** A relayed line without a usable time stamp sets no resume point. So if nothing else has been relayed yet, the
      link can drop there, and the next connection starts from the end of the log: any run that has got so far
      can go on to one in which an event written meanwhile is missing between relayed ones. */
  lemma UnstampedStartLeavesAHole(s: Relay)
    requires Inv(s) && s.last.None? && (s.out != [] || s.kinds != {})
    ensures CanLeaveAHole(s)
  {
    if s.conn.None? {
      DownLeavesAHole(s);
    } else {
      HangupKeepsInv(s);
      DownLeavesAHole(Do(s, Hangup));
      HoleBefore(s, Hangup);
    }
  }

  /** The exact condition, wherever a run has got to: it can go on to a hole behind the first line relayed if and only
      if it has one, or no line with a time stamp has been relayed and there is a kind to relay. */
  lemma HoleIff(ss: seq<Relay>, as_: seq<Step>, n: nat)
    requires IsRun(ss, as_) && n < |ss|
    ensures CanLeaveAHole(ss[n]) <==> HasHole(ss[n]) || (ss[n].last.None? && ss[n].kinds != {})
  {
    var s := ss[n];
    EveryRunKeepsInv(ss, as_, n);
    if HasHole(s) {
      HoleNow(s);
    } else if s.last.None? {
      UnstampedIff(s);
    } else {
      StampedLeavesNone(s);
    }
  }

  lemma UnstampedIff(s: Relay)
    requires Inv(s) && s.last.None?
    ensures CanLeaveAHole(s) <==> s.kinds != {}
  {
    if s.kinds != {} {
      UnstampedStartLeavesAHole(s);
    } else if CanLeaveAHole(s) {
      var ss: seq<Relay>, as_: seq<Step> :| GoesOn(ss, as_) && ss[0] == s && HasHole(ss[|as_|]);
      SinceStamped(ss, as_, |as_|);
      assert false;
    }
  }

  /** Once a line with a time stamp has been relayed, no new hole can come. */
  lemma StampedLeavesNone(s: Relay)
    requires Inv(s) && s.last.Some? && !HasHole(s)
    ensures !CanLeaveAHole(s)
  {
    if CanLeaveAHole(s) {
      var ss: seq<Relay>, as_: seq<Step> :| GoesOn(ss, as_) && ss[0] == s && HasHole(ss[|as_|]);
      SinceStamped(ss, as_, |as_|);
      var i: nat, j: nat :| HoleAt(ss[|as_|], i, j);
      assert HoleAt(s, i, s.first);
      assert false;
    }
  }

  /** What stays from `ss[0]` on: the log so far, what has been relayed, and, if there is one, the first stamped line. */
  lemma {:induction false} SinceStamped(ss: seq<Relay>, as_: seq<Step>, n: nat)
    requires GoesOn(ss, as_) && n < |ss| && Inv(ss[0])
    ensures Inv(ss[n]) && ss[0].log <= ss[n].log && ss[0].out <= ss[n].out && ss[n].kinds == ss[0].kinds
    ensures ss[0].last.Some? ==> ss[n].last.Some? && ss[n].first == ss[0].first
  {
    if n > 0 {
      SinceStamped(ss, as_, n - 1);
      StepKeepsInv(ss[n - 1], as_[n - 1]);
      BooksKept(ss[n - 1], as_[n - 1]);
    }
  }

  /** The first line relayed bears a time stamp. */
  predicate StampedStart(s: Relay) {
    s.out != [] && s.out[0] < |s.log| && s.log[s.out[0]].ts.Some?
  }

  /** So a relay whose first line bears a time stamp never leaves one. */
  lemma StampedStartLeavesNone(ss: seq<Relay>, as_: seq<Step>, n: nat)
    requires IsRun(ss, as_) && n < |ss| && StampedStart(ss[n])
    ensures !CanLeaveAHole(ss[n])
  {
    FirstIsFirst(ss, as_, n);
    StampedLeavesNone(ss[n]);
  }

  lemma {:induction false} FirstIsFirst(ss: seq<Relay>, as_: seq<Step>, n: nat)
    requires IsRun(ss, as_) && n < |ss|
    ensures Inv(ss[n]) && (StampedStart(ss[n]) ==> ss[n].last.Some? && ss[n].first == ss[n].out[0])
  {
    if n > 0 {
      FirstIsFirst(ss, as_, n - 1);
      StepKeepsInv(ss[n - 1], as_[n - 1]);
      FirstStays(ss[n - 1], as_[n - 1]);
    }
  }

  lemma FirstStays(s: Relay, a: Step)
    requires Inv(s) && Enabled(s, a) && (StampedStart(s) ==> s.last.Some? && s.first == s.out[0])
    ensures var s' := Do(s, a); StampedStart(s') ==> s'.last.Some? && s'.first == s'.out[0]
  {
    BooksKept(s, a);
    if s.out != [] {
      assert s.out[0] in s.out;
    }
  }

  lemma HangupKeepsInv(s: Relay)
    requires Inv(s) && s.conn.Some?
    ensures Inv(Do(s, Hangup))
  {
    StepKeepsInv(s, Hangup);
  }

  lemma DownLeavesAHole(s: Relay)
    requires Inv(s) && s.conn.None? && s.last.None? && (s.out != [] || s.kinds != {})
    ensures CanLeaveAHole(s)
  {
    if s.out != [] {
      SecondLeavesAHole(s);
    } else {
      var kind :| kind in s.kinds;
      var e := EventLog.Event(kind, None);
      var s1 := Do(s, Connect);
      var s2 := Do(s1, Append(e));
      var s3 := Do(s2, Deliver);
      assert s3.out == [|s.log|];
      StepKeepsInv(s, Connect);
      StepKeepsInv(s1, Append(e));
      StepKeepsInv(s2, Deliver);
      StepKeepsInv(s3, Hangup);
      SecondLeavesAHole(Do(s3, Hangup));
      HoleBefore(s3, Hangup);
      HoleBefore(s2, Deliver);
      HoleBefore(s1, Append(e));
      HoleBefore(s, Connect);
    }
  }

  lemma SecondLeavesAHole(s: Relay)
    requires Inv(s) && s.conn.None? && s.out != [] && s.last.None?
    ensures CanLeaveAHole(s)
  {
    var ts := Latest(s.log);
    var n, first := |s.log|, s.out[0];
    assert first in s.out && n !in s.out;
    var e := EventLog.Event(s.log[first].kind, Some(ts));
    LateEnough(s.log, e);
    LateEnough(s.log + [e], e);
    var s1 := Do(s, Append(e));
    var s2 := Do(s1, Connect);
    var s3 := Do(s2, Append(e));
    var s4 := Do(s3, Deliver);
    assert s4.log == s.log + [e] + [e] && s4.out == s.out + [n + 1];
    assert HoleAt(s4, n, n + 1);
    HoleNow(s4);
    HoleBefore(s3, Deliver);
    HoleBefore(s2, Append(e));
    HoleBefore(s1, Connect);
    HoleBefore(s, Append(e));
  }

  lemma LateEnough(log: seq<Event>, e: Event)
    requires InTimeOrder(log) && e.ts.Some? && forall i :: 0 <= i < |log| && log[i].ts.Some? ==> log[i].ts.value <= e.ts.value
    ensures InTimeOrder(log + [e])
  {
  }
}
