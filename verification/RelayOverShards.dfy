/** The relay end to end: each connection runs the tail of `EventTail` on the sharded remote log, its lines travel
    through a pipe that a hang-up empties, and the relay resumes from the latest time stamp it has passed on. */
module RelayOverShards {
  import opened Wrappers
  import opened EventLog
  import opened OneLog
  import EventTail
  import RemoteRelay

  type Tail = EventTail.Tail
  type Relay = RemoteRelay.Relay

  // ---------------------------------------------------------------- runs of the relay on one log

  /** Steps of the relay protocol lead from `r` to `r'`. */
  ghost predicate Leads(r: Relay, r': Relay) {
    exists ss: seq<Relay>, as_: seq<RemoteRelay.Step> :: RemoteRelay.GoesOn(ss, as_) && ss[0] == r && ss[|as_|] == r'
  }

  lemma LeadsNowhere(r: Relay)
    ensures Leads(r, r)
  {
    var ss: seq<Relay>, as_: seq<RemoteRelay.Step> := [r], [];
    assert RemoteRelay.GoesOn(ss, as_) && ss[|as_|] == r;
  }

  lemma LeadsOneMore(r: Relay, r': Relay, a: RemoteRelay.Step)
    requires Leads(r, r') && RemoteRelay.Enabled(r', a)
    ensures Leads(r, RemoteRelay.Do(r', a))
  {
    var ss: seq<Relay>, as_: seq<RemoteRelay.Step> :| RemoteRelay.GoesOn(ss, as_) && ss[0] == r && ss[|as_|] == r';
    var ss', as' := ss + [RemoteRelay.Do(r', a)], as_ + [a];
    forall i | 0 <= i < |as'|
      ensures RemoteRelay.Enabled(ss'[i], as'[i]) && ss'[i + 1] == RemoteRelay.Do(ss'[i], as'[i])
    {
      if i < |as_| {
        assert as'[i] == as_[i] && ss'[i] == ss[i] && ss'[i + 1] == ss[i + 1];
      }
    }
    assert RemoteRelay.GoesOn(ss', as') && ss'[|as'|] == RemoteRelay.Do(r', a);
  }

  lemma LeadsOnFrom(r: Relay, mid: Relay, r': Relay)
    requires Leads(r, mid) && Leads(mid, r')
    ensures Leads(r, r')
  {
    var ss: seq<Relay>, as_: seq<RemoteRelay.Step> :| RemoteRelay.GoesOn(ss, as_) && ss[0] == mid && ss[|as_|] == r';
    LeadsAlong(r, ss, as_, |as_|);
  }

  lemma {:induction false} LeadsAlong(r: Relay, ss: seq<Relay>, as_: seq<RemoteRelay.Step>, n: nat)
    requires RemoteRelay.GoesOn(ss, as_) && n <= |as_| && Leads(r, ss[0])
    ensures Leads(r, ss[n])
  {
    if n > 0 {
      LeadsAlong(r, ss, as_, n - 1);
      LeadsOneMore(r, ss[n - 1], as_[n - 1]);
    }
  }

  lemma {:induction false} InvAlong(ss: seq<Relay>, as_: seq<RemoteRelay.Step>, n: nat)
    requires RemoteRelay.GoesOn(ss, as_) && n <= |as_| && RemoteRelay.Inv(ss[0])
    ensures RemoteRelay.Inv(ss[n])
  {
    if n > 0 {
      InvAlong(ss, as_, n - 1);
      RemoteRelay.StepKeepsInv(ss[n - 1], as_[n - 1]);
    }
  }

  lemma LeadsKeepsInv(r: Relay, r': Relay)
    requires Leads(r, r') && RemoteRelay.Inv(r)
    ensures RemoteRelay.Inv(r')
  {
    var ss: seq<Relay>, as_: seq<RemoteRelay.Step> :| RemoteRelay.GoesOn(ss, as_) && ss[0] == r && ss[|as_|] == r';
    InvAlong(ss, as_, |as_|);
  }

  function Arrived(r: Relay, pos: nat, replaying: bool): Relay
    requires r.conn.Some?
  {
    r.(conn := Some(r.conn.value.(pos := pos, replaying := replaying)))
  }

  /** What the connection filters by, as far as the relay can tell. */
  function Filter(r: Relay): Option<int>
    requires r.conn.Some?
  {
    if r.conn.value.replaying then r.conn.value.since else None
  }

  lemma LetsThroughIs(r: Relay, i: nat)
    requires r.conn.Some? && i < |r.log|
    ensures RemoteRelay.LetsThrough(r, r.conn.value, i) == Lets(r.kinds, Filter(r), r.log[i])
  {
  }

  /** The connection looks at one more position. */
  lemma LeadsOn(r0: Relay, r: Relay)
    requires Leads(r0, r) && r.conn.Some? && r.conn.value.pos < |r.log|
    ensures var c := r.conn.value;
            var next := Arrived(r, c.pos + 1, c.replaying);
            Leads(r0, if Lets(r.kinds, Filter(r), r.log[c.pos]) then RemoteRelay.Relayed(next, c.pos) else next)
  {
    LetsThroughIs(r, r.conn.value.pos);
    LeadsOneMore(r0, r, RemoteRelay.Deliver);
  }

  ghost predicate KeptBack(log: seq<Event>, kinds: set<string>, since: Option<int>, lo: nat, hi: nat) {
    forall i :: lo <= i < hi && i < |log| ==> !Lets(kinds, since, log[i])
  }

  /** And past positions that its filter keeps back. */
  lemma {:induction false} LeadsPast(r0: Relay, r: Relay, j: nat)
    requires Leads(r0, r) && r.conn.Some? && r.conn.value.pos <= j <= |r.log|
    requires KeptBack(r.log, r.kinds, Filter(r), r.conn.value.pos, j)
    ensures Leads(r0, Arrived(r, j, r.conn.value.replaying))
    decreases j - r.conn.value.pos
  {
    var c := r.conn.value;
    if c.pos < j {
      LeadsOn(r0, r);
      LeadsPast(r0, Arrived(r, c.pos + 1, c.replaying), j);
    } else {
      assert Arrived(r, j, c.replaying) == r;
    }
  }

  /** The relay passes on position `j`, nothing before it having passed the filter. */
  lemma LeadsTo(r0: Relay, r: Relay, j: nat)
    requires Leads(r0, r) && r.conn.Some? && r.conn.value.pos <= j < |r.log|
    requires Lets(r.kinds, Filter(r), r.log[j]) && KeptBack(r.log, r.kinds, Filter(r), r.conn.value.pos, j)
    ensures Leads(r0, RemoteRelay.Relayed(Arrived(r, j + 1, r.conn.value.replaying), j))
  {
    LeadsPast(r0, r, j);
    var r1 := Arrived(r, j, r.conn.value.replaying);
    LeadsOn(r0, r1);
    assert Arrived(r1, j + 1, r.conn.value.replaying) == Arrived(r, j + 1, r.conn.value.replaying);
  }

  // ---------------------------------------------------------------- the system

  /** `pipe` are the log positions the remote has printed and the relay has not read. The rest keeps the books: the
      remote has looked at the log up to `read`, in the replay up to `replayTo`; `month` is what the clock showed when
      the remote seeded its offsets; and the `conn` of the relay says what has arrived. */
  datatype System = System(tail: Tail, relay: Relay, pipe: seq<nat>, read: nat, replayTo: nat, month: Month)

  /** A step of a writer or of the remote process, which seeds when the clock shows `month`; the arrival of a line; the
      end of the connection. */
  datatype Step = Open(month: Month) | Remote(step: EventTail.Step) | Receive | Hangup

  /** A remote process that has just been started. */
  function Fresh(st: Store): Tail {
    EventTail.Tail(st, map[], EventTail.Seeding, map[], map[], map[], map[], 0, None)
  }

  /** Writers take month and time stamp from one clock reading. */
  predicate Stamped(monthOf: int -> Month, m: Month, line: Line) {
    line.Json? && line.event.ts.Some? ==> monthOf(line.event.ts.value) == m
  }

  /** Calm writers; and the remote replays exactly if it was given a time stamp. */
  predicate Enabled(s: System, monthOf: int -> Month, a: Step) {
    match a
    case Open(_) => EventTail.Enabled(s.tail, EventTail.Seed)
    case Remote(b) =>
      && !b.Seed? && EventTail.Enabled(s.tail, b) && EventTail.Calm(s.tail, b, s.month)
      && (match b
          case Append(line) =>
            && Stamped(monthOf, s.tail.store[|s.tail.store| - 1].month, line)
            && RemoteRelay.InTimeOrder(s.relay.log + [AsEvent(line)])
          case Create(m, line) => Stamped(monthOf, m, line) && RemoteRelay.InTimeOrder(s.relay.log + [AsEvent(line)])
          case BeginReplay(m, _) => Since(s).Some? && m == monthOf(Since(s).value)
          case BeginFollow => s.tail.phase.Seeded? ==> Since(s).None?
          case _ => true)
    case Receive => s.relay.conn.Some? && s.pipe != [] && s.pipe[0] < |s.relay.log|
    case Hangup => s.relay.conn.Some?
  }

  /** The time stamp the connection was opened with. */
  function Since(s: System): Option<int> {
    if s.relay.conn.Some? then s.relay.conn.value.since else None
  }

  /** What the remote prints when it reads shard `i` from line `from` to its end. */
  function Printed(s: System, i: nat, from: nat, since: Option<int>): seq<nat>
    requires i < |s.tail.store|
  {
    Picked(s.relay.log, s.relay.kinds, since, Base(s.tail.store, i) + from, Base(s.tail.store, i) + |s.tail.store[i].lines|)
  }

  function Max(a: nat, b: nat): nat {
    if a < b then b else a
  }

  /** Seeding is what opens a connection for good: with no time stamp to resume from, it begins at the end of the log. */
  function Opened(s: System, month: Month): System
    requires EventTail.Enabled(s.tail, EventTail.Seed)
  {
    var n := |s.relay.log|;
    var atEnd := s.relay.last.None?;
    System(EventTail.Do(s.tail, EventTail.Seed),
           s.relay.(conn := Some(RemoteRelay.Conn(s.relay.last, if atEnd then n else 0, !atEnd, n))),
           [], if atEnd then n else 0, 0, month)
  }

  /** What the replay prints of shard `i`: older months are not opened. */
  function ReplayPrints(s: System, i: nat): seq<nat>
    requires s.tail.phase.Replaying? && i < |s.tail.store|
  {
    if s.tail.store[i].month < s.tail.phase.since then [] else Printed(s, i, 0, Since(s))
  }

  function Replayed(s: System): System
    requires EventTail.Enabled(s.tail, EventTail.ReplayFile)
  {
    var i := IndexOf(s.tail.store, s.tail.phase.todo[0]);
    var t := EventTail.Do(s.tail, EventTail.ReplayFile);
    if i == |s.tail.store| then s.(tail := t)
    else System(t, s.relay, s.pipe + ReplayPrints(s, i), Base(s.tail.store, i + 1), Base(s.tail.store, i + 1), s.month)
  }

  /** What a poll prints of shard `i`. */
  function PollPrints(s: System, i: nat): seq<nat>
    requires i < |s.tail.store|
  {
    Printed(s, i, StartOf(s.tail.store[i].lines, OffsetOf(s.tail.offsets, s.tail.store[i].month)), None)
  }

  function Polled(s: System): System
    requires EventTail.Enabled(s.tail, EventTail.ReadFile)
  {
    var i := IndexOf(s.tail.store, s.tail.phase.todo[0]);
    var t := EventTail.Do(s.tail, EventTail.ReadFile);
    if i == |s.tail.store| then s.(tail := t)
    else System(t, s.relay, s.pipe + PollPrints(s, i), Max(s.read, Base(s.tail.store, i + 1)), s.replayTo, s.month)
  }

  /** The relay passes the line on, whatever it is. */
  function Received(s: System): System
    requires s.relay.conn.Some? && s.pipe != [] && s.pipe[0] < |s.relay.log|
  {
    var j := s.pipe[0];
    s.(relay := RemoteRelay.Relayed(Arrived(s.relay, j + 1, s.relay.conn.value.replaying && j < s.replayTo), j),
       pipe := s.pipe[1..])
  }

  function Written(s: System, t: Tail): System {
    s.(tail := t, relay := s.relay.(log := LogOf(t.store)))
  }

  function Do(s: System, monthOf: int -> Month, a: Step): System
    requires Enabled(s, monthOf, a)
  {
    match a
    case Open(month) => Opened(s, month)
    case Remote(b) =>
      if b.ReplayFile? then Replayed(s)
      else if b.ReadFile? then Polled(s)
      else if b.Append? || b.Create? then Written(s, EventTail.Do(s.tail, b))
      else s.(tail := EventTail.Do(s.tail, b))
    case Receive => Received(s)
    case Hangup => System(Fresh(s.tail.store), s.relay.(conn := None), [], 0, 0, s.month)
  }

  // ---------------------------------------------------------------- what holds in every run

  ghost predicate OwnMonths(st: Store, monthOf: int -> Month) {
    forall i, k :: 0 <= i < |st| && 0 <= k < |st[i].lines| ==> Stamped(monthOf, st[i].month, st[i].lines[k])
  }

  /** The shards still to be read are the last ones of the listing. */
  predicate InTurn(st: Store, listed: nat, todo: seq<Month>) {
    && |todo| <= listed <= |st|
    && forall k :: 0 <= k < |todo| ==> todo[k] == st[listed - |todo| + k].month
  }

  predicate Floored(st: Store, floor: Option<Month>) {
    floor.Some? ==> st != [] && floor.value <= EventTail.NewestTwo(st)[0]
  }

  predicate Todo(st: Store, listed: nat, floor: Option<Month>, phase: EventTail.Phase) {
    match phase
    case Replaying(todo, _, _) => InTurn(st, listed, todo)
    case Following(todo) => InTurn(st, listed, todo) && (floor.Some? ==> forall m :: m in todo ==> m >= floor.value)
    case _ => true
  }

  /** The offsets know nothing of a shard created since the last listing. */
  ghost predicate Unseen(st: Store, listed: nat, offsets: Offsets) {
    forall i: nat :: listed <= i < |st| ==> OffsetOf(offsets, st[i].month) == 0
  }

  ghost predicate TailInv(t: Tail, cur: Month) {
    EventTail.CalmInv(t, cur) && Floored(t.store, t.floor) && Todo(t.store, t.listed, t.floor, t.phase) && Unseen(t.store, t.listed, t.offsets)
  }

  /** The share of a range of `len` from `base` on that lies before `read`. */
  function Share(read: nat, base: nat, len: nat): nat {
    if read <= base then 0 else if read - base < len then read - base else len
  }

  /** Before the follow phase, the last shard listed has been seeded where the reading has got to. */
  predicate AtHandoff(st: Store, listed: nat, read: nat, offsets: Offsets) {
    listed <= |st| && read == if listed == 0 then 0 else Base(st, listed - 1) + OffsetOf(offsets, st[listed - 1].month)
  }

  predicate ReadOf(st: Store, read: nat, floor: Option<Month>, offsets: Offsets, i: nat)
    requires i < |st|
  {
    Share(read, Base(st, i), |st[i].lines|)
    == if floor.Some? ==> st[i].month >= floor.value then OffsetOf(offsets, st[i].month) else |st[i].lines|
  }

  /** In the follow phase, the offsets say that exactly the first `read` lines of the log have been looked at. */
  ghost predicate InOrder(st: Store, read: nat, floor: Option<Month>, offsets: Offsets) {
    forall i: nat :: i < |st| ==> ReadOf(st, read, floor, offsets, i)
  }

  ghost predicate Reading(s: System, monthOf: int -> Month)
    requires s.relay.conn.Some?
  {
    var c := s.relay.conn.value;
    match s.tail.phase
    case Seeding => false
    case Seeded =>
      && s.tail.listed <= |s.tail.store| && c.known <= Base(s.tail.store, s.tail.listed)
      && (if c.since.None? then AtHandoff(s.tail.store, s.tail.listed, s.read, s.tail.offsets) else s.read == s.replayTo == 0)
    case Replaying(todo, since, _) =>
      && c.since.Some? && since == monthOf(c.since.value) && s.replayTo == s.read
      && |todo| <= s.tail.listed <= |s.tail.store| && c.known <= Base(s.tail.store, s.tail.listed)
      && (if todo == [] then AtHandoff(s.tail.store, s.tail.listed, s.read, s.tail.offsets) && c.known <= s.read
          else s.read == Base(s.tail.store, s.tail.listed - |todo|))
    case Following(_) => InOrder(s.tail.store, s.read, s.tail.floor, s.tail.offsets) && (c.since.Some? ==> c.known <= s.replayTo)
  }

  /** The pipe holds what the filters let through between what has arrived and what has been looked at. */
  ghost predicate Piped(s: System)
    requires s.relay.conn.Some?
  {
    var r, c := s.relay, s.relay.conn.value;
    s.pipe == Picked(r.log, r.kinds, c.since, c.pos, s.replayTo) + Picked(r.log, r.kinds, None, Max(c.pos, s.replayTo), s.read)
  }

  predicate Bounded(s: System)
    requires s.relay.conn.Some?
  {
    var c := s.relay.conn.value;
    && c.pos <= s.read <= |s.relay.log| && s.replayTo <= s.read && c.known <= |s.relay.log|
    && (c.since.None? ==> s.replayTo == 0 && !c.replaying)
    && (c.replaying ==> c.pos <= s.replayTo)
    && (c.since.Some? && !c.replaying ==> s.tail.phase.Following? && s.replayTo <= c.pos)
  }

  ghost predicate Connected(s: System, monthOf: int -> Month)
    requires s.relay.conn.Some?
  {
    Bounded(s) && Piped(s) && Reading(s, monthOf)
  }

  ghost predicate Sync(s: System, monthOf: int -> Month) {
    && TailInv(s.tail, s.month)
    && s.relay.log == LogOf(s.tail.store)
    && OwnMonths(s.tail.store, monthOf)
    && (s.tail.phase.Seeding? <==> s.relay.conn.None?)
    && (s.relay.conn.None? ==> s.pipe == [])
    && (s.relay.conn.Some? ==> Connected(s, monthOf))
  }

  // ---------------------------------------------------------------- the tail's own steps

  lemma TailStep(t: Tail, cur: Month, b: EventTail.Step)
    requires TailInv(t, cur) && EventTail.Enabled(t, b) && EventTail.Calm(t, b, cur)
    ensures TailInv(EventTail.Do(t, b), cur)
  {
    EventTail.CalmStep(t, b, cur);
    TodoStep(t, b);
    UnseenStep(t, cur, b);
  }

  lemma TodoStep(t: Tail, b: EventTail.Step)
    requires Floored(t.store, t.floor) && Todo(t.store, t.listed, t.floor, t.phase)
    requires EventTail.Enabled(t, b) && !b.AppendLate? && (t.phase.Seeded? ==> t.listed <= |t.store|)
    requires Ascending(t.store) && Ascending(EventTail.Do(t, b).store)
    ensures var t' := EventTail.Do(t, b);
            Floored(t'.store, t'.floor) && Todo(t'.store, t'.listed, t'.floor, t'.phase)
  {
    match b
    case Append(line) => StoreGrows(t.store, EventTail.Do(t, b).store, t.listed, t.floor, t.phase);
    case Create(_, _) => StoreGrows(t.store, EventTail.Do(t, b).store, t.listed, t.floor, t.phase);
    case BeginReplay(_, _) =>
    case ReplayFile => OneRead(t.store, t.listed, t.phase.todo);
    case StartPoll => NewestInTurn(t.store, t.floor);
    case ReadFile => OneRead(t.store, t.listed, t.phase.todo);
    case Seed =>
    case BeginFollow =>
  }

  lemma UnseenStep(t: Tail, cur: Month, b: EventTail.Step)
    requires TailInv(t, cur) && EventTail.Enabled(t, b) && !b.AppendLate?
    ensures var t' := EventTail.Do(t, b); Unseen(t'.store, t'.listed, t'.offsets)
  {
    if b.Create? {
      UnseenMonth(t, cur, b.month);
    } else if b.ReplayFile? || b.ReadFile? {
      UnseenRead(t.store, t.listed, t.phase.todo, t.offsets, EventTail.Do(t, b).offsets);
    }
  }

  lemma UnseenRead(st: Store, listed: nat, todo: seq<Month>, offsets: Offsets, offsets': Offsets)
    requires Ascending(st) && InTurn(st, listed, todo) && todo != [] && Unseen(st, listed, offsets)
    requires forall m :: m != todo[0] ==> OffsetOf(offsets', m) == OffsetOf(offsets, m)
    ensures Unseen(st, listed, offsets')
  {
    assert todo[0] == st[listed - |todo|].month;
  }

  lemma {:induction false} StoreGrows(st: Store, st': Store, listed: nat, floor: Option<Month>, phase: EventTail.Phase)
    requires Floored(st, floor) && Todo(st, listed, floor, phase)
    requires Ascending(st') && |st| <= |st'|
    requires forall i :: 0 <= i < |st| ==> st'[i].month == st[i].month
    ensures Floored(st', floor) && Todo(st', listed, floor, phase)
  {
  }

  lemma {:induction false} OneRead(st: Store, listed: nat, todo: seq<Month>)
    requires InTurn(st, listed, todo) && todo != []
    ensures InTurn(st, listed, todo[1..]) && forall m :: m in todo[1..] ==> m in todo
  {
  }

  lemma {:induction false} NewestInTurn(st: Store, floor: Option<Month>)
    requires Floored(st, floor) && Ascending(st)
    ensures InTurn(st, |st|, EventTail.NewestTwo(st))
    ensures floor.Some? ==> forall m :: m in EventTail.NewestTwo(st) ==> m >= floor.value
  {
    var newest := EventTail.NewestTwo(st);
    NewestAre(st, newest);
    forall m | m in newest
      ensures m >= newest[0]
    {
      var k :| 0 <= k < |newest| && newest[k] == m;
      assert newest[0] == st[|st| - |newest|].month && m == st[|st| - |newest| + k].month;
    }
  }

  lemma {:induction false} NewestAre(st: Store, newest: seq<Month>)
    requires newest == EventTail.NewestTwo(st)
    ensures |newest| <= |st| && (st != [] ==> newest != [])
    ensures forall k :: 0 <= k < |newest| ==> newest[k] == st[|st| - |newest| + k].month
  {
  }

  lemma FreshTail(st: Store, cur: Month)
    requires Ascending(st)
    ensures TailInv(Fresh(st), cur)
  {
    forall m
      ensures EventTail.AccountOf(Fresh(st), m)
    {
    }
  }

  // ---------------------------------------------------------------- a line arrives

  /** The first line in the pipe if the replay printed it. */
  lemma {:induction false} HeadReplayed(log: seq<Event>, kinds: set<string>, since: Option<int>, pos: nat, replayTo: nat, read: nat,
                                        p: seq<nat>, q: seq<nat>, pipe: seq<nat>)
    requires p == Picked(log, kinds, since, pos, replayTo) && q == Picked(log, kinds, None, Max(pos, replayTo), read)
    requires replayTo <= read <= |log| && p != [] && pipe == p + q
    ensures var j := pipe[0];
            && pos <= j < replayTo && Lets(kinds, since, log[j]) && KeptBack(log, kinds, since, pos, j)
            && pipe[1..] == Picked(log, kinds, since, j + 1, replayTo) + Picked(log, kinds, None, Max(j + 1, replayTo), read)
  {
    PickedHead(log, kinds, since, pos, replayTo);
    assert pipe[0] == p[0] && pipe[1..] == p[1..] + q;
    assert Max(p[0] + 1, replayTo) == replayTo == Max(pos, replayTo);
  }

  ghost predicate FollowedHead(log: seq<Event>, kinds: set<string>, since: Option<int>, pos: nat, replayTo: nat, read: nat, pipe: seq<nat>)
    requires pipe != []
  {
    var j := pipe[0];
    && Max(pos, replayTo) <= j < read && j < |log| && Lets(kinds, None, log[j])
    && KeptBack(log, kinds, since, pos, replayTo) && KeptBack(log, kinds, None, Max(pos, replayTo), j)
    && pipe[1..] == Picked(log, kinds, since, j + 1, replayTo) + Picked(log, kinds, None, Max(j + 1, replayTo), read)
  }

  /** And if it did not. */
  lemma {:induction false} HeadFollowed(log: seq<Event>, kinds: set<string>, since: Option<int>, pos: nat, replayTo: nat, read: nat,
                                        p: seq<nat>, q: seq<nat>, pipe: seq<nat>)
    requires p == Picked(log, kinds, since, pos, replayTo) && q == Picked(log, kinds, None, Max(pos, replayTo), read)
    requires replayTo <= read <= |log| && p == [] && pipe == p + q && pipe != []
    ensures FollowedHead(log, kinds, since, pos, replayTo, read, pipe)
  {
    PickedHead(log, kinds, since, pos, replayTo);
    PickedHead(log, kinds, None, Max(pos, replayTo), read);
    assert pipe == q;
    assert Picked(log, kinds, since, q[0] + 1, replayTo) == [];
    assert Max(q[0] + 1, replayTo) == q[0] + 1;
  }

  /** A line that the replay printed. */
  lemma {:induction false} ReceiveReplayed(s: System)
    requires s.relay.conn.Some? && Bounded(s) && Piped(s)
    requires var r, c := s.relay, s.relay.conn.value; Picked(r.log, r.kinds, c.since, c.pos, s.replayTo) != []
    ensures s.pipe != [] && s.pipe[0] < |s.relay.log|
    ensures Leads(s.relay, Received(s).relay) && Piped(Received(s)) && Bounded(Received(s))
  {
    var r, c := s.relay, s.relay.conn.value;
    HeadReplayed(r.log, r.kinds, c.since, c.pos, s.replayTo, s.read, Picked(r.log, r.kinds, c.since, c.pos, s.replayTo),
                 Picked(r.log, r.kinds, None, Max(c.pos, s.replayTo), s.read), s.pipe);
    LeadsNowhere(r);
    LeadsTo(r, r, s.pipe[0]);
  }

  /** A line that the follow phase printed; the first one ends the replay for the relay. */
  lemma {:induction false} ReceiveFollowed(s: System, j: nat)
    requires s.relay.conn.Some? && Bounded(s) && s.pipe != [] && j == s.pipe[0]
    requires var r, c := s.relay, s.relay.conn.value; FollowedHead(r.log, r.kinds, c.since, c.pos, s.replayTo, s.read, s.pipe)
    requires s.replayTo < s.read && s.relay.conn.value.replaying ==> s.tail.phase.Following? && s.relay.conn.value.known <= s.replayTo
    ensures s.replayTo <= j < s.read
    ensures Leads(s.relay, Received(s).relay) && Piped(Received(s)) && Bounded(Received(s))
  {
    LeadsToFollowed(s.relay, s.replayTo, j);
    ReceivedFollowed(s, j);
  }

  lemma {:induction false} ReceivedFollowed(s: System, j: nat)
    requires s.relay.conn.Some? && Bounded(s) && s.pipe != [] && j == s.pipe[0] && s.replayTo <= j < s.read
    requires s.relay.conn.value.pos <= j
    requires s.relay.conn.value.replaying ==> s.tail.phase.Following?
    requires var r, c := s.relay, s.relay.conn.value;
             s.pipe[1..] == Picked(r.log, r.kinds, c.since, j + 1, s.replayTo) + Picked(r.log, r.kinds, None, Max(j + 1, s.replayTo), s.read)
    ensures Received(s).relay == RemoteRelay.Relayed(Arrived(s.relay, j + 1, false), j)
    ensures Piped(Received(s)) && Bounded(Received(s))
  {
  }

  lemma LeadsToFollowed(r: Relay, replayTo: nat, j: nat)
    requires r.conn.Some? && replayTo <= j < |r.log| && r.conn.value.pos <= j && Lets(r.kinds, None, r.log[j])
    requires var c := r.conn.value;
             && (if c.replaying then c.pos <= replayTo && c.known <= replayTo else c.since.Some? ==> replayTo <= c.pos)
             && KeptBack(r.log, r.kinds, c.since, c.pos, replayTo)
             && KeptBack(r.log, r.kinds, None, if c.replaying then replayTo else c.pos, j)
    ensures Leads(r, RemoteRelay.Relayed(Arrived(r, j + 1, false), j))
  {
    if r.conn.value.replaying {
      ReplayOver(r, replayTo);
      LeadsTo(r, Arrived(r, replayTo, false), j);
      assert Arrived(Arrived(r, replayTo, false), j + 1, false) == Arrived(r, j + 1, false);
    } else {
      LeadsNowhere(r);
      LeadsTo(r, r, j);
    }
  }

  lemma {:induction false} ReplayOver(r: Relay, to: nat)
    requires r.conn.Some? && r.conn.value.replaying && r.conn.value.pos <= to <= |r.log| && r.conn.value.known <= to
    requires KeptBack(r.log, r.kinds, r.conn.value.since, r.conn.value.pos, to)
    ensures Leads(r, Arrived(r, to, false))
  {
    LeadsNowhere(r);
    LeadsPast(r, r, to);
    LeadsOneMore(r, Arrived(r, to, true), RemoteRelay.EndReplay);
  }

  lemma SameReading(s: System, s': System, monthOf: int -> Month)
    requires s.relay.conn.Some? && s'.relay.conn.Some? && Reading(s, monthOf)
    requires s'.tail == s.tail && s'.read == s.read && s'.replayTo == s.replayTo
    requires s'.relay.conn.value.since == s.relay.conn.value.since && s'.relay.conn.value.known == s.relay.conn.value.known
    ensures Reading(s', monthOf)
  {
  }

  lemma ReceiveKeeps(s: System, monthOf: int -> Month)
    requires Sync(s, monthOf) && Enabled(s, monthOf, Receive)
    ensures Leads(s.relay, Received(s).relay) && Sync(Received(s), monthOf)
  {
    var r, c := s.relay, s.relay.conn.value;
    if Picked(r.log, r.kinds, c.since, c.pos, s.replayTo) != [] {
      ReceiveReplayed(s);
    } else {
      HeadFollowed(r.log, r.kinds, c.since, c.pos, s.replayTo, s.read, [],
                   Picked(r.log, r.kinds, None, Max(c.pos, s.replayTo), s.read), s.pipe);
      ReceiveFollowed(s, s.pipe[0]);
    }
    SameReading(s, Received(s), monthOf);
  }

  // ---------------------------------------------------------------- how far the log has been read

  lemma OrderAppended(st: Store, line: Line, read: nat, floor: Option<Month>, offsets: Offsets)
    requires st != [] && Floored(st, floor) && Ascending(st) && read <= Base(st, |st|)
    requires InOrder(st, read, floor, offsets)
    ensures InOrder(EventTail.Grown(st, |st| - 1, line), read, floor, offsets)
  {
    var st' := EventTail.Grown(st, |st| - 1, line);
    GrownLog(st, line);
    NewestInTurn(st, floor);
    forall i: nat | i < |st'|
      ensures ReadOf(st', read, floor, offsets, i)
    {
      assert ReadOf(st, read, floor, offsets, i);
    }
  }

  lemma LaterThanNewest(st: Store, m: Month, line: Line)
    requires Ascending(st + [Shard(m, [line])]) && st != []
    ensures EventTail.NewestTwo(st)[0] < m
  {
    var st', newest := st + [Shard(m, [line])], EventTail.NewestTwo(st);
    NewestAre(st, newest);
    assert newest[0] == st[|st| - |newest|].month == st'[|st| - |newest|].month;
    assert st'[|st|].month == m;
  }

  lemma OrderCreated(st: Store, m: Month, line: Line, read: nat, floor: Option<Month>, offsets: Offsets)
    requires read <= Base(st, |st|) && OffsetOf(offsets, m) == 0
    requires Floored(st, floor) && Ascending(st + [Shard(m, [line])])
    requires InOrder(st, read, floor, offsets)
    ensures InOrder(st + [Shard(m, [line])], read, floor, offsets)
  {
    var st' := st + [Shard(m, [line])];
    CreatedLog(st, m, line);
    if st != [] {
      LaterThanNewest(st, m, line);
    }
    forall i: nat | i < |st'|
      ensures ReadOf(st', read, floor, offsets, i)
    {
      if i < |st| {
        assert ReadOf(st, read, floor, offsets, i);
      }
    }
  }

  lemma {:induction false} AllBefore(st: Store, read: nat, i: nat)
    requires i <= |st|
    requires forall j: nat :: j < i ==> Share(read, Base(st, j), |st[j].lines|) == |st[j].lines|
    ensures Base(st, i) <= read
  {
    if i > 0 {
      AllBefore(st, read, i - 1);
    }
  }

  /** Reading the rest of shard `i` when all shards before it have been read. */
  lemma OrderPolled(st: Store, read: nat, floor: Option<Month>, offsets: Offsets, i: nat)
    requires i < |st| && Ascending(st) && Base(st, i) <= read
    requires InOrder(st, read, floor, offsets) && (floor.Some? ==> st[i].month >= floor.value)
    ensures var off, end := OffsetOf(offsets, st[i].month), Base(st, i + 1);
            && off <= |st[i].lines|
            && (if off == |st[i].lines| then Max(read, end) == read else read == Base(st, i) + off < end)
            && InOrder(st, Max(read, end), floor, offsets[st[i].month := |st[i].lines|])
  {
    var end, offsets' := Base(st, i + 1), offsets[st[i].month := |st[i].lines|];
    assert ReadOf(st, read, floor, offsets, i);
    forall j: nat | j < |st|
      ensures ReadOf(st, Max(read, end), floor, offsets', j)
    {
      assert ReadOf(st, read, floor, offsets, j);
      if j < i {
        BaseGrows(st, j, i);
      } else if j > i {
        BaseMonotone(st, i + 1, j);
      }
    }
  }

  lemma OrderAtHandoff(st: Store, listed: nat, read: nat, floor: Option<Month>, offsets: Offsets)
    requires AtHandoff(st, listed, read, offsets) && |st| <= listed + 1 && Floored(st, floor) && Ascending(st)
    requires Unseen(st, listed, offsets) && (listed > 0 ==> OffsetOf(offsets, st[listed - 1].month) <= |st[listed - 1].lines|)
    requires forall i: nat :: i + 1 < listed && (floor.Some? ==> st[i].month >= floor.value) ==>
               OffsetOf(offsets, st[i].month) == |st[i].lines|
    ensures InOrder(st, read, floor, offsets)
  {
    forall i: nat | i < |st|
      ensures ReadOf(st, read, floor, offsets, i)
    {
      if i + 1 < listed {
        BaseGrows(st, i, listed - 1);
      } else {
        LateTracked(st, floor, i);
      }
    }
  }

  /** The newest two shards are tracked. */
  lemma LateTracked(st: Store, floor: Option<Month>, i: nat)
    requires Floored(st, floor) && Ascending(st) && i < |st| <= i + 2
    ensures floor.Some? ==> st[i].month >= floor.value
  {
    NewestAre(st, EventTail.NewestTwo(st));
    assert EventTail.NewestTwo(st)[0] == st[|st| - |EventTail.NewestTwo(st)|].month;
  }

  // ---------------------------------------------------------------- what calm says of shards by their place

  lemma HandedOver(t: Tail, cur: Month, i: nat)
    requires TailInv(t, cur) && (t.phase.Seeded? || t.phase.Replaying?) && i + 1 < t.listed
    requires t.floor.Some? ==> t.store[i].month >= t.floor.value
    ensures OffsetOf(t.offsets, t.store[i].month) == |t.store[i].lines|
  {
    IndexOfAt(t.store, i);
    assert EventTail.Passed(t, t.store[i].month);
  }

  lemma PassedBefore(t: Tail, cur: Month, j: nat)
    requires TailInv(t, cur) && t.phase.Following? && j < t.listed - |t.phase.todo| && t.phase.todo != []
    requires t.floor.Some? ==> t.store[j].month >= t.floor.value
    ensures OffsetOf(t.offsets, t.store[j].month) == |t.store[j].lines|
  {
    IndexOfAt(t.store, j);
    var todo := t.phase.todo;
    assert EventTail.Passed(t, t.store[j].month);
    assert forall k :: 0 <= k < |todo| ==> todo[k] == t.store[t.listed - |todo| + k].month > t.store[j].month;
  }

  lemma UnseenMonth(t: Tail, cur: Month, m: Month)
    requires TailInv(t, cur) && (t.store != [] ==> t.store[|t.store| - 1].month < m)
    ensures OffsetOf(t.offsets, m) == 0
  {
    EventTail.LinesCreated(t.store, m, Junk, m);
    assert EventTail.AccountOf(t, m);
  }

  lemma WithinShard(t: Tail, i: nat)
    requires EventTail.Account(t) && i < |t.store|
    ensures OffsetOf(t.offsets, t.store[i].month) <= |t.store[i].lines|
  {
    IndexOfAt(t.store, i);
    assert EventTail.AccountOf(t, t.store[i].month);
  }

  // ---------------------------------------------------------------- the writers

  lemma OwnMonthsAppended(st: Store, line: Line, monthOf: int -> Month)
    requires OwnMonths(st, monthOf) && st != [] && Stamped(monthOf, st[|st| - 1].month, line)
    ensures OwnMonths(EventTail.Grown(st, |st| - 1, line), monthOf)
  {
    var st' := EventTail.Grown(st, |st| - 1, line);
    forall i, k | 0 <= i < |st'| && 0 <= k < |st'[i].lines|
      ensures Stamped(monthOf, st'[i].month, st'[i].lines[k])
    {
      if k < |st[i].lines| {
        assert st'[i].lines[k] == st[i].lines[k];
      }
    }
  }

  lemma OwnMonthsCreated(st: Store, m: Month, line: Line, monthOf: int -> Month)
    requires OwnMonths(st, monthOf) && Stamped(monthOf, m, line)
    ensures OwnMonths(st + [Shard(m, [line])], monthOf)
  {
  }

  lemma PipedLonger(s: System, log: seq<Event>)
    requires s.relay.conn.Some? && Bounded(s) && Piped(s) && s.relay.log <= log
    ensures var s' := s.(relay := s.relay.(log := log)); Bounded(s') && Piped(s')
  {
    var r, c := s.relay, s.relay.conn.value;
    PickedLonger(r.log, log, r.kinds, c.since, c.pos, s.replayTo);
    PickedLonger(r.log, log, r.kinds, None, Max(c.pos, s.replayTo), s.read);
  }

  /** Shards that begin where they did leave the reading before the follow phase where it is. */
  lemma ReadingStays(s: System, monthOf: int -> Month, st': Store)
    requires s.relay.conn.Some? && Reading(s, monthOf) && !s.tail.phase.Following?
    requires |s.tail.store| <= |st'| && forall i: nat :: i < |s.tail.store| ==> st'[i].month == s.tail.store[i].month
    requires forall i: nat :: i < |s.tail.store| ==> Base(st', i) == Base(s.tail.store, i)
    requires Base(s.tail.store, |s.tail.store|) <= Base(st', |s.tail.store|)
    ensures Reading(Written(s, s.tail.(store := st')), monthOf)
  {
    assert Base(s.tail.store, s.tail.listed) <= Base(st', s.tail.listed);
  }

  lemma AppendReading(s: System, monthOf: int -> Month, line: Line)
    requires TailInv(s.tail, s.month) && s.relay.conn.Some? && Reading(s, monthOf) && s.tail.store != []
    requires s.read <= Base(s.tail.store, |s.tail.store|)
    ensures Reading(Written(s, s.tail.(store := EventTail.Grown(s.tail.store, |s.tail.store| - 1, line))), monthOf)
  {
    var st, st' := s.tail.store, EventTail.Grown(s.tail.store, |s.tail.store| - 1, line);
    GrownLog(st, line);
    if s.tail.phase.Following? {
      OrderAppended(st, line, s.read, s.tail.floor, s.tail.offsets);
    } else {
      assert Base(st', |st|) == |LogOf(st')|;
      ReadingStays(s, monthOf, st');
    }
  }

  /** A line more, in whatever shard, seen from the relay. */
  lemma WrittenKeeps(s: System, monthOf: int -> Month, t: Tail, e: Event)
    requires Sync(s, monthOf) && TailInv(t, s.month) && t == s.tail.(store := t.store) && OwnMonths(t.store, monthOf)
    requires LogOf(t.store) == s.relay.log + [e] && RemoteRelay.InTimeOrder(s.relay.log + [e])
    requires s.relay.conn.Some? ==> Reading(Written(s, t), monthOf)
    ensures Leads(s.relay, Written(s, t).relay) && Sync(Written(s, t), monthOf)
  {
    LeadsNowhere(s.relay);
    LeadsOneMore(s.relay, s.relay, RemoteRelay.Append(e));
    if s.relay.conn.Some? {
      PipedLonger(s, s.relay.log + [e]);
      assert Bounded(Written(s, t)) && Piped(Written(s, t));
    }
  }

  lemma AppendKeeps(s: System, monthOf: int -> Month, line: Line, t: Tail)
    requires Sync(s, monthOf) && Enabled(s, monthOf, Remote(EventTail.Append(line))) && t == EventTail.Do(s.tail, EventTail.Append(line))
    ensures Leads(s.relay, Written(s, t).relay) && Sync(Written(s, t), monthOf)
  {
    TailStep(s.tail, s.month, EventTail.Append(line));
    GrownLog(s.tail.store, line);
    OwnMonthsAppended(s.tail.store, line, monthOf);
    if s.relay.conn.Some? {
      AppendReading(s, monthOf, line);
    }
    WrittenKeeps(s, monthOf, t, AsEvent(line));
  }

  lemma CreateReading(s: System, monthOf: int -> Month, m: Month, line: Line)
    requires TailInv(s.tail, s.month) && s.relay.conn.Some? && Reading(s, monthOf)
    requires Ascending(s.tail.store + [Shard(m, [line])]) && (s.tail.store != [] ==> s.tail.store[|s.tail.store| - 1].month < m)
    requires s.read <= Base(s.tail.store, |s.tail.store|)
    ensures Reading(Written(s, s.tail.(store := s.tail.store + [Shard(m, [line])])), monthOf)
  {
    CreatedLog(s.tail.store, m, line);
    if s.tail.phase.Following? {
      UnseenMonth(s.tail, s.month, m);
      OrderCreated(s.tail.store, m, line, s.read, s.tail.floor, s.tail.offsets);
    } else {
      ReadingStays(s, monthOf, s.tail.store + [Shard(m, [line])]);
    }
  }

  lemma CreateKeeps(s: System, monthOf: int -> Month, m: Month, line: Line, t: Tail)
    requires Sync(s, monthOf) && Enabled(s, monthOf, Remote(EventTail.Create(m, line))) && t == EventTail.Do(s.tail, EventTail.Create(m, line))
    ensures Leads(s.relay, Written(s, t).relay) && Sync(Written(s, t), monthOf)
  {
    TailStep(s.tail, s.month, EventTail.Create(m, line));
    CreatedLog(s.tail.store, m, line);
    OwnMonthsCreated(s.tail.store, m, line, monthOf);
    if s.relay.conn.Some? {
      CreateReading(s, monthOf, m, line);
    }
    WrittenKeeps(s, monthOf, t, AsEvent(line));
  }

  // ---------------------------------------------------------------- the remote process

  lemma OpenKeeps(s: System, monthOf: int -> Month, month: Month)
    requires Sync(s, monthOf) && Enabled(s, monthOf, Open(month))
    ensures Leads(s.relay, Opened(s, month).relay) && Sync(Opened(s, month), monthOf)
  {
    TailStep(s.tail, month, EventTail.Seed);
    LeadsNowhere(s.relay);
    LeadsOneMore(s.relay, s.relay, RemoteRelay.Connect);
    SeededAtEnd(s.tail);
  }

  lemma SeededAtEnd(t: Tail)
    requires Ascending(t.store) && t.phase.Seeding?
    ensures AtHandoff(t.store, |t.store|, Base(t.store, |t.store|), EventTail.Do(t, EventTail.Seed).offsets)
  {
    if t.store != [] {
      IndexOfAt(t.store, |t.store| - 1);
      var newest := EventTail.NewestTwo(t.store);
      NewestAre(t.store, newest);
      assert newest[|newest| - 1] == t.store[|t.store| - 1].month;
    }
  }

  lemma ReplayBeginsAt(s: System, monthOf: int -> Month, since: Month, t: Tail)
    requires s.relay.conn.Some? && Connected(s, monthOf) && s.tail.phase.Seeded?
    requires Since(s).Some? && since == monthOf(Since(s).value)
    requires t.phase.Replaying? && t.phase.since == since && t.phase.todo == EventTail.Months(s.tail.store)
    requires t.store == s.tail.store && t.listed == |s.tail.store|
    ensures Connected(s.(tail := t), monthOf)
  {
    BaseMonotone(s.tail.store, s.tail.listed, |s.tail.store|);
  }

  lemma ReplayBegins(s: System, monthOf: int -> Month, since: Month, t: Tail)
    requires Sync(s, monthOf) && Enabled(s, monthOf, Remote(EventTail.BeginReplay(since, s.month)))
    requires t == EventTail.Do(s.tail, EventTail.BeginReplay(since, s.month))
    ensures Sync(s.(tail := t), monthOf)
  {
    TailStep(s.tail, s.month, EventTail.BeginReplay(since, s.month));
    ReplayBeginsAt(s, monthOf, since, t);
    StaysInSync(s, s.(tail := t), monthOf);
  }

  /** What the handoff leaves is in order. */
  lemma FollowReading(t: Tail, cur: Month, read: nat)
    requires TailInv(t, cur) && (t.phase.Seeded? || t.phase.Replaying?) && AtHandoff(t.store, t.listed, read, t.offsets)
    ensures InOrder(t.store, read, t.floor, t.offsets)
  {
    forall i: nat | i + 1 < t.listed && (t.floor.Some? ==> t.store[i].month >= t.floor.value)
      ensures OffsetOf(t.offsets, t.store[i].month) == |t.store[i].lines|
    {
      HandedOver(t, cur, i);
    }
    if t.listed > 0 {
      WithinShard(t, t.listed - 1);
    }
    OrderAtHandoff(t.store, t.listed, read, t.floor, t.offsets);
  }

  lemma FollowConnected(s: System, monthOf: int -> Month, t: Tail)
    requires s.relay.conn.Some? && Connected(s, monthOf) && InOrder(s.tail.store, s.read, s.tail.floor, s.tail.offsets)
    requires s.tail.phase.Seeded? ==> Since(s).None?
    requires s.tail.phase.Replaying? ==> s.tail.phase.todo == []
    requires t.phase.Following? && !s.tail.phase.Following?
    requires t.store == s.tail.store && t.floor == s.tail.floor && t.offsets == s.tail.offsets
    ensures Connected(s.(tail := t), monthOf)
  {
  }

  lemma FollowBegins(s: System, monthOf: int -> Month, t: Tail)
    requires Sync(s, monthOf) && Enabled(s, monthOf, Remote(EventTail.BeginFollow)) && t == EventTail.Do(s.tail, EventTail.BeginFollow)
    ensures Sync(s.(tail := t), monthOf)
  {
    TailStep(s.tail, s.month, EventTail.BeginFollow);
    FollowReading(s.tail, s.month, s.read);
    FollowConnected(s, monthOf, t);
    StaysInSync(s, s.(tail := t), monthOf);
  }

  lemma PollStarts(s: System, monthOf: int -> Month, t: Tail)
    requires Sync(s, monthOf) && Enabled(s, monthOf, Remote(EventTail.StartPoll)) && t == EventTail.Do(s.tail, EventTail.StartPoll)
    ensures Sync(s.(tail := t), monthOf)
  {
    TailStep(s.tail, s.month, EventTail.StartPoll);
  }

  // Reading one file of the backlog.

  ghost predicate Monotone(monthOf: int -> Month) {
    forall a: int, b: int :: a <= b ==> monthOf(a) <= monthOf(b)
  }

  /** A shard older than the month of `since` holds nothing that a replay from `since` would print. */
  lemma SkippedShard(st: Store, i: nat, kinds: set<string>, since: int, monthOf: int -> Month)
    requires i < |st| && OwnMonths(st, monthOf) && Monotone(monthOf) && st[i].month < monthOf(since)
    ensures Picked(LogOf(st), kinds, Some(since), Base(st, i), Base(st, i + 1)) == []
  {
    var log := LogOf(st);
    BaseGrows(st, i, |st|);
    assert forall ts: int :: ts >= since ==> monthOf(since) <= monthOf(ts);
    forall p | Base(st, i) <= p < Base(st, i + 1) && p < |log|
      ensures !Lets(kinds, Some(since), log[p])
    {
      var line := st[i].lines[p - Base(st, i)];
      assert log[p] == AsEvent(line);
      assert Stamped(monthOf, st[i].month, line);
    }
    PickedNone(log, kinds, Some(since), Base(st, i), Base(st, i + 1));
  }

  lemma {:induction false} ReplayPiped(s: System, s': System)
    requires s.relay.conn.Some? && Bounded(s) && Piped(s) && s.replayTo == s.read <= s'.read <= |s.relay.log|
    requires s.tail.phase.Replaying? && s.relay.conn.value.since.Some?
    requires s'.relay == s.relay && s'.replayTo == s'.read
    requires s'.pipe == s.pipe + Picked(s.relay.log, s.relay.kinds, s.relay.conn.value.since, s.read, s'.read)
    ensures Bounded(s') && Piped(s')
  {
    var r, c := s.relay, s.relay.conn.value;
    PickedBehind(r.log, r.kinds, c.since, c.pos, s.read, s'.read, s.pipe, Picked(r.log, r.kinds, c.since, s.read, s'.read));
  }

  lemma {:induction false} PickedBehind(log: seq<Event>, kinds: set<string>, since: Option<int>, pos: nat, read: nat, end: nat,
                                        pipe: seq<nat>, more: seq<nat>)
    requires pos <= read <= end && more == Picked(log, kinds, since, read, end)
    requires pipe == Picked(log, kinds, since, pos, read) + Picked(log, kinds, None, Max(pos, read), read)
    ensures pipe + more == Picked(log, kinds, since, pos, end) + Picked(log, kinds, None, Max(pos, end), end)
  {
    PickedOn(log, kinds, since, pos, read, end);
  }

  lemma ReplayTurn(t: Tail, cur: Month, i: nat)
    requires TailInv(t, cur) && t.phase.Replaying? && t.phase.todo != [] && i == t.listed - |t.phase.todo|
    ensures i < |t.store| && t.store[i].month == t.phase.todo[0]
    ensures IndexOf(t.store, t.phase.todo[0]) == i
    ensures |t.phase.todo| == 1 ==> AtHandoff(t.store, t.listed, Base(t.store, i + 1), EventTail.Replay(t).offsets)
  {
    IndexOfAt(t.store, i);
    if |t.phase.todo| == 1 {
      LastReplayed(t, cur, i);
    }
  }

  /** The last shard of the listing is the current month's, or has not grown since it was seeded. */
  lemma LastReplayed(t: Tail, cur: Month, i: nat)
    requires TailInv(t, cur) && t.phase.Replaying? && |t.phase.todo| == 1 && i == t.listed - 1
    ensures i < |t.store| && t.store[i].month == t.phase.todo[0]
    ensures OffsetOf(EventTail.Replay(t).offsets, t.store[i].month) == |t.store[i].lines|
  {
    IndexOfAt(t.store, i);
    LateTracked(t.store, t.floor, i);
    assert t.phase.todo[0] in t.phase.todo && EventTail.Due(t, t.store[i].month);
  }

  /** What the reading of shard `i` prints is what the filter picks from it, even if it is not opened. */
  lemma ReplayPicks(s: System, monthOf: int -> Month, i: nat)
    requires s.tail.phase.Replaying? && i < |s.tail.store| && s.relay.log == LogOf(s.tail.store)
    requires OwnMonths(s.tail.store, monthOf) && Monotone(monthOf)
    requires Since(s).Some? && s.tail.phase.since == monthOf(Since(s).value)
    ensures ReplayPrints(s, i) == Picked(s.relay.log, s.relay.kinds, Since(s), Base(s.tail.store, i), Base(s.tail.store, i + 1))
  {
    if s.tail.store[i].month < s.tail.phase.since {
      SkippedShard(s.tail.store, i, s.relay.kinds, Since(s).value, monthOf);
    }
  }

  /** One file of the backlog moves the reading on by its length, and prints what the filter picks from it. */
  lemma ReplayReads(s: System, monthOf: int -> Month, i: nat)
    requires EventTail.Enabled(s.tail, EventTail.ReplayFile) && i < |s.tail.store| && i == IndexOf(s.tail.store, s.tail.phase.todo[0])
    requires s.relay.log == LogOf(s.tail.store) && OwnMonths(s.tail.store, monthOf) && Monotone(monthOf)
    requires Since(s).Some? && s.tail.phase.since == monthOf(Since(s).value) && s.read == Base(s.tail.store, i)
    ensures var s' := Replayed(s);
            && s'.relay == s.relay && s.read <= s'.read <= |s.relay.log| && s'.replayTo == s'.read
            && s'.pipe == s.pipe + Picked(s.relay.log, s.relay.kinds, Since(s), s.read, s'.read)
  {
    ReplayPicks(s, monthOf, i);
    BaseMonotone(s.tail.store, i, i + 1);
    BaseMonotone(s.tail.store, i + 1, |s.tail.store|);
  }

  lemma ReplayReading(s: System, monthOf: int -> Month, i: nat)
    requires TailInv(s.tail, s.month) && EventTail.Enabled(s.tail, EventTail.ReplayFile) && i == s.tail.listed - |s.tail.phase.todo|
    requires s.relay.conn.Some? && Reading(s, monthOf)
    ensures s.replayTo == s.read == Base(s.tail.store, i)
    ensures Replayed(s).relay == s.relay && Reading(Replayed(s), monthOf)
  {
    ReplayTurn(s.tail, s.month, i);
  }

  lemma StaysInSync(s: System, s': System, monthOf: int -> Month)
    requires Sync(s, monthOf) && s.relay.conn.Some? && s'.relay == s.relay && s'.tail.store == s.tail.store && s'.month == s.month
    requires TailInv(s'.tail, s'.month) && !s'.tail.phase.Seeding? && Connected(s', monthOf)
    ensures Sync(s', monthOf)
  {
  }

  lemma ReplayConnected(s: System, monthOf: int -> Month)
    requires TailInv(s.tail, s.month) && EventTail.Enabled(s.tail, EventTail.ReplayFile) && s.relay.conn.Some? && Connected(s, monthOf)
    requires s.relay.log == LogOf(s.tail.store) && OwnMonths(s.tail.store, monthOf) && Monotone(monthOf)
    ensures Replayed(s).relay == s.relay && Connected(Replayed(s), monthOf)
  {
    var i := s.tail.listed - |s.tail.phase.todo|;
    ReplayTurn(s.tail, s.month, i);
    ReplayReading(s, monthOf, i);
    ReplayReads(s, monthOf, i);
    ReplayPiped(s, Replayed(s));
  }

  lemma ReplayKeeps(s: System, monthOf: int -> Month)
    requires Sync(s, monthOf) && Enabled(s, monthOf, Remote(EventTail.ReplayFile)) && Monotone(monthOf)
    ensures Replayed(s).relay == s.relay && Sync(Replayed(s), monthOf)
  {
    TailStep(s.tail, s.month, EventTail.ReplayFile);
    ReplayConnected(s, monthOf);
    StaysInSync(s, Replayed(s), monthOf);
  }

  // Reading one file of a poll.

  lemma {:induction false} PollPiped(s: System, s': System)
    requires s.relay.conn.Some? && Bounded(s) && Piped(s) && s.read <= s'.read <= |s.relay.log|
    requires s'.relay == s.relay && s'.replayTo == s.replayTo && s'.tail.phase.Following?
    requires s'.pipe == s.pipe + Picked(s.relay.log, s.relay.kinds, None, s.read, s'.read)
    ensures Bounded(s') && Piped(s')
  {
    var r, c := s.relay, s.relay.conn.value;
    PickedAhead(r.log, r.kinds, Max(c.pos, s.replayTo), s.read, s'.read, Picked(r.log, r.kinds, c.since, c.pos, s.replayTo), s.pipe);
  }

  lemma {:induction false} PickedAhead(log: seq<Event>, kinds: set<string>, from: nat, read: nat, end: nat, front: seq<nat>, pipe: seq<nat>)
    requires from <= read <= end && pipe == front + Picked(log, kinds, None, from, read)
    ensures pipe + Picked(log, kinds, None, read, end) == front + Picked(log, kinds, None, from, end)
  {
    PickedOn(log, kinds, None, from, read, end);
  }

  lemma PollTurn(s: System, i: nat)
    requires TailInv(s.tail, s.month) && s.tail.phase.Following? && s.tail.phase.todo != []
    requires InOrder(s.tail.store, s.read, s.tail.floor, s.tail.offsets) && i == s.tail.listed - |s.tail.phase.todo|
    ensures i < |s.tail.store| && s.tail.store[i].month == s.tail.phase.todo[0] && Base(s.tail.store, i) <= s.read
    ensures s.tail.floor.Some? ==> s.tail.store[i].month >= s.tail.floor.value
  {
    var t := s.tail;
    assert t.phase.todo[0] in t.phase.todo;
    forall j: nat | j < i
      ensures Share(s.read, Base(t.store, j), |t.store[j].lines|) == |t.store[j].lines|
    {
      ReadBefore(t, s.month, s.read, j);
    }
    AllBefore(t.store, s.read, i);
  }

  lemma ReadBefore(t: Tail, cur: Month, read: nat, j: nat)
    requires TailInv(t, cur) && t.phase.Following? && j < t.listed - |t.phase.todo| && t.phase.todo != []
    requires InOrder(t.store, read, t.floor, t.offsets)
    ensures Share(read, Base(t.store, j), |t.store[j].lines|) == |t.store[j].lines|
  {
    assert ReadOf(t.store, read, t.floor, t.offsets, j);
    if t.floor.Some? ==> t.store[j].month >= t.floor.value {
      PassedBefore(t, cur, j);
    }
  }

  /** What the reading of shard `i` prints is what lies past the part of the log already looked at. */
  lemma PollPicks(s: System, i: nat)
    requires i < |s.tail.store|
    requires var off := OffsetOf(s.tail.offsets, s.tail.store[i].month);
             && off <= |s.tail.store[i].lines|
             && if off == |s.tail.store[i].lines| then s.read >= Base(s.tail.store, i + 1) else s.read == Base(s.tail.store, i) + off
    ensures PollPrints(s, i) == Picked(s.relay.log, s.relay.kinds, None, s.read, Max(s.read, Base(s.tail.store, i + 1)))
  {
  }

  lemma PollReads(s: System, i: nat)
    requires EventTail.Enabled(s.tail, EventTail.ReadFile) && i < |s.tail.store| && i == IndexOf(s.tail.store, s.tail.phase.todo[0])
    requires s.relay.log == LogOf(s.tail.store) && s.read <= |s.relay.log|
    requires var off := OffsetOf(s.tail.offsets, s.tail.store[i].month);
             && off <= |s.tail.store[i].lines|
             && if off == |s.tail.store[i].lines| then s.read >= Base(s.tail.store, i + 1) else s.read == Base(s.tail.store, i) + off
    ensures var s' := Polled(s);
            && s'.relay == s.relay && s'.replayTo == s.replayTo && s'.tail.phase.Following?
            && s'.read == Max(s.read, Base(s.tail.store, i + 1)) <= |s.relay.log|
            && s'.pipe == s.pipe + Picked(s.relay.log, s.relay.kinds, None, s.read, s'.read)
  {
    PollPicks(s, i);
    BaseMonotone(s.tail.store, i + 1, |s.tail.store|);
  }

  lemma PollReading(s: System, monthOf: int -> Month, i: nat)
    requires TailInv(s.tail, s.month) && EventTail.Enabled(s.tail, EventTail.ReadFile) && i == s.tail.listed - |s.tail.phase.todo|
    requires s.relay.conn.Some? && Reading(s, monthOf) && s.relay.log == LogOf(s.tail.store) && s.read <= |s.relay.log|
    ensures var s' := Polled(s);
            && s'.relay == s.relay && s'.replayTo == s.replayTo && s'.tail.phase.Following?
            && s.read <= s'.read <= |s.relay.log|
            && s'.pipe == s.pipe + Picked(s.relay.log, s.relay.kinds, None, s.read, s'.read)
            && Reading(s', monthOf)
  {
    var t := s.tail;
    PollTurn(s, i);
    IndexOfAt(t.store, i);
    OrderPolled(t.store, s.read, t.floor, t.offsets, i);
    PollReads(s, i);
    PolledOffsets(t, i);
  }

  lemma PolledOffsets(t: Tail, i: nat)
    requires EventTail.Enabled(t, EventTail.ReadFile) && i < |t.store| && Ascending(t.store)
    requires t.store[i].month == t.phase.todo[0] && OffsetOf(t.offsets, t.store[i].month) <= |t.store[i].lines|
    ensures EventTail.Poll(t).offsets == t.offsets[t.store[i].month := |t.store[i].lines|]
  {
    IndexOfAt(t.store, i);
  }

  lemma PollConnected(s: System, monthOf: int -> Month)
    requires TailInv(s.tail, s.month) && EventTail.Enabled(s.tail, EventTail.ReadFile) && s.relay.conn.Some? && Connected(s, monthOf)
    requires s.relay.log == LogOf(s.tail.store)
    ensures Polled(s).relay == s.relay && Connected(Polled(s), monthOf)
  {
    var i := s.tail.listed - |s.tail.phase.todo|;
    PollReading(s, monthOf, i);
    PollPiped(s, Polled(s));
  }

  lemma PollKeeps(s: System, monthOf: int -> Month)
    requires Sync(s, monthOf) && Enabled(s, monthOf, Remote(EventTail.ReadFile))
    ensures Polled(s).relay == s.relay && Sync(Polled(s), monthOf)
  {
    TailStep(s.tail, s.month, EventTail.ReadFile);
    PollConnected(s, monthOf);
    StaysInSync(s, Polled(s), monthOf);
  }

  lemma HangupKeeps(s: System, monthOf: int -> Month)
    requires Sync(s, monthOf) && Enabled(s, monthOf, Hangup)
    ensures var s' := Do(s, monthOf, Hangup); Leads(s.relay, s'.relay) && Sync(s', monthOf)
  {
    FreshTail(s.tail.store, s.month);
    LeadsNowhere(s.relay);
    LeadsOneMore(s.relay, s.relay, RemoteRelay.Hangup);
  }

  // ---------------------------------------------------------------- every run

  /** A step of the remote that reads nothing changes its tail only. */
  lemma TurnKeeps(s: System, monthOf: int -> Month, b: EventTail.Step, t: Tail)
    requires Sync(s, monthOf) && Enabled(s, monthOf, Remote(b)) && t == EventTail.Do(s.tail, b)
    requires b.BeginReplay? || b.BeginFollow? || b.StartPoll?
    ensures Sync(s.(tail := t), monthOf)
  {
    match b
    case BeginReplay(since, _) => ReplayBegins(s, monthOf, since, t);
    case BeginFollow => FollowBegins(s, monthOf, t);
    case StartPoll => PollStarts(s, monthOf, t);
  }

  lemma RemoteRefines(s: System, monthOf: int -> Month, b: EventTail.Step)
    requires Sync(s, monthOf) && Enabled(s, monthOf, Remote(b)) && Monotone(monthOf)
    ensures Leads(s.relay, Do(s, monthOf, Remote(b)).relay) && Sync(Do(s, monthOf, Remote(b)), monthOf)
  {
    match b
    case Append(line) => AppendKeeps(s, monthOf, line, EventTail.Do(s.tail, b));
    case Create(m, line) => CreateKeeps(s, monthOf, m, line, EventTail.Do(s.tail, b));
    case ReplayFile =>
      LeadsNowhere(s.relay);
      ReplayKeeps(s, monthOf);
    case ReadFile =>
      LeadsNowhere(s.relay);
      PollKeeps(s, monthOf);
    case Seed =>
    case AppendLate(_, _) =>
    case _ =>
      LeadsNowhere(s.relay);
      TurnKeeps(s, monthOf, b, EventTail.Do(s.tail, b));
  }

  /** Every step of the system is, for the relay, none or some steps of the protocol on one log. */
  lemma StepRefines(s: System, monthOf: int -> Month, a: Step)
    requires Sync(s, monthOf) && Enabled(s, monthOf, a) && Monotone(monthOf)
    ensures Leads(s.relay, Do(s, monthOf, a).relay) && Sync(Do(s, monthOf, a), monthOf)
  {
    match a
    case Open(month) => OpenKeeps(s, monthOf, month);
    case Receive => ReceiveKeeps(s, monthOf);
    case Hangup => HangupKeeps(s, monthOf);
    case Remote(b) => RemoteRefines(s, monthOf, b);
  }

  ghost predicate Init(s: System, monthOf: int -> Month) {
    && Ascending(s.tail.store) && OwnMonths(s.tail.store, monthOf)
    && s.tail == Fresh(s.tail.store)
    && s.relay.log == LogOf(s.tail.store) && RemoteRelay.Init(s.relay)
    && s.pipe == []
  }

  ghost predicate IsRun(ss: seq<System>, as_: seq<Step>, monthOf: int -> Month) {
    && |ss| == |as_| + 1
    && Init(ss[0], monthOf)
    && forall i :: 0 <= i < |as_| ==> Enabled(ss[i], monthOf, as_[i]) && ss[i + 1] == Do(ss[i], monthOf, as_[i])
  }

  /** Refinement: in every run of calm writers, remote tails, arrivals and hang-ups, the relay behaves as in a run of the
      protocol on the one log that the shards make up. */
  lemma {:induction false} EveryRunRefines(ss: seq<System>, as_: seq<Step>, monthOf: int -> Month, n: nat)
    requires IsRun(ss, as_, monthOf) && Monotone(monthOf) && n < |ss|
    ensures Leads(ss[0].relay, ss[n].relay) && Sync(ss[n], monthOf)
  {
    if n > 0 {
      EveryRunRefines(ss, as_, monthOf, n - 1);
      StepRefines(ss[n - 1], monthOf, as_[n - 1]);
      LeadsOnFrom(ss[0].relay, ss[n - 1].relay, ss[n].relay);
    } else {
      FreshTail(ss[0].tail.store, ss[0].month);
      LeadsNowhere(ss[0].relay);
    }
  }

  lemma EveryRunKeepsInv(ss: seq<System>, as_: seq<Step>, monthOf: int -> Month, n: nat)
    requires IsRun(ss, as_, monthOf) && Monotone(monthOf) && n < |ss|
    ensures RemoteRelay.Inv(ss[n].relay) && Sync(ss[n], monthOf)
  {
    EveryRunRefines(ss, as_, monthOf, n);
    LeadsKeepsInv(ss[0].relay, ss[n].relay);
  }

  /** So no wanted event is missing between the first stamped line relayed and the newest one, whichever shards they lie
      in and however often the month rolled and the link dropped in between, as long as no month but the current one
      is written to between a seeding and its replay. */
  lemma NoHoles(ss: seq<System>, as_: seq<Step>, monthOf: int -> Month, n: nat, i: nat, b: nat)
    requires IsRun(ss, as_, monthOf) && Monotone(monthOf) && n < |ss|
    requires var log, r := LogOf(ss[n].tail.store), ss[n].relay;
             && i < |log| && log[i].kind in r.kinds && log[i].ts.Some?
             && b in r.out && b < |log| && log[b].ts.Some? && r.first <= i <= b
    ensures i in ss[n].relay.out
  {
    EveryRunKeepsInv(ss, as_, monthOf, n);
  }

  // ---------------------------------------------------------------- catching up

  ghost predicate Up(s: System, monthOf: int -> Month) {
    Sync(s, monthOf) && s.tail.phase.Following?
  }

  lemma PollGoesOn(s: System, monthOf: int -> Month)
    requires Up(s, monthOf) && s.tail.phase.todo != []
    ensures var s' := Polled(s);
            Up(s', monthOf) && s'.relay == s.relay && s'.tail == EventTail.Poll(s.tail) && |s'.tail.phase.todo| < |s.tail.phase.todo|
  {
    PollKeeps(s, monthOf);
  }

  lemma ReceiveGoesOn(s: System, monthOf: int -> Month)
    requires Up(s, monthOf) && s.pipe != []
    ensures Enabled(s, monthOf, Receive)
    ensures var s' := Received(s); Up(s', monthOf) && Leads(s.relay, s'.relay) && s'.tail == s.tail && |s'.pipe| < |s.pipe|
  {
    CanReceive(s, monthOf);
    ReceiveKeeps(s, monthOf);
  }

  lemma CanReceive(s: System, monthOf: int -> Month)
    requires Sync(s, monthOf) && s.pipe != []
    ensures Enabled(s, monthOf, Receive)
  {
    var r, c := s.relay, s.relay.conn.value;
    PickedHead(r.log, r.kinds, c.since, c.pos, s.replayTo);
    PickedHead(r.log, r.kinds, None, Max(c.pos, s.replayTo), s.read);
  }

  /** The rest of a poll, and then the arrival of everything in the pipe, with no writer and no hang-up between. */
  ghost function Settled(s: System, monthOf: int -> Month): System
    requires Up(s, monthOf)
    decreases |s.tail.phase.todo|, |s.pipe|
  {
    if s.tail.phase.todo != [] then
      PollGoesOn(s, monthOf);
      Settled(Polled(s), monthOf)
    else if s.pipe != [] then
      ReceiveGoesOn(s, monthOf);
      Settled(Received(s), monthOf)
    else s
  }

  /** `e` is what `s` settles to, as the relay, the tail and the pipe see it. */
  ghost predicate SettlesTo(s: System, e: System, monthOf: int -> Month) {
    && Leads(s.relay, e.relay) && Up(e, monthOf)
    && s.tail.phase.Following? && e.tail == EventTail.FinishPoll(s.tail) && e.pipe == []
  }

  lemma {:induction false} SettledMeans(s: System, monthOf: int -> Month)
    requires Up(s, monthOf)
    ensures SettlesTo(s, Settled(s, monthOf), monthOf)
    decreases |s.tail.phase.todo|, |s.pipe|
  {
    if s.tail.phase.todo != [] {
      PollGoesOn(s, monthOf);
      SettledMeans(Polled(s), monthOf);
    } else if s.pipe != [] {
      ReceiveGoesOn(s, monthOf);
      SettledMeans(Received(s), monthOf);
      SettlesAfter(s, Received(s), Settled(s, monthOf), monthOf);
    } else {
      LeadsNowhere(s.relay);
    }
  }

  lemma SettlesAfter(s: System, s': System, e: System, monthOf: int -> Month)
    requires s.tail.phase.Following? && s'.tail == s.tail && Leads(s.relay, s'.relay) && SettlesTo(s', e, monthOf)
    ensures SettlesTo(s, e, monthOf)
  {
    LeadsOnFrom(s.relay, s'.relay, e.relay);
  }

  /** Where every tracked shard has been read to its end, so has the log. */
  lemma ReadToTheEnd(s: System, monthOf: int -> Month)
    requires Up(s, monthOf)
    requires forall i: nat :: i < |s.tail.store| && EventTail.Tracked(s.tail, s.tail.store[i].month) ==>
               OffsetOf(s.tail.offsets, s.tail.store[i].month) == |s.tail.store[i].lines|
    ensures s.read == |s.relay.log|
  {
    var t := s.tail;
    forall i: nat | i < |t.store|
      ensures Share(s.read, Base(t.store, i), |t.store[i].lines|) == |t.store[i].lines|
    {
      assert ReadOf(t.store, s.read, t.floor, t.offsets, i);
    }
    AllBefore(t.store, s.read, |t.store|);
  }

  lemma PollReadsAll(t: Tail, i: nat)
    requires EventTail.Follows(t) && t.phase == EventTail.Following([]) && i < |t.store| && EventTail.Tracked(t, t.store[i].month)
    ensures OffsetOf(EventTail.FinishPoll(EventTail.Do(t, EventTail.StartPoll)).offsets, t.store[i].month) == |t.store[i].lines|
  {
    IndexOfAt(t.store, i);
    EventTail.PollCatchesUp(t, t.store[i].month);
  }

  lemma PollKeepsStore(t: Tail)
    requires EventTail.Follows(t) && t.phase == EventTail.Following([])
    ensures var e := EventTail.FinishPoll(EventTail.Do(t, EventTail.StartPoll));
            e.store == t.store && e.floor == t.floor && e.phase == EventTail.Following([])
  {
    EventTail.CalmStartPoll(t);
    EventTail.FinishReads(EventTail.Do(t, EventTail.StartPoll));
  }

  /** With an empty pipe and the log read to its end, the relay is where a connection to one log would have caught up. */
  lemma NothingOnTheWay(s: System, monthOf: int -> Month, i: nat)
    requires Up(s, monthOf) && RemoteRelay.Inv(s.relay) && s.pipe == [] && s.read == |s.relay.log|
    requires RemoteRelay.Wanted(s.relay, i) && s.relay.last.Some? && s.relay.first <= i
    ensures i in s.relay.out
  {
    NothingHeldBack(s);
    LeadsKeepsInv(s.relay, Arrived(s.relay, |s.relay.log|, false));
    RemoteRelay.CaughtUp(Arrived(s.relay, |s.relay.log|, false), i);
  }

  lemma NothingHeldBack(s: System)
    requires s.relay.conn.Some? && Bounded(s) && Piped(s) && s.pipe == [] && s.read == |s.relay.log|
    requires s.relay.conn.value.replaying ==> s.relay.conn.value.known <= s.replayTo
    ensures Leads(s.relay, Arrived(s.relay, |s.relay.log|, false))
  {
    var r, c := s.relay, s.relay.conn.value;
    PickedHead(r.log, r.kinds, c.since, c.pos, s.replayTo);
    PickedHead(r.log, r.kinds, None, Max(c.pos, s.replayTo), s.read);
    if c.replaying {
      ReplayOver(r, s.replayTo);
      LeadsPast(r, Arrived(r, s.replayTo, false), s.read);
    } else {
      LeadsNowhere(r);
      LeadsPast(r, r, s.read);
    }
  }

  /** Wherever a run has got to in the follow phase: one undisturbed poll and the arrival of its lines leave no wanted
      event out, from the first stamped line relayed to the end of the newest shard. */
  lemma CaughtUp(ss: seq<System>, as_: seq<Step>, monthOf: int -> Month, n: nat)
    requires IsRun(ss, as_, monthOf) && Monotone(monthOf) && n < |ss| && ss[n].tail.phase == EventTail.Following([])
    ensures Up(Do(ss[n], monthOf, Remote(EventTail.StartPoll)), monthOf)
    ensures var r := Settled(Do(ss[n], monthOf, Remote(EventTail.StartPoll)), monthOf).relay;
            && r.log == LogOf(ss[n].tail.store)
            && forall i: nat :: RemoteRelay.Wanted(r, i) && r.last.Some? && r.first <= i ==> i in r.out
  {
    var s := ss[n];
    EveryRunKeepsInv(ss, as_, monthOf, n);
    PollStarts(s, monthOf, EventTail.Do(s.tail, EventTail.StartPoll));
    SettledCaughtUp(s, Do(s, monthOf, Remote(EventTail.StartPoll)), monthOf);
  }

  lemma SettledCaughtUp(s: System, s1: System, monthOf: int -> Month)
    requires EventTail.Follows(s.tail) && s.tail.phase == EventTail.Following([]) && s1.tail == EventTail.Do(s.tail, EventTail.StartPoll)
    requires Up(s1, monthOf) && RemoteRelay.Inv(s1.relay)
    ensures var r := Settled(s1, monthOf).relay;
            && r.log == LogOf(s.tail.store)
            && forall i: nat :: RemoteRelay.Wanted(r, i) && r.last.Some? && r.first <= i ==> i in r.out
  {
    var e := Settled(s1, monthOf);
    SettledMeans(s1, monthOf);
    LeadsKeepsInv(s1.relay, e.relay);
    PollKeepsStore(s.tail);
    forall k: nat | k < |e.tail.store| && EventTail.Tracked(e.tail, e.tail.store[k].month)
      ensures OffsetOf(e.tail.offsets, e.tail.store[k].month) == |e.tail.store[k].lines|
    {
      PollReadsAll(s.tail, k);
    }
    ReadToTheEnd(e, monthOf);
    forall i: nat | RemoteRelay.Wanted(e.relay, i) && e.relay.last.Some? && e.relay.first <= i
      ensures i in e.relay.out
    {
      NothingOnTheWay(e, monthOf, i);
    }
  }

  // ---------------------------------------------------------------- the pipe holds what the tail delivers

  lemma {:induction false} PrintedAre(s: System, i: nat, from: nat, since: Option<int>)
    requires i < |s.tail.store| && from <= |s.tail.store[i].lines| && s.relay.log == LogOf(s.tail.store) && "" !in s.relay.kinds
    ensures EventsAt(s.relay.log, Printed(s, i, from, since)) == Passing(Parsed(s.tail.store[i].lines[from..]), s.relay.kinds, since)
  {
    var lines, base := s.tail.store[i].lines[from..], Base(s.tail.store, i) + from;
    ShardStandsAt(s.tail.store, i, from);
    assert base + |lines| == Base(s.tail.store, i) + |s.tail.store[i].lines|;
    PickedAre(s.relay.log, base, lines, s.relay.kinds, since);
  }

  /** What a read of the follow phase prints are the events of the wanted kinds that it delivers. */
  lemma PollPrintsDelivered(s: System, i: nat)
    requires EventTail.Enabled(s.tail, EventTail.ReadFile) && Ascending(s.tail.store) && "" !in s.relay.kinds
    requires i < |s.tail.store| && s.tail.store[i].month == s.tail.phase.todo[0] && s.relay.log == LogOf(s.tail.store)
    ensures Polled(s).pipe == s.pipe + PollPrints(s, i)
    ensures var m, more := s.tail.phase.todo[0], PollPrints(s, i);
            exists es: seq<Event> ::
              && EventTail.Got(Polled(s).tail.followed, m) == EventTail.Got(s.tail.followed, m) + es
              && EventsAt(s.relay.log, more) == Passing(es, s.relay.kinds, None)
  {
    IndexOfAt(s.tail.store, i);
    EventTail.PolledShard(s.tail, s.tail.phase.todo[0]);
    PrintedAre(s, i, StartOf(s.tail.store[i].lines, OffsetOf(s.tail.offsets, s.tail.store[i].month)), None);
  }

  /** What a read of the replay prints are the events of the wanted kinds, stamped `since` or later, that it delivers. */
  lemma ReplayPrintsDelivered(s: System, i: nat)
    requires EventTail.Enabled(s.tail, EventTail.ReplayFile) && Ascending(s.tail.store) && "" !in s.relay.kinds
    requires i < |s.tail.store| && s.tail.store[i].month == s.tail.phase.todo[0] && s.relay.log == LogOf(s.tail.store)
    requires s.tail.phase.todo[0] >= s.tail.phase.since
    ensures Replayed(s).pipe == s.pipe + ReplayPrints(s, i)
    ensures EventsAt(s.relay.log, ReplayPrints(s, i))
         == Passing(EventTail.Got(Replayed(s).tail.replayed, s.tail.phase.todo[0]), s.relay.kinds, Since(s))
  {
    IndexOfAt(s.tail.store, i);
    PrintedAre(s, i, 0, Since(s));
    assert s.tail.store[i].lines[0..] == s.tail.store[i].lines;
  }
}
