/** `events --tail [--since]` as a protocol: seed the offsets, replay the backlog, then poll for ever.
    Every file read and every append is one step, so a run is any interleaving of them. */
module EventTail {
  import opened Wrappers
  import opened EventLog

  datatype Phase =
    | Seeding
    | Seeded
    | Replaying(todo: seq<Month>, since: Month, current: Month)
    | Following(todo: seq<Month>)

  /** `replayed` and `followed` are what the two phases have delivered of each shard. The rest keeps the
      books: lines replayed (`readTo`), offsets when the follow phase began (`start`), shards in the log
      at the last listing (`listed`), oldest month seeded (`floor`; none when the log was empty). */
  datatype Tail = Tail(
    store: Store,
    offsets: Offsets,
    phase: Phase,
    replayed: map<Month, seq<Event>>,
    followed: map<Month, seq<Event>>,
    readTo: Offsets,
    start: Offsets,
    listed: nat,
    floor: Option<Month>)

  datatype Step =
    | Append(line: Line)
    | Create(month: Month, line: Line)
    | AppendLate(i: nat, line: Line)
    | Seed
    | BeginReplay(since: Month, current: Month)
    | ReplayFile
    | BeginFollow
    | StartPoll
    | ReadFile

  function Months(st: Store): (ms: seq<Month>)
    ensures |ms| == |st| && forall i :: 0 <= i < |st| ==> ms[i] == st[i].month
  {
    if st == [] then [] else [st[0].month] + Months(st[1..])
  }

  /** The scope of the tail: the newest two shards, oldest first. */
  function NewestTwo(st: Store): seq<Month> {
    if |st| <= 2 then Months(st) else [st[|st| - 2].month, st[|st| - 1].month]
  }

  function Got(events: map<Month, seq<Event>>, m: Month): seq<Event> {
    if m in events then events[m] else []
  }

  function Lines(st: Store, m: Month): seq<Line> {
    LinesOf(st, m).GetOr([])
  }

  function Grown(st: Store, i: nat, line: Line): Store
    requires i < |st|
  {
    st[i := Shard(st[i].month, st[i].lines + [line])]
  }

  predicate Enabled(s: Tail, a: Step) {
    match a
    case Append(_) => s.store != []
    case Create(m, _) => s.store != [] ==> s.store[|s.store| - 1].month < m
    case AppendLate(i, _) => i + 1 < |s.store|
    case Seed => s.phase.Seeding?
    case BeginReplay(_, _) => s.phase.Seeded?
    case ReplayFile => s.phase.Replaying? && s.phase.todo != []
    case BeginFollow => s.phase.Seeded? || (s.phase.Replaying? && s.phase.todo == [])
    case StartPoll => s.phase == Following([])
    case ReadFile => s.phase.Following? && s.phase.todo != []
  }

  function Replay(s: Tail): Tail
    requires Enabled(s, ReplayFile)
  {
    var m := s.phase.todo[0];
    var lines := Lines(s.store, m);
    s.(phase := Replaying(s.phase.todo[1..], s.phase.since, s.phase.current),
       offsets := if m == s.phase.current then s.offsets[m := |lines|] else s.offsets,
       replayed := if m < s.phase.since then s.replayed else s.replayed[m := Parsed(lines)],
       readTo := if m < s.phase.since then s.readTo else s.readTo[m := |lines|])
  }

  function Poll(s: Tail): Tail
    requires Enabled(s, ReadFile)
  {
    var m := s.phase.todo[0];
    var (events, pos) := ReadOne(Lines(s.store, m), OffsetOf(s.offsets, m));
    s.(phase := Following(s.phase.todo[1..]),
       offsets := s.offsets[m := pos],
       followed := s.followed[m := Got(s.followed, m) + events])
  }

  function Do(s: Tail, a: Step): Tail
    requires Enabled(s, a)
  {
    match a
    case Append(line) => s.(store := Grown(s.store, |s.store| - 1, line))
    case Create(m, line) => s.(store := s.store + [Shard(m, [line])])
    case AppendLate(i, line) => s.(store := Grown(s.store, i, line))
    case Seed =>
      s.(phase := Seeded,
         offsets := map m | m in NewestTwo(s.store) :: |Lines(s.store, m)|,
         listed := |s.store|,
         floor := if s.store == [] then None else Some(NewestTwo(s.store)[0]))
    case BeginReplay(since, current) => s.(phase := Replaying(Months(s.store), since, current), listed := |s.store|)
    case ReplayFile => Replay(s)
    case BeginFollow => s.(phase := Following([]), start := s.offsets)
    case StartPoll => s.(phase := Following(NewestTwo(s.store)), listed := |s.store|)
    case ReadFile => Poll(s)
  }

  predicate Init(s: Tail) {
    && Ascending(s.store)
    && s.phase.Seeding?
    && s.offsets == map[] && s.readTo == map[] && s.start == map[]
    && s.replayed == map[] && s.followed == map[]
  }

  // ---------------------------------------------------------------- how the log changes

  lemma {:induction false} LinesGrown(st: Store, i: nat, line: Line, m: Month)
    requires Ascending(st) && i < |st|
    ensures Lines(Grown(st, i, line), m) == if m == st[i].month then Lines(st, m) + [line] else Lines(st, m)
    ensures Ascending(Grown(st, i, line))
  {
    if i == 0 {
      if m == st[0].month {
      } else {
        assert Grown(st, i, line)[1..] == st[1..];
      }
    } else {
      assert Grown(st, i, line)[1..] == Grown(st[1..], i - 1, line);
      assert st[0].month < st[i].month;
      LinesGrown(st[1..], i - 1, line, m);
    }
  }

  lemma {:induction false} LinesAppended(st: Store, shard: Shard, m: Month)
    ensures LinesOf(st + [shard], m) ==
            if LinesOf(st, m).Some? then LinesOf(st, m) else if shard.month == m then Some(shard.lines) else None
  {
    if st == [] {
      assert (st + [shard])[1..] == [];
    } else {
      assert (st + [shard])[1..] == st[1..] + [shard];
      LinesAppended(st[1..], shard, m);
    }
  }

  lemma {:induction false} NoLinesYet(st: Store, k: Month)
    requires forall i :: 0 <= i < |st| ==> st[i].month < k
    ensures LinesOf(st, k).None?
  {
    if st != [] {
      NoLinesYet(st[1..], k);
    }
  }

  lemma LinesCreated(st: Store, k: Month, line: Line, m: Month)
    requires Ascending(st) && (st != [] ==> st[|st| - 1].month < k)
    ensures Lines(st + [Shard(k, [line])], m) == if m == k then [line] else Lines(st, m)
    ensures Ascending(st + [Shard(k, [line])])
    ensures Lines(st, k) == []
  {
    assert forall i :: 0 <= i < |st| ==> st[i].month < k;
    LinesAppended(st, Shard(k, [line]), m);
    NoLinesYet(st, k);
  }

  /** Shards only ever gain lines at their end. */
  lemma LinesKept(s: Tail, a: Step, m: Month)
    requires Ascending(s.store) && Enabled(s, a)
    ensures Ascending(Do(s, a).store)
    ensures Lines(s.store, m) <= Lines(Do(s, a).store, m)
  {
    match a
    case Append(line) => LinesGrown(s.store, |s.store| - 1, line, m);
    case Create(k, line) => LinesCreated(s.store, k, line, m);
    case AppendLate(i, line) => LinesGrown(s.store, i, line, m);
    case _ =>
  }

  // ---------------------------------------------------------------- the account, in every run

  ghost predicate AccountOf(s: Tail, m: Month) {
    var lines, off := Lines(s.store, m), OffsetOf(s.offsets, m);
    && off <= |lines|
    && OffsetOf(s.readTo, m) <= |lines|
    && Got(s.replayed, m) == Parsed(lines[..OffsetOf(s.readTo, m)])
    && (!s.phase.Following? ==> Got(s.followed, m) == [])
    && (s.phase.Following? ==> OffsetOf(s.start, m) <= off && Got(s.followed, m) == Parsed(lines[OffsetOf(s.start, m)..off]))
    && SeededFirst(s, m)
  }

  /** The follow phase takes a replayed shard up where its replay ended or before: it was seeded first. */
  predicate SeededFirst(s: Tail, m: Month) {
    match s.phase
    case Replaying(_, since, _) => m in s.readTo ==> m >= since && OffsetOf(s.offsets, m) <= s.readTo[m]
    case Following(_) => m in s.readTo ==> OffsetOf(s.start, m) <= s.readTo[m]
    case _ => m !in s.readTo && (s.phase.Seeding? ==> m !in s.offsets)
  }

  /** Whatever the writers do, the backlog phase has delivered each shard's first `readTo` lines and the
      follow phase its lines from `start` to the offset. */
  ghost predicate Account(s: Tail) {
    Ascending(s.store) && forall m :: AccountOf(s, m)
  }

  lemma PrefixSlice(a: seq<Line>, b: seq<Line>, i: nat, j: nat)
    requires i <= j <= |a| && a <= b
    ensures a[i..j] == b[i..j]
  {
  }

  lemma AccountStep(s: Tail, a: Step)
    requires Account(s) && Enabled(s, a)
    ensures Account(Do(s, a))
  {
    forall m
      ensures AccountOf(Do(s, a), m)
    {
      LinesKept(s, a, m);
      assert AccountOf(s, m);
      AccountStepAt(s, a, m);
    }
    LinesKept(s, a, 0);
  }

  lemma AccountStepAt(s: Tail, a: Step, m: Month)
    requires Enabled(s, a) && AccountOf(s, m)
    requires Lines(s.store, m) <= Lines(Do(s, a).store, m)
    ensures AccountOf(Do(s, a), m)
  {
    match a
    case ReplayFile => AccountReplay(s, m);
    case ReadFile => AccountPoll(s, m);
    case _ => AccountOther(s, a, m);
  }

  lemma AccountReplay(s: Tail, m: Month)
    requires Enabled(s, ReplayFile) && AccountOf(s, m)
    ensures AccountOf(Replay(s), m)
  {
    var lines := Lines(s.store, m);
    assert lines[..|lines|] == lines;
  }

  lemma AccountPoll(s: Tail, m: Month)
    requires Enabled(s, ReadFile) && AccountOf(s, m)
    ensures AccountOf(Poll(s), m)
  {
    if m == s.phase.todo[0] {
      FollowMore(Lines(s.store, m), OffsetOf(s.start, m), OffsetOf(s.offsets, m), Got(s.followed, m));
      PolledShard(s, m);
    }
  }

  lemma PolledShard(s: Tail, m: Month)
    requires Enabled(s, ReadFile) && m == s.phase.todo[0]
    ensures var s', r := Poll(s), ReadOne(Lines(s.store, m), OffsetOf(s.offsets, m));
            && OffsetOf(s'.offsets, m) == r.1 && Got(s'.followed, m) == Got(s.followed, m) + r.0
            && s'.replayed == s.replayed && s'.readTo == s.readTo && s'.start == s.start && s'.store == s.store
  {
  }

  lemma FollowMore(lines: seq<Line>, start: nat, off: nat, followed: seq<Event>)
    requires start <= off <= |lines| && followed == Parsed(lines[start..off])
    ensures var r := ReadOne(lines, off);
            r.1 == |lines| && followed + r.0 == Parsed(lines[start..r.1])
  {
    ParsedSlice(lines, start, off, |lines|);
    assert lines[off..|lines|] == lines[off..];
  }

  lemma AccountOther(s: Tail, a: Step, m: Month)
    requires Enabled(s, a) && AccountOf(s, m) && !a.ReplayFile? && !a.ReadFile?
    requires Lines(s.store, m) <= Lines(Do(s, a).store, m)
    ensures AccountOf(Do(s, a), m)
  {
    var lines, lines' := Lines(s.store, m), Lines(Do(s, a).store, m);
    var off := OffsetOf(s.offsets, m);
    PrefixSlice(lines, lines', 0, OffsetOf(s.readTo, m));
    if s.phase.Following? {
      PrefixSlice(lines, lines', OffsetOf(s.start, m), off);
    }
    if a.BeginFollow? {
      assert lines[off..off] == [];
    }
  }

  /** A run: enabled steps one after the other. */
  ghost predicate IsRun(ss: seq<Tail>, as_: seq<Step>) {
    && |ss| == |as_| + 1
    && Init(ss[0])
    && forall i :: 0 <= i < |as_| ==> Enabled(ss[i], as_[i]) && ss[i + 1] == Do(ss[i], as_[i])
  }

  lemma {:induction false} EveryRunKeepsAccount(ss: seq<Tail>, as_: seq<Step>, n: nat)
    requires IsRun(ss, as_) && n < |ss|
    ensures Account(ss[n])
  {
    if n > 0 {
      EveryRunKeepsAccount(ss, as_, n - 1);
      AccountStep(ss[n - 1], as_[n - 1]);
    }
  }

  function Output(s: Tail, m: Month): seq<Event> {
    Got(s.replayed, m) + Got(s.followed, m)
  }

  /** A replayed shard the follow phase has read past its replay is delivered exactly once, in order, if and
      only if no parsed line lies between the offset it was seeded with and the end of its replay. */
  lemma ExactlyOnceIff(s: Tail, m: Month)
    requires AccountOf(s, m) && s.phase.Following? && m in s.readTo && s.readTo[m] <= OffsetOf(s.offsets, m)
    ensures var lines, off := Lines(s.store, m), OffsetOf(s.offsets, m);
            Output(s, m) == Parsed(lines[..off])
            <==> Parsed(lines[OffsetOf(s.start, m)..OffsetOf(s.readTo, m)]) == []
  {
    var lines, off := Lines(s.store, m), OffsetOf(s.offsets, m);
    var a, r := OffsetOf(s.start, m), OffsetOf(s.readTo, m);
    ParsedSlice(lines, 0, r, off);
    ParsedSlice(lines, a, r, off);
    assert lines[0..r] == lines[..r] && lines[0..off] == lines[..off];
    var twice, rest, front := Parsed(lines[a..r]), Parsed(lines[r..off]), Parsed(lines[..r]);
    assert Output(s, m) == front + (twice + rest);
    if twice == [] {
      assert twice + rest == rest;
    } else {
      assert |front + (twice + rest)| > |front + rest|;
    }
  }

  // ---------------------------------------------------------------- calm runs

  /** What the tail needs of its writers, if the clock shows month `cur` when it seeds and begins to replay: appends go
      to the newest shard, and at most one is created between two listings; between seeding and replay they write to
      the month `cur`, whose shard may not be there yet, and during the replay to no other shard still to be replayed. */
  predicate Calm(s: Tail, a: Step, cur: Month) {
    match a
    case Append(_) =>
      && (s.phase.Seeded? ==> Newest(s.store, cur))
      && (s.phase.Replaying? && s.store != [] ==> Newest(s.store, cur) || s.store[|s.store| - 1].month !in s.phase.todo)
    case Create(m, _) => s.phase.Seeding? || (|s.store| == s.listed && (s.phase.Seeded? ==> m == cur))
    case AppendLate(_, _) => false
    case BeginReplay(_, current) => current == cur
    case _ => true
  }

  predicate Newest(st: Store, m: Month) {
    st != [] && m == st[|st| - 1].month
  }

  /** The shards the tail answers for: from the oldest one it seeded on. */
  predicate Tracked(s: Tail, m: Month) {
    s.floor.Some? ==> m >= s.floor.value
  }

  /** A shard of the log with a successor that the last listing knew of. */
  predicate Passed(s: Tail, m: Month) {
    exists i :: 0 <= i && i + 1 < s.listed && i < |s.store| && s.store[i].month == m
  }

  /** Still to be replayed, as far as is known. */
  predicate Due(s: Tail, m: Month) {
    s.phase.Seeded? || (s.phase.Replaying? && m in s.phase.todo)
  }

  /** Before the follow phase: a tracked shard that was not the newest at the last listing is seeded at its end, so is one
      that is yet to be replayed, but for the current month's; and what was replayed is seeded where its replay ended. */
  ghost predicate CalmHandoff(s: Tail, cur: Month) {
    && s.listed <= |s.store| <= s.listed + 1
    && (s.phase.Seeded? && s.listed < |s.store| ==> Newest(s.store, cur))
    && (forall m :: Tracked(s, m) && Passed(s, m) ==> OffsetOf(s.offsets, m) == |Lines(s.store, m)|)
    && (forall m :: Tracked(s, m) && Due(s, m) && m != cur ==> OffsetOf(s.offsets, m) == |Lines(s.store, m)|)
    && (forall m :: m in s.readTo && Tracked(s, m) ==> OffsetOf(s.offsets, m) == s.readTo[m])
    && (s.phase.Replaying? ==> s.phase.current == cur && forall m :: m in s.phase.todo ==> s.store != [] && m <= s.store[|s.store| - 1].month)
  }

  /** In the follow phase: what was replayed was handed over without overlap, and a tracked shard that was not
      the newest at the last listing is read to its end, unless this poll still has it to do. */
  ghost predicate CalmFollow(s: Tail)
    requires s.phase.Following?
  {
    && s.listed <= |s.store| <= s.listed + 1
    && (forall m :: m in s.readTo && Tracked(s, m) ==> OffsetOf(s.start, m) == s.readTo[m])
    && (forall m :: Tracked(s, m) && Passed(s, m) && m !in s.phase.todo ==> OffsetOf(s.offsets, m) == |Lines(s.store, m)|)
  }

  /** The tail follows, and has kept its accounts. */
  ghost predicate Follows(s: Tail) {
    Account(s) && s.phase.Following? && CalmFollow(s)
  }

  ghost predicate CalmInv(s: Tail, cur: Month) {
    match s.phase
    case Seeding => Account(s)
    case Following(_) => Follows(s)
    case _ => Account(s) && CalmHandoff(s, cur)
  }

  // Growing the newest shard, or adding one, concerns no passed shard.

  lemma NotNewest(st: Store, m: Month, i: nat)
    requires Ascending(st) && i + 1 < |st| && st[i].month == m
    ensures !Newest(st, m)
  {
  }

  /** The same shards were passed before a step that lists none and adds one at most. */
  lemma PassedSame(s: Tail, s': Tail, m: Month)
    requires s'.listed == s.listed <= |s.store| <= |s'.store| && Ascending(s.store)
    requires forall i :: 0 <= i < |s.store| ==> s'.store[i].month == s.store[i].month
    ensures Passed(s', m) ==> Passed(s, m) && !Newest(s.store, m)
  {
    if Passed(s', m) {
      var i :| 0 <= i && i + 1 < s.listed && i < |s'.store| && s'.store[i].month == m;
      assert s.store[i].month == m;
      NotNewest(s.store, m, i);
    }
  }

  lemma CalmAppend(s: Tail, cur: Month, line: Line)
    requires CalmInv(s, cur) && s.store != [] && Calm(s, Append(line), cur)
    ensures CalmInv(Do(s, Append(line)), cur)
  {
    var s' := Do(s, Append(line));
    AccountStep(s, Append(line));
    forall m
      ensures Lines(s'.store, m) == if Newest(s.store, m) then Lines(s.store, m) + [line] else Lines(s.store, m)
      ensures !s.phase.Seeding? && Passed(s', m) ==> Passed(s, m) && !Newest(s.store, m)
    {
      LinesGrown(s.store, |s.store| - 1, line, m);
      if !s.phase.Seeding? {
        PassedSame(s, s', m);
      }
    }
  }

  lemma CalmCreate(s: Tail, cur: Month, k: Month, line: Line)
    requires CalmInv(s, cur) && Enabled(s, Create(k, line)) && Calm(s, Create(k, line), cur)
    ensures CalmInv(Do(s, Create(k, line)), cur)
  {
    var s' := Do(s, Create(k, line));
    AccountStep(s, Create(k, line));
    forall m
      ensures Lines(s'.store, m) == if m == k then [line] else Lines(s.store, m)
      ensures !s.phase.Seeding? && Passed(s', m) ==> Passed(s, m) && m != k
    {
      LinesCreated(s.store, k, line, m);
      if !s.phase.Seeding? {
        PassedSame(s, s', m);
        NotYetPassed(s, k);
      }
    }
  }

  lemma NotYetPassed(s: Tail, k: Month)
    requires Ascending(s.store) && (s.store != [] ==> s.store[|s.store| - 1].month < k)
    ensures !Passed(s, k)
  {
    assert forall i :: 0 <= i < |s.store| ==> s.store[i].month < k;
  }

  lemma TrackedIsNewest(st: Store, i: nat)
    requires Ascending(st) && i < |st| && st[i].month >= NewestTwo(st)[0]
    ensures st[i].month in NewestTwo(st)
  {
    if |st| > 2 {
      var second := st[|st| - 2];
    }
  }

  /** Of the tracked months only the newest two have lines when they are seeded. */
  lemma CalmSeed(s: Tail, cur: Month)
    requires CalmInv(s, cur) && Enabled(s, Seed)
    ensures CalmInv(Do(s, Seed), cur)
  {
    var s' := Do(s, Seed);
    AccountStep(s, Seed);
    forall m | Tracked(s', m)
      ensures OffsetOf(s'.offsets, m) == |Lines(s.store, m)|
    {
      LinesOfSome(s.store, m);
      if LinesOf(s.store, m).Some? {
        var i :| 0 <= i < |s.store| && s.store[i].month == m;
        TrackedIsNewest(s.store, i);
      }
    }
    NotReadYet(s);
  }

  lemma NotReadYet(s: Tail)
    requires Account(s) && (s.phase.Seeding? || s.phase.Seeded?)
    ensures forall m :: m !in s.readTo
  {
    forall m
      ensures m !in s.readTo
    {
      assert AccountOf(s, m);
    }
  }

  /** When the replay begins, a shard created since is the current month's, and the one before it has not grown. */
  lemma CalmBeginReplay(s: Tail, cur: Month, since: Month)
    requires CalmInv(s, cur) && Enabled(s, BeginReplay(since, cur))
    ensures CalmInv(Do(s, BeginReplay(since, cur)), cur)
  {
    var s' := Do(s, BeginReplay(since, cur));
    AccountStep(s, BeginReplay(since, cur));
    forall m | Tracked(s, m) && Passed(s', m)
      ensures OffsetOf(s.offsets, m) == |Lines(s.store, m)|
    {
      PassedNow(s, cur, m);
    }
    MonthsUpTo(s.store);
    NotReadYet(s);
  }

  lemma MonthsUpTo(st: Store)
    requires Ascending(st)
    ensures forall m :: m in Months(st) ==> st != [] && m <= st[|st| - 1].month
  {
    forall m | m in Months(st)
      ensures st != [] && m <= st[|st| - 1].month
    {
      var i :| 0 <= i < |Months(st)| && Months(st)[i] == m;
      assert st[i].month == m;
    }
  }

  lemma PassedNow(s: Tail, cur: Month, m: Month)
    requires CalmInv(s, cur) && s.phase.Seeded? && Tracked(s, m)
    requires exists i :: 0 <= i && i + 1 < |s.store| && s.store[i].month == m
    ensures OffsetOf(s.offsets, m) == |Lines(s.store, m)|
  {
    var i :| 0 <= i && i + 1 < |s.store| && s.store[i].month == m;
    if i + 1 < s.listed {
      assert Passed(s, m);
    } else {
      assert s.store[i].month < s.store[|s.store| - 1].month;
    }
  }

  lemma CalmReplay(s: Tail, cur: Month)
    requires CalmInv(s, cur) && Enabled(s, ReplayFile)
    ensures CalmInv(Do(s, ReplayFile), cur)
  {
    AccountStep(s, ReplayFile);
    forall m | m in Replay(s).readTo && Tracked(s, m)
      ensures OffsetOf(Replay(s).offsets, m) == Replay(s).readTo[m]
    {
      ReplayedSeed(s, cur, m);
    }
    assert forall m :: m in s.phase.todo[1..] ==> m in s.phase.todo;
  }

  lemma ReplayedSeed(s: Tail, cur: Month, m: Month)
    requires CalmInv(s, cur) && Enabled(s, ReplayFile) && m in Replay(s).readTo && Tracked(s, m)
    ensures OffsetOf(Replay(s).offsets, m) == Replay(s).readTo[m]
  {
    assert AccountOf(s, m);
    if m == s.phase.todo[0] {
      assert Due(s, m);
    }
  }

  lemma CalmBeginFollow(s: Tail, cur: Month)
    requires CalmInv(s, cur) && Enabled(s, BeginFollow)
    ensures CalmInv(Do(s, BeginFollow), cur)
  {
    AccountStep(s, BeginFollow);
  }

  lemma CalmStartPoll(s: Tail)
    requires Follows(s) && Enabled(s, StartPoll)
    ensures Follows(Do(s, StartPoll))
  {
    var s' := Do(s, StartPoll);
    AccountStep(s, StartPoll);
    forall m | Passed(s', m) && m !in s'.phase.todo
      ensures Passed(s, m)
    {
      var i :| 0 <= i && i + 1 < |s.store| && s.store[i].month == m;
      assert m !in NewestTwo(s.store);
      assert i < |s.store| - 2;
    }
  }

  lemma CalmReadFile(s: Tail)
    requires Follows(s) && Enabled(s, ReadFile)
    ensures Follows(Do(s, ReadFile))
  {
    var s' := Do(s, ReadFile);
    AccountStep(s, ReadFile);
    assert AccountOf(s, s.phase.todo[0]);
    forall m | m !in s'.phase.todo && m != s.phase.todo[0]
      ensures m !in s.phase.todo
    {
    }
  }

  lemma CalmStep(s: Tail, a: Step, cur: Month)
    requires CalmInv(s, cur) && Enabled(s, a) && Calm(s, a, cur)
    ensures CalmInv(Do(s, a), cur)
  {
    match a
    case Append(line) => CalmAppend(s, cur, line);
    case Create(m, line) => CalmCreate(s, cur, m, line);
    case Seed => CalmSeed(s, cur);
    case BeginReplay(since, _) => CalmBeginReplay(s, cur, since);
    case ReplayFile => CalmReplay(s, cur);
    case BeginFollow => CalmBeginFollow(s, cur);
    case StartPoll => CalmStartPoll(s);
    case ReadFile => CalmReadFile(s);
    case AppendLate(_, _) =>
  }

  ghost predicate IsCalmRun(ss: seq<Tail>, as_: seq<Step>, cur: Month) {
    IsRun(ss, as_) && forall i :: 0 <= i < |as_| ==> Calm(ss[i], as_[i], cur)
  }

  lemma {:induction false} EveryCalmRun(ss: seq<Tail>, as_: seq<Step>, cur: Month, n: nat)
    requires IsCalmRun(ss, as_, cur) && n < |ss|
    ensures CalmInv(ss[n], cur)
  {
    if n > 0 {
      EveryCalmRun(ss, as_, cur, n - 1);
      CalmStep(ss[n - 1], as_[n - 1], cur);
    } else {
      forall m
        ensures AccountOf(ss[0], m)
      {
      }
    }
  }

  // ---------------------------------------------------------------- what a calm tail delivers

  /** At every moment of a calm run, a tracked shard's events up to the offset have come out once each and in
      order: from its first line if it was replayed, from its seed otherwise. */
  lemma DeliveredOnce(s: Tail, m: Month)
    requires Follows(s) && Tracked(s, m)
    ensures OffsetOf(s.start, m) <= OffsetOf(s.offsets, m) <= |Lines(s.store, m)|
    ensures Output(s, m) == if m in s.readTo then Parsed(Lines(s.store, m)[..OffsetOf(s.offsets, m)])
                            else Parsed(Lines(s.store, m)[OffsetOf(s.start, m)..OffsetOf(s.offsets, m)])
  {
    assert AccountOf(s, m);
    var lines := Lines(s.store, m);
    if m in s.readTo {
      ParsedSlice(lines, 0, s.readTo[m], OffsetOf(s.offsets, m));
      assert lines[0..s.readTo[m]] == lines[..s.readTo[m]];
      assert lines[0..OffsetOf(s.offsets, m)] == lines[..OffsetOf(s.offsets, m)];
    } else {
      assert lines[..0] == [];
    }
  }

  /** The rest of a poll. */
  function FinishPoll(s: Tail): Tail
    requires s.phase.Following?
    decreases |s.phase.todo|
  {
    if s.phase.todo == [] then s else FinishPoll(Poll(s))
  }

  lemma {:induction false} FinishReads(s: Tail)
    requires Account(s) && s.phase.Following?
    ensures var r := FinishPoll(s);
            && r.phase == Following([])
            && r.store == s.store && r.readTo == s.readTo && r.start == s.start && r.floor == s.floor
            && forall m :: m in s.phase.todo || OffsetOf(s.offsets, m) == |Lines(s.store, m)| ==>
                 OffsetOf(r.offsets, m) == |Lines(s.store, m)|
    decreases |s.phase.todo|
  {
    if s.phase.todo != [] {
      assert AccountOf(s, s.phase.todo[0]);
      AccountStep(s, ReadFile);
      FinishReads(Poll(s));
      forall m | m in s.phase.todo && m != s.phase.todo[0]
        ensures m in s.phase.todo[1..]
      {
      }
    }
  }

  lemma {:induction false} FinishKeepsCalm(s: Tail)
    requires Follows(s)
    ensures Follows(FinishPoll(s))
    decreases |s.phase.todo|
  {
    if s.phase.todo != [] {
      CalmReadFile(s);
      FinishKeepsCalm(Poll(s));
    }
  }

  /** One poll that no writer interrupts leaves nothing behind in any tracked shard: however many appends and
      single rollovers came before, they were all still in reach. */
  lemma PollCatchesUp(s: Tail, m: Month)
    requires Follows(s) && s.phase == Following([]) && Tracked(s, m)
    ensures var r := FinishPoll(Do(s, StartPoll));
            && OffsetOf(r.offsets, m) == |Lines(s.store, m)|
            && OffsetOf(s.start, m) <= |Lines(s.store, m)|
            && Output(r, m) == if m in s.readTo then Parsed(Lines(s.store, m))
                               else Parsed(Lines(s.store, m)[OffsetOf(s.start, m)..])
  {
    var s1 := Do(s, StartPoll);
    CalmStartPoll(s);
    FinishReads(s1);
    FinishKeepsCalm(s1);
    InReach(s, m);
    var lines := Lines(s.store, m);
    DeliveredOnce(FinishPoll(s1), m);
    assert lines[..|lines|] == lines;
    assert lines[OffsetOf(s.start, m)..|lines|] == lines[OffsetOf(s.start, m)..];
  }

  /** A tracked shard is read to its end already or in the next listing. */
  lemma InReach(s: Tail, m: Month)
    requires Follows(s) && s.phase == Following([]) && Tracked(s, m)
    ensures m in NewestTwo(s.store) || OffsetOf(s.offsets, m) == |Lines(s.store, m)|
  {
    assert AccountOf(s, m);
    LinesOfSome(s.store, m);
    if LinesOf(s.store, m).Some? && m !in NewestTwo(s.store) {
      var i :| 0 <= i < |s.store| && s.store[i].month == m;
      assert i + 2 < |s.store|;
      assert Passed(s, m);
    }
  }

  // ---------------------------------------------------------------- what the calm is for

  /** The month rolls between seeding and replay, and the old month got one more line first. */
  const ROLL_STEPS := 9

  function RollStep(b: Event, c: Event, i: nat): Step
    requires i < ROLL_STEPS
  {
    match i
    case 0 => Seed
    case 1 => Append(Json(b))
    case 2 => Create(1, Json(c))
    case 3 => BeginReplay(0, 1)
    case 4 => ReplayFile
    case 5 => ReplayFile
    case 6 => BeginFollow
    case 7 => StartPoll
    case 8 => ReadFile
  }

  function RollState(a: Event, b: Event, c: Event, i: nat): Tail
    requires i <= ROLL_STEPS
  {
    var first, grown, full := [Shard(0, [Json(a)])], [Shard(0, [Json(a), Json(b)])], [Shard(0, [Json(a), Json(b)]), Shard(1, [Json(c)])];
    match i
    case 0 => Tail(first, map[], Seeding, map[], map[], map[], map[], 0, None)
    case 1 => Tail(first, map[0 := 1], Seeded, map[], map[], map[], map[], 1, Some(0))
    case 2 => Tail(grown, map[0 := 1], Seeded, map[], map[], map[], map[], 1, Some(0))
    case 3 => Tail(full, map[0 := 1], Seeded, map[], map[], map[], map[], 1, Some(0))
    case 4 => Tail(full, map[0 := 1], Replaying([0, 1], 0, 1), map[], map[], map[], map[], 2, Some(0))
    case 5 => Tail(full, map[0 := 1], Replaying([1], 0, 1), map[0 := [a, b]], map[], map[0 := 2], map[], 2, Some(0))
    case 6 => Tail(full, map[0 := 1, 1 := 1], Replaying([], 0, 1), map[0 := [a, b], 1 := [c]], map[], map[0 := 2, 1 := 1], map[], 2, Some(0))
    case 7 => RollState(a, b, c, 6).(phase := Following([]), start := map[0 := 1, 1 := 1])
    case 8 => RollState(a, b, c, 7).(phase := Following([0, 1]), listed := 2)
    case 9 => RollState(a, b, c, 8).(phase := Following([1]), offsets := map[0 := 2, 1 := 1], followed := map[0 := [b]])
  }

  lemma RollLines(a: Event, b: Event, c: Event)
    ensures var full := [Shard(0, [Json(a), Json(b)]), Shard(1, [Json(c)])];
            && Lines(full, 0) == [Json(a), Json(b)] && Lines(full, 1) == [Json(c)]
            && Months(full) == [0, 1] && NewestTwo(full) == [0, 1]
            && Parsed([Json(a), Json(b)]) == [a, b] && Parsed([Json(c)]) == [c] && Parsed([Json(b)]) == [b]
  {
    var full := [Shard(0, [Json(a), Json(b)]), Shard(1, [Json(c)])];
    LinesOfAt(full, 1);
    assert [Json(a), Json(b)][1..] == [Json(b)] && [Json(b)][1..] == [] && [Json(c)][1..] == [];
    assert Parsed([Json(b)]) == [b] + [] == [b];
    assert Parsed([Json(a), Json(b)]) == [a] + [b] == [a, b];
  }

  lemma RollMoves(a: Event, b: Event, c: Event, i: nat)
    requires i < ROLL_STEPS
    ensures Enabled(RollState(a, b, c, i), RollStep(b, c, i))
    ensures Do(RollState(a, b, c, i), RollStep(b, c, i)) == RollState(a, b, c, i + 1)
  {
    RollLines(a, b, c);
    var s, s' := RollState(a, b, c, i), RollState(a, b, c, i + 1);
    match i
    case 0 =>
      assert NewestTwo(s.store) == [0];
      assert (map m | m in [0] :: |Lines(s.store, m)|) == map[0 := 1];
    case 1 => assert [Json(a)] + [Json(b)] == [Json(a), Json(b)];
    case 4 => assert [0, 1][1..] == [1];
    case 8 =>
      assert [Json(a), Json(b)][1..] == [Json(b)];
      assert [0, 1][1..] == [1];
      RollLast(a, b, c);
      assert Lines(s.store, 0) == [Json(a), Json(b)];
      assert ReadOne([Json(a), Json(b)], 1) == ([b], 2);
      assert Poll(s) == s.(phase := Following([1]), offsets := map[0 := 2, 1 := 1], followed := map[0 := [b]]);
    case _ =>
  }

  lemma RollLast(a: Event, b: Event, c: Event)
    ensures var s := RollState(a, b, c, 8);
            && s.store == [Shard(0, [Json(a), Json(b)]), Shard(1, [Json(c)])]
            && s.phase == Following([0, 1])
            && OffsetOf(s.offsets, 0) == 1
            && s.offsets[0 := 2] == map[0 := 2, 1 := 1]
            && Got(s.followed, 0) + [b] == [b]
            && s.followed[0 := [b]] == map[0 := [b]]
    ensures var s := RollState(a, b, c, 9);
            && s.store == [Shard(0, [Json(a), Json(b)]), Shard(1, [Json(c)])]
            && Got(s.replayed, 0) == [a, b]
            && Got(s.followed, 0) == [b]
  {
    var s6 := RollState(a, b, c, 6);
    var s7 := RollState(a, b, c, 7);
    var s8 := RollState(a, b, c, 8);
    assert s7 == s6.(phase := Following([]), start := map[0 := 1, 1 := 1]);
    assert s8 == s7.(phase := Following([0, 1]), listed := 2);
  }

  function RollStates(a: Event, b: Event, c: Event): (ss: seq<Tail>)
    ensures |ss| == ROLL_STEPS + 1 && forall i :: 0 <= i <= ROLL_STEPS ==> ss[i] == RollState(a, b, c, i)
  {
    seq(ROLL_STEPS + 1, i requires 0 <= i <= ROLL_STEPS => RollState(a, b, c, i))
  }

  function RollSteps(b: Event, c: Event): (as_: seq<Step>)
    ensures |as_| == ROLL_STEPS && forall i :: 0 <= i < ROLL_STEPS ==> as_[i] == RollStep(b, c, i)
  {
    seq(ROLL_STEPS, i requires 0 <= i < ROLL_STEPS => RollStep(b, c, i))
  }

  lemma RollRuns(a: Event, b: Event, c: Event)
    ensures IsRun(RollStates(a, b, c), RollSteps(b, c))
  {
    var ss, as_ := RollStates(a, b, c), RollSteps(b, c);
    forall i | 0 <= i < |as_|
      ensures Enabled(ss[i], as_[i]) && ss[i + 1] == Do(ss[i], as_[i])
    {
      RollMoves(a, b, c, i);
    }
  }

  /** Then the replay delivers that line, and the follow phase delivers it again. */
  lemma RollDuringHandoff(a: Event, b: Event, c: Event)
    ensures IsRun(RollStates(a, b, c), RollSteps(b, c))
    ensures forall i :: 0 <= i < ROLL_STEPS ==> !RollSteps(b, c)[i].AppendLate?
    ensures var last := RollStates(a, b, c)[ROLL_STEPS];
            Output(last, 0) == [a, b, b] && Lines(last.store, 0) == [Json(a), Json(b)]
  {
    RollRuns(a, b, c);
    RollLines(a, b, c);
    RollLast(a, b, c);
    assert [a, b] + [b] == [a, b, b];
  }

  predicate OutOfReach(s: Tail, m: Month) {
    && s.phase.Following?
    && m !in s.phase.todo
    && exists i :: 0 <= i && i + 2 < |s.store| && s.store[i].month == m
  }

  /** Two rollovers between two listings put a shard out of reach: whatever happens next, not one more of its
      lines is delivered. */
  lemma OutOfReachForGood(s: Tail, a: Step, m: Month)
    requires Ascending(s.store) && Enabled(s, a) && OutOfReach(s, m)
    ensures Ascending(Do(s, a).store) && OutOfReach(Do(s, a), m) && Got(Do(s, a).followed, m) == Got(s.followed, m)
  {
    LinesKept(s, a, m);
    var s' := Do(s, a);
    var i :| 0 <= i && i + 2 < |s.store| && s.store[i].month == m;
    assert s'.store[i].month == m;
    if a == StartPoll {
      assert s.store[i].month < s.store[|s.store| - 2].month;
    }
  }
}
