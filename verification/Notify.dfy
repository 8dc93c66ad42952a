/** The FIFO doorbell. Producers append to the log and then ring; the follower reads, and waits for a ring
    when it found nothing. A run is any interleaving of the single system calls of both sides. */
module Notify {
  const CAPACITY := 65536  // bytes a pipe holds
  const CHUNK := 4096      // bytes one drain read takes

  /** The follower: opening its FIFO in two calls, reading the log, blocked in `select`, or emptying the pipe. */
  datatype Pc = Closed | Made | Reading | Waiting | Draining

  /** `lines` in the log and `got` of them delivered; `pipe` bytes in the follower's pipe; `linked` says its
      path still leads there. A producer that appended is `owing` a ring; it has `scanned` the directory and
      seen the path; it was told "no reader" and is about to unlink the path (`unlinking`). */
  datatype Bell = Bell(
    lines: nat,
    got: nat,
    pc: Pc,
    pipe: nat,
    linked: bool,
    owing: set<nat>,
    scanned: set<nat>,
    unlinking: set<nat>)

  datatype Step =
    | Append(p: nat)
    | Scan(p: nat)
    | RingOpen(p: nat)
    | Unlink(p: nat)
    | MakeFifo
    | OpenFifo
    | Read
    | Wake
    | Timeout
    | DrainChunk

  predicate Busy(s: Bell, p: nat) {
    p in s.owing || p in s.scanned || p in s.unlinking
  }

  predicate IsOpen(s: Bell) {
    s.pc.Reading? || s.pc.Waiting? || s.pc.Draining?
  }

  predicate Enabled(s: Bell, a: Step) {
    match a
    case Append(p) => !Busy(s, p)
    case Scan(p) => p in s.owing
    case RingOpen(p) => p in s.scanned
    case Unlink(p) => p in s.unlinking
    case MakeFifo => s.pc.Closed?
    case OpenFifo => s.pc.Made?
    case Read => s.pc.Reading?
    case Wake => s.pc.Waiting? && s.pipe > 0
    case Timeout => s.pc.Waiting? && s.pipe == 0
    case DrainChunk => s.pc.Draining?
  }

  function Do(s: Bell, a: Step): Bell
    requires Enabled(s, a)
  {
    match a
    case Append(p) => s.(lines := s.lines + 1, owing := s.owing + {p})
    case Scan(p) => s.(owing := s.owing - {p}, scanned := if s.linked then s.scanned + {p} else s.scanned)
    case RingOpen(p) =>
      var s' := s.(scanned := s.scanned - {p});
      if !s.linked then s'
      else if IsOpen(s) then s'.(pipe := if s.pipe < CAPACITY then s.pipe + 1 else s.pipe)
      else s'.(unlinking := s.unlinking + {p})
    case Unlink(p) => s.(unlinking := s.unlinking - {p}, linked := false)
    case MakeFifo => s.(pc := Made, linked := true, pipe := 0)
    case OpenFifo => s.(pc := if s.linked then Reading else Closed)
    case Read => if s.got < s.lines then s.(got := s.lines) else s.(pc := Waiting)
    case Wake => s.(pc := Draining)
    case Timeout => s.(pc := Reading)
    case DrainChunk =>
      if s.pipe == 0 then s.(pc := Reading) else s.(pipe := if s.pipe < CHUNK then 0 else s.pipe - CHUNK)
  }

  predicate WellFormed(s: Bell) {
    s.got <= s.lines && s.pipe <= CAPACITY
  }

  lemma StepWellFormed(s: Bell, a: Step)
    requires WellFormed(s) && Enabled(s, a)
    ensures WellFormed(Do(s, a))
  {
  }

  // ---------------------------------------------------------------- no lost wake-up

  /** The follower's path is linked and no producer is about to unlink it. */
  predicate Reliable(s: Bell) {
    IsOpen(s) && s.linked && s.unlinking == {}
  }

  /** A follower blocked on an empty pipe with lines undelivered has a ring still to come. */
  predicate NoLostWakeup(s: Bell) {
    s.pc.Waiting? && s.pipe == 0 && s.got < s.lines ==> s.owing != {} || s.scanned != {}
  }

  /** Once reliable, the doorbell stays so: an open FIFO has a reader, so nobody unlinks it again. */
  lemma ReliableStays(s: Bell, a: Step)
    requires WellFormed(s) && Reliable(s) && NoLostWakeup(s) && Enabled(s, a)
    ensures Reliable(Do(s, a)) && NoLostWakeup(Do(s, a))
  {
  }

  ghost predicate IsRun(ss: seq<Bell>, as_: seq<Step>) {
    && |ss| == |as_| + 1
    && forall i :: 0 <= i < |as_| ==> Enabled(ss[i], as_[i]) && ss[i + 1] == Do(ss[i], as_[i])
  }

  /** In every run that opens the FIFO while no producer holds a "no reader" answer, no wake-up is lost from
      then on, however producers and follower interleave. */
  lemma {:induction false} NoWakeupLost(ss: seq<Bell>, as_: seq<Step>, k: nat, n: nat)
    requires IsRun(ss, as_) && k < n < |ss| && WellFormed(ss[0])
    requires as_[k] == OpenFifo && ss[k].linked && ss[k].unlinking == {}
    ensures WellFormed(ss[n]) && Reliable(ss[n]) && NoLostWakeup(ss[n])
  {
    if n == k + 1 {
      RunWellFormed(ss, as_, k);
    } else {
      NoWakeupLost(ss, as_, k, n - 1);
      ReliableStays(ss[n - 1], as_[n - 1]);
    }
  }

  lemma {:induction false} RunWellFormed(ss: seq<Bell>, as_: seq<Step>, n: nat)
    requires IsRun(ss, as_) && n < |ss| && WellFormed(ss[0])
    ensures WellFormed(ss[n])
  {
    if n > 0 {
      RunWellFormed(ss, as_, n - 1);
      StepWellFormed(ss[n - 1], as_[n - 1]);
    }
  }

  /** Some run from `s` ends with a wake-up lost. */
  ghost predicate CanLose(s: Bell) {
    exists ss: seq<Bell>, as_: seq<Step> :: IsRun(ss, as_) && ss[0] == s && !NoLostWakeup(ss[|as_|])
  }

  lemma LosesBefore(s: Bell, a: Step)
    requires Enabled(s, a) && CanLose(Do(s, a))
    ensures CanLose(s)
  {
    var ss: seq<Bell>, as_: seq<Step> :| IsRun(ss, as_) && ss[0] == Do(s, a) && !NoLostWakeup(ss[|as_|]);
    var ss', as' := [s] + ss, [a] + as_;
    assert forall i :: 0 < i < |as'| ==> as'[i] == as_[i - 1] && ss'[i] == ss[i - 1] && ss'[i + 1] == ss[i];
    assert IsRun(ss', as') && ss'[|as'|] == ss[|as_|];
  }

  lemma LostNow(s: Bell)
    requires !NoLostWakeup(s)
    ensures CanLose(s)
  {
    var ss: seq<Bell>, as_: seq<Step> := [s], [];
    assert IsRun(ss, as_) && ss[0] == s;
  }

  /** The follower's own next step, if it has one without waiting out the clock. */
  function Solo(s: Bell): Step
    requires IsOpen(s) && (s.pc.Waiting? ==> s.pipe > 0)
  {
    match s.pc
    case Waiting => Wake
    case Draining => DrainChunk
    case _ => Read
  }

  /** How far off the follower is from sleeping, the pipe apart. */
  function Rank(s: Bell): nat {
    match s.pc
    case Reading => if s.got < s.lines then 5 else 4
    case Waiting => 3
    case _ => if s.pipe == 0 then 6 else 2
  }

  /** Once the path of an open FIFO is gone, some run ends with a wake-up lost: nobody can ring any more. */
  lemma UnlinkedLoses(s: Bell)
    requires WellFormed(s) && IsOpen(s) && !s.linked
    ensures CanLose(s)
    decreases |s.owing|, |s.scanned|, s.pipe, Rank(s)
  {
    if s.owing != {} {
      var p :| p in s.owing;
      UnlinkedLoses(Do(s, Scan(p)));
      LosesBefore(s, Scan(p));
    } else if s.scanned != {} {
      var p :| p in s.scanned;
      UnlinkedLoses(Do(s, RingOpen(p)));
      LosesBefore(s, RingOpen(p));
    } else if s.pc.Waiting? && s.pipe == 0 {
      AsleepLoses(s);
    } else {
      UnlinkedLoses(Do(s, Solo(s)));
      LosesBefore(s, Solo(s));
    }
  }

  lemma AsleepLoses(s: Bell)
    requires WellFormed(s) && s.pc.Waiting? && s.pipe == 0 && !s.linked && s.owing == {} && s.scanned == {}
    ensures CanLose(s)
  {
    if s.got < s.lines {
      LostNow(s);
    } else {
      var p := Fresh(s.unlinking);
      var s1 := Do(s, Append(p));
      var s2 := Do(s1, Scan(p));
      LostNow(s2);
      LosesBefore(s1, Scan(p));
      LosesBefore(s, Append(p));
    }
  }

  lemma Fresh(ps: set<nat>) returns (p: nat)
    ensures p !in ps
  {
    p := 0;
    var rest := ps;
    while rest != {}
      invariant forall q :: q in ps ==> q in rest || q < p
    {
      var q :| q in rest;
      p := if q < p then p else q + 1;
      rest := rest - {q};
    }
  }

  /** From the second state on no wake-up is lost. */
  predicate NeverLoses(ss: seq<Bell>) {
    forall n :: 0 < n < |ss| ==> NoLostWakeup(ss[n])
  }

  /** The condition is exact. Opening the FIFO while its path is there is safe, that is, no run that begins with it
      ever loses a wake-up, if and only if no producer then holds a "no reader" answer. Such a producer may unlink
      the path under the follower; then a line can be appended and rung for, and the follower stays blocked on an
      empty pipe with nobody left to ring. */
  lemma OpeningIsSafeIff(s: Bell)
    requires WellFormed(s) && s.pc.Made? && s.linked
    ensures s.unlinking == {} <==> forall ss: seq<Bell>, as_: seq<Step> ::
              IsRun(ss, as_) && ss[0] == s && as_ != [] && as_[0] == OpenFifo ==> NeverLoses(ss)
  {
    if s.unlinking == {} {
      forall ss: seq<Bell>, as_: seq<Step> | IsRun(ss, as_) && ss[0] == s && as_ != [] && as_[0] == OpenFifo
        ensures NeverLoses(ss)
      {
        forall n | 0 < n < |ss| {
          NoWakeupLost(ss, as_, 0, n);
        }
      }
    } else {
      var ss, as_ := UnlinkAfterOpenLosesAWakeup(s);
    }
  }

  lemma UnlinkAfterOpenLosesAWakeup(s: Bell) returns (ss: seq<Bell>, as_: seq<Step>)
    requires WellFormed(s) && s.pc.Made? && s.linked && s.unlinking != {}
    ensures IsRun(ss, as_) && ss[0] == s && as_ != [] && as_[0] == OpenFifo && !NeverLoses(ss)
  {
    var p :| p in s.unlinking;
    var s1 := Do(s, OpenFifo);
    UnlinkedLoses(Do(s1, Unlink(p)));
    LosesBefore(s1, Unlink(p));
    var ss1: seq<Bell>, as1: seq<Step> :| IsRun(ss1, as1) && ss1[0] == s1 && !NoLostWakeup(ss1[|as1|]);
    ss, as_ := [s] + ss1, [OpenFifo] + as1;
    assert ss[|as_|] == ss1[|as1|];
    assert forall i :: 0 < i < |as_| ==> as_[i] == as1[i - 1] && ss[i] == ss1[i - 1] && ss[i + 1] == ss1[i];
  }

  // ---------------------------------------------------------------- a lost wake-up costs one timeout

  predicate IsProducers(a: Step) {
    a.Append? || a.Scan? || a.RingOpen? || a.Unlink?
  }

  lemma {:induction false} ReadingStays(ss: seq<Bell>, as_: seq<Step>, n: nat)
    requires IsRun(ss, as_) && n < |ss| && ss[0].pc.Reading? && forall i :: 0 <= i < n ==> IsProducers(as_[i])
    ensures ss[n].pc.Reading? && ss[n].lines >= ss[0].lines
  {
    if n > 0 {
      ReadingStays(ss, as_, n - 1);
      assert Enabled(ss[n - 1], as_[n - 1]) && ss[n] == Do(ss[n - 1], as_[n - 1]);
    }
  }

  /** A follower that waits with no byte in its pipe can always time out, linked or not; and its next read, whatever the
      producers do meanwhile, delivers every line that is in the log by then. */
  lemma TimeoutDelivers(s: Bell, ss: seq<Bell>, as_: seq<Step>, n: nat)
    requires WellFormed(s) && s.pc.Waiting? && s.pipe == 0
    requires IsRun(ss, as_) && n < |ss| && ss[0] == Do(s, Timeout) && forall i :: 0 <= i < n ==> IsProducers(as_[i])
    ensures Enabled(s, Timeout) && Enabled(ss[n], Read) && ss[n].lines >= s.lines
    ensures Do(ss[n], Read).got == ss[n].lines
  {
    ReadingStays(ss, as_, n);
    RunWellFormed(ss, as_, n);
  }

  // ---------------------------------------------------------------- delivery in bounded time

  /** How many steps of its own the follower is from having delivered everything. */
  function Distance(s: Bell): nat
    requires WellFormed(s) && IsOpen(s)
  {
    match s.pc
    case Reading => if s.got < s.lines then 1 else 0
    case Draining => if s.got < s.lines then (s.pipe + CHUNK - 1) / CHUNK + 2 else 0
    case _ => if s.got < s.lines then (s.pipe + CHUNK - 1) / CHUNK + 3 else 0
  }

  /** With every ring rung, a reliable follower is never stuck before it has delivered everything: it has a
      step, the step brings it closer, and the distance is never more than 19. */
  lemma DeliversSoon(s: Bell)
    requires WellFormed(s) && Reliable(s) && NoLostWakeup(s) && s.owing == {} && s.scanned == {} && s.got < s.lines
    ensures s.pc.Waiting? ==> s.pipe > 0
    ensures Enabled(s, Solo(s))
    ensures Distance(Do(s, Solo(s))) < Distance(s) <= 19
    ensures Do(s, Solo(s)).got == s.got || Do(s, Solo(s)).got == s.lines
  {
    if s.pc.Draining? && s.pipe > 0 {
      Chunks(s.pipe);
    }
  }

  lemma Chunks(n: nat)
    requires 0 < n <= CAPACITY
    ensures ((if n < CHUNK then 0 else n - CHUNK) + CHUNK - 1) / CHUNK < (n + CHUNK - 1) / CHUNK <= 16
  {
  }

  /** Emptying a pipe: it is read chunk by chunk until it would block, so a burst of rings costs one wake. */
  method Drain(bytes: nat) returns (count: nat)
    ensures count == (bytes + 4095) / 4096
  {
    var left := bytes;
    count := 0;
    while left > 0
      invariant left == (if count * CHUNK < bytes then bytes - count * CHUNK else 0)
      invariant count == 0 || (count - 1) * CHUNK < bytes
    {
      left := if left < CHUNK then 0 else left - CHUNK;
      count := count + 1;
    }
  }
}
