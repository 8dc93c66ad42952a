/** The reversible soft brake on `memory.high` of serve's own cgroup leaf: engaged in the middle of a round
    under sustained pressure, released after sustained calm, and undone on every way out of the round. */
module Brake {
  import opened Wrappers

  const MIN_HIGH: nat := 64 * 1024 * 1024
  const MIN_CURRENT: nat := 128 * 1024 * 1024

  /** The content of a leaf's `memory.high`. */
  datatype High = Max | Bytes(count: nat)

  predicate AtMost(a: High, b: High) {
    b.Max? || (a.Bytes? && a.count <= b.count)
  }

  /** The limit to write, in bytes; `stepPct` is between 0 and 50. */
  function Target(current: nat, stepPct: nat): Option<nat>
    requires stepPct <= 50
  {
    if current < MIN_CURRENT then None
    else
      var t := current * (100 - stepPct) / 100;
      Some(if t < MIN_HIGH then MIN_HIGH else t)
  }

  /** From 128 MiB in use on there is a limit, so with a step of at most one half the 64 MiB floor never matters, and the
      limit written is neither above the memory in use nor below half of it. */
  lemma TargetMeaning(current: nat, stepPct: nat)
    requires stepPct <= 50
    ensures Target(current, stepPct) == if current < 134_217_728 then None else Some(current * (100 - stepPct) / 100)
    ensures current >= 134_217_728 ==> current / 2 <= Target(current, stepPct).value <= current
  {
    assert current * 50 <= current * (100 - stepPct) <= current * 100;
  }

  // ---------------------------------------------------------------- the leaf

  /** What an attempt to engage came to: nothing to do, written, or a failed write. */
  datatype Engagement = Idle | Engaged(previous: High, written: nat) | WriteFailed

  /** What the file system does to one tick: the memory in use (none if unreadable), whether `memory.high`
      can be read, and whether writes to engage and to restore succeed. */
  datatype Files = Files(current: Option<nat>, readable: bool, engageOk: bool, restoreOk: bool)

  function Engaging(high: High, stepPct: nat, f: Files): (r: Engagement)
    requires stepPct <= 50
    ensures r.Engaged? ==> r.previous == high && AtMost(Bytes(r.written), high) && Bytes(r.written) != high
  {
    if f.current.None? || Target(f.current.value, stepPct).None? || !f.readable then Idle
    else
      var target := Target(f.current.value, stepPct).value;
      if high.Bytes? && target >= high.count then Idle
      else if f.engageOk then Engaged(high, target)
      else WriteFailed
  }

  class Leaf {
    var high: High

    constructor (h: High)
      ensures high == h
    {
      high := h;
    }

    method Engage(stepPct: nat, f: Files) returns (r: Engagement)
      requires stepPct <= 50
      modifies this
      ensures r == Engaging(old(high), stepPct, f)
      ensures high == if r.Engaged? then Bytes(r.written) else old(high)
    {
      if f.current.None? {
        return Idle;
      }
      var target := Target(f.current.value, stepPct);
      if target.None? || !f.readable {
        return Idle;
      }
      var previous := high;
      if previous.Bytes? && target.value >= previous.count {
        return Idle;
      }
      if !f.engageOk {
        return WriteFailed;
      }
      high := Bytes(target.value);
      r := Engaged(previous, target.value);
    }

    method Restore(previous: High, restoreOk: bool) returns (ok: bool)
      modifies this
      ensures ok == restoreOk
      ensures high == if ok then previous else old(high)
    {
      if restoreOk {
        high := previous;
      }
      ok := restoreOk;
    }
  }

  // ---------------------------------------------------------------- one tick

  /** The round's own memory of the brake. */
  datatype Memo = Memo(
    engaged: bool,
    previous: Option<High>,
    disarmed: bool,
    restoreFailed: bool,
    warning: nat,
    calm: nat)

  /** Where an exception strikes, if one does: before the brake logic, in the event written after a release
      or after an engagement, or behind the brake logic. */
  datatype Fault = Nowhere | Before | OnRelease | OnEngage | After

  /** One mid-round check: whether there was pressure, the armed step (none when the brake is off), what the
      files do, and what fails. */
  datatype Tick = Tick(pressure: bool, stepPct: Option<nat>, files: Files, fault: Fault)

  predicate ValidTick(t: Tick) {
    t.stepPct.Some? ==> t.stepPct.value <= 50
  }

  datatype State = State(high: High, memo: Memo, raised: bool)

  function Counted(m: Memo, t: Tick): Memo {
    if t.pressure then m.(warning := m.warning + 1, calm := 0) else m.(warning := 0, calm := m.calm + 1)
  }

  predicate MayRelease(m: Memo, t: Tick, samples: nat) {
    !t.pressure && m.engaged && m.previous.Some? && !m.restoreFailed && m.calm >= samples
  }

  /** The release: the memo is only brought up to date once the event is written. */
  function Release(s: State, t: Tick, samples: nat): State {
    if !MayRelease(s.memo, t, samples) then s
    else
      var high := if t.files.restoreOk then s.memo.previous.value else s.high;
      if t.fault.OnRelease? then State(high, s.memo, true)
      else if t.files.restoreOk then State(high, s.memo.(engaged := false, previous := None), false)
      else State(high, s.memo.(restoreFailed := true), false)
  }

  predicate MayEngage(m: Memo, t: Tick, samples: nat) {
    t.pressure && t.stepPct.Some? && !m.disarmed && !m.engaged && m.warning >= samples
  }

  /** The engagement: here the memo is up to date before the event is written, except for a failed write. */
  function Engage(s: State, t: Tick, samples: nat): State
    requires ValidTick(t)
  {
    if s.raised || !MayEngage(s.memo, t, samples) then s
    else
      match Engaging(s.high, t.stepPct.value, t.files)
      case Idle => s
      case Engaged(previous, written) =>
        State(Bytes(written), s.memo.(engaged := true, previous := Some(previous)), t.fault.OnEngage?)
      case WriteFailed => if t.fault.OnEngage? then s.(raised := true) else s.(memo := s.memo.(disarmed := true))
  }

  function Ticked(s: State, t: Tick, samples: nat): State
    requires ValidTick(t)
  {
    if s.raised then s
    else if t.fault.Before? then s.(raised := true)
    else
      var s' := Engage(Release(s.(memo := Counted(s.memo, t)), t, samples), t, samples);
      if t.fault.After? then s'.(raised := true) else s'
  }

  predicate ValidTicks(ticks: seq<Tick>) {
    forall i :: 0 <= i < |ticks| ==> ValidTick(ticks[i])
  }

  const FRESH := Memo(false, None, false, false, 0, 0)

  /** The state after `ticks` of a round that found the leaf at `start`. */
  function Run(start: High, ticks: seq<Tick>, samples: nat): State
    requires ValidTicks(ticks)
  {
    if ticks == [] then State(start, FRESH, false)
    else Ticked(Run(start, ticks[..|ticks| - 1], samples), ticks[|ticks| - 1], samples)
  }

  /** What the round leaves in the leaf: on every way out an engaged brake is undone, if the write succeeds. */
  function LeftBy(start: High, ticks: seq<Tick>, exitRestoreOk: bool, samples: nat): High
    requires ValidTicks(ticks)
  {
    var s := Run(start, ticks, samples);
    if s.memo.engaged && s.memo.previous.Some? && exitRestoreOk then s.memo.previous.value else s.high
  }

  /** One check of the round loop. */
  method CheckTick(leaf: Leaf, memo0: Memo, t: Tick, samples: nat) returns (memo: Memo, raised: bool)
    requires ValidTick(t)
    modifies leaf
    ensures State(leaf.high, memo, raised) == Ticked(State(old(leaf.high), memo0, false), t, samples)
  {
    memo, raised := memo0, false;
    if t.fault.Before? {
      return memo, true;
    }
    if t.pressure {
      memo := memo.(warning := memo.warning + 1, calm := 0);
    } else {
      memo := memo.(warning := 0, calm := memo.calm + 1);
      if memo.engaged && memo.previous.Some? && !memo.restoreFailed && memo.calm >= samples {
        var ok := leaf.Restore(memo.previous.value, t.files.restoreOk);
        if t.fault.OnRelease? {
          return memo, true;
        }
        if ok {
          memo := memo.(engaged := false, previous := None);
        } else {
          memo := memo.(restoreFailed := true);
        }
      }
    }
    if t.pressure && t.stepPct.Some? && !memo.disarmed && !memo.engaged && memo.warning >= samples {
      var r := leaf.Engage(t.stepPct.value, t.files);
      if r.Engaged? {
        memo := memo.(engaged := true, previous := Some(r.previous));
      }
      if t.fault.OnEngage? && !r.Idle? {
        return memo, true;
      }
      if r.WriteFailed? {
        memo := memo.(disarmed := true);
      }
    }
    raised := t.fault.After?;
  }

  /** A round from start to its unconditional clean-up. It may end after any number of ticks, by returning or
      by an exception: either way the leaf is back at its starting value, unless it was being held down and
      the last restore failed; and at no tick was it above that value. */
  method SpawnRound(leaf: Leaf, ticks: seq<Tick>, exitRestoreOk: bool, samples: nat)
    returns (seen: seq<High>, heldDown: bool)
    requires ValidTicks(ticks)
    modifies leaf
    ensures forall i :: 0 <= i < |seen| ==> AtMost(seen[i], old(leaf.high))
    ensures leaf.high == LeftBy(old(leaf.high), ticks, exitRestoreOk, samples)
    ensures heldDown <==> Run(old(leaf.high), ticks, samples).high != old(leaf.high)
    ensures leaf.high == old(leaf.high) <==> !heldDown || exitRestoreOk
  {
    var start := leaf.high;
    var memo, raised := FRESH, false;
    seen := [];
    var i := 0;
    assert ticks[..0] == [];
    while i < |ticks| && !raised
      invariant 0 <= i <= |ticks|
      invariant State(leaf.high, memo, raised) == Run(start, ticks[..i], samples)
      invariant Conserved(start, State(leaf.high, memo, raised))
      invariant forall k :: 0 <= k < |seen| ==> AtMost(seen[k], start)
    {
      TickConserves(start, State(leaf.high, memo, raised), ticks[i], samples);
      assert ticks[..i + 1][..i] == ticks[..i];
      memo, raised := CheckTick(leaf, memo, ticks[i], samples);
      seen := seen + [leaf.high];
      i := i + 1;
    }
    RaisedStays(start, ticks, i, samples);
    heldDown := leaf.high != start;
    if memo.engaged && memo.previous.Some? {
      var ok := leaf.Restore(memo.previous.value, exitRestoreOk);
    }
  }

  // ---------------------------------------------------------------- conservation

  /** While engaged the stash is the value the round found; while not, the leaf holds that value; and it is
      never above it. */
  ghost predicate Conserved(start: High, s: State) {
    && AtMost(s.high, start)
    && s.memo.previous == (if s.memo.engaged then Some(start) else None)
    && (!s.memo.engaged ==> s.high == start)
  }

  lemma TickConserves(start: High, s: State, t: Tick, samples: nat)
    requires ValidTick(t) && Conserved(start, s)
    ensures Conserved(start, Ticked(s, t, samples))
  {
    var s1 := s.(memo := Counted(s.memo, t));
    assert Conserved(start, Release(s1, t, samples));
  }

  lemma {:induction false} BrakeConserves(start: High, ticks: seq<Tick>, samples: nat)
    requires ValidTicks(ticks)
    ensures Conserved(start, Run(start, ticks, samples))
  {
    if ticks != [] {
      BrakeConserves(start, ticks[..|ticks| - 1], samples);
      TickConserves(start, Run(start, ticks[..|ticks| - 1], samples), ticks[|ticks| - 1], samples);
    }
  }

  lemma {:induction false} RaisedStays(start: High, ticks: seq<Tick>, i: nat, samples: nat)
    requires ValidTicks(ticks) && i <= |ticks|
    requires i < |ticks| ==> Run(start, ticks[..i], samples).raised
    ensures Run(start, ticks, samples) == Run(start, ticks[..i], samples)
    decreases |ticks| - i
  {
    if i < |ticks| {
      assert ticks[..i + 1][..i] == ticks[..i];
      RaisedStays(start, ticks, i + 1, samples);
    } else {
      assert ticks[..i] == ticks;
    }
  }

  /** What a round leaves behind is its starting value exactly when the leaf was there anyway or the last
      restore worked; and it is never above it. */
  lemma RoundLeaves(start: High, ticks: seq<Tick>, exitRestoreOk: bool, samples: nat)
    requires ValidTicks(ticks)
    ensures AtMost(LeftBy(start, ticks, exitRestoreOk, samples), start)
    ensures (LeftBy(start, ticks, exitRestoreOk, samples) == start)
            <==> (Run(start, ticks, samples).high == start || exitRestoreOk)
  {
    BrakeConserves(start, ticks, samples);
  }

  // ---------------------------------------------------------------- hysteresis

  predicate AllPressure(ticks: seq<Tick>, from: int, pressure: bool) {
    forall k :: 0 <= k < |ticks| && from <= k ==> ticks[k].pressure == pressure
  }

  /** In a round that has not raised, the streaks count the unbroken run of like samples up to now, and an
      engaged brake that can still be released has seen fewer calm samples in a row than it takes. */
  lemma {:induction false} StreaksCount(start: High, ticks: seq<Tick>, samples: nat)
    requires ValidTicks(ticks) && !Run(start, ticks, samples).raised
    ensures Counts(ticks, Run(start, ticks, samples).memo)
    ensures Prompt(Run(start, ticks, samples).memo, samples)
  {
    if ticks != [] {
      var front, t := ticks[..|ticks| - 1], ticks[|ticks| - 1];
      var s := Run(start, front, samples);
      StreaksCount(start, front, samples);
      BrakeConserves(start, front, samples);
      CountsMore(front, s.memo, t);
      assert front + [t] == ticks;
      TickCounts(start, s, t, samples);
    }
  }

  predicate Counts(ticks: seq<Tick>, m: Memo) {
    && m.warning <= |ticks| && AllPressure(ticks, |ticks| - m.warning, true)
    && m.calm <= |ticks| && AllPressure(ticks, |ticks| - m.calm, false)
    && (m.warning == 0 || m.calm == 0)
    && (m.warning + m.calm == 0 ==> ticks == [])
    && (0 < m.warning < |ticks| ==> !ticks[|ticks| - m.warning - 1].pressure)
    && (0 < m.calm < |ticks| ==> ticks[|ticks| - m.calm - 1].pressure)
  }

  /** A brake that can still be released has not seen enough calm for it. */
  predicate Prompt(m: Memo, samples: nat) {
    samples > 0 && m.engaged && !m.restoreFailed ==> m.calm < samples
  }

  lemma CountsMore(ticks: seq<Tick>, m: Memo, t: Tick)
    requires Counts(ticks, m)
    ensures Counts(ticks + [t], Counted(m, t))
  {
  }

  lemma TickCounts(start: High, s: State, t: Tick, samples: nat)
    requires ValidTick(t) && !Ticked(s, t, samples).raised && Conserved(start, s) && Prompt(s.memo, samples)
    ensures var m, m' := Counted(s.memo, t), Ticked(s, t, samples).memo;
            m'.warning == m.warning && m'.calm == m.calm && Prompt(m', samples)
  {
  }

  /** The brake changes hands only on sustained evidence: it engages at a tick that ends `samples` readings
      of pressure in a row, and releases at one that ends as many calm ones. */
  lemma BrakeChangesOnStreaks(start: High, ticks: seq<Tick>, samples: nat)
    requires ValidTicks(ticks) && ticks != [] && !Run(start, ticks, samples).raised
    ensures var before, after := Run(start, ticks[..|ticks| - 1], samples).memo.engaged, Run(start, ticks, samples).memo.engaged;
            && (!before && after ==> samples <= |ticks| && AllPressure(ticks, |ticks| - samples, true))
            && (before && !after ==> samples <= |ticks| && AllPressure(ticks, |ticks| - samples, false))
  {
    StreaksCount(start, ticks, samples);
  }

  /** The last `n` readings of the round were all of this kind. */
  predicate Unbroken(ticks: seq<Tick>, pressure: bool, n: nat) {
    n <= |ticks| && AllPressure(ticks, |ticks| - n, pressure)
  }

  lemma UnbrokenIff(ticks: seq<Tick>, m: Memo, n: nat)
    requires Counts(ticks, m) && n > 0
    ensures Unbroken(ticks, true, n) <==> m.warning >= n
    ensures Unbroken(ticks, false, n) <==> m.calm >= n
  {
    if m.warning < n <= |ticks| {
      assert !ticks[if m.warning == 0 then |ticks| - 1 else |ticks| - m.warning - 1].pressure;
    }
    if m.calm < n <= |ticks| {
      assert ticks[if m.calm == 0 then |ticks| - 1 else |ticks| - m.calm - 1].pressure;
    }
  }

  /** There is a limit to write that lies below the one in force, and writing it works. */
  predicate CanLower(high: High, stepPct: nat, f: Files) {
    && f.current.Some?
    && f.current.value >= 134_217_728
    && f.readable
    && (high.Bytes? ==> f.current.value * (100 - stepPct) / 100 < high.count)
  }

  lemma EngagingIff(high: High, stepPct: nat, f: Files)
    requires stepPct <= 50
    ensures var r := Engaging(high, stepPct, f);
            && (r.Idle? <==> !CanLower(high, stepPct, f))
            && (r.WriteFailed? <==> CanLower(high, stepPct, f) && !f.engageOk)
            && (r.Engaged? ==> r.previous == high && r.written == f.current.value * (100 - stepPct) / 100)
  {
    if f.current.Some? {
      TargetMeaning(f.current.value, stepPct);
    }
  }

  /** The attempt to engage at tick `t` of a round that is in state `s`, behind the readings up to `t`. */
  predicate Tries(s: State, ticks: seq<Tick>, t: Tick, samples: nat) {
    !s.memo.engaged && !s.memo.disarmed && t.stepPct.Some? && Unbroken(ticks, true, samples) && CanLower(s.high, t.stepPct.value, t.files)
  }

  predicate Releases(s: State, ticks: seq<Tick>, samples: nat) {
    s.memo.engaged && !s.memo.restoreFailed && Unbroken(ticks, false, samples)
  }

  /** What the last of `ticks` made of state `s`: an armed brake lowers the limit after `samples` readings of pressure in a
      row, or is disarmed by a failed write; after as many calm ones it puts back what the round found, or keeps hold for
      good after a failed write; and nothing else changes the leaf or the latches. */
  predicate TickMade(start: High, s: State, ticks: seq<Tick>, samples: nat, s': State)
    requires ticks != [] && ValidTick(ticks[|ticks| - 1])
  {
    var t := ticks[|ticks| - 1];
    var tries, releases := Tries(s, ticks, t, samples), Releases(s, ticks, samples);
    && s'.high == (if tries && t.files.engageOk then Bytes(t.files.current.value * (100 - t.stepPct.value) / 100)
                   else if releases && t.files.restoreOk then start
                   else s.high)
    && (s'.memo.engaged <==> if s.memo.engaged then !(releases && t.files.restoreOk) else tries && t.files.engageOk)
    && (s'.memo.disarmed <==> s.memo.disarmed || (tries && !t.files.engageOk))
    && (s'.memo.restoreFailed <==> s.memo.restoreFailed || (releases && !t.files.restoreOk))
  }

  /** Every check of a round that raises nothing. */
  lemma TickMeans(start: High, ticks: seq<Tick>, samples: nat)
    requires ValidTicks(ticks) && ticks != [] && samples > 0 && !Run(start, ticks, samples).raised
    ensures TickMade(start, Run(start, ticks[..|ticks| - 1], samples), ticks, samples, Run(start, ticks, samples))
  {
    var front, t := ticks[..|ticks| - 1], ticks[|ticks| - 1];
    var s := Run(start, front, samples);
    assert ticks == front + [t];
    StreaksCount(start, front, samples);
    BrakeConserves(start, front, samples);
    CountsMore(front, s.memo, t);
    UnbrokenIff(ticks, Counted(s.memo, t), samples);
    TickIs(start, s, ticks, samples, Ticked(s, t, samples));
  }

  lemma TickIs(start: High, s: State, ticks: seq<Tick>, samples: nat, s': State)
    requires ticks != [] && ValidTick(ticks[|ticks| - 1]) && samples > 0
    requires s' == Ticked(s, ticks[|ticks| - 1], samples) && !s'.raised && Conserved(start, s)
    requires Unbroken(ticks, true, samples) <==> Counted(s.memo, ticks[|ticks| - 1]).warning >= samples
    requires Unbroken(ticks, false, samples) <==> Counted(s.memo, ticks[|ticks| - 1]).calm >= samples
    ensures TickMade(start, s, ticks, samples, s')
  {
    var t := ticks[|ticks| - 1];
    if t.stepPct.Some? {
      EngagingIff(s.high, t.stepPct.value, t.files);
    }
  }

  // ---------------------------------------------------------------- a run of rounds

  datatype Round = Round(ticks: seq<Tick>, exitRestoreOk: bool)

  predicate ValidRounds(rounds: seq<Round>) {
    forall i :: 0 <= i < |rounds| ==> ValidTicks(rounds[i].ticks)
  }

  /** The leaf after a run of rounds: each finds what the one before left, and none remembers more. */
  function Serve(start: High, rounds: seq<Round>, samples: nat): High
    requires ValidRounds(rounds)
  {
    if rounds == [] then start
    else
      var r := rounds[|rounds| - 1];
      LeftBy(Serve(start, rounds[..|rounds| - 1], samples), r.ticks, r.exitRestoreOk, samples)
  }

  /** Later rounds never loosen what earlier ones left. */
  lemma {:induction false} ServeOnlyTightens(start: High, rounds: seq<Round>, k: nat, samples: nat)
    requires ValidRounds(rounds) && k <= |rounds|
    ensures AtMost(Serve(start, rounds, samples), Serve(start, rounds[..k], samples))
  {
    if k < |rounds| {
      var front, r := rounds[..|rounds| - 1], rounds[|rounds| - 1];
      assert front[..k] == rounds[..k];
      ServeOnlyTightens(start, front, k, samples);
      RoundLeaves(Serve(start, front, samples), r.ticks, r.exitRestoreOk, samples);
    } else {
      assert rounds[..k] == rounds;
    }
  }

  /** Round `k` left the leaf as it found it. */
  ghost predicate Undone(start: High, rounds: seq<Round>, k: nat, samples: nat)
    requires ValidRounds(rounds) && k < |rounds|
  {
    var found := Serve(start, rounds[..k], samples);
    Run(found, rounds[k].ticks, samples).high == found || rounds[k].exitRestoreOk
  }

  ghost predicate AllUndone(start: High, rounds: seq<Round>, samples: nat)
    requires ValidRounds(rounds)
  {
    forall k :: 0 <= k < |rounds| ==> Undone(start, rounds, k, samples)
  }

  /** A failed last restore is for good: over any run of rounds the leaf is back at its first value exactly
      when every single round undid its own brake. No later round, and not the end of serve, makes up for
      one that did not. */
  lemma {:induction false} FailedRestoreIsForGood(start: High, rounds: seq<Round>, samples: nat)
    requires ValidRounds(rounds)
    ensures Serve(start, rounds, samples) == start <==> AllUndone(start, rounds, samples)
  {
    if rounds != [] {
      var n := |rounds| - 1;
      var front := rounds[..n];
      FailedRestoreIsForGood(start, front, samples);
      FrontUndone(start, rounds, samples);
      RoundLeaves(Serve(start, front, samples), rounds[n].ticks, rounds[n].exitRestoreOk, samples);
      ServeOnlyTightens(start, front, 0, samples);
      assert front[..0] == [];
    }
  }

  lemma FrontUndone(start: High, rounds: seq<Round>, samples: nat)
    requires ValidRounds(rounds) && rounds != []
    ensures AllUndone(start, rounds, samples)
            <==> (AllUndone(start, rounds[..|rounds| - 1], samples) && Undone(start, rounds, |rounds| - 1, samples))
  {
    var front := rounds[..|rounds| - 1];
    forall k | 0 <= k < |rounds| - 1
      ensures Undone(start, front, k, samples) == Undone(start, rounds, k, samples)
    {
      assert front[..k] == rounds[..k];
    }
  }

  /** It does happen: one round under pressure whose last restore fails leaves half a gigabyte of limit behind
      that no later rounds lift, even with every write succeeding. */
  lemma StuckBrake(later: seq<Round>)
    requires ValidRounds(later)
    ensures var squeeze := Tick(true, Some(50), Files(Some(1024 * 1024 * 1024), true, true, true), Nowhere);
            var stuck := Round([squeeze], false);
            ValidRounds([stuck] + later) && AtMost(Serve(Max, [stuck] + later, 1), Bytes(512 * 1024 * 1024))
  {
    var squeeze := Tick(true, Some(50), Files(Some(1024 * 1024 * 1024), true, true, true), Nowhere);
    var stuck := Round([squeeze], false);
    var all := [stuck] + later;
    assert squeeze.fault != Before;
    assert [squeeze][..0] == [] && [stuck][..0] == [];
    assert Run(Max, [squeeze], 1).high == Bytes(512 * 1024 * 1024);
    assert Serve(Max, [stuck], 1) == Bytes(512 * 1024 * 1024);
    assert all[..1] == [stuck];
    ServeOnlyTightens(Max, all, 1, 1);
  }
}
