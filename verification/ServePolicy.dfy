/** What serve does after each round: restart it after a delay, or give up. Three breakers watch the same
    stream of rounds; a permanent configuration failure stops serve at once. */
module ServePolicy {
  import opened Wrappers

  const PERMANENT_CONFIG_EXIT := 78
  const CRASH_LOOP_EXIT := 75
  const ENV_BATTERY_EXIT := 76
  const MEM_LOOP_EXIT := 71
  const MEM_LOOP_PERSISTENT_EXIT := 70
  const THRESHOLD := 5
  const SHORT_EXIT_S := 60.0
  const NO_PROGRESS_SHORT_S := 30.0
  const MAX_DELAY_S: nat := 1800
  const PERSIST_THRESHOLD := 3

  /** One finished round. `agentThrottled` is what the throttle scan says, `noUsage` whether an agent known to
      report usage reported none in it. */
  datatype Round = Round(returncode: int, durationS: real, memTerminated: bool, agentThrottled: bool, noUsage: bool)

  /** A round killed for memory is excused like a throttled one. */
  predicate Throttled(r: Round) {
    r.memTerminated || r.agentThrottled
  }

  datatype Exit = ConfigBroken | MemLoop | MemLoopPersistent | CrashLoop | Stalled

  function Code(e: Exit): int {
    match e
    case ConfigBroken => PERMANENT_CONFIG_EXIT
    case MemLoop => MEM_LOOP_EXIT
    case MemLoopPersistent => MEM_LOOP_PERSISTENT_EXIT
    case CrashLoop => CRASH_LOOP_EXIT
    case Stalled => CRASH_LOOP_EXIT
  }

  function Pow2(n: nat): nat {
    if n == 0 then 1 else 2 * Pow2(n - 1)
  }

  function Min(a: nat, b: nat): nat {
    if a < b then a else b
  }

  // ---------------------------------------------------------------- one round at a time

  datatype Action = Broken | Looping | Continue

  /** Restart policy after one round: the action, the delay and the new crash streak. */
  function PostRoundDecision(r: Round, crashes: nat, restartDelayS: nat): (Action, nat, nat) {
    if r.returncode == PERMANENT_CONFIG_EXIT then (Broken, 0, crashes)
    else
      var throttled := Throttled(r) || r.returncode == ENV_BATTERY_EXIT;
      if r.returncode != 0 && r.durationS < SHORT_EXIT_S && !throttled then
        if crashes + 1 >= THRESHOLD then (Looping, 0, crashes + 1)
        else (Continue, Min(restartDelayS * Pow2(crashes + 1), MAX_DELAY_S), crashes + 1)
      else (Continue, if r.returncode == 0 then restartDelayS else restartDelayS * 2, 0)
  }

  /** The generic give-up cap: the new streak, and whether it is due. */
  function StreakDecision(triggered: bool, streak: nat): (bool, nat) {
    if !triggered then (false, 0) else (streak + 1 >= THRESHOLD, streak + 1)
  }

  predicate NoProgress(r: Round) {
    !Throttled(r) && r.returncode == 0 && r.durationS < NO_PROGRESS_SHORT_S && r.noUsage
  }

  datatype Streaks = Streaks(crashes: nat, memTerminations: nat, noProgress: nat)

  /** One round's give-up orchestration; `inWindow` earlier mem-loop stops lie in the persistence window. */
  method PostRoundVerdicts(r: Round, s: Streaks, restartDelayS: nat, inWindow: nat)
    returns (exit: Option<Exit>, delay: nat, s': Streaks)
    ensures s' == Streaks(PostRoundDecision(r, s.crashes, restartDelayS).2,
                          StreakDecision(r.memTerminated, s.memTerminations).1,
                          StreakDecision(NoProgress(r), s.noProgress).1)
    ensures delay == PostRoundDecision(r, s.crashes, restartDelayS).1
    ensures exit == if r.returncode == PERMANENT_CONFIG_EXIT then Some(ConfigBroken)
                    else if r.memTerminated && s'.memTerminations >= THRESHOLD then
                      Some(if inWindow + 1 >= PERSIST_THRESHOLD then MemLoopPersistent else MemLoop)
                    else if s'.crashes >= THRESHOLD && s'.crashes > s.crashes then Some(CrashLoop)
                    else if s'.noProgress >= THRESHOLD then Some(Stalled)
                    else None
  {
    var (action, d, crashes) := PostRoundDecision(r, s.crashes, restartDelayS);
    delay := d;
    var (memLoop, memTerminations) := StreakDecision(r.memTerminated, s.memTerminations);
    var (stalled, noProgress) := StreakDecision(NoProgress(r), s.noProgress);
    s' := Streaks(crashes, memTerminations, noProgress);
    if action.Broken? {
      return Some(ConfigBroken), delay, s';
    }
    if memLoop {
      var occurrence := inWindow + 1;
      if occurrence >= PERSIST_THRESHOLD {
        return Some(MemLoopPersistent), delay, s';
      }
      return Some(MemLoop), delay, s';
    }
    if action.Looping? {
      return Some(CrashLoop), delay, s';
    }
    if stalled {
      return Some(Stalled), delay, s';
    }
    exit := None;
  }

  // ---------------------------------------------------------------- what the stream of rounds says

  datatype Trigger = Crash | MemKill | NoWork

  /** The kind of round a breaker counts. */
  predicate Meets(r: Round, t: Trigger) {
    match t
    case Crash => r.returncode != 0 && r.returncode != ENV_BATTERY_EXIT && r.durationS < SHORT_EXIT_S && !Throttled(r)
    case MemKill => r.memTerminated
    case NoWork => NoProgress(r)
  }

  lemma OneTriggerPerRound(r: Round, t: Trigger, u: Trigger)
    ensures Meets(r, t) && Meets(r, u) ==> t == u
  {
  }

  /** Rounds in a row, up to the `n`-th, that meet the trigger. */
  function RunOf(rounds: seq<Round>, n: nat, t: Trigger): nat
    requires n <= |rounds|
  {
    if n == 0 || !Meets(rounds[n - 1], t) then 0 else RunOf(rounds, n - 1, t) + 1
  }

  predicate AllMeet(rounds: seq<Round>, from: int, to: int, t: Trigger) {
    forall i :: 0 <= i < |rounds| && from <= i < to ==> Meets(rounds[i], t)
  }

  lemma {:induction false} RunMeans(rounds: seq<Round>, n: nat, t: Trigger, m: nat)
    requires n <= |rounds| && m > 0
    ensures RunOf(rounds, n, t) >= m <==> m <= n && AllMeet(rounds, n - m, n, t)
  {
    if n > 0 {
      if m > 1 {
        RunMeans(rounds, n - 1, t, m - 1);
      }
    }
  }

  /** At no point do two breakers count at the same time. */
  lemma OneStreakAtATime(rounds: seq<Round>, n: nat, t: Trigger, u: Trigger)
    requires n <= |rounds| && RunOf(rounds, n, t) > 0 && RunOf(rounds, n, u) > 0
    ensures t == u
  {
    OneTriggerPerRound(rounds[n - 1], t, u);
  }

  /** Serve stops after round `k`: it failed for good, or it is the fifth in a row of one kind. */
  predicate StopsAt(rounds: seq<Round>, k: nat)
    requires k < |rounds|
  {
    || rounds[k].returncode == PERMANENT_CONFIG_EXIT
    || AllMeetLast(rounds, k, Crash) || AllMeetLast(rounds, k, MemKill) || AllMeetLast(rounds, k, NoWork)
  }

  predicate AllMeetLast(rounds: seq<Round>, k: nat, t: Trigger)
    requires k < |rounds|
  {
    THRESHOLD <= k + 1 && AllMeet(rounds, k + 1 - THRESHOLD, k + 1, t)
  }

  function ExitDue(rounds: seq<Round>, k: nat, inWindow: nat): Exit
    requires k < |rounds| && StopsAt(rounds, k)
  {
    if rounds[k].returncode == PERMANENT_CONFIG_EXIT then ConfigBroken
    else if AllMeetLast(rounds, k, MemKill) then
      if inWindow >= PERSIST_THRESHOLD - 1 then MemLoopPersistent else MemLoop
    else if AllMeetLast(rounds, k, Crash) then CrashLoop
    else Stalled
  }

  /** The delay before the next round: doubled with every crash in a row, up to half an hour; flat twice the
      restart delay after any other failure; the restart delay itself after a clean exit. */
  function DelayDue(rounds: seq<Round>, k: nat, restartDelayS: nat): nat
    requires k < |rounds|
  {
    var crashes := RunOf(rounds, k + 1, Crash);
    if crashes > 0 then Min(restartDelayS * Pow2(crashes), MAX_DELAY_S)
    else if rounds[k].returncode == 0 then restartDelayS
    else restartDelayS * 2
  }

  // The three kinds of round, and the stops and delays, in terms of the rounds alone.

  /** A short failure that nothing excuses. */
  predicate Crashed(r: Round) {
    r.returncode != 0 && r.returncode != 76 && r.durationS < 60.0 && !r.memTerminated && !r.agentThrottled
  }

  /** A short clean round that did no work. */
  predicate DidNothing(r: Round) {
    r.returncode == 0 && r.durationS < 30.0 && r.noUsage && !r.memTerminated && !r.agentThrottled
  }

  predicate FiveCrashed(rounds: seq<Round>, k: nat)
    requires k < |rounds|
  {
    k >= 4 && Crashed(rounds[k]) && Crashed(rounds[k - 1]) && Crashed(rounds[k - 2]) && Crashed(rounds[k - 3]) && Crashed(rounds[k - 4])
  }

  predicate FiveDidNothing(rounds: seq<Round>, k: nat)
    requires k < |rounds|
  {
    && k >= 4 && DidNothing(rounds[k]) && DidNothing(rounds[k - 1]) && DidNothing(rounds[k - 2])
    && DidNothing(rounds[k - 3]) && DidNothing(rounds[k - 4])
  }

  predicate FiveKilled(rounds: seq<Round>, k: nat)
    requires k < |rounds|
  {
    && k >= 4 && rounds[k].memTerminated && rounds[k - 1].memTerminated && rounds[k - 2].memTerminated
    && rounds[k - 3].memTerminated && rounds[k - 4].memTerminated
  }

  lemma FiveInARow(rounds: seq<Round>, k: nat)
    requires k < |rounds|
    ensures AllMeetLast(rounds, k, Crash) <==> FiveCrashed(rounds, k)
    ensures AllMeetLast(rounds, k, MemKill) <==> FiveKilled(rounds, k)
    ensures AllMeetLast(rounds, k, NoWork) <==> FiveDidNothing(rounds, k)
  {
  }

  /** The delay after round `k`: the restart delay after a clean exit, twice that after a failure that is excused or not
      short or begins a crash streak, and twice the delay before after each further crash, the last two half an hour
      at most. */
  predicate DelayAfter(rounds: seq<Round>, delays: seq<nat>, k: nat, restartDelayS: nat)
    requires k < |rounds| && k < |delays|
  {
    var twice := 2 * if Crashed(rounds[k]) && k > 0 && Crashed(rounds[k - 1]) then delays[k - 1] else restartDelayS;
    delays[k] == if rounds[k].returncode == 0 then restartDelayS
                 else if !Crashed(rounds[k]) then 2 * restartDelayS
                 else if twice < 1800 then twice else 1800
  }

  lemma DelayMeans(rounds: seq<Round>, delays: seq<nat>, k: nat, restartDelayS: nat)
    requires k < |rounds| && k < |delays|
    requires delays[k] == DelayDue(rounds, k, restartDelayS) && (k > 0 ==> delays[k - 1] == DelayDue(rounds, k - 1, restartDelayS))
    ensures DelayAfter(rounds, delays, k, restartDelayS)
  {
    if Crashed(rounds[k]) {
      var c := if k > 0 then RunOf(rounds, k, Crash) else 0;
      assert RunOf(rounds, k + 1, Crash) == c + 1;
      assert Pow2(c + 1) == 2 * Pow2(c);
      DoubleMin(restartDelayS, Pow2(c));
    }
  }

  lemma DoubleMin(d: nat, p: nat)
    ensures Min(d * (2 * p), MAX_DELAY_S) == Min(2 * Min(d * p, MAX_DELAY_S), MAX_DELAY_S)
  {
    assert d * (2 * p) == 2 * (d * p);
  }

  /** The exit code at round `k`, and that there is one. */
  predicate StopsWith(rounds: seq<Round>, k: nat, inWindow: nat, code: int)
    requires k < |rounds|
  {
    if rounds[k].returncode == 78 then code == 78
    else if FiveKilled(rounds, k) then code == (if inWindow >= 2 then 70 else 71)
    else (FiveCrashed(rounds, k) || FiveDidNothing(rounds, k)) && code == 75
  }

  predicate GoesOn(rounds: seq<Round>, k: nat)
    requires k < |rounds|
  {
    rounds[k].returncode != 78 && !FiveKilled(rounds, k) && !FiveCrashed(rounds, k) && !FiveDidNothing(rounds, k)
  }

  lemma StopMeans(rounds: seq<Round>, k: nat, inWindow: nat)
    requires k < |rounds|
    ensures StopsAt(rounds, k) <==> !GoesOn(rounds, k)
    ensures StopsAt(rounds, k) ==> StopsWith(rounds, k, inWindow, Code(ExitDue(rounds, k, inWindow)))
  {
    FiveInARow(rounds, k);
  }

  lemma ServedMeans(rounds: seq<Round>, delays: seq<nat>, restartDelayS: nat)
    requires |delays| <= |rounds|
    requires forall k :: 0 <= k < |delays| ==> !StopsAt(rounds, k) && delays[k] == DelayDue(rounds, k, restartDelayS)
    ensures forall k :: 0 <= k < |delays| ==> GoesOn(rounds, k) && DelayAfter(rounds, delays, k, restartDelayS)
  {
    forall k | 0 <= k < |delays|
      ensures GoesOn(rounds, k) && DelayAfter(rounds, delays, k, restartDelayS)
    {
      StopMeans(rounds, k, 0);
      DelayMeans(rounds, delays, k, restartDelayS);
    }
  }

  /** The serve loop over the rounds it runs: it goes on, with the delay due, exactly as long as no round calls
      for a stop, and stops at the first that does, for the reason due. */
  method ServeLoop(rounds: seq<Round>, restartDelayS: nat, inWindow: nat)
    returns (delays: seq<nat>, exit: Option<Exit>, streaks: Streaks)
    ensures |delays| <= |rounds|
    ensures forall k :: 0 <= k < |delays| ==> !StopsAt(rounds, k) && delays[k] == DelayDue(rounds, k, restartDelayS)
    ensures forall k :: 0 <= k < |delays| ==> delays[k] <= MaxDelay(restartDelayS)
    ensures exit.Some? ==> |delays| < |rounds| && StopsAt(rounds, |delays|) && exit.value == ExitDue(rounds, |delays|, inWindow)
    ensures exit.None? ==> |delays| == |rounds| && streaks == StreaksAfter(rounds, |rounds|)
    ensures forall k :: 0 <= k < |delays| ==> GoesOn(rounds, k) && DelayAfter(rounds, delays, k, restartDelayS)
    ensures exit.Some? ==> StopsWith(rounds, |delays|, inWindow, Code(exit.value))
  {
    delays, exit, streaks := [], None, Streaks(0, 0, 0);
    for k := 0 to |rounds|
      invariant |delays| == k
      invariant exit.None?
      invariant streaks == StreaksAfter(rounds, k)
      invariant streaks.crashes < THRESHOLD && streaks.memTerminations < THRESHOLD && streaks.noProgress < THRESHOLD
      invariant forall i :: 0 <= i < k ==> !StopsAt(rounds, i) && delays[i] == DelayDue(rounds, i, restartDelayS)
      invariant forall i :: 0 <= i < k ==> delays[i] <= MaxDelay(restartDelayS)
    {
      var delay;
      StopsIff(rounds, k);
      exit, delay, streaks := PostRoundVerdicts(rounds[k], streaks, restartDelayS, inWindow);
      if exit.Some? {
        ServedMeans(rounds, delays, restartDelayS);
        StopMeans(rounds, k, inWindow);
        return;
      }
      DelayBound(rounds, k, restartDelayS);
      delays := delays + [delay];
    }
    ServedMeans(rounds, delays, restartDelayS);
  }

  /** The longest delay there is: half an hour, or twice the restart delay. */
  function MaxDelay(restartDelayS: nat): nat {
    if 2 * restartDelayS > MAX_DELAY_S then 2 * restartDelayS else MAX_DELAY_S
  }

  function StreaksAfter(rounds: seq<Round>, n: nat): Streaks
    requires n <= |rounds|
  {
    Streaks(RunOf(rounds, n, Crash), RunOf(rounds, n, MemKill), RunOf(rounds, n, NoWork))
  }

  lemma StopsIff(rounds: seq<Round>, k: nat)
    requires k < |rounds|
    ensures AllMeetLast(rounds, k, Crash) <==> RunOf(rounds, k + 1, Crash) >= THRESHOLD
    ensures AllMeetLast(rounds, k, MemKill) <==> RunOf(rounds, k + 1, MemKill) >= THRESHOLD
    ensures AllMeetLast(rounds, k, NoWork) <==> RunOf(rounds, k + 1, NoWork) >= THRESHOLD
  {
    RunMeans(rounds, k + 1, Crash, THRESHOLD);
    RunMeans(rounds, k + 1, MemKill, THRESHOLD);
    RunMeans(rounds, k + 1, NoWork, THRESHOLD);
  }

  // ---------------------------------------------------------------- exit codes and delays

  /** What an exit code tells: 78 that the last round failed for good, 75 that five short rounds in a row
      crashed or did no work, 70 or 71 that five in a row were killed for memory. */
  lemma ExitCodeMeans(rounds: seq<Round>, k: nat, inWindow: nat)
    requires k < |rounds| && StopsAt(rounds, k)
    ensures var code, last := Code(ExitDue(rounds, k, inWindow)), rounds[k];
            && (code == 78 <==> last.returncode == 78)
            && (code == 75 <==> last.returncode != 78 && (AllMeetLast(rounds, k, Crash) || AllMeetLast(rounds, k, NoWork)))
            && (code == 70 <==> last.returncode != 78 && AllMeetLast(rounds, k, MemKill) && inWindow >= 2)
            && (code == 71 <==> last.returncode != 78 && AllMeetLast(rounds, k, MemKill) && inWindow < 2)
  {
    assert forall t :: AllMeetLast(rounds, k, t) ==> Meets(rounds[k], t);
  }

  /** A round excused as throttled, environmental or killed for memory ends the crash streak, whatever its
      exit code; so such rounds alone never end in a crash-loop stop. */
  lemma ExcusedRoundsNeverCrashLoop(rounds: seq<Round>, k: nat)
    requires k < |rounds| && (Throttled(rounds[k]) || rounds[k].returncode == ENV_BATTERY_EXIT)
    ensures RunOf(rounds, k + 1, Crash) == 0
    ensures forall j :: k <= j < |rounds| && j < k + THRESHOLD ==> !AllMeetLast(rounds, j, Crash)
  {
    forall j | k <= j < |rounds| && j < k + THRESHOLD
      ensures !AllMeetLast(rounds, j, Crash)
    {
      assert !Meets(rounds[k], Crash);
    }
  }

  lemma DelayBound(rounds: seq<Round>, k: nat, restartDelayS: nat)
    requires k < |rounds|
    ensures DelayDue(rounds, k, restartDelayS) <= MaxDelay(restartDelayS)
  {
  }

  /** Along a crash streak the delay never shrinks. */
  lemma DelayEscalates(rounds: seq<Round>, k: nat, restartDelayS: nat)
    requires k + 1 < |rounds| && RunOf(rounds, k + 1, Crash) > 0 && RunOf(rounds, k + 2, Crash) > 0
    ensures DelayDue(rounds, k, restartDelayS) <= DelayDue(rounds, k + 1, restartDelayS)
  {
    var c := RunOf(rounds, k + 1, Crash);
    assert RunOf(rounds, k + 2, Crash) == c + 1;
    assert restartDelayS * Pow2(c) <= restartDelayS * Pow2(c + 1);
  }
}
