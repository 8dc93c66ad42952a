/** The hard floor of a round: what each mid-round memory check does about critical pressure. */
module HardFloor {
  datatype Severity = Calm | Warning | Critical

  /** `samples` readings in a row make critical pressure sustained; the configuration demands one or more. */
  datatype Floor = Floor(terminate: bool, nudge: bool, samples: nat, deferToCgroup: bool)

  datatype Verdict = Terminate | Defer | CountOnly | Nudge

  /** What one check does: whether it logs a critical sample, and what it does to the round. */
  datatype Act = Act(logged: bool, deed: Deed)

  datatype Deed = Nothing | Nudged | Deferred | Terminated

  function MidRoundAction(cfg: Floor, criticalStreak: nat, nudged: bool): Verdict {
    if cfg.terminate && criticalStreak >= cfg.samples then
      if cfg.deferToCgroup then Defer else Terminate
    else if cfg.nudge && !nudged && criticalStreak == 1 && cfg.terminate && !cfg.deferToCgroup then Nudge
    else CountOnly
  }

  // ---------------------------------------------------------------- what the log of readings says

  /** Readings `i..k`, both included, are all critical. */
  predicate AllCritical(ticks: seq<Severity>, i: int, k: int) {
    forall j :: 0 <= j < |ticks| && i <= j <= k ==> ticks[j].Critical?
  }

  /** Critical readings in a row up to reading `k`. */
  function CriticalRun(ticks: seq<Severity>, k: nat): nat
    requires k < |ticks|
  {
    if !ticks[k].Critical? then 0 else if k == 0 then 1 else CriticalRun(ticks, k - 1) + 1
  }

  lemma {:induction false} CriticalRunMeans(ticks: seq<Severity>, k: nat)
    requires k < |ticks|
    ensures CriticalRun(ticks, k) <= k + 1
    ensures AllCritical(ticks, k + 1 - CriticalRun(ticks, k), k)
    ensures CriticalRun(ticks, k) <= k ==> !ticks[k - CriticalRun(ticks, k)].Critical?
  {
    if k > 0 && ticks[k].Critical? {
      CriticalRunMeans(ticks, k - 1);
    }
  }

  /** The last `n` readings up to `k` are all critical. */
  predicate Sustained(ticks: seq<Severity>, k: int, n: nat) {
    n <= k + 1 && AllCritical(ticks, k + 1 - n, k)
  }

  lemma SustainedIff(ticks: seq<Severity>, k: nat, n: nat)
    requires k < |ticks| && n > 0
    ensures Sustained(ticks, k, n) <==> CriticalRun(ticks, k) >= n
  {
    CriticalRunMeans(ticks, k);
    if CriticalRun(ticks, k) < n <= k + 1 {
      var j := k - CriticalRun(ticks, k);
      assert !ticks[j].Critical?;
    }
  }

  predicate Kills(cfg: Floor, ticks: seq<Severity>, k: nat)
    requires k < |ticks|
  {
    cfg.terminate && !cfg.deferToCgroup && Sustained(ticks, k, cfg.samples)
  }

  predicate FirstCritical(ticks: seq<Severity>, k: nat)
    requires k < |ticks|
  {
    ticks[k].Critical? && forall j :: 0 <= j < k ==> !ticks[j].Critical?
  }

  /** What check `k` must do, read off the readings alone: kill the round when critical pressure is sustained;
      if the kernel's own limit is to contain it, say so once, when it becomes sustained; nudge the round at
      its first critical reading, if it would be killed for more of them; and log no more than the first
      `2 * samples` readings of each critical stretch. */
  function Due(cfg: Floor, ticks: seq<Severity>, k: nat): Act
    requires k < |ticks|
  {
    Act(1 <= CriticalRun(ticks, k) <= 2 * cfg.samples,
        if Kills(cfg, ticks, k) then Terminated
        else if cfg.terminate && cfg.deferToCgroup && CriticalRun(ticks, k) == cfg.samples then Deferred
        else if cfg.terminate && !cfg.deferToCgroup && cfg.nudge && FirstCritical(ticks, k) then Nudged
        else Nothing)
  }

  /** The checks of one round: each does what is due, and the round is killed at the first that says so. */
  method Watch(cfg: Floor, ticks: seq<Severity>) returns (acts: seq<Act>)
    requires cfg.samples > 0
    ensures |acts| <= |ticks|
    ensures forall k :: 0 <= k < |acts| ==> acts[k] == Due(cfg, ticks, k)
    ensures forall k :: 0 <= k < |acts| - 1 ==> !Kills(cfg, ticks, k)
    ensures |acts| < |ticks| ==> acts != [] && Kills(cfg, ticks, |acts| - 1)
  {
    acts := [];
    var streak, nudged, notified := 0, false, false;
    for k := 0 to |ticks|
      invariant |acts| == k
      invariant forall i :: 0 <= i < k ==> acts[i] == Due(cfg, ticks, i)
      invariant forall i :: 0 <= i < k ==> !Kills(cfg, ticks, i)
      invariant streak == if k == 0 then 0 else CriticalRun(ticks, k - 1)
      invariant cfg.terminate && !cfg.deferToCgroup && cfg.nudge && !nudged ==> forall i :: 0 <= i < k ==> !ticks[i].Critical?
      invariant nudged ==> exists i :: 0 <= i < k && ticks[i].Critical?
      invariant cfg.terminate && cfg.deferToCgroup ==> (notified <==> streak >= cfg.samples)
      invariant !notified || (cfg.terminate && cfg.deferToCgroup)
    {
      SustainedIff(ticks, k, cfg.samples);
      var act := Act(false, Nothing);
      if ticks[k].Critical? {
        streak := streak + 1;
        act := act.(logged := streak <= 2 * cfg.samples);
        match MidRoundAction(cfg, streak, nudged)
        case Nudge =>
          nudged := true;
          act := act.(deed := Nudged);
        case Terminate =>
          act := act.(deed := Terminated);
          return acts + [act];
        case Defer =>
          if !notified {
            act := act.(deed := Deferred);
            notified := true;
          }
        case CountOnly =>
      } else {
        streak := 0;
        notified := false;
      }
      acts := acts + [act];
    }
  }

  // ---------------------------------------------------------------- what that means for a round

  /** Each deed in terms of the readings: a stretch is announced as deferred at the reading that makes it sustained and at
      no other, and of each stretch the first `2 * samples` readings are logged and no more. */
  lemma DueMeans(cfg: Floor, ticks: seq<Severity>, k: nat)
    requires k < |ticks| && cfg.samples > 0
    ensures var act, defers := Due(cfg, ticks, k), cfg.terminate && cfg.deferToCgroup;
            && (act.logged <==> ticks[k].Critical? && !Sustained(ticks, k, 2 * cfg.samples + 1))
            && (act.deed.Deferred? <==> defers && Sustained(ticks, k, cfg.samples) && !Sustained(ticks, k, cfg.samples + 1))
            && (act.deed.Terminated? <==> cfg.terminate && !cfg.deferToCgroup && Sustained(ticks, k, cfg.samples))
            && (act.deed.Nudged? <==> cfg.nudge && cfg.terminate && !cfg.deferToCgroup && !act.deed.Terminated? && FirstCritical(ticks, k))
  {
    SustainedIff(ticks, k, 1);
    SustainedIff(ticks, k, cfg.samples);
    SustainedIff(ticks, k, cfg.samples + 1);
    SustainedIff(ticks, k, 2 * cfg.samples + 1);
  }

  /** Where the kernel's limit is to contain it, every sustained stretch has been announced by the time it is sustained. */
  lemma {:induction false} StretchIsAnnounced(cfg: Floor, ticks: seq<Severity>, k: nat)
    requires k < |ticks| && cfg.samples > 0 && cfg.terminate && cfg.deferToCgroup && Sustained(ticks, k, cfg.samples)
    ensures exists i :: 0 <= i <= k && AllCritical(ticks, i, k) && Due(cfg, ticks, i).deed.Deferred?
  {
    DueMeans(cfg, ticks, k);
    if Sustained(ticks, k, cfg.samples + 1) {
      assert ticks[k].Critical?;
      StretchIsAnnounced(cfg, ticks, k - 1);
    }
  }

  /** A round gets at most one nudge, and never one when it is due for termination there and then. */
  lemma OneNudge(cfg: Floor, ticks: seq<Severity>, i: nat, j: nat)
    requires i < j < |ticks| && Due(cfg, ticks, i).deed.Nudged?
    ensures !Due(cfg, ticks, j).deed.Nudged?
  {
  }

  /** A round that can be nudged is nudged before it is killed, `samples - 1` checks or more ahead of it. */
  lemma NudgeComesFirst(cfg: Floor, ticks: seq<Severity>, k: nat)
    requires k < |ticks| && cfg.nudge && cfg.samples > 1
    requires Due(cfg, ticks, k).deed.Terminated? && forall i :: 0 <= i < k ==> !Kills(cfg, ticks, i)
    ensures exists i :: 0 <= i && i + cfg.samples <= k + 1 && Due(cfg, ticks, i).deed.Nudged?
  {
    var i := EarliestCritical(ticks, k + 1 - cfg.samples);
    assert Due(cfg, ticks, i).deed.Nudged?;
  }

  lemma EarliestCritical(ticks: seq<Severity>, k: nat) returns (i: nat)
    requires k < |ticks| && ticks[k].Critical?
    ensures i <= k && FirstCritical(ticks, i)
  {
    i := 0;
    while !ticks[i].Critical?
      invariant i <= k && forall j :: 0 <= j < i ==> !ticks[j].Critical?
      decreases k - i
    {
      i := i + 1;
    }
  }

  /** One notice per stretch: between two notices of deferral there was a reading that was not critical. */
  lemma OneNoticePerStretch(cfg: Floor, ticks: seq<Severity>, i: nat, j: nat)
    requires i < j < |ticks| && cfg.samples > 0
    requires Due(cfg, ticks, i).deed.Deferred? && Due(cfg, ticks, j).deed.Deferred?
    ensures exists m :: i < m < j && !ticks[m].Critical?
  {
    CriticalRunMeans(ticks, j);
    RunGrows(ticks, i, j);
    assert ticks[j].Critical?;
    assert !AllCritical(ticks, i + 1, j);
  }

  /** Across critical readings the run only grows. */
  lemma {:induction false} RunGrows(ticks: seq<Severity>, i: nat, j: nat)
    requires i <= j < |ticks|
    ensures AllCritical(ticks, i + 1, j) ==> CriticalRun(ticks, j) == CriticalRun(ticks, i) + (j - i)
  {
    if i < j && AllCritical(ticks, i + 1, j) {
      RunGrows(ticks, i, j - 1);
    }
  }
}
