/** The one scan of the log after each round: the fused fold feeds the throttle check, the back-off exponents come
    from it, and a round killed for memory is excused without looking further. */
module RoundScan {
  import opened Wrappers
  import opened Throttle
  import opened RoundOutcome
  import ServePolicy

  /** The agent that ran is throttled, or, if it is not known which one ran, any agent is. */
  ghost predicate AgentThrottled(es: seq<Event>, ranAgent: Option<string>, now: real) {
    if ranAgent.Some? then IsActive(es, ranAgent.value, now) else exists a :: IsActive(es, a, now)
  }

  /** The active map from the fold's results; an exponent the fold does not hold is scanned for. */
  method ActiveFromFold(es: seq<Event>, o: Outcome, now: real) returns (active: set<string>)
    requires IsLatestMap(o.latest, es)
    requires forall a :: Lookup(o.exponentBy, a, 0) == Less1(Detections(es, a, UNKNOWN))
    ensures AgentsNamed(es) ==> forall a :: a in active <==> IsActive(es, a, now)
    ensures forall a :: a != UNKNOWN && a != "" ==> (a in active <==> IsActive(es, a, now))
  {
    active := {};
    var todo := o.latest.Keys;
    while todo != {}
      invariant todo <= o.latest.Keys
      invariant forall a :: a in active ==> a in o.latest.Keys - todo
      invariant forall a :: (AgentsNamed(es) || (a != UNKNOWN && a != "")) && a in o.latest.Keys - todo ==>
                  (a in active <==> IsActive(es, a, now))
    {
      var a :| a in todo;
      todo := todo - {a};
      if o.latest[a].Some? {
        var e := o.latest[a].value;
        var exponent;
        if a in o.exponentBy {
          exponent := o.exponentBy[a];
        } else {
          exponent := BackoffExponent(es, a);
        }
        if AgentsNamed(es) || (a != UNKNOWN && a != "") {
          FoldAgreesWithScan(es, a);
        }
        var classification := e.classification.GetOr("rate_limit_account");
        if ExtendReset(classification, CoerceEpoch(e.resetAt, now), exponent) as real > now {
          active := active + {a};
        }
      }
    }
  }

  /** The verdicts on the round that ran, off one scan: it is excused exactly when it was killed for memory or its
      agent is throttled as the separate scans would say. */
  method ScanRound(es: seq<Event>, ranAgent: Option<string>, now: real) returns (throttled: bool, o: Outcome)
    ensures o.memTerminated == KilledSinceStart(NewestStamp(es, Killed), NewestStamp(es, Began))
    ensures o.memTerminated <==> KilledByLog(es)
    ensures AgentsNamed(es) ==> (throttled <==> o.memTerminated || AgentThrottled(es, ranAgent, now))
    ensures o.memTerminated ==> throttled
  {
    o := FoldRound(es, ranAgent);
    if o.memTerminated {
      return true, o;
    }
    var active := ActiveFromFold(es, o, now);
    if ranAgent.None? {
      return active != {}, o;
    }
    return ranAgent.value in active, o;
  }

  /** The round the breakers see, off the same scan: so a round killed for memory is always excused from the other
      two breakers, whatever its exit code and however short it was. */
  method FinishRound(es: seq<Event>, ranAgent: Option<string>, now: real, returncode: int, durationS: real)
    returns (r: ServePolicy.Round)
    ensures r.memTerminated <==> KilledByLog(es)
    ensures r.returncode == returncode && r.durationS == durationS
    ensures AgentsNamed(es) ==> (ServePolicy.Throttled(r) <==> r.memTerminated || AgentThrottled(es, ranAgent, now))
    ensures ServePolicy.NoProgress(r) <==>
              !ServePolicy.Throttled(r) && returncode == 0 && durationS < 30.0 && NoUsage(es, ranAgent)
    ensures r.memTerminated ==> !ServePolicy.Meets(r, ServePolicy.Crash) && !ServePolicy.Meets(r, ServePolicy.NoWork)
  {
    var throttled, o := ScanRound(es, ranAgent, now);
    var idle := RoundHadNoProgress(returncode, durationS, ServePolicy.NO_PROGRESS_SHORT_S, throttled, es, ranAgent);
    r := ServePolicy.Round(returncode, durationS, o.memTerminated, throttled, idle);
  }
}
