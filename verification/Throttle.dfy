/** Throttle state read back from the event log: which agent is waiting out a transient error, until when, and
    which waits have ended unannounced. Clock readings and resets are in seconds. */
module Throttle {
  import opened Wrappers

  datatype Kind = Detected | Recovered | Usage(success: bool) | SubstrateBefore | MemTerminated | Other

  /** An event of the log; absent fields are `None`, and so is a field that is not of its type. */
  datatype Event = Event(
    kind: Kind,
    agent: Option<string>,
    ts: Option<int>,
    classification: Option<string>,
    resetAt: Option<int>,
    round: Option<int>,
    phase: Option<string>)

  predicate IsTransient(e: Event) {
    e.kind.Detected? || e.kind.Recovered?
  }

  /** The agent an event is booked on; readers differ in what they take for a missing one. */
  function Label(e: Event, missing: string): string {
    e.agent.GetOr(missing)
  }

  const UNKNOWN := "unknown"

  /** An agent's last transient event. */
  function LastTransient(es: seq<Event>, agent: string): Option<Event> {
    if es == [] then None
    else
      var e := es[|es| - 1];
      if IsTransient(e) && Label(e, UNKNOWN) == agent then Some(e) else LastTransient(es[..|es| - 1], agent)
  }

  /** It is the transient event of that agent after which there is none. */
  lemma {:induction false} LastTransientMeans(es: seq<Event>, agent: string)
    ensures LastTransient(es, agent).None? ==> forall i :: 0 <= i < |es| ==> !BookedOn(es[i], agent)
    ensures LastTransient(es, agent).Some? ==> exists i :: 0 <= i < |es| && IsLastFor(es, agent, i) && Some(es[i]) == LastTransient(es, agent)
  {
    if es != [] {
      var front, e := es[..|es| - 1], es[|es| - 1];
      LastTransientMeans(front, agent);
      if IsTransient(e) && Label(e, UNKNOWN) == agent {
        assert IsLastFor(es, agent, |es| - 1);
      } else if LastTransient(es, agent).Some? {
        var i :| 0 <= i < |front| && IsLastFor(front, agent, i) && Some(front[i]) == LastTransient(front, agent);
        assert IsLastFor(es, agent, i);
      }
    }
  }

  /** A detection or a recovery of this agent; one that names none is booked on "unknown". */
  predicate BookedOn(e: Event, agent: string) {
    (e.kind.Detected? || e.kind.Recovered?) && (if e.agent.Some? then e.agent.value else "unknown") == agent
  }

  predicate IsLastFor(es: seq<Event>, agent: string, i: nat)
    requires i < |es|
  {
    BookedOn(es[i], agent) && forall j :: i < j < |es| ==> !BookedOn(es[j], agent)
  }

  /** The map holds, for each agent with a transient event, its last one: the detection, or `None` for a recovery. */
  ghost predicate IsLatestMap(m: map<string, Option<Event>>, es: seq<Event>) {
    && (forall a :: a in m <==> LastTransient(es, a).Some?)
    && (forall a :: a in m ==> m[a] == Unrecovered(es, a))
  }

  function Unrecovered(es: seq<Event>, agent: string): Option<Event> {
    match LastTransient(es, agent)
    case Some(e) => if e.kind.Detected? then Some(e) else None
    case None => None
  }

  /** The agents with a transient event, in the order of their first. */
  function FirstSeen(es: seq<Event>): seq<string> {
    if es == [] then []
    else
      var before, e := FirstSeen(es[..|es| - 1]), es[|es| - 1];
      if IsTransient(e) && Label(e, UNKNOWN) !in before then before + [Label(e, UNKNOWN)] else before
  }

  predicate NoRepeats(agents: seq<string>) {
    forall i, j :: 0 <= i < j < |agents| ==> agents[i] != agents[j]
  }

  lemma {:induction false} FirstSeenMeans(es: seq<Event>)
    ensures NoRepeats(FirstSeen(es)) && forall a :: a in FirstSeen(es) <==> LastTransient(es, a).Some?
  {
    if es != [] {
      FirstSeenMeans(es[..|es| - 1]);
    }
  }

  /** Each agent with a transient event is in the map, with its last one if that is a detection. */
  ghost predicate LatestByLog(m: map<string, Option<Event>>, es: seq<Event>) {
    forall a :: if a in m then exists i: nat :: i < |es| && IsLastFor(es, a, i) && m[a] == (if es[i].kind.Detected? then Some(es[i]) else None)
                else forall i :: 0 <= i < |es| ==> !BookedOn(es[i], a)
  }

  lemma LatestMapByLog(m: map<string, Option<Event>>, es: seq<Event>)
    requires IsLatestMap(m, es)
    ensures LatestByLog(m, es)
  {
    forall a
      ensures if a in m then exists i: nat :: i < |es| && IsLastFor(es, a, i) && m[a] == (if es[i].kind.Detected? then Some(es[i]) else None)
              else forall i :: 0 <= i < |es| ==> !BookedOn(es[i], a)
    {
      LastTransientMeans(es, a);
    }
  }

  /** The latest map, and its keys in the order they came in. */
  method LatestTransientPerAgent(es: seq<Event>) returns (latest: map<string, Option<Event>>, agents: seq<string>)
    ensures IsLatestMap(latest, es) && agents == FirstSeen(es)
  {
    latest, agents := map[], [];
    for i := 0 to |es|
      invariant IsLatestMap(latest, es[..i]) && agents == FirstSeen(es[..i])
    {
      assert es[..i + 1][..i] == es[..i];
      FirstSeenMeans(es[..i]);
      if IsTransient(es[i]) {
        var agent := Label(es[i], UNKNOWN);
        if agent !in latest {
          agents := agents + [agent];
        }
        latest := latest[agent := if es[i].kind.Detected? then Some(es[i]) else None];
      }
    }
    assert es[..|es|] == es;
  }

  // ---------------------------------------------------------------- the back-off ladder

  /** Detections booked on `agent` since its last successful round. */
  function Detections(es: seq<Event>, agent: string, missing: string): nat {
    if es == [] then 0
    else
      var e, before := es[|es| - 1], Detections(es[..|es| - 1], agent, missing);
      if Label(e, missing) != agent then before
      else if e.kind.Detected? then before + 1
      else if e.kind == Usage(true) then 0
      else before
  }

  function Less1(n: nat): nat {
    if n == 0 then 0 else n - 1
  }

  /** A detection booked on `agent` at position `i`. */
  predicate DetectedAt(es: seq<Event>, agent: string, missing: string, i: int) {
    0 <= i < |es| && es[i].kind.Detected? && (if es[i].agent.Some? then es[i].agent.value else missing) == agent
  }

  /** A successful round booked on it. */
  predicate SuccessAt(es: seq<Event>, agent: string, missing: string, i: int) {
    0 <= i < |es| && es[i].kind == Usage(true) && (if es[i].agent.Some? then es[i].agent.value else missing) == agent
  }

  /** The agent's last successful round, if `from` is not 0, is right before position `from`. */
  predicate SuccessBefore(es: seq<Event>, agent: string, missing: string, from: nat) {
    && from <= |es| && (from == 0 || SuccessAt(es, agent, missing, from - 1))
    && forall i :: from <= i < |es| ==> !SuccessAt(es, agent, missing, i)
  }

  /** The positions from `from` on at which a detection stands. */
  function DetectedSince(es: seq<Event>, agent: string, missing: string, from: nat): set<int> {
    set i | from <= i < |es| && DetectedAt(es, agent, missing, i)
  }

  lemma OneMoreDetected(front: seq<Event>, e: Event, agent: string, missing: string, from: nat)
    requires from <= |front|
    ensures DetectedSince(front + [e], agent, missing, from)
            == DetectedSince(front, agent, missing, from) + if DetectedAt(front + [e], agent, missing, |front|) then {|front|} else {}
  {
    var es := front + [e];
    assert forall i :: 0 <= i < |front| ==> es[i] == front[i];
  }

  lemma OneMoreSuccess(front: seq<Event>, e: Event, agent: string, missing: string, from: nat)
    requires from <= |front| && SuccessBefore(front + [e], agent, missing, from)
    ensures SuccessBefore(front, agent, missing, from) && !SuccessAt(front + [e], agent, missing, |front|)
  {
    var es := front + [e];
    assert forall i :: 0 <= i < |front| ==> es[i] == front[i];
    assert forall i :: 0 <= i < |front| ==> SuccessAt(front, agent, missing, i) == SuccessAt(es, agent, missing, i);
  }

  lemma CountsOne(front: seq<Event>, e: Event, agent: string, missing: string)
    ensures var es, n := front + [e], Detections(front, agent, missing);
            Detections(es, agent, missing)
            == if DetectedAt(es, agent, missing, |front|) then n + 1 else if SuccessAt(es, agent, missing, |front|) then 0 else n
  {
    assert (front + [e])[..|front|] == front;
  }

  /** The count is that of the detections behind the last success. */
  lemma {:induction false} DetectionsMeans(es: seq<Event>, agent: string, missing: string, from: nat)
    requires SuccessBefore(es, agent, missing, from)
    ensures Detections(es, agent, missing) == |DetectedSince(es, agent, missing, from)|
  {
    if from == |es| {
      NothingSince(es, agent, missing);
    } else {
      var front, e := es[..|es| - 1], es[|es| - 1];
      assert front + [e] == es;
      OneMoreSuccess(front, e, agent, missing, from);
      DetectionsMeans(front, agent, missing, from);
      OneMoreDetected(front, e, agent, missing, from);
      CountsOne(front, e, agent, missing);
    }
  }

  lemma NothingSince(es: seq<Event>, agent: string, missing: string)
    requires SuccessBefore(es, agent, missing, |es|)
    ensures Detections(es, agent, missing) == 0 && DetectedSince(es, agent, missing, |es|) == {}
  {
    if es != [] {
      assert es[..|es| - 1] + [es[|es| - 1]] == es;
      CountsOne(es[..|es| - 1], es[|es| - 1], agent, missing);
    }
  }

  /** Such a position there always is. */
  lemma {:induction false} LastSuccess(es: seq<Event>, agent: string, missing: string) returns (from: nat)
    ensures SuccessBefore(es, agent, missing, from)
  {
    from := |es|;
    while from > 0 && !SuccessAt(es, agent, missing, from - 1)
      invariant from <= |es| && forall i :: from <= i < |es| ==> !SuccessAt(es, agent, missing, i)
    {
      from := from - 1;
    }
  }

  /** `exponent` is one less than the detections of `agent` since its last successful round. */
  ghost predicate IsExponent(es: seq<Event>, agent: string, missing: string, exponent: nat) {
    forall from: nat :: SuccessBefore(es, agent, missing, from) ==>
      var detections := |DetectedSince(es, agent, missing, from)|;
      exponent == if detections == 0 then 0 else detections - 1
  }

  lemma ExponentMeans(es: seq<Event>, agent: string, missing: string)
    ensures IsExponent(es, agent, missing, Less1(Detections(es, agent, missing)))
  {
    forall from: nat | SuccessBefore(es, agent, missing, from)
      ensures Detections(es, agent, missing) == |DetectedSince(es, agent, missing, from)|
    {
      DetectionsMeans(es, agent, missing, from);
    }
  }

  method BackoffExponent(es: seq<Event>, agent: string) returns (exponent: nat)
    ensures exponent == Less1(Detections(es, agent, "")) && IsExponent(es, agent, "", exponent)
  {
    var count := 0;
    for i := 0 to |es|
      invariant count == Detections(es[..i], agent, "")
    {
      assert es[..i + 1][..i] == es[..i];
      if Label(es[i], "") == agent {
        if es[i].kind.Detected? {
          count := count + 1;
        } else if es[i].kind == Usage(true) {
          count := 0;
        }
      }
    }
    assert es[..|es|] == es;
    exponent := Less1(count);
    ExponentMeans(es, agent, "");
  }

  const EXP_CAP := 5
  const ABSOLUTE_CAP_S := 1800
  const SANITY_WINDOW_S := 366 * 24 * 3600

  /** The back-off a class of estimated resets starts from; other classes have an authoritative reset. */
  function Base(classification: string): Option<nat> {
    if classification == "rate_limit_model" || classification == "api_transient_5xx" then Some(60)
    else if classification == "api_timeout" then Some(30)
    else None
  }

  function Pow2(n: nat): nat {
    if n == 0 then 1 else 2 * Pow2(n - 1)
  }

  function Min(a: int, b: int): int {
    if a < b then a else b
  }

  function ExtendReset(classification: string, reset: int, exponent: nat): int {
    if Base(classification).None? || classification == "rate_limit_account" || exponent == 0 then reset
    else reset + Min(Base(classification).value * (Pow2(Min(exponent, EXP_CAP)) - 1), ABSOLUTE_CAP_S)
  }

  /** A reset is only ever put off, and by half an hour at most. */
  lemma ExtensionBounds(classification: string, reset: int, exponent: nat)
    ensures reset <= ExtendReset(classification, reset, exponent) <= reset + ABSOLUTE_CAP_S
  {
    Pow2Positive(Min(exponent, EXP_CAP));
  }

  lemma {:induction false} Pow2Positive(n: nat)
    ensures Pow2(n) >= 1
  {
    if n > 0 {
      Pow2Positive(n - 1);
    }
  }

  /** Each further detection in a row puts the reset off further, until the ladder's top. */
  lemma LadderRises(classification: string, reset: int, exponent: nat)
    requires Base(classification).Some?
    ensures exponent < EXP_CAP ==> ExtendReset(classification, reset, exponent) < ExtendReset(classification, reset, exponent + 1)
                                   || ExtendReset(classification, reset, exponent) == reset + ABSOLUTE_CAP_S
    ensures exponent >= EXP_CAP ==> ExtendReset(classification, reset, exponent) == ExtendReset(classification, reset, exponent + 1)
  {
    if exponent < EXP_CAP {
      Pow2Positive(exponent);
      assert Pow2(exponent + 1) == 2 * Pow2(exponent);
    }
  }

  /** The seconds a class of estimated resets is put off by at first; none for a class with an authoritative reset. */
  function FirstDelay(classification: string): int {
    if classification == "rate_limit_model" || classification == "api_transient_5xx" then 60
    else if classification == "api_timeout" then 30
    else 0
  }

  /** The ladder: nothing for the first detection, and for each of the next five twice as much as before and the first
      delay once more, up to half an hour; no more after that. Every other class keeps its reset. */
  lemma LadderDoubles(classification: string, reset: int, exponent: nat)
    ensures ExtendReset(classification, reset, 0) == reset
    ensures var d, d' := ExtendReset(classification, reset, exponent) - reset, ExtendReset(classification, reset, exponent + 1) - reset;
            var twice := 2 * d + FirstDelay(classification);
            d' == if exponent >= 5 then d else if twice < 1800 then twice else 1800
    ensures FirstDelay(classification) == 0 ==> ExtendReset(classification, reset, exponent) == reset
  {
    if exponent < 5 && FirstDelay(classification) > 0 {
      Pow2Positive(exponent);
      assert Pow2(exponent + 1) == 2 * Pow2(exponent);
      Pow2Small(exponent);
    }
  }

  lemma Pow2Small(n: nat)
    requires n < 5
    ensures Pow2(n) <= 16
  {
    assert Pow2(0) == 1 && Pow2(1) == 2 && Pow2(2) == 4 && Pow2(3) == 8 && Pow2(4) == 16;
  }

  /** The seconds by which the `n + 1`-th detection in a row puts off a reset that the second puts off by `first`. */
  function PutOff(first: int, n: nat): int {
    var d := first * (if n == 0 then 0 else if n == 1 then 1 else if n == 2 then 3 else if n == 3 then 7 else if n == 4 then 15 else 31);
    if d < 1800 then d else 1800
  }

  lemma LadderIs(classification: string, reset: int, exponent: nat)
    ensures ExtendReset(classification, reset, exponent) == reset + PutOff(FirstDelay(classification), exponent)
  {
    assert Pow2(0) == 1 && Pow2(1) == 2 && Pow2(2) == 4 && Pow2(3) == 8 && Pow2(4) == 16 && Pow2(5) == 32;
  }

  /** The reset a detection announces, unless it lies outside the sane range at time `now`. */
  function CoerceEpoch(resetAt: Option<int>, now: real): int {
    var v := resetAt.GetOr(0);
    if v < 0 || v as real > now + SANITY_WINDOW_S as real then 0 else v
  }

  /** The reset every reader goes by. */
  function DerivedReset(es: seq<Event>, agent: string, detected: Event, now: real): int {
    ExtendReset(detected.classification.GetOr("rate_limit_account"), CoerceEpoch(detected.resetAt, now),
                Less1(Detections(es, agent, "")))
  }

  // ---------------------------------------------------------------- active, pending, recovered

  datatype Throttled = Throttled(agent: string, resetAt: int, classification: string, sinceRound: int, phase: string)

  function Entry(agent: string, resetAt: int, e: Event): Throttled {
    Throttled(agent, resetAt, e.classification.GetOr("rate_limit_account"), e.round.GetOr(0), e.phase.GetOr(""))
  }

  predicate IsActive(es: seq<Event>, agent: string, now: real) {
    Unrecovered(es, agent).Some? && DerivedReset(es, agent, Unrecovered(es, agent).value, now) as real > now
  }

  function StateOf(es: seq<Event>, agent: string, now: real): Throttled
    requires IsActive(es, agent, now)
  {
    var e := Unrecovered(es, agent).value;
    Entry(agent, DerivedReset(es, agent, e, now), e)
  }

  ghost predicate IsActiveMap(m: map<string, Throttled>, es: seq<Event>, now: real) {
    && (forall a :: a in m <==> IsActive(es, a, now))
    && (forall a :: a in m ==> m[a] == StateOf(es, a, now))
  }

  /** Detection `i` is the last transient event of `agent`, and `reset` is when the throttle it stands for ends: the reset
      it announces, unless that is negative or more than 366 days off, put off by the ladder. */
  ghost predicate ThrottledUntil(es: seq<Event>, agent: string, now: real, i: nat, reset: int) {
    && i < |es| && IsLastFor(es, agent, i) && es[i].kind.Detected?
    && exists exponent: nat :: IsExponent(es, agent, "", exponent) && reset == ResetOf(es[i], exponent, now)
  }

  function ResetOf(e: Event, exponent: nat, now: real): int {
    var classification := if e.classification.Some? then e.classification.value else "rate_limit_account";
    AnnouncedReset(e.resetAt, now) + PutOff(FirstDelay(classification), exponent)
  }

  function AnnouncedReset(resetAt: Option<int>, now: real): int {
    if resetAt.None? || resetAt.value < 0 || resetAt.value as real > now + 31622400.0 then 0 else resetAt.value
  }

  /** The entry says what the detection did. */
  predicate EntryOf(t: Throttled, agent: string, reset: int, e: Event) {
    && t.agent == agent && t.resetAt == reset
    && t.classification == (if e.classification.Some? then e.classification.value else "rate_limit_account")
    && t.sinceRound == (if e.round.Some? then e.round.value else 0)
    && t.phase == (if e.phase.Some? then e.phase.value else "")
  }

  /** Active by the positions of the log. */
  ghost predicate ActiveByLog(m: map<string, Throttled>, es: seq<Event>, now: real) {
    && (forall a :: a in m <==> exists i: nat, reset: int :: ThrottledUntil(es, a, now, i, reset) && reset as real > now)
    && (forall a :: a in m ==> exists i: nat :: ThrottledUntil(es, a, now, i, m[a].resetAt) && EntryOf(m[a], a, m[a].resetAt, es[i]))
  }

  lemma OneReset(es: seq<Event>, agent: string, now: real, i: nat, reset: int)
    requires ThrottledUntil(es, agent, now, i, reset)
    ensures Unrecovered(es, agent) == Some(es[i]) && reset == DerivedReset(es, agent, es[i], now)
  {
    LastTransientMeans(es, agent);
    var exponent: nat :| IsExponent(es, agent, "", exponent) && reset == ResetOf(es[i], exponent, now);
    var from := LastSuccess(es, agent, "");
    DetectionsMeans(es, agent, "", from);
    LadderIs(es[i].classification.GetOr("rate_limit_account"), CoerceEpoch(es[i].resetAt, now), exponent);
    OnlyLast(es, agent, i);
  }

  lemma OnlyLast(es: seq<Event>, agent: string, i: nat)
    requires i < |es| && IsLastFor(es, agent, i)
    ensures LastTransient(es, agent) == Some(es[i])
  {
    LastTransientMeans(es, agent);
    var j :| 0 <= j < |es| && IsLastFor(es, agent, j) && Some(es[j]) == LastTransient(es, agent);
    assert i == j;
  }

  lemma SomeReset(es: seq<Event>, agent: string, now: real) returns (i: nat)
    requires Unrecovered(es, agent).Some?
    ensures i < |es| && Unrecovered(es, agent) == Some(es[i])
    ensures ThrottledUntil(es, agent, now, i, DerivedReset(es, agent, es[i], now))
  {
    LastTransientMeans(es, agent);
    i :| 0 <= i < |es| && IsLastFor(es, agent, i) && Some(es[i]) == LastTransient(es, agent);
    var exponent := Less1(Detections(es, agent, ""));
    ExponentMeans(es, agent, "");
    LadderIs(es[i].classification.GetOr("rate_limit_account"), CoerceEpoch(es[i].resetAt, now), exponent);
  }

  lemma ActiveMapByLog(m: map<string, Throttled>, es: seq<Event>, now: real)
    requires IsActiveMap(m, es, now)
    ensures ActiveByLog(m, es, now)
  {
    forall a
      ensures a in m <==> exists i: nat, reset: int :: ThrottledUntil(es, a, now, i, reset) && reset as real > now
      ensures a in m ==> exists i: nat :: ThrottledUntil(es, a, now, i, m[a].resetAt) && EntryOf(m[a], a, m[a].resetAt, es[i])
    {
      if a in m {
        var i := SomeReset(es, a, now);
        assert EntryOf(m[a], a, m[a].resetAt, es[i]);
      }
      if i: nat, reset: int :| ThrottledUntil(es, a, now, i, reset) && reset as real > now {
        OneReset(es, a, now, i, reset);
      }
    }
  }

  /** The active agents are those whose last transient event is a detection with a reset to come, and each entry says what
      that detection did. */
  method ActiveThrottles(es: seq<Event>, now: real) returns (active: map<string, Throttled>)
    ensures IsActiveMap(active, es, now) && ActiveByLog(active, es, now)
  {
    var latest, agents := LatestTransientPerAgent(es);
    FirstSeenMeans(es);
    active := map[];
    for i := 0 to |agents|
      invariant forall a :: a in active <==> a in agents[..i] && IsActive(es, a, now)
      invariant forall a :: a in active ==> active[a] == StateOf(es, a, now)
    {
      var a := agents[i];
      assert agents[..i + 1] == agents[..i] + [a];
      if latest[a].Some? {
        var e := latest[a].value;
        var exponent := BackoffExponent(es, a);
        var classification := e.classification.GetOr("rate_limit_account");
        var reset := ExtendReset(classification, CoerceEpoch(e.resetAt, now), exponent);
        if reset as real > now {
          active := active[a := Entry(a, reset, e)];
        }
      }
    }
    ActiveMapByLog(active, es, now);
  }

  /** The throttle of `agent` has ended and no recovery says so yet. */
  predicate IsPending(es: seq<Event>, agent: string, now: real) {
    Unrecovered(es, agent).Some? && DerivedReset(es, agent, Unrecovered(es, agent).value, now) as real <= now
  }

  predicate IsRecovered(es: seq<Event>, agent: string) {
    LastTransient(es, agent).Some? && LastTransient(es, agent).value.kind.Recovered?
  }

  /** An agent with a transient event is in exactly one of three states; any other agent in none. */
  lemma {:induction false} ExactlyOneState(es: seq<Event>, agent: string, now: real)
    ensures (exists i :: 0 <= i < |es| && BookedOn(es[i], agent))
            <==> (IsActive(es, agent, now) || IsPending(es, agent, now) || IsRecovered(es, agent))
    ensures !(IsActive(es, agent, now) && IsPending(es, agent, now))
    ensures !(IsActive(es, agent, now) && IsRecovered(es, agent)) && !(IsPending(es, agent, now) && IsRecovered(es, agent))
  {
    LastTransientMeans(es, agent);
    LastTransientKind(es, agent);
  }

  lemma {:induction false} LastTransientKind(es: seq<Event>, agent: string)
    ensures LastTransient(es, agent).Some? ==> IsTransient(LastTransient(es, agent).value)
  {
    if es != [] {
      LastTransientKind(es[..|es| - 1], agent);
    }
  }

  /** An agent to announce, with the class of its throttle and the whole seconds since it was detected. */
  datatype Cleared = Cleared(agent: string, classification: string, throttledForS: int)

  function ThrottledForS(ts: Option<int>, now: real): int {
    if ts.None? || now < ts.value as real / 1000.0 then 0 else (now - ts.value as real / 1000.0).Floor
  }

  /** The pending ones among `agents`, in order. */
  function Pending(es: seq<Event>, agents: seq<string>, now: real): seq<Cleared> {
    if agents == [] then []
    else
      var agent := agents[|agents| - 1];
      Pending(es, agents[..|agents| - 1], now) +
      if !IsPending(es, agent, now) then []
      else
        var e := Unrecovered(es, agent).value;
        [Cleared(agent, e.classification.GetOr("rate_limit_account"), ThrottledForS(e.ts, now))]
  }

  function Agents(cleared: seq<Cleared>): (agents: seq<string>)
    ensures |agents| == |cleared| && forall i :: 0 <= i < |cleared| ==> agents[i] == cleared[i].agent
  {
    if cleared == [] then [] else Agents(cleared[..|cleared| - 1]) + [cleared[|cleared| - 1].agent]
  }

  lemma {:induction false} PendingMeans(es: seq<Event>, agents: seq<string>, now: real)
    requires NoRepeats(agents)
    ensures NoRepeats(Agents(Pending(es, agents, now)))
    ensures forall a :: a in Agents(Pending(es, agents, now)) <==> a in agents && IsPending(es, a, now)
  {
    if agents != [] {
      var front, agent := agents[..|agents| - 1], agents[|agents| - 1];
      PendingMeans(es, front, now);
      assert forall a :: a in agents <==> a in front || a == agent;
      var before, all := Pending(es, front, now), Pending(es, agents, now);
      assert !IsPending(es, agent, now) ==> all == before;
      assert IsPending(es, agent, now) ==> all[..|all| - 1] == before && Agents(all) == Agents(before) + [agent];
    }
  }

  /** Position `i` is that of the agent's first transient event. */
  predicate IsFirstFor(es: seq<Event>, agent: string, i: nat)
    requires i < |es|
  {
    BookedOn(es[i], agent) && forall j :: 0 <= j < i ==> !BookedOn(es[j], agent)
  }

  predicate InOrderOfFirst(es: seq<Event>, agents: seq<string>) {
    forall j, k, p, q :: 0 <= j < k < |agents| && 0 <= p < |es| && 0 <= q < |es| && IsFirstFor(es, agents[j], p) && IsFirstFor(es, agents[k], q) ==> p < q
  }

  /** The agents first seen later come later. */
  lemma {:induction false} FirstSeenInOrder(es: seq<Event>)
    ensures InOrderOfFirst(es, FirstSeen(es))
  {
    if es != [] {
      var front, n := es[..|es| - 1], |es| - 1;
      FirstSeenInOrder(front);
      FirstSeenMeans(front);
      forall j, k, p, q | 0 <= j < k < |FirstSeen(es)| && 0 <= p < |es| && 0 <= q < |es|
                          && IsFirstFor(es, FirstSeen(es)[j], p) && IsFirstFor(es, FirstSeen(es)[k], q)
        ensures p < q
      {
        OneMoreFirst(es, front, FirstSeen(es)[j], p);
        OneMoreFirst(es, front, FirstSeen(es)[k], q);
      }
    }
  }

  lemma OneMoreFirst(es: seq<Event>, front: seq<Event>, agent: string, p: nat)
    requires es != [] && front == es[..|es| - 1] && p < |es| && IsFirstFor(es, agent, p)
    ensures p < |front| ==> IsFirstFor(front, agent, p)
    ensures p < |front| <==> agent in FirstSeen(front)
  {
    FirstSeenMeans(front);
    LastTransientMeans(front, agent);
    assert forall i :: 0 <= i < |front| ==> front[i] == es[i];
  }

  lemma {:induction false} PendingInOrder(es: seq<Event>, agents: seq<string>, now: real)
    requires InOrderOfFirst(es, agents)
    ensures InOrderOfFirst(es, Agents(Pending(es, agents, now)))
    ensures forall a :: a in Agents(Pending(es, agents, now)) ==> a in agents
  {
    if agents != [] {
      var front, agent := agents[..|agents| - 1], agents[|agents| - 1];
      PendingInOrder(es, front, now);
      var before, all := Pending(es, front, now), Pending(es, agents, now);
      assert !IsPending(es, agent, now) ==> all == before;
      assert IsPending(es, agent, now) ==> all[..|all| - 1] == before && Agents(all) == Agents(before) + [agent];
      if IsPending(es, agent, now) {
        LastInOrder(es, agents, Agents(before), agent);
      }
    }
  }

  lemma LastInOrder(es: seq<Event>, agents: seq<string>, before: seq<string>, agent: string)
    requires agents != [] && agents[|agents| - 1] == agent && InOrderOfFirst(es, agents) && InOrderOfFirst(es, before)
    requires forall a :: a in before ==> a in agents[..|agents| - 1]
    ensures InOrderOfFirst(es, before + [agent])
  {
    forall j, p, q | 0 <= j < |before| && 0 <= p < |es| && 0 <= q < |es| && IsFirstFor(es, before[j], p) && IsFirstFor(es, agent, q)
      ensures p < q
    {
      assert before[j] in before;
      var i :| 0 <= i < |agents| - 1 && agents[i] == before[j];
    }
  }

  /** The announcement says what the detection did, and how many whole seconds ago that was; none if that is not known. */
  predicate ClearedBy(c: Cleared, e: Event, now: real) {
    && c.classification == (if e.classification.Some? then e.classification.value else "rate_limit_account")
    && (if e.ts.Some? && e.ts.value as real <= now * 1000.0 then
          c.throttledForS as real * 1000.0 <= now * 1000.0 - e.ts.value as real < (c.throttledForS + 1) as real * 1000.0
        else c.throttledForS == 0)
  }

  /** Announced by the positions of the log: agents whose last transient event is a detection with a reset that has come. */
  ghost predicate ClearedByLog(cleared: seq<Cleared>, es: seq<Event>, now: real) {
    && (forall a :: a in Agents(cleared) <==> exists i: nat, reset: int :: ThrottledUntil(es, a, now, i, reset) && reset as real <= now)
    && (forall k :: 0 <= k < |cleared| ==> exists i: nat :: i < |es| && IsLastFor(es, cleared[k].agent, i) && ClearedBy(cleared[k], es[i], now))
    && InOrderOfFirst(es, Agents(cleared))
  }

  lemma {:induction false} PendingEntries(es: seq<Event>, agents: seq<string>, now: real, k: nat)
    requires k < |Pending(es, agents, now)|
    ensures var c := Pending(es, agents, now)[k]; exists i: nat :: i < |es| && IsLastFor(es, c.agent, i) && ClearedBy(c, es[i], now)
  {
    var front, agent := agents[..|agents| - 1], agents[|agents| - 1];
    if k < |Pending(es, front, now)| {
      PendingEntries(es, front, now, k);
    } else {
      var i := SomeReset(es, agent, now);
      SecondsMean(es[i].ts, now);
    }
  }

  lemma SecondsMean(ts: Option<int>, now: real)
    ensures var n := ThrottledForS(ts, now);
            if ts.Some? && ts.value as real <= now * 1000.0 then n as real * 1000.0 <= now * 1000.0 - ts.value as real < (n + 1) as real * 1000.0
            else n == 0
  {
    if ts.Some? {
      assert now < ts.value as real / 1000.0 <==> now * 1000.0 < ts.value as real;
    }
  }

  lemma PendingIff(es: seq<Event>, a: string, now: real)
    ensures IsPending(es, a, now) <==> exists i: nat, reset: int :: ThrottledUntil(es, a, now, i, reset) && reset as real <= now
  {
    if IsPending(es, a, now) {
      var i := SomeReset(es, a, now);
    }
    if i: nat, reset: int :| ThrottledUntil(es, a, now, i, reset) && reset as real <= now {
      OneReset(es, a, now, i, reset);
    }
  }

  lemma PendingByLog(es: seq<Event>, now: real, agents: seq<string>, cleared: seq<Cleared>)
    requires agents == FirstSeen(es) && cleared == Pending(es, agents, now)
    ensures ClearedByLog(cleared, es, now)
  {
    FirstSeenMeans(es);
    FirstSeenInOrder(es);
    PendingMeans(es, agents, now);
    PendingInOrder(es, agents, now);
    forall a
      ensures a in Agents(cleared) <==> exists i: nat, reset: int :: ThrottledUntil(es, a, now, i, reset) && reset as real <= now
    {
      PendingIff(es, a, now);
    }
    forall k | 0 <= k < |cleared|
      ensures exists i: nat :: i < |es| && IsLastFor(es, cleared[k].agent, i) && ClearedBy(cleared[k], es[i], now)
    {
      PendingEntries(es, agents, now, k);
    }
  }

  /** The agents to announce as recovered: each pending one, once, in the order of their first transient events. */
  method PendingRecovered(es: seq<Event>, now: real, active: map<string, Throttled>) returns (cleared: seq<Cleared>)
    requires IsActiveMap(active, es, now)
    ensures cleared == Pending(es, FirstSeen(es), now) && ClearedByLog(cleared, es, now)
    ensures NoRepeats(Agents(cleared)) && forall a :: a in Agents(cleared) <==> IsPending(es, a, now)
  {
    var latest, agents := LatestTransientPerAgent(es);
    FirstSeenMeans(es);
    PendingMeans(es, agents, now);
    cleared := [];
    for i := 0 to |agents|
      invariant cleared == Pending(es, agents[..i], now)
    {
      var a := agents[i];
      assert agents[..i + 1][..i] == agents[..i];
      assert a in agents;
      if latest[a].Some? && a !in active {
        var e := latest[a].value;
        cleared := cleared + [Cleared(a, e.classification.GetOr("rate_limit_account"), ThrottledForS(e.ts, now))];
      }
    }
    assert agents[..|agents|] == agents;
    PendingByLog(es, now, agents, cleared);
  }

  // ---------------------------------------------------------------- the scalar view

  /** The last transient event of any agent. */
  function LastAny(es: seq<Event>): Option<Event> {
    if es == [] then None
    else if IsTransient(es[|es| - 1]) then Some(es[|es| - 1])
    else LastAny(es[..|es| - 1])
  }

  /** It is a detection or a recovery, and none stands behind it. */
  lemma {:induction false} LastAnyMeans(es: seq<Event>)
    ensures LastAny(es).None? ==> forall i :: 0 <= i < |es| ==> !es[i].kind.Detected? && !es[i].kind.Recovered?
    ensures LastAny(es).Some? ==> exists i :: 0 <= i < |es| && LastAny(es) == Some(es[i]) && IsLastTransient(es, i)
  {
    if es != [] {
      var front, e := es[..|es| - 1], es[|es| - 1];
      LastAnyMeans(front);
      if IsTransient(e) {
        assert IsLastTransient(es, |es| - 1);
      } else if LastAny(front).Some? {
        var i :| 0 <= i < |front| && LastAny(front) == Some(front[i]) && IsLastTransient(front, i);
        assert IsLastTransient(es, i);
      }
    }
  }

  predicate IsLastTransient(es: seq<Event>, i: nat)
    requires i < |es|
  {
    && (es[i].kind.Detected? || es[i].kind.Recovered?)
    && forall j :: i < j < |es| ==> !es[j].kind.Detected? && !es[j].kind.Recovered?
  }

  lemma {:induction false} LastAnyConcat(a: seq<Event>, b: seq<Event>)
    ensures LastAny(a + b) == if LastAny(b).Some? then LastAny(b) else LastAny(a)
  {
    if b == [] {
      assert a + b == a;
    } else {
      assert (a + b)[..|a + b| - 1] == a + b[..|b| - 1];
      LastAnyConcat(a, b[..|b| - 1]);
    }
  }

  /** One file's last transient event. */
  method ScanEventsForTransient(es: seq<Event>) returns (latest: Option<Event>)
    ensures latest == LastAny(es)
  {
    latest := None;
    for i := 0 to |es|
      invariant latest == LastAny(es[..i])
    {
      assert es[..i + 1][..i] == es[..i];
      if IsTransient(es[i]) {
        latest := Some(es[i]);
      }
    }
    assert es[..|es|] == es;
  }

  function Flat(files: seq<seq<Event>>): seq<Event> {
    if files == [] then [] else files[0] + Flat(files[1..])
  }

  lemma {:induction false} FlatSplit(files: seq<seq<Event>>, n: nat)
    requires n < |files|
    ensures Flat(files[..n + 1]) == Flat(files[..n]) + files[n]
  {
    if n == 0 {
      assert files[..1] == [files[0]] && files[..0] == [];
      assert Flat([files[0]][1..]) == [];
    } else {
      assert files[..n + 1][1..] == files[1..][..n] && files[..n][1..] == files[1..][..n - 1];
      FlatSplit(files[1..], n - 1);
      assert files[0] + (Flat(files[1..][..n - 1]) + files[n]) == (files[0] + Flat(files[1..][..n - 1])) + files[n];
    }
  }

  /** The newest detection no recovery follows, looking at the newest file first and stopping at the first file
      with any transient event: it is what one pass over all files in order finds last. */
  method LatestUnrecoveredDetected(files: seq<seq<Event>>) returns (detected: Option<Event>)
    ensures detected == match LastAny(Flat(files))
                        case Some(e) => (if e.kind.Detected? then Some(e) else None)
                        case None => None
    ensures detected.Some? <==> exists i :: 0 <= i < |Flat(files)| && IsLastTransient(Flat(files), i) && Flat(files)[i].kind.Detected?
    ensures detected.Some? ==> exists i :: 0 <= i < |Flat(files)| && IsLastTransient(Flat(files), i) && detected == Some(Flat(files)[i])
  {
    LastAnyMeans(Flat(files));
    var n := |files|;
    assert files[..n] == files;
    while n > 0
      invariant n <= |files|
      invariant LastAny(Flat(files[..n])) == LastAny(Flat(files))
    {
      n := n - 1;
      FlatSplit(files, n);
      LastAnyConcat(Flat(files[..n]), files[n]);
      var result := ScanEventsForTransient(files[n]);
      if result.Some? {
        return if result.value.kind.Detected? then result else None;
      }
    }
    return None;
  }

  method CheckThrottleState(files: seq<seq<Event>>, now: real) returns (throttle: Option<Throttled>)
    ensures throttle == Scalar(Flat(files), now)
  {
    var es := Flat(files);
    var detected := LatestUnrecoveredDetected(files);
    LastOfAllIsLastOfIts(es);
    if detected.None? {
      return None;
    }
    var agent := Label(detected.value, UNKNOWN);
    var exponent := BackoffExponent(es, agent);
    var classification := detected.value.classification.GetOr("rate_limit_account");
    var reset := ExtendReset(classification, CoerceEpoch(detected.value.resetAt, now), exponent);
    if reset as real <= now {
      return None;
    }
    return Some(Entry(agent, reset, detected.value));
  }

  /** The global scalar is the entry of the agent with the last transient event of all, if that agent is active. */
  function Scalar(es: seq<Event>, now: real): Option<Throttled> {
    match LastAny(es)
    case None => None
    case Some(e) => if IsActive(es, Label(e, UNKNOWN), now) then Some(StateOf(es, Label(e, UNKNOWN), now)) else None
  }

  lemma {:induction false} LastOfAllIsLastOfIts(es: seq<Event>)
    ensures LastAny(es).Some? ==> IsTransient(LastAny(es).value)
                                  && LastTransient(es, Label(LastAny(es).value, UNKNOWN)) == LastAny(es)
  {
    if es != [] {
      LastOfAllIsLastOfIts(es[..|es| - 1]);
    }
  }

  /** The view for people: the scalar, or failing that the active throttle that ends last, with the active map.
      The two readings of the clock may differ. */
  method EffectiveThrottleView(files: seq<seq<Event>>, now1: real, now2: real)
    returns (throttle: Option<Throttled>, active: map<string, Throttled>)
    ensures IsActiveMap(active, Flat(files), now2)
    ensures throttle.None? <==> Scalar(Flat(files), now1).None? && active == map[]
    ensures now1 == now2 ==> (throttle.None? <==> active == map[])
    ensures now1 == now2 && throttle.Some? ==> throttle.value.agent in active && active[throttle.value.agent] == throttle.value
    ensures now1 == now2 && Scalar(Flat(files), now1).Some? ==> throttle == Scalar(Flat(files), now1)
    ensures Scalar(Flat(files), now1).None? && throttle.Some? ==>
              forall a :: a in active ==> active[a].resetAt <= throttle.value.resetAt
  {
    throttle := CheckThrottleState(files, now1);
    active := ActiveThrottles(Flat(files), now2);
    if throttle.Some? && throttle.value.agent in active {
      throttle := Some(active[throttle.value.agent]);
    } else if throttle.None? && active != map[] {
      var longest := LongestWait(active);
      throttle := Some(longest);
    }
  }

  method LongestWait(active: map<string, Throttled>) returns (longest: Throttled)
    requires active != map[] && forall a :: a in active ==> active[a].agent == a
    ensures longest.agent in active && active[longest.agent] == longest
    ensures forall a :: a in active ==> active[a].resetAt <= longest.resetAt
  {
    var first :| first in active;
    longest := active[first];
    var todo := active.Keys - {first};
    while todo != {}
      invariant todo <= active.Keys
      invariant longest.agent in active && active[longest.agent] == longest
      invariant forall a :: a in active.Keys - todo ==> active[a].resetAt <= longest.resetAt
    {
      var a :| a in todo;
      todo := todo - {a};
      if active[a].resetAt > longest.resetAt {
        longest := active[a];
      }
    }
  }
}
