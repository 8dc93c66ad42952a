/** One pass over the event log after each round that replaces three separate scans, and the two verdicts on the
    round read from it. */
module RoundOutcome {
  import opened Wrappers
  import opened Throttle

  /** Which stamped events a "newest time stamp" is taken over. */
  datatype Mark = Began | Killed | AnyUsage | UsageBy(agent: string)

  predicate Marks(e: Event, m: Mark) {
    match m
    case Began => e.kind.SubstrateBefore?
    case Killed => e.kind.MemTerminated?
    case AnyUsage => e.kind.Usage?
    case UsageBy(a) => e.kind.Usage? && Label(e, UNKNOWN) == a
  }

  /** One more than the position of the last stamped event of that mark; 0 when there is none. */
  function LastMark(es: seq<Event>, m: Mark): (n: nat)
    ensures n <= |es|
    ensures n > 0 ==> Marks(es[n - 1], m) && es[n - 1].ts.Some?
    ensures forall i :: n <= i < |es| ==> !(Marks(es[i], m) && es[i].ts.Some?)
  {
    if es == [] then 0
    else if Marks(es[|es| - 1], m) && es[|es| - 1].ts.Some? then |es|
    else LastMark(es[..|es| - 1], m)
  }

  function NewestStamp(es: seq<Event>, m: Mark): Option<int> {
    var n := LastMark(es, m);
    if n == 0 then None else es[n - 1].ts
  }

  /** One more event: what it does to a newest time stamp. */
  lemma StampStep(es: seq<Event>, e: Event, m: Mark)
    ensures NewestStamp(es + [e], m) == if Marks(e, m) && e.ts.Some? then e.ts else NewestStamp(es, m)
  {
    assert (es + [e])[..|es|] == es;
  }

  predicate ReportsUsage(es: seq<Event>, agent: string) {
    exists i :: 0 <= i < |es| && es[i].kind.Usage? && Label(es[i], UNKNOWN) == agent
  }

  datatype Outcome = Outcome(
    memTerminated: bool,
    usageCapable: bool,
    newestUsage: Option<int>,
    newestBefore: Option<int>,
    latest: map<string, Option<Event>>,
    ranAgent: Option<string>,
    capableBy: set<string>,
    newestUsageBy: map<string, int>,
    exponentBy: map<string, nat>)

  predicate KilledSinceStart(newestKilled: Option<int>, newestBefore: Option<int>) {
    newestBefore.Some? && newestKilled.Some? && newestKilled.value >= newestBefore.value
  }

  function Lookup<V>(m: map<string, V>, a: string, default: V): V {
    if a in m then m[a] else default
  }

  /** The part of the fold that books on agents and looks at no time stamp. */
  ghost predicate Booked(
    latest: map<string, Option<Event>>, detected: map<string, nat>, capable: bool, capableBy: set<string>, es: seq<Event>)
  {
    && IsLatestMap(latest, es)
    && (forall a :: Lookup(detected, a, 0) == Detections(es, a, UNKNOWN))
    && (capable <==> exists a :: ReportsUsage(es, a))
    && (forall a :: a in capableBy <==> ReportsUsage(es, a))
  }

  method Book(latest0: map<string, Option<Event>>, detected0: map<string, nat>, capable0: bool, capableBy0: set<string>,
              ghost es: seq<Event>, e: Event)
    returns (latest: map<string, Option<Event>>, detected: map<string, nat>, capable: bool, capableBy: set<string>)
    requires Booked(latest0, detected0, capable0, capableBy0, es)
    ensures Booked(latest, detected, capable, capableBy, es + [e])
  {
    latest, detected, capable, capableBy := latest0, detected0, capable0, capableBy0;
    var agent := Label(e, UNKNOWN);
    if e.kind.Detected? {
      latest := latest[agent := Some(e)];
      detected := detected[agent := Lookup(detected, agent, 0) + 1];
    } else if e.kind.Recovered? {
      latest := latest[agent := None];
    }
    if e.kind.Usage? {
      capable := true;
      capableBy := capableBy + {agent};
      if e.kind.success {
        detected := detected[agent := 0];
      }
    }
    assert (es + [e])[..|es|] == es;
    UsageStep(es, e);
    if e.kind.Usage? {
      assert ReportsUsage(es + [e], agent);
    }
  }

  lemma UsageStep(es: seq<Event>, e: Event)
    ensures forall a :: ReportsUsage(es + [e], a) <==> ReportsUsage(es, a) || (e.kind.Usage? && Label(e, UNKNOWN) == a)
  {
    forall a
      ensures ReportsUsage(es + [e], a) <==> ReportsUsage(es, a) || (e.kind.Usage? && Label(e, UNKNOWN) == a)
    {
      if ReportsUsage(es, a) {
        var i :| 0 <= i < |es| && es[i].kind.Usage? && Label(es[i], UNKNOWN) == a;
        assert (es + [e])[i] == es[i];
      }
      if e.kind.Usage? && Label(e, UNKNOWN) == a {
        assert (es + [e])[|es|] == e;
      }
    }
  }

  /** The part of the fold that keeps the newest time stamps. */
  ghost predicate Stamped(before: Option<int>, killed: Option<int>, usage: Option<int>, usageBy: map<string, int>, es: seq<Event>) {
    && before == NewestStamp(es, Began)
    && killed == NewestStamp(es, Killed)
    && usage == NewestStamp(es, AnyUsage)
    && StampedBy(usageBy, es)
  }

  ghost predicate StampedBy(usageBy: map<string, int>, es: seq<Event>) {
    forall a :: (if a in usageBy then Some(usageBy[a]) else None) == NewestStamp(es, UsageBy(a))
  }

  lemma StampedByMore(usageBy: map<string, int>, es: seq<Event>, e: Event)
    requires StampedBy(usageBy, es)
    ensures StampedBy(if e.kind.Usage? && e.ts.Some? then usageBy[Label(e, UNKNOWN) := e.ts.value] else usageBy, es + [e])
  {
    forall a
      ensures NewestStamp(es + [e], UsageBy(a)) == if Marks(e, UsageBy(a)) && e.ts.Some? then e.ts else NewestStamp(es, UsageBy(a))
    {
      StampStep(es, e, UsageBy(a));
    }
  }

  method StampOne(before0: Option<int>, killed0: Option<int>, usage0: Option<int>, usageBy0: map<string, int>,
                  ghost es: seq<Event>, e: Event)
    returns (before: Option<int>, killed: Option<int>, usage: Option<int>, usageBy: map<string, int>)
    requires Stamped(before0, killed0, usage0, usageBy0, es)
    ensures Stamped(before, killed, usage, usageBy, es + [e])
  {
    before, killed, usage, usageBy := before0, killed0, usage0, usageBy0;
    StampStep(es, e, Began);
    StampStep(es, e, Killed);
    StampStep(es, e, AnyUsage);
    StampedByMore(usageBy, es, e);
    if e.ts.None? {
      return;
    }
    match e.kind
    case SubstrateBefore => before := e.ts;
    case MemTerminated => killed := e.ts;
    case Usage(_) =>
      usage := e.ts;
      usageBy := usageBy[Label(e, UNKNOWN) := e.ts.value];
    case _ =>
  }

  function Exponents(detected: map<string, nat>): (m: map<string, nat>)
    ensures forall a :: Lookup(m, a, 0) == Less1(Lookup(detected, a, 0))
  {
    map a | a in detected :: Less1(detected[a])
  }

  // What the fold returns, in kinds and positions of events.

  /** A stamped round start, kill or usage; the usage of one agent if `whose` names it. */
  predicate StartAt(es: seq<Event>, i: int) {
    0 <= i < |es| && es[i].kind == SubstrateBefore && es[i].ts.Some?
  }

  predicate KillAt(es: seq<Event>, i: int) {
    0 <= i < |es| && es[i].kind == MemTerminated && es[i].ts.Some?
  }

  predicate UsageAt(es: seq<Event>, whose: Option<string>, i: int) {
    && 0 <= i < |es| && (es[i].kind == Usage(true) || es[i].kind == Usage(false)) && es[i].ts.Some?
    && (whose.Some? ==> whose.value == if es[i].agent.Some? then es[i].agent.value else "unknown")
  }

  predicate LastStart(es: seq<Event>, i: int) {
    StartAt(es, i) && forall j :: i < j < |es| ==> !StartAt(es, j)
  }

  predicate LastKill(es: seq<Event>, i: int) {
    KillAt(es, i) && forall j :: i < j < |es| ==> !KillAt(es, j)
  }

  predicate LastUsage(es: seq<Event>, whose: Option<string>, i: int) {
    UsageAt(es, whose, i) && forall j :: i < j < |es| ==> !UsageAt(es, whose, j)
  }

  /** The newest stamps are those of the last stamped events of their kind, and there is one if there is such an event. */
  ghost predicate StampsByLog(o: Outcome, es: seq<Event>) {
    && (o.newestBefore.Some? <==> exists i :: LastStart(es, i))
    && (forall i :: LastStart(es, i) ==> o.newestBefore == es[i].ts)
    && (o.newestUsage.Some? <==> exists i :: LastUsage(es, None, i))
    && (forall i :: LastUsage(es, None, i) ==> o.newestUsage == es[i].ts)
  }

  ghost predicate UsageByLog(o: Outcome, es: seq<Event>) {
    && (forall a :: a in o.newestUsageBy <==> exists i :: LastUsage(es, Some(a), i))
    && (forall a, i :: LastUsage(es, Some(a), i) ==> a in o.newestUsageBy && es[i].ts == Some(o.newestUsageBy[a]))
  }

  /** Killed for memory: the last kill is stamped no earlier than the last round start. */
  ghost predicate KilledByLog(es: seq<Event>) {
    exists start, kill :: LastStart(es, start) && LastKill(es, kill) && es[start].ts.value <= es[kill].ts.value
  }

  lemma StartMeans(es: seq<Event>)
    ensures forall i :: LastStart(es, i) <==> i == LastMark(es, Began) - 1 && i >= 0
  {
    var n := LastMark(es, Began);
    assert forall i :: 0 <= i < |es| ==> (StartAt(es, i) <==> Marks(es[i], Began) && es[i].ts.Some?);
    if n > 0 {
      assert StartAt(es, n - 1);
    }
  }

  lemma KillMeans(es: seq<Event>)
    ensures forall i :: LastKill(es, i) <==> i == LastMark(es, Killed) - 1 && i >= 0
  {
    var n := LastMark(es, Killed);
    assert forall i :: 0 <= i < |es| ==> (KillAt(es, i) <==> Marks(es[i], Killed) && es[i].ts.Some?);
    if n > 0 {
      assert KillAt(es, n - 1);
    }
  }

  lemma UsageMeans(es: seq<Event>, whose: Option<string>)
    ensures forall i :: LastUsage(es, whose, i) <==> i == LastMark(es, UsageMark(whose)) - 1 && i >= 0
  {
    var n := LastMark(es, UsageMark(whose));
    assert forall i :: 0 <= i < |es| ==> (UsageAt(es, whose, i) <==> Marks(es[i], UsageMark(whose)) && es[i].ts.Some?);
    if n > 0 {
      assert UsageAt(es, whose, n - 1);
    }
  }

  lemma KilledMeans(es: seq<Event>)
    ensures KilledSinceStart(NewestStamp(es, Killed), NewestStamp(es, Began)) <==> KilledByLog(es)
  {
    StartMeans(es);
    KillMeans(es);
    if KilledSinceStart(NewestStamp(es, Killed), NewestStamp(es, Began)) {
      assert LastStart(es, LastMark(es, Began) - 1) && LastKill(es, LastMark(es, Killed) - 1);
    }
  }

  lemma StampsMean(es: seq<Event>, o: Outcome)
    requires o.newestBefore == NewestStamp(es, Began) && o.newestUsage == NewestStamp(es, AnyUsage)
    ensures StampsByLog(o, es)
  {
    StartMeans(es);
    UsageMeans(es, None);
    if o.newestBefore.Some? {
      assert LastStart(es, LastMark(es, Began) - 1);
    }
    if o.newestUsage.Some? {
      assert LastUsage(es, None, LastMark(es, AnyUsage) - 1);
    }
  }

  lemma UsageByMeans(es: seq<Event>, o: Outcome)
    requires StampedBy(o.newestUsageBy, es)
    ensures UsageByLog(o, es)
  {
    forall a
      ensures a in o.newestUsageBy <==> exists i :: LastUsage(es, Some(a), i)
      ensures forall i :: LastUsage(es, Some(a), i) ==> a in o.newestUsageBy && es[i].ts == Some(o.newestUsageBy[a])
    {
      UsageMeans(es, Some(a));
      if a in o.newestUsageBy {
        assert NewestStamp(es, UsageBy(a)).Some?;
        assert LastUsage(es, Some(a), LastMark(es, UsageBy(a)) - 1);
      }
    }
  }

  /** The fused fold: what it returns is what each separate scan would have found. */
  method FoldRound(es: seq<Event>, ranAgent: Option<string>) returns (o: Outcome)
    ensures IsLatestMap(o.latest, es)
    ensures forall a :: Lookup(o.exponentBy, a, 0) == Less1(Detections(es, a, UNKNOWN))
    ensures o.usageCapable <==> exists a :: ReportsUsage(es, a)
    ensures forall a :: a in o.capableBy <==> ReportsUsage(es, a)
    ensures o.newestBefore == NewestStamp(es, Began) && o.newestUsage == NewestStamp(es, AnyUsage)
    ensures StampedBy(o.newestUsageBy, es)
    ensures o.memTerminated == KilledSinceStart(NewestStamp(es, Killed), NewestStamp(es, Began))
    ensures o.ranAgent == ranAgent
    ensures o.memTerminated <==> KilledByLog(es)
    ensures StampsByLog(o, es) && UsageByLog(o, es)
    ensures forall a :: IsExponent(es, a, "unknown", Lookup(o.exponentBy, a, 0))
  {
    var latest: map<string, Option<Event>>, detected: map<string, nat> := map[], map[];
    var capable, capableBy := false, {};
    var before: Option<int>, killed: Option<int>, usage: Option<int> := None, None, None;
    var usageBy: map<string, int> := map[];
    for i := 0 to |es|
      invariant Booked(latest, detected, capable, capableBy, es[..i])
      invariant Stamped(before, killed, usage, usageBy, es[..i])
    {
      latest, detected, capable, capableBy := Book(latest, detected, capable, capableBy, es[..i], es[i]);
      before, killed, usage, usageBy := StampOne(before, killed, usage, usageBy, es[..i], es[i]);
      assert es[..i + 1] == es[..i] + [es[i]];
    }
    assert es[..|es|] == es;
    o := Outcome(KilledSinceStart(killed, before), capable, usage, before, latest, ranAgent, capableBy, usageBy,
                 Exponents(detected));
    OutcomeMeans(es, o);
  }

  lemma OutcomeMeans(es: seq<Event>, o: Outcome)
    requires o.newestBefore == NewestStamp(es, Began) && o.newestUsage == NewestStamp(es, AnyUsage) && StampedBy(o.newestUsageBy, es)
    requires forall a :: Lookup(o.exponentBy, a, 0) == Less1(Detections(es, a, UNKNOWN))
    ensures KilledSinceStart(NewestStamp(es, Killed), NewestStamp(es, Began)) <==> KilledByLog(es)
    ensures StampsByLog(o, es) && UsageByLog(o, es)
    ensures forall a :: IsExponent(es, a, "unknown", Lookup(o.exponentBy, a, 0))
  {
    KilledMeans(es);
    StampsMean(es, o);
    UsageByMeans(es, o);
    forall a
      ensures IsExponent(es, a, "unknown", Lookup(o.exponentBy, a, 0))
    {
      ExponentMeans(es, a, UNKNOWN);
    }
  }

  // ---------------------------------------------------------------- the fold against the separate scans

  /** Every detection and every successful round in the log names its agent. */
  predicate AgentsNamed(es: seq<Event>) {
    forall i :: 0 <= i < |es| && (es[i].kind.Detected? || es[i].kind == Usage(true)) ==> es[i].agent.Some?
  }

  /** The fold counts what the separate scan does for every agent, if every event names one; and for every agent but the
      two stand-ins for a missing name even if not. */
  lemma {:induction false} FoldAgreesWithScan(es: seq<Event>, agent: string)
    requires AgentsNamed(es) || (agent != UNKNOWN && agent != "")
    ensures Detections(es, agent, UNKNOWN) == Detections(es, agent, "")
  {
    if es != [] {
      FoldAgreesWithScan(es[..|es| - 1], agent);
    }
  }

  /** Fold and scan give every agent the same exponent, however much of the log has been written. */
  ghost predicate AgreeThroughout(es: seq<Event>) {
    forall n: nat :: n <= |es| ==> AgreeOn(es[..n])
  }

  ghost predicate AgreeOn(es: seq<Event>) {
    forall agent :: Less1(Detections(es, agent, UNKNOWN)) == Less1(Detections(es, agent, ""))
  }

  /** Two counts with the same exponent: the first detection does not show. */
  predicate Near(a: nat, b: nat) {
    a == b || (a <= 1 && b <= 1)
  }

  lemma NearIff(a: nat, b: nat)
    ensures Near(a, b) <==> Less1(a) == Less1(b)
  {
  }

  /** The two stand-ins for a missing name, "unknown" and the empty one, as the fold counts them and as the scan does. */
  datatype Counts = Counts(unknownFold: nat, unknownScan: nat, emptyFold: nat, emptyScan: nat)

  function CountsOf(es: seq<Event>): Counts {
    Counts(Detections(es, UNKNOWN, UNKNOWN), Detections(es, UNKNOWN, ""), Detections(es, "", UNKNOWN), Detections(es, "", ""))
  }

  /** Event `e`, written when the counts are `c`, sets no exponent of the fold apart from the scan's: a detection or a
      success without a name is booked on one stand-in by the fold and on the other by the scan, and a detection that
      names a stand-in may show in one of them only. */
  predicate HarmlessOn(c: Counts, e: Event) {
    if e.kind.Detected? then
      match e.agent
      case None => Near(c.unknownFold + 1, c.unknownScan) && Near(c.emptyFold, c.emptyScan + 1)
      case Some(name) =>
        && (name == UNKNOWN ==> Near(c.unknownFold + 1, c.unknownScan + 1))
        && (name == "" ==> Near(c.emptyFold + 1, c.emptyScan + 1))
    else e.kind == Usage(true) && e.agent.None? ==> Near(0, c.unknownScan) && Near(c.emptyFold, 0)
  }

  predicate Harmless(before: seq<Event>, e: Event) {
    HarmlessOn(CountsOf(before), e)
  }

  predicate AllHarmless(es: seq<Event>) {
    forall i :: 0 <= i < |es| ==> HarmlessAt(es, i)
  }

  predicate HarmlessAt(es: seq<Event>, i: nat)
    requires i < |es|
  {
    Harmless(es[..i], es[i])
  }

  lemma AgreeIff(es: seq<Event>)
    ensures var c := CountsOf(es);
            AgreeOn(es) <==> Near(c.unknownFold, c.unknownScan) && Near(c.emptyFold, c.emptyScan)
  {
    forall agent | agent != UNKNOWN && agent != ""
      ensures Detections(es, agent, UNKNOWN) == Detections(es, agent, "")
    {
      FoldAgreesWithScan(es, agent);
    }
    NearIff(Detections(es, UNKNOWN, UNKNOWN), Detections(es, UNKNOWN, ""));
    NearIff(Detections(es, "", UNKNOWN), Detections(es, "", ""));
  }

  /** What an event does to one count. */
  function Counted(n: nat, mine: bool, e: Event): nat {
    if !mine then n else if e.kind.Detected? then n + 1 else if e.kind == Usage(true) then 0 else n
  }

  lemma CountsStep(es: seq<Event>, e: Event)
    ensures var c, c' := CountsOf(es), CountsOf(es + [e]);
            && c'.unknownFold == Counted(c.unknownFold, e.agent.None? || e.agent.value == UNKNOWN, e)
            && c'.unknownScan == Counted(c.unknownScan, e.agent == Some(UNKNOWN), e)
            && c'.emptyFold == Counted(c.emptyFold, e.agent == Some(""), e)
            && c'.emptyScan == Counted(c.emptyScan, e.agent.None? || e.agent.value == "", e)
  {
    assert (es + [e])[..|es|] == es;
  }

  /** One more event keeps the two in step exactly when it is harmless. */
  lemma OneMoreAgrees(es: seq<Event>, e: Event)
    requires AgreeOn(es)
    ensures AgreeOn(es + [e]) <==> Harmless(es, e)
  {
    AgreeIff(es);
    AgreeIff(es + [e]);
    CountsStep(es, e);
  }

  /** The exact condition: the fold and the separate scan give every agent the same exponent throughout if and only if
      every event is harmless when it is written. */
  lemma {:induction false} FoldAgreesIff(es: seq<Event>)
    ensures AgreeThroughout(es) <==> AllHarmless(es)
  {
    if es == [] {
      assert es[..0] == [];
    } else {
      var front, e := es[..|es| - 1], es[|es| - 1];
      FoldAgreesIff(front);
      ThroughoutSplit(front, e);
      HarmlessSplit(front, e);
      assert front + [e] == es;
    }
  }

  lemma ThroughoutSplit(front: seq<Event>, e: Event)
    ensures AgreeThroughout(front + [e]) <==> AgreeThroughout(front) && Harmless(front, e)
  {
    var es := front + [e];
    assert forall n: nat :: n <= |front| ==> es[..n] == front[..n];
    assert es[..|es|] == es && front[..|front|] == front;
    if AgreeThroughout(front) {
      assert AgreeOn(front[..|front|]);
      OneMoreAgrees(front, e);
      assert AgreeThroughout(es) <==> AgreeOn(es);
    } else {
      var n: nat :| n <= |front| && !AgreeOn(front[..n]);
      assert !AgreeOn(es[..n]);
    }
  }

  lemma HarmlessSplit(front: seq<Event>, e: Event)
    ensures AllHarmless(front + [e]) <==> AllHarmless(front) && Harmless(front, e)
  {
    var es := front + [e];
    assert forall i :: 0 <= i < |front| ==> es[..i] == front[..i];
    assert es[..|front|] == front;
    assert forall i :: 0 <= i < |front| ==> (HarmlessAt(es, i) <==> HarmlessAt(front, i));
    assert HarmlessAt(es, |front|) <==> Harmless(front, e);
  }

  /** For instance, two detections that name no agent raise the exponent of "unknown" in the fold only, and that of
      "" in the scan only. */
  lemma NamelessEventsPartThem(e: Event)
    requires e.kind.Detected? && e.agent.None?
    ensures Less1(Detections([e, e], UNKNOWN, UNKNOWN)) == 1 && Less1(Detections([e, e], UNKNOWN, "")) == 0
    ensures Less1(Detections([e, e], "", UNKNOWN)) == 0 && Less1(Detections([e, e], "", "")) == 1
  {
    assert [e, e][..1] == [e] && [e][..0] == [];
    assert Detections([e], UNKNOWN, UNKNOWN) == 1 && Detections([e], UNKNOWN, "") == 0;
    assert Detections([e], "", UNKNOWN) == 0 && Detections([e], "", "") == 1;
  }

  // ---------------------------------------------------------------- the two verdicts

  /** Time stamps never go back in the order of writing. */
  predicate InTimeOrder(es: seq<Event>) {
    forall i, j :: 0 <= i < j < |es| && es[i].ts.Some? && es[j].ts.Some? ==> es[i].ts.value <= es[j].ts.value
  }

  /** The verdict is on the round that just ran: it is "killed for memory" exactly when a kill was logged after
      the newest round start, or in the very same millisecond as it. */
  lemma KilledMeansThisRound(es: seq<Event>)
    requires InTimeOrder(es)
    ensures KilledByLog(es) <==> exists start, kill :: LastStart(es, start) && LastKill(es, kill) && (kill > start || es[kill].ts == es[start].ts)
  {
    if start, kill :| LastStart(es, start) && LastKill(es, kill) && es[start].ts.value <= es[kill].ts.value {
      assert kill < start ==> es[kill].ts.value <= es[start].ts.value;
      assert kill != start;
    }
    if start, kill :| LastStart(es, start) && LastKill(es, kill) && (kill > start || es[kill].ts == es[start].ts) {
      assert es[start].ts.value <= es[kill].ts.value;
    }
  }

  /** Whose usage counts for the round that ran. */
  function UsageMark(ranAgent: Option<string>): Mark {
    if ranAgent.Some? then UsageBy(ranAgent.value) else AnyUsage
  }

  predicate CapableOf(es: seq<Event>, ranAgent: Option<string>) {
    exists i :: 0 <= i < |es| && es[i].kind.Usage? && (ranAgent.None? || Label(es[i], UNKNOWN) == ranAgent.value)
  }

  /** The outcome's half of the no-progress verdict. */
  predicate NoUsage(es: seq<Event>, ranAgent: Option<string>) {
    && CapableOf(es, ranAgent)
    && NewestStamp(es, Began).Some?
    && (NewestStamp(es, UsageMark(ranAgent)).Some? ==>
          NewestStamp(es, UsageMark(ranAgent)).value < NewestStamp(es, Began).value)
  }

  method RoundHadNoProgress(returncode: int, durationS: real, thresholdS: real, throttleActive: bool, es: seq<Event>, ranAgent: Option<string>)
    returns (r: bool)
    ensures r <==> !throttleActive && returncode == 0 && durationS < thresholdS && NoUsage(es, ranAgent)
  {
    if throttleActive || returncode != 0 || durationS >= thresholdS {
      return false;
    }
    var o := FoldRound(es, ranAgent);
    var capable, newest := o.usageCapable, o.newestUsage;
    if o.ranAgent.Some? {
      var a := o.ranAgent.value;
      capable := a in o.capableBy;
      newest := if a in o.newestUsageBy then Some(o.newestUsageBy[a]) else None;
    }
    CapableIff(es, ranAgent);
    if !capable || o.newestBefore.None? {
      return false;
    }
    if newest.None? {
      return true;
    }
    return newest.value < o.newestBefore.value;
  }

  lemma CapableIff(es: seq<Event>, ranAgent: Option<string>)
    ensures CapableOf(es, ranAgent) <==> if ranAgent.Some? then ReportsUsage(es, ranAgent.value) else exists a :: ReportsUsage(es, a)
  {
    if ranAgent.None? && CapableOf(es, ranAgent) {
      var i :| 0 <= i < |es| && es[i].kind.Usage?;
      assert ReportsUsage(es, Label(es[i], UNKNOWN));
    }
  }

  /** All stamped events of a mark lie before event `n`, in time and in the log. */
  predicate AllBefore(es: seq<Event>, m: Mark, n: nat)
    requires 0 < n <= |es| && es[n - 1].ts.Some?
  {
    forall i :: 0 <= i < |es| && Marks(es[i], m) && es[i].ts.Some? ==> i < n && es[i].ts.value < es[n - 1].ts.value
  }

  lemma NewestBefore(es: seq<Event>, m: Mark, n: nat)
    requires InTimeOrder(es) && 0 < n <= |es| && es[n - 1].ts.Some?
    ensures AllBefore(es, m, n) <==> (NewestStamp(es, m).Some? ==> NewestStamp(es, m).value < es[n - 1].ts.value)
  {
    var last := LastMark(es, m);
    if last > 0 {
      assert Marks(es[last - 1], m) && es[last - 1].ts == NewestStamp(es, m);
      forall i | 0 <= i < |es| && Marks(es[i], m) && es[i].ts.Some? && NewestStamp(es, m).value < es[n - 1].ts.value
        ensures i < n && es[i].ts.value < es[n - 1].ts.value
      {
        assert i < last;
      }
    }
  }

  /** No progress means: since the newest round start, and in its millisecond, the log shows no stamped usage of
      the agent that ran, though that agent is known to report it. */
  lemma NoUsageMeansThisRound(es: seq<Event>, ranAgent: Option<string>)
    requires InTimeOrder(es)
    ensures NoUsage(es, ranAgent) <==>
              && (exists i :: 0 <= i < |es| && ReportsAt(es, ranAgent, i))
              && exists start :: LastStart(es, start) && UsageBefore(es, ranAgent, start)
  {
    StartMeans(es);
    CapableMeans(es, ranAgent);
    var n := LastMark(es, Began);
    if n > 0 {
      NewestBefore(es, UsageMark(ranAgent), n);
      assert LastStart(es, n - 1);
      UsageBeforeMeans(es, ranAgent, n - 1);
    }
  }

  ghost predicate UsageBefore(es: seq<Event>, ranAgent: Option<string>, start: int)
    requires 0 <= start < |es| && es[start].ts.Some?
  {
    forall i :: UsageAt(es, ranAgent, i) ==> i < start && es[i].ts.value < es[start].ts.value
  }

  lemma UsageBeforeMeans(es: seq<Event>, ranAgent: Option<string>, start: nat)
    requires start < |es| && es[start].ts.Some?
    ensures AllBefore(es, UsageMark(ranAgent), start + 1) <==> UsageBefore(es, ranAgent, start)
  {
    assert forall i :: 0 <= i < |es| ==> (UsageAt(es, ranAgent, i) <==> Marks(es[i], UsageMark(ranAgent)) && es[i].ts.Some?);
  }

  /** A usage report, stamped or not, of the agent that ran, or of any if that is not known. */
  predicate ReportsAt(es: seq<Event>, ranAgent: Option<string>, i: int)
    requires 0 <= i < |es|
  {
    && (es[i].kind == Usage(true) || es[i].kind == Usage(false))
    && (ranAgent.Some? ==> ranAgent.value == if es[i].agent.Some? then es[i].agent.value else "unknown")
  }

  lemma CapableMeans(es: seq<Event>, ranAgent: Option<string>)
    ensures CapableOf(es, ranAgent) <==> exists i :: 0 <= i < |es| && ReportsAt(es, ranAgent, i)
  {
    if CapableOf(es, ranAgent) {
      var i :| 0 <= i < |es| && es[i].kind.Usage? && (ranAgent.None? || Label(es[i], UNKNOWN) == ranAgent.value);
      assert ReportsAt(es, ranAgent, i);
    }
  }
}
