/** Recovery breadcrumbs: the skip path announces that a throttle has ended by writing into the very log its
    state is read from. */
module Recovery {
  import opened Wrappers
  import opened Throttle

  function Breadcrumb(c: Cleared, stamp: Option<int>): Event {
    Event(Recovered, Some(c.agent), stamp, Some(c.classification), None, None, None)
  }

  function Breadcrumbs(cleared: seq<Cleared>, stamp: Option<int>): seq<Event> {
    if cleared == [] then [] else Breadcrumbs(cleared[..|cleared| - 1], stamp) + [Breadcrumb(cleared[|cleared| - 1], stamp)]
  }

  /** One more breadcrumb: the agent it names is recovered, nothing else has changed. */
  lemma OneBreadcrumb(es: seq<Event>, c: Cleared, stamp: Option<int>, b: string, missing: string)
    ensures LastTransient(es + [Breadcrumb(c, stamp)], b)
            == if b == c.agent then Some(Breadcrumb(c, stamp)) else LastTransient(es, b)
    ensures Detections(es + [Breadcrumb(c, stamp)], b, missing) == Detections(es, b, missing)
  {
    assert (es + [Breadcrumb(c, stamp)])[..|es|] == es;
  }

  lemma {:induction false} AfterBreadcrumbs(es: seq<Event>, cleared: seq<Cleared>, stamp: Option<int>, b: string, missing: string)
    ensures if b in Agents(cleared) then IsRecovered(es + Breadcrumbs(cleared, stamp), b)
            else LastTransient(es + Breadcrumbs(cleared, stamp), b) == LastTransient(es, b)
    ensures Detections(es + Breadcrumbs(cleared, stamp), b, missing) == Detections(es, b, missing)
  {
    if cleared == [] {
      assert es + Breadcrumbs(cleared, stamp) == es;
    } else {
      var front, last := cleared[..|cleared| - 1], cleared[|cleared| - 1];
      AfterBreadcrumbs(es, front, stamp, b, missing);
      OneBreadcrumb(es + Breadcrumbs(front, stamp), last, stamp, b, missing);
      assert es + Breadcrumbs(cleared, stamp) == es + Breadcrumbs(front, stamp) + [Breadcrumb(last, stamp)];
      assert Agents(cleared) == Agents(front) + [last.agent];
    }
  }

  ghost predicate IsPendingList(agents: seq<string>, es: seq<Event>, now: real) {
    NoRepeats(agents) && forall a :: a in agents <==> IsPending(es, a, now)
  }

  /** Announcing the pending agents leaves none pending at that time, makes exactly them recovered, and leaves
      every active throttle as it was. */
  lemma Announced(es: seq<Event>, cleared: seq<Cleared>, stamp: Option<int>, now: real, b: string)
    requires IsPendingList(Agents(cleared), es, now)
    ensures var es' := es + Breadcrumbs(cleared, stamp);
            && !IsPending(es', b, now)
            && IsActive(es', b, now) == IsActive(es, b, now)
            && (IsActive(es, b, now) ==> StateOf(es', b, now) == StateOf(es, b, now))
            && (IsRecovered(es', b) <==> IsRecovered(es, b) || IsPending(es, b, now))
  {
    AfterBreadcrumbs(es, cleared, stamp, b, "");
  }

  /** The log with an event behind it for each announcement, in order. */
  ghost predicate Written(log: seq<Event>, es: seq<Event>, cleared: seq<Cleared>, stamp: Option<int>) {
    && |log| == |es| + |cleared|
    && log[..|es|] == es
    && forall i :: 0 <= i < |cleared| ==>
      log[|es| + i] == Event(Recovered, Some(cleared[i].agent), stamp, Some(cleared[i].classification), None, None, None)
  }

  lemma {:induction false} BreadcrumbsWritten(es: seq<Event>, cleared: seq<Cleared>, stamp: Option<int>)
    ensures Written(es + Breadcrumbs(cleared, stamp), es, cleared, stamp)
  {
    if cleared != [] {
      var front := cleared[..|cleared| - 1];
      BreadcrumbsWritten(es, front, stamp);
      assert es + Breadcrumbs(cleared, stamp) == es + Breadcrumbs(front, stamp) + [Breadcrumb(cleared[|cleared| - 1], stamp)];
    }
  }

  method MaybeEmitRecovered(es: seq<Event>, active: map<string, Throttled>, stamp: Option<int>, now: real)
    returns (log: seq<Event>, cleared: seq<Cleared>)
    requires IsActiveMap(active, es, now)
    ensures IsPendingList(Agents(cleared), es, now) && Written(log, es, cleared, stamp)
    ensures forall a :: !IsPending(log, a, now)
    ensures IsActiveMap(active, log, now)
  {
    cleared := ToAnnounce(es, active, now);
    log := es;
    for i := 0 to |cleared|
      invariant log == es + Breadcrumbs(cleared[..i], stamp)
    {
      assert cleared[..i + 1][..i] == cleared[..i];
      log := log + [Breadcrumb(cleared[i], stamp)];
    }
    assert cleared[..|cleared|] == cleared;
    BreadcrumbsWritten(es, cleared, stamp);
    AllAnnounced(es, cleared, stamp, now, active);
  }

  method ToAnnounce(es: seq<Event>, active: map<string, Throttled>, now: real) returns (cleared: seq<Cleared>)
    requires IsActiveMap(active, es, now)
    ensures IsPendingList(Agents(cleared), es, now)
  {
    cleared := PendingRecovered(es, now, active);
  }

  lemma AllAnnounced(es: seq<Event>, cleared: seq<Cleared>, stamp: Option<int>, now: real, active: map<string, Throttled>)
    requires IsPendingList(Agents(cleared), es, now) && IsActiveMap(active, es, now)
    ensures var log := es + Breadcrumbs(cleared, stamp); (forall a :: !IsPending(log, a, now)) && IsActiveMap(active, log, now)
  {
    var log := es + Breadcrumbs(cleared, stamp);
    forall a
      ensures !IsPending(log, a, now) && IsActive(log, a, now) == IsActive(es, a, now)
      ensures IsActive(es, a, now) ==> StateOf(log, a, now) == StateOf(es, a, now)
    {
      Announced(es, cleared, stamp, now, a);
    }
  }

  // ---------------------------------------------------------------- over whole runs

  /** The log, and how often the skip path has announced `agent` since its last detection. */
  datatype State = State(es: seq<Event>, announced: nat)

  /** Anything may be written to the log, by anyone; the skip path announces what is pending at its time. */
  datatype Step = Write(event: Event) | Skip(cleared: seq<Cleared>, stamp: Option<int>, now: real)

  ghost predicate Enabled(s: State, a: Step) {
    a.Skip? ==> IsPendingList(Agents(a.cleared), s.es, a.now)
  }

  function Do(s: State, a: Step, agent: string): State {
    match a
    case Write(e) => State(s.es + [e], if e.kind.Detected? && Label(e, UNKNOWN) == agent then 0 else s.announced)
    case Skip(cleared, stamp, _) =>
      State(s.es + Breadcrumbs(cleared, stamp), if agent in Agents(cleared) then s.announced + 1 else s.announced)
  }

  ghost predicate Inv(s: State, agent: string) {
    s.announced <= 1 && (s.announced == 1 ==> IsRecovered(s.es, agent))
  }

  lemma StepKeepsInv(s: State, a: Step, agent: string)
    requires Inv(s, agent) && Enabled(s, a)
    ensures Inv(Do(s, a, agent), agent)
  {
    match a
    case Write(e) =>
      assert (s.es + [e])[..|s.es|] == s.es;
    case Skip(cleared, stamp, now) =>
      AfterBreadcrumbs(s.es, cleared, stamp, agent, "");
  }

  /** Between two detections of an agent the skip path announces its recovery at most once, whatever else is
      written, whenever it looks. */
  lemma {:induction false} AtMostOneBreadcrumb(ss: seq<State>, as_: seq<Step>, agent: string, n: nat)
    requires |ss| == |as_| + 1 && n < |ss|
    requires forall i :: 0 <= i < |as_| ==> Enabled(ss[i], as_[i]) && ss[i + 1] == Do(ss[i], as_[i], agent)
    requires ss[0].announced == 0
    ensures ss[n].announced <= 1 && Inv(ss[n], agent)
  {
    if n > 0 {
      AtMostOneBreadcrumb(ss, as_, agent, n - 1);
      StepKeepsInv(ss[n - 1], as_[n - 1], agent);
    }
  }

  // ---------------------------------------------------------------- time alone

  /** With nothing new in the log, an agent that is not active can become so as time passes exactly when its
      detection announces a reset more than a year ahead: until that comes within the sane range it is ignored. */
  lemma ReentersIff(es: seq<Event>, agent: string, now: real)
    requires now >= ABSOLUTE_CAP_S as real && Unrecovered(es, agent).Some? && !IsActive(es, agent, now)
    ensures (exists later: real :: later >= now && IsActive(es, agent, later))
            <==> Unrecovered(es, agent).value.resetAt.GetOr(0) as real > now + SANITY_WINDOW_S as real
  {
    var e := Unrecovered(es, agent).value;
    var v := e.resetAt.GetOr(0);
    if v as real > now + SANITY_WINDOW_S as real {
      var later := v as real - SANITY_WINDOW_S as real;
      ExtensionBounds(e.classification.GetOr("rate_limit_account"), v, Less1(Detections(es, agent, "")));
      assert later >= now && IsActive(es, agent, later);
    } else {
      forall later: real | later >= now
        ensures !IsActive(es, agent, later)
      {
        assert CoerceEpoch(e.resetAt, later) == CoerceEpoch(e.resetAt, now);
      }
    }
  }
}
