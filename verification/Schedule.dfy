/** Weekly time windows: when rounds may run, and when they may run next. Local time is counted in minutes from
    some Monday at midnight, at a fixed offset from UTC. */
module Schedule {
  import opened Wrappers

  const DAY: int := 1440
  const WEEK: int := 10080
  const HORIZON: int := 11520  // minutes the search for the next opening covers

  /** `start` and `end` are minutes of the day; no days means every day. */
  datatype Window = Window(start: int, end: int, days: set<int>)

  /** What the window parser lets through. */
  predicate ValidWindow(w: Window) {
    0 <= w.start < DAY && 0 < w.end <= DAY && w.start != w.end && forall d :: d in w.days ==> 0 <= d < 7
  }

  predicate Wraps(w: Window) {
    w.start >= w.end
  }

  predicate Contains(w: Window, weekday: int, minute: int) {
    var inTime := if Wraps(w) then minute >= w.start || minute < w.end else w.start <= minute < w.end;
    && inTime
    && (w.days == {} || (if Wraps(w) && minute < w.end then (weekday - 1) % 7 else weekday) in w.days)
  }

  // ---------------------------------------------------------------- windows are arcs of the week

  predicate StartsOn(w: Window, d: int) {
    0 <= d < 7 && (w.days == {} || d in w.days)
  }

  function Length(w: Window): int {
    if Wraps(w) then DAY - w.start + w.end else w.end - w.start
  }

  /** Minute `t` of the week lies on the arc that begins on day `d` and is as long as the window. */
  predicate OnArc(w: Window, d: int, t: int) {
    (t - (d * DAY + w.start)) % WEEK < Length(w)
  }

  lemma ArcOfDay(w: Window, weekday: int, minute: int, d: int)
    requires ValidWindow(w) && 0 <= weekday < 7 && 0 <= minute < DAY && 0 <= d < 7
    ensures OnArc(w, d, weekday * DAY + minute) <==>
              if Wraps(w) && minute < w.end then d == (weekday - 1) % 7
              else d == weekday && minute >= w.start && (Wraps(w) || minute < w.end)
  {
    var gap := weekday - d;
    var x := gap * DAY + (minute - w.start);
    assert weekday * DAY + minute - (d * DAY + w.start) == x;
    if x < 0 {
      assert x % WEEK == x + WEEK;
    } else {
      assert x % WEEK == x;
    }
  }

  /** A window is the union of its arcs, one for each day it starts on: past midnight, and from Sunday night into
      Monday, it runs on as the same stretch of time. */
  lemma ContainsIffOnArc(w: Window, weekday: int, minute: int)
    requires ValidWindow(w) && 0 <= weekday < 7 && 0 <= minute < DAY
    ensures Contains(w, weekday, minute) <==> exists d :: StartsOn(w, d) && OnArc(w, d, weekday * DAY + minute)
  {
    var start := if Wraps(w) && minute < w.end then (weekday - 1) % 7 else weekday;
    ArcOfDay(w, weekday, minute, start);
    if d :| StartsOn(w, d) && OnArc(w, d, weekday * DAY + minute) {
      ArcOfDay(w, weekday, minute, d);
    }
    if Contains(w, weekday, minute) {
      assert StartsOn(w, start);
    }
  }

  // ---------------------------------------------------------------- when to run

  datatype Plan = Plan(runs: seq<Window>, pauses: seq<Window>)

  predicate AnyContains(ws: seq<Window>, weekday: int, minute: int) {
    exists i :: 0 <= i < |ws| && Contains(ws[i], weekday, minute)
  }

  function Weekday(t: int): int {
    (t / DAY) % 7
  }

  predicate RunsOn(p: Plan, weekday: int, minute: int) {
    (p.runs == [] || AnyContains(p.runs, weekday, minute)) && !AnyContains(p.pauses, weekday, minute)
  }

  predicate ShouldRun(p: Plan, t: int) {
    RunsOn(p, Weekday(t), t % DAY)
  }

  /** The plan repeats every week. */
  lemma Weekly(p: Plan, t: int, n: nat)
    ensures ShouldRun(p, t + n * WEEK) == ShouldRun(p, t)
  {
    assert t + n * WEEK == t + (7 * n) * DAY;
    DivShift(t, 7 * n);
    assert (t / DAY + 7 * n) % 7 == (t / DAY) % 7;
  }

  lemma DivShift(t: int, n: int)
    ensures (t + n * DAY) / DAY == t / DAY + n && (t + n * DAY) % DAY == t % DAY
  {
    var q, r := t / DAY, t % DAY;
    assert t + n * DAY == (q + n) * DAY + r;
  }

  /** Minute `t` lies on an arc of one of the windows. */
  ghost predicate OnSomeArc(ws: seq<Window>, t: int) {
    exists i, d :: 0 <= i < |ws| && StartsOn(ws[i], d) && OnArc(ws[i], d, t)
  }

  lemma MinuteOfWeek(w: Window, d: int, t: int)
    ensures OnArc(w, d, t) <==> OnArc(w, d, Weekday(t) * DAY + t % DAY)
  {
    var week := t / DAY / 7;
    var x := Weekday(t) * DAY + t % DAY - (d * DAY + w.start);
    assert t - (d * DAY + w.start) == x + week * WEEK;
    WeekShift(x, week);
  }

  lemma WeekShift(x: int, n: int)
    ensures (x + n * WEEK) % WEEK == x % WEEK
  {
    var q, r := x / WEEK, x % WEEK;
    assert x + n * WEEK == (q + n) * WEEK + r;
  }

  lemma OneArc(w: Window, t: int)
    requires ValidWindow(w)
    ensures Contains(w, Weekday(t), t % DAY) <==> exists d :: StartsOn(w, d) && OnArc(w, d, t)
  {
    ContainsIffOnArc(w, Weekday(t), t % DAY);
    forall d
      ensures OnArc(w, d, t) <==> OnArc(w, d, Weekday(t) * DAY + t % DAY)
    {
      MinuteOfWeek(w, d, t);
    }
  }

  /** A round may run at an instant that lies on an arc of some run window, if there are any, and of no pause window. */
  lemma OpenIff(p: Plan, t: int)
    requires forall i :: 0 <= i < |p.runs| ==> ValidWindow(p.runs[i])
    requires forall i :: 0 <= i < |p.pauses| ==> ValidWindow(p.pauses[i])
    ensures ShouldRun(p, t) <==> (p.runs == [] || OnSomeArc(p.runs, t)) && !OnSomeArc(p.pauses, t)
  {
    SomeArc(p.runs, t);
    SomeArc(p.pauses, t);
  }

  lemma SomeArc(ws: seq<Window>, t: int)
    requires forall i :: 0 <= i < |ws| ==> ValidWindow(ws[i])
    ensures AnyContains(ws, Weekday(t), t % DAY) <==> OnSomeArc(ws, t)
  {
    forall i | 0 <= i < |ws|
      ensures Contains(ws[i], Weekday(t), t % DAY) <==> exists d :: StartsOn(ws[i], d) && OnArc(ws[i], d, t)
    {
      OneArc(ws[i], t);
    }
  }

  predicate ClosedUntil(p: Plan, now: int, t: int) {
    forall x :: now < x < t ==> !ShouldRun(p, x)
  }

  /** `t` is the first minute after `now` at which the plan lets a round run. */
  predicate IsNextOpening(p: Plan, now: int, t: int) {
    now < t && ShouldRun(p, t) && ClosedUntil(p, now, t)
  }

  ghost predicate NeverOpens(p: Plan, now: int) {
    forall t :: now < t ==> !ShouldRun(p, t)
  }

  /** The bounded search is exact and complete: it finds the very next opening, and when it finds none there is
      none, ever. It never has to look further than a week. */
  method NextResumeAt(p: Plan, now: int) returns (r: Option<int>)
    ensures r.Some? ==> IsNextOpening(p, now, r.value) && r.value <= now + WEEK
    ensures r.None? ==> NeverOpens(p, now)
  {
    var k := 1;
    while k <= HORIZON
      invariant 1 <= k <= HORIZON + 1
      invariant forall x :: now < x < now + k ==> !ShouldRun(p, x)
    {
      if ShouldRun(p, now + k) {
        WithinAWeek(p, now, now + k);
        return Some(now + k);
      }
      k := k + 1;
    }
    ClosedAWeek(p, now);
    r := None;
  }

  lemma WithinAWeek(p: Plan, now: int, t: int)
    requires IsNextOpening(p, now, t)
    ensures t <= now + WEEK
  {
    Weekly(p, t - WEEK, 1);
  }

  /** What is closed for a week is closed for good. */
  lemma ClosedAWeek(p: Plan, now: int)
    requires ClosedUntil(p, now, now + WEEK + 1)
    ensures NeverOpens(p, now)
  {
    forall t | now < t
      ensures !ShouldRun(p, t)
    {
      var n := (t - now - 1) / WEEK;
      Weekly(p, t - n * WEEK, n);
    }
  }
}
