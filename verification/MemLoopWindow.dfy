/** The cross-restart limit on mem-loop stops: each process counts the `mem_loop` events of the last two hours
    in the event log, and the third such stop in that window is final and logs no `mem_loop` of its own.
    Clock readings are in microseconds; time stamps in the log are whole milliseconds, cut off, not rounded. */
module MemLoopWindow {
  const WINDOW_US: int := 7200 * 1000 * 1000
  const THRESHOLD := 3

  function Stamp(us: int): int {
    us / 1000
  }

  /** One give-up over memory, in whatever process: the clock when the window is counted, and when the event
      is written. */
  datatype Stop = Stop(checked: int, written: int)

  /** The clock never goes back. */
  predicate ClockForward(stops: seq<Stop>) {
    && (forall i :: 0 <= i < |stops| ==> 0 <= stops[i].checked <= stops[i].written)
    && (forall i, j :: 0 <= i < j < |stops| ==> stops[i].written <= stops[j].checked)
  }

  /** The `mem_loop` events stamped within the window before `now`, both ends included. */
  function CountInWindow(log: seq<int>, now: int): nat {
    if log == [] then 0
    else CountInWindow(log[..|log| - 1], now) + if log[|log| - 1] * 1000 >= now - WINDOW_US then 1 else 0
  }

  lemma {:induction false} CountAppend(a: seq<int>, b: seq<int>, now: int)
    ensures CountInWindow(a + b, now) == CountInWindow(a, now) + CountInWindow(b, now)
    decreases b
  {
    if b == [] {
      assert a + b == a;
    } else {
      assert (a + b)[..|a + b| - 1] == a + b[..|b| - 1];
      CountAppend(a, b[..|b| - 1], now);
    }
  }

  /** Wherever in the log an event stands, it counts exactly when it is stamped two hours or less before `now`. */
  lemma EachCounts(a: seq<int>, e: int, b: seq<int>, now: int)
    ensures CountInWindow([], now) == 0
    ensures CountInWindow(a + [e] + b, now) == CountInWindow(a + b, now) + if now - e * 1000 <= 7_200_000_000 then 1 else 0
  {
    CountAppend(a + [e], b, now);
    CountAppend(a, [e], now);
    CountAppend(a, b, now);
  }

  /** The log after the stops, oldest event first. */
  function LogAfter(stops: seq<Stop>): seq<int> {
    if stops == [] then []
    else
      LogAfterStop(LogAfter(stops[..|stops| - 1]), stops[|stops| - 1])
  }

  function LogAfterStop(log: seq<int>, stop: Stop): seq<int> {
    if Final(log, stop) then log else log + [Stamp(stop.written)]
  }

  /** The stop is the third in the window: serve exits for good, and this one is not logged. */
  predicate Final(log: seq<int>, stop: Stop) {
    CountInWindow(log, stop.checked) + 1 >= THRESHOLD
  }

  method MemLoopEventsInWindow(log: seq<int>, now: int) returns (count: nat)
    ensures count == CountInWindow(log, now)
  {
    var cutoff := now - WINDOW_US;
    count := 0;
    for i := 0 to |log|
      invariant count == CountInWindow(log[..i], now)
    {
      assert log[..i + 1][..i] == log[..i];
      if log[i] * 1000 >= cutoff {
        count := count + 1;
      }
    }
    assert log[..|log|] == log;
  }

  /** The exit code of stop `k`. */
  function ExitOf(stops: seq<Stop>, k: nat): int
    requires k < |stops|
  {
    if Final(LogAfter(stops[..k]), stops[k]) then 70 else 71
  }

  /** Process after process: each stop exits 70 if it is the third in the window, else 71. */
  method StopAgainAndAgain(stops: seq<Stop>) returns (log: seq<int>, exits: seq<int>)
    ensures log == LogAfter(stops) && |exits| == |stops|
    ensures forall k :: 0 <= k < |stops| ==> exits[k] == ExitOf(stops, k)
  {
    log, exits := [], [];
    for k := 0 to |stops|
      invariant log == LogAfter(stops[..k]) && |exits| == k
      invariant forall i :: 0 <= i < k ==> exits[i] == ExitOf(stops, i)
    {
      assert stops[..k + 1][..k] == stops[..k];
      var prior := MemLoopEventsInWindow(log, stops[k].checked);
      if prior + 1 >= THRESHOLD {
        exits := exits + [70];
      } else {
        exits := exits + [71];
        log := log + [Stamp(stops[k].written)];
      }
    }
    assert stops[..|stops|] == stops;
  }

  predicate Sorted(log: seq<int>) {
    forall i, j :: 0 <= i < j < |log| ==> log[i] <= log[j]
  }

  /** In a sorted log two or more events are in the window exactly when the last but one is. */
  lemma {:induction false} TwoInWindow(log: seq<int>, now: int)
    requires Sorted(log)
    ensures CountInWindow(log, now) >= 2 <==> |log| >= 2 && log[|log| - 2] * 1000 >= now - 7_200_000_000
    ensures CountInWindow(log, now) == 0 || log[|log| - 1] * 1000 >= now - 7_200_000_000
  {
    if log != [] {
      TwoInWindow(log[..|log| - 1], now);
    }
  }

  predicate SortedUpTo(log: seq<int>, top: int) {
    Sorted(log) && forall i :: 0 <= i < |log| ==> log[i] <= top
  }

  lemma {:induction false} LogSorted(stops: seq<Stop>)
    requires ClockForward(stops)
    ensures Sorted(LogAfter(stops))
    ensures stops != [] ==> SortedUpTo(LogAfter(stops), Stamp(stops[|stops| - 1].written))
  {
    if stops != [] {
      var front, stop := stops[..|stops| - 1], stops[|stops| - 1];
      LogSorted(front);
      if front != [] {
        StampMonotone(front[|front| - 1].written, stop.written);
      }
      OneMore(LogAfter(front), stop);
    }
  }

  lemma OneMore(log: seq<int>, stop: Stop)
    requires SortedUpTo(log, Stamp(stop.written))
    ensures SortedUpTo(LogAfterStop(log, stop), Stamp(stop.written))
  {
  }

  lemma StampMonotone(a: int, b: int)
    requires a <= b
    ensures Stamp(a) <= Stamp(b)
  {
  }

  /** Any three events of the log span two hours or more. */
  predicate Spaced(log: seq<int>) {
    forall i :: 0 <= i < |log| - 2 ==> log[i + 2] - log[i] >= 7_200_000
  }

  /** An event logged after at least two others lies two hours or more past the last but one. */
  lemma NextIsSpaced(log: seq<int>, stop: Stop)
    requires Sorted(log) && |log| >= 2 && !Final(log, stop) && stop.checked <= stop.written
    ensures Stamp(stop.written) - log[|log| - 2] >= 7_200_000
    ensures stop.checked % 1000 == 0 ==> Stamp(stop.written) - log[|log| - 2] > 7_200_000
  {
    TwoInWindow(log, stop.checked);
    StampMonotone(stop.checked, stop.written);
  }

  /** Over any number of serve processes no interval shorter than two hours holds three `mem_loop` events. */
  lemma {:induction false} NoThreeWithinTheWindow(stops: seq<Stop>)
    requires ClockForward(stops)
    ensures Spaced(LogAfter(stops))
  {
    if stops != [] {
      var front, stop := stops[..|stops| - 1], stops[|stops| - 1];
      NoThreeWithinTheWindow(front);
      LogSorted(front);
      var log := LogAfter(front);
      if !Final(log, stop) && |log| >= 2 {
        NextIsSpaced(log, stop);
      }
    }
  }

  /** The stop comes so soon after the last but one event that both clock readings fall inside the millisecond in
      which two hours have passed since, and past its start. */
  predicate Slips(log: seq<int>, stop: Stop) {
    && |log| >= 2
    && log[|log| - 2] * 1000 + 7_200_000_000 < stop.checked
    && stop.written < log[|log| - 2] * 1000 + 7_200_000_000 + 1000
  }

  /** An interval of exactly two hours can hold three events: a stop is still logged two hours to the millisecond
      after the last but one event exactly when it slips in like that. */
  lemma ExactlyTwoHoursIff(log: seq<int>, stop: Stop)
    requires Sorted(log) && |log| >= 2 && stop.checked <= stop.written
    ensures LogAfterStop(log, stop) == log + [log[|log| - 2] + 7_200_000] <==> Slips(log, stop)
  {
    TwoInWindow(log, stop.checked);
    assert (log + [Stamp(stop.written)])[|log|] == Stamp(stop.written);
    assert (log + [log[|log| - 2] + 7_200_000])[|log|] == log[|log| - 2] + 7_200_000;
  }

  predicate WideAt(log: seq<int>, i: nat)
    requires i + 2 < |log|
  {
    log[i + 2] - log[i] > 7_200_000
  }

  /** Any three events in a row span more than two hours. */
  predicate WidelySpaced(log: seq<int>) {
    forall i: nat :: i < |log| - 2 ==> WideAt(log, i)
  }

  predicate FarApart(log: seq<int>, i: nat, k: nat)
    requires i < |log| && k < |log|
  {
    log[k] - log[i] > 7_200_000
  }

  /** No closed interval of two hours holds three events: of any two with another between them, the later is farther off. */
  predicate NoClosedWindowOfThree(log: seq<int>) {
    forall i: nat, k: nat :: i + 1 < k < |log| ==> FarApart(log, i, k)
  }

  lemma WidelySpacedIff(log: seq<int>)
    requires Sorted(log)
    ensures WidelySpaced(log) <==> NoClosedWindowOfThree(log)
  {
    if WidelySpaced(log) {
      forall i: nat, k: nat | i + 1 < k < |log|
        ensures FarApart(log, i, k)
      {
        assert WideAt(log, i) && (k == i + 2 || log[i + 2] <= log[k]);
      }
    } else {
      var i: nat :| i < |log| - 2 && !WideAt(log, i);
      assert !FarApart(log, i, i + 2);
    }
  }

  predicate NoneSlips(stops: seq<Stop>) {
    forall k :: 0 <= k < |stops| ==> !SlipsAt(stops, k)
  }

  predicate SlipsAt(stops: seq<Stop>, k: nat)
    requires k < |stops|
  {
    Slips(LogAfter(stops[..k]), stops[k])
  }

  lemma NoneSlipsSplit(front: seq<Stop>, stop: Stop)
    ensures NoneSlips(front + [stop]) <==> NoneSlips(front) && !Slips(LogAfter(front), stop)
  {
    var stops := front + [stop];
    assert stops[..|front|] == front;
    assert forall k :: 0 <= k < |front| ==> stops[..k] == front[..k];
    assert SlipsAt(stops, |front|) <==> Slips(LogAfter(front), stop);
    assert forall k :: 0 <= k < |front| ==> (SlipsAt(stops, k) <==> SlipsAt(front, k));
  }

  lemma OneMoreSpacedIff(log: seq<int>, stop: Stop)
    requires Sorted(log) && stop.checked <= stop.written
    ensures WidelySpaced(LogAfterStop(log, stop)) <==> WidelySpaced(log) && !Slips(log, stop)
  {
    TwoInWindow(log, stop.checked);
    if !Final(log, stop) {
      AppendSpacedIff(log, Stamp(stop.written));
      if |log| >= 2 {
        NextIsSpaced(log, stop);
      }
    }
  }

  lemma AppendSpacedIff(log: seq<int>, stamp: int)
    ensures WidelySpaced(log + [stamp]) <==> WidelySpaced(log) && (|log| >= 2 ==> stamp - log[|log| - 2] > 7_200_000)
  {
    var after := log + [stamp];
    assert forall i: nat :: i < |log| - 2 ==> WideAt(after, i) == WideAt(log, i);
    assert |log| >= 2 ==> WideAt(after, |log| - 2) == (stamp - log[|log| - 2] > 7_200_000);
  }

  /** Over any number of serve processes, no closed interval of two hours holds three `mem_loop` events if and only
      if no stop slips in. */
  lemma ClosedWindowIff(stops: seq<Stop>)
    requires ClockForward(stops)
    ensures NoClosedWindowOfThree(LogAfter(stops)) <==> NoneSlips(stops)
  {
    SpacedIffNoneSlips(stops);
    LogSorted(stops);
    WidelySpacedIff(LogAfter(stops));
  }

  lemma {:induction false} SpacedIffNoneSlips(stops: seq<Stop>)
    requires ClockForward(stops)
    ensures WidelySpaced(LogAfter(stops)) <==> NoneSlips(stops)
  {
    if stops != [] {
      var front, stop := stops[..|stops| - 1], stops[|stops| - 1];
      assert front + [stop] == stops;
      SpacedIffNoneSlips(front);
      ClosedWindowStep(front, stop);
    }
  }

  lemma ClosedWindowStep(front: seq<Stop>, stop: Stop)
    requires ClockForward(front) && stop.checked <= stop.written
    requires WidelySpaced(LogAfter(front)) <==> NoneSlips(front)
    ensures WidelySpaced(LogAfter(front + [stop])) <==> NoneSlips(front + [stop])
  {
    LogSorted(front);
    OneMoreSpacedIff(LogAfter(front), stop);
    NoneSlipsSplit(front, stop);
    assert (front + [stop])[..|front|] == front;
  }

  predicate WholeMilliseconds(stops: seq<Stop>) {
    forall i :: 0 <= i < |stops| ==> stops[i].checked % 1000 == 0
  }

  /** So with a clock of whole milliseconds the closed window holds. */
  lemma NoThreeInTheClosedWindow(stops: seq<Stop>)
    requires ClockForward(stops) && WholeMilliseconds(stops)
    ensures NoClosedWindowOfThree(LogAfter(stops))
  {
    forall k | 0 <= k < |stops|
      ensures !SlipsAt(stops, k)
    {
      NeverSlips(LogAfter(stops[..k]), stops[k]);
    }
    ClosedWindowIff(stops);
  }

  lemma NeverSlips(log: seq<int>, stop: Stop)
    requires stop.checked <= stop.written && stop.checked % 1000 == 0
    ensures !Slips(log, stop)
  {
  }

  /** Stop after stop: one that finds two events within two hours exits 70 and logs nothing, any other exits 71 and logs
      itself, at the millisecond its clock shows. */
  lemma StopMeans(stops: seq<Stop>, k: nat)
    requires ClockForward(stops) && k < |stops|
    ensures var log, now := LogAfter(stops[..k]), stops[k].checked;
            var isThird := |log| >= 2 && now - log[|log| - 2] * 1000 <= 7_200_000_000;
            && ExitOf(stops, k) == (if isThird then 70 else 71)
            && LogAfter(stops[..k + 1]) == if isThird then log else log + [stops[k].written / 1000]
  {
    assert stops[..k + 1] == stops[..k] + [stops[k]];
    FinalOnlyForThree(stops[..k], stops[k]);
  }

  /** And it is no stricter than that: a stop is final only if the log holds two events stamped in the window. */
  lemma FinalOnlyForThree(stops: seq<Stop>, stop: Stop)
    requires ClockForward(stops + [stop])
    ensures var log := LogAfter(stops);
            Final(log, stop) <==> |log| >= 2 && stop.checked <= log[|log| - 2] * 1000 + 7_200_000_000
  {
    assert stops == (stops + [stop])[..|stops|];
    assert ClockForward(stops);
    LogSorted(stops);
    TwoInWindow(LogAfter(stops), stop.checked);
  }
}
