/** Which phase runs this round, or until when to wait, and which phases' windows collide. Instants are minutes
    of universal time; each phase's schedule is read at its own fixed offset. */
module PhaseSelect {
  import opened Wrappers
  import opened Schedule

  // ---------------------------------------------------------------- rotation

  function RotationIndex(round: int, n: int): int
    requires n > 0
  {
    (round - 1) % n
  }

  function CandidatePhases(phases: seq<string>, skip: bool, round: int): seq<Option<string>> {
    var n := |phases|;
    if n == 0 then [None]
    else
      var k := RotationIndex(round, n);
      if skip then seq(n, i requires 0 <= i => Some(phases[(k + i) % n])) else [Some(phases[k])]
  }

  /** Whether phases that cannot run are skipped or waited for, every phase leads one round out of any `n` in a
      row, and no phase leads two. */
  lemma EveryPhaseLeadsOnce(phases: seq<string>, skip: bool, from: int, p: nat) returns (round: int)
    requires p < |phases|
    ensures from <= round < from + |phases| && CandidatePhases(phases, skip, round)[0] == Some(phases[p])
    ensures RotationIndex(round, |phases|) == p
    ensures forall r :: from <= r < from + |phases| && RotationIndex(r, |phases|) == p ==> r == round
  {
    round := LedBy(from, p, |phases|);
    assert p % |phases| == p;
  }

  lemma LedBy(from: int, p: int, n: int) returns (round: int)
    requires 0 <= p < n
    ensures from <= round < from + n && RotationIndex(round, n) == p
    ensures forall r :: from <= r < from + n && RotationIndex(r, n) == p ==> r == round
  {
    round := from + (p - (from - 1)) % n;
    Congruent(from - 1, p, n);
    forall r | from <= r < from + n && RotationIndex(r, n) == p
      ensures r == round
    {
      SameResidue(r - 1, round - 1, n);
    }
  }

  lemma Congruent(a: int, p: int, n: int)
    requires 0 <= p < n
    ensures (a + (p - a) % n) % n == p
  {
    var q := (p - a) / n;
    assert a + (p - a) % n == p - q * n;
    ResidueOf(p, -q, n);
  }

  lemma ResidueOf(p: int, q: int, n: int)
    requires 0 <= p < n
    ensures (p + q * n) % n == p
  {
    var x := p + q * n;
    assert (x / n - q) * n + (x % n - p) == 0;
    SmallMultiple(x / n - q, x % n - p, n);
  }

  lemma SmallMultiple(q: int, d: int, n: int)
    requires n > 0 && q * n + d == 0 && -n < d < n
    ensures d == 0
  {
    assert q >= 1 ==> q * n >= n;
    assert q <= -1 ==> q * n <= -n;
  }

  lemma SameResidue(a: int, b: int, n: int)
    requires n > 0 && a % n == b % n && -n < a - b < n
    ensures a == b
  {
    assert (b / n - a / n) * n + (a - b) == 0;
    SmallMultiple(b / n - a / n, a - b, n);
  }

  /** Under "skip" the candidates are all the phases, each position once, starting with the round's own. */
  lemma SkipTakesAll(phases: seq<string>, round: int, p: nat) returns (i: nat)
    requires p < |phases|
    ensures i < |phases| && |CandidatePhases(phases, true, round)| == |phases|
    ensures CandidatePhases(phases, true, round)[i] == Some(phases[p])
  {
    var n, k := |phases|, RotationIndex(round, |phases|);
    i := (p - k) % n;
    Congruent(k, p, n);
  }

  /** The place behind `p`, round and round. */
  function Following(p: nat, n: nat): nat {
    if p + 1 < n then p + 1 else 0
  }

  lemma NextResidue(a: int, n: int)
    requires n > 0
    ensures (a + 1) % n == Following(a % n, n)
  {
    var r := a % n;
    assert a + 1 == (r + 1) + a / n * n;
    if r + 1 < n {
      ResidueOf(r + 1, a / n, n);
    } else {
      assert (a / n + 1) * n == a / n * n + n;
      ResidueOf(0, a / n + 1, n);
    }
  }

  /** Round 1 leads with the first phase, and each round with the phase behind the one that led before it. */
  lemma RotationGoesRound(round: int, n: nat)
    requires n > 0
    ensures RotationIndex(1, n) == 0
    ensures RotationIndex(round + 1, n) == Following(RotationIndex(round, n), n)
  {
    NextResidue(round - 1, n);
  }

  /** `at` are the places of the candidates `cs` in the list: from `lead` on, round and round. */
  predicate GoRound(phases: seq<string>, cs: seq<Option<string>>, lead: int, at: seq<nat>) {
    && |at| == |cs| > 0
    && at[0] == lead
    && (forall i :: 0 <= i < |cs| ==> at[i] < |phases| && cs[i] == Some(phases[at[i]]))
    && forall i :: 0 <= i < |cs| - 1 ==> at[i + 1] == Following(at[i], |phases|)
  }

  function Residue(a: int, n: nat): (r: nat)
    requires n > 0
    ensures r < n
  {
    a % n
  }

  function Places(k: int, n: nat, size: nat): (at: seq<nat>)
    requires n > 0
    ensures |at| == size && forall i :: 0 <= i < size ==> at[i] == Residue(k + i, n)
  {
    if size == 0 then [] else Places(k, n, size - 1) + [Residue(k + size - 1, n)]
  }

  lemma PlacesFollow(k: int, n: nat, size: nat, i: nat)
    requires n > 0 && i + 1 < size
    ensures Places(k, n, size)[i + 1] == Following(Places(k, n, size)[i], n)
  {
    NextResidue(k + i, n);
  }

  lemma CandidateAt(phases: seq<string>, skip: bool, round: int, i: nat)
    requires phases != [] && i < (if skip then |phases| else 1)
    ensures var cs := CandidatePhases(phases, skip, round);
            i < |cs| && cs[i] == Some(phases[Residue(RotationIndex(round, |phases|) + i, |phases|)])
  {
    SmallResidue(RotationIndex(round, |phases|), |phases|);
  }

  /** Under "skip" the leader is followed by the phase behind it in the list, and so on round the list; otherwise it stands
      alone; and without phases there is the one configuration. */
  lemma CandidatesGoRound(phases: seq<string>, skip: bool, round: int)
    ensures var cs := CandidatePhases(phases, skip, round);
            if phases == [] then cs == [None]
            else |cs| == (if skip then |phases| else 1) && exists at :: GoRound(phases, cs, RotationIndex(round, |phases|), at)
  {
    if phases != [] {
      var n, k, cs := |phases|, RotationIndex(round, |phases|), CandidatePhases(phases, skip, round);
      var at := Places(k, n, |cs|);
      SmallResidue(k, n);
      forall i | 0 <= i < |cs|
        ensures at[i] < n && cs[i] == Some(phases[at[i]])
      {
        CandidateAt(phases, skip, round, i);
      }
      forall i | 0 <= i < |cs| - 1
        ensures at[i + 1] == Following(at[i], n)
      {
        PlacesFollow(k, n, |cs|, i);
      }
      assert GoRound(phases, cs, k, at);
    }
  }

  lemma SmallResidue(k: int, n: nat)
    requires 0 <= k < n
    ensures Residue(k, n) == k
  {
  }

  // ---------------------------------------------------------------- selection

  /** A phase to consider: its schedule, its zone's offset, and whether its agent is throttled. */
  datatype Candidate = Candidate(phase: Option<string>, plan: Plan, offset: int, throttled: bool)

  predicate OpenAt(c: Candidate, t: int) {
    ShouldRun(c.plan, t + c.offset)
  }

  predicate Runnable(c: Candidate, now: int) {
    !c.throttled && OpenAt(c, now)
  }

  /** The window that closes a schedule now: a pause window, by position, or none of the run windows. */
  datatype Closing = OutsideRunWindows | Pause(i: nat)

  /** `r` is what closes the schedule: the first pause window that holds, or else no run window does. */
  ghost predicate ClosedBy(p: Plan, t: int, r: Closing) {
    match r
    case Pause(i) =>
      && i < |p.pauses| && Contains(p.pauses[i], Weekday(t), t % DAY)
      && forall j :: 0 <= j < i ==> !Contains(p.pauses[j], Weekday(t), t % DAY)
    case OutsideRunWindows =>
      && !AnyContains(p.pauses, Weekday(t), t % DAY)
      && (!ShouldRun(p, t) ==> p.runs != [] && !AnyContains(p.runs, Weekday(t), t % DAY))
  }

  method ActiveWindow(p: Plan, t: int) returns (r: Closing)
    ensures ClosedBy(p, t, r)
  {
    for i := 0 to |p.pauses|
      invariant forall j :: 0 <= j < i ==> !Contains(p.pauses[j], Weekday(t), t % DAY)
    {
      if Contains(p.pauses[i], Weekday(t), t % DAY) {
        return Pause(i);
      }
    }
    r := OutsideRunWindows;
  }

  /** A pause waits for candidate `owner` to open at `at`. */
  datatype Wait = Wait(at: int, owner: nat, window: Closing)

  datatype Selection =
    | Run(phase: Option<string>, skipped: seq<string>, window: Option<Closing>)
    | Paused(wait: Option<Wait>, window: Option<Closing>)

  function Names(cs: seq<Candidate>): seq<string> {
    if cs == [] then []
    else Names(cs[..|cs| - 1]) + match cs[|cs| - 1].phase
      case Some(name) => [name]
      case None => []
  }

  /** Candidates that are phases are all named, in order; the one configuration has no name. */
  lemma {:induction false} NamesMean(cs: seq<Candidate>)
    ensures (forall j :: 0 <= j < |cs| ==> cs[j].phase.Some?) ==>
              |Names(cs)| == |cs| && forall j :: 0 <= j < |cs| ==> Names(cs)[j] == cs[j].phase.value
    ensures (forall j :: 0 <= j < |cs| ==> cs[j].phase.None?) ==> Names(cs) == []
  {
    if cs != [] {
      NamesMean(cs[..|cs| - 1]);
    }
  }

  /** None of the first `n` candidates that are not throttled opens before `to`, after the clock was read for it. */
  predicate NobodyOpens(cs: seq<Candidate>, nows: seq<int>, n: nat, to: int)
    requires n <= |cs| == |nows|
  {
    forall j, t :: 0 <= j < n && !cs[j].throttled && nows[j] < t < to ==> !OpenAt(cs[j], t)
  }

  ghost predicate NobodyEverOpens(cs: seq<Candidate>, nows: seq<int>, n: nat)
    requires n <= |cs| == |nows|
  {
    forall j, t :: 0 <= j < n && !cs[j].throttled && nows[j] < t ==> !OpenAt(cs[j], t)
  }

  /** `wait` is the earliest instant at which one of the first `n` candidates that are not throttled opens, each
      taken from its own reading of the clock on, the first of those that open then, and the window that closed it
      at that reading; without one, none of them ever opens. */
  ghost predicate IsEarliest(wait: Option<Wait>, cs: seq<Candidate>, nows: seq<int>, n: nat)
    requires n <= |cs| == |nows|
  {
    match wait
    case None => NobodyEverOpens(cs, nows, n)
    case Some(w) =>
      && w.owner < n && !cs[w.owner].throttled
      && nows[w.owner] < w.at && OpenAt(cs[w.owner], w.at)
      && !OpenAt(cs[w.owner], nows[w.owner]) && ClosedBy(cs[w.owner].plan, nows[w.owner] + cs[w.owner].offset, w.window)
      && NobodyOpens(cs, nows, n, w.at)
      && forall j :: 0 <= j < w.owner && !cs[j].throttled ==> nows[j] >= w.at || !OpenAt(cs[j], w.at)
  }

  /** Candidate `i` is not throttled and its schedule is open, and of none before it are both true. */
  predicate FirstToRun(cs: seq<Candidate>, nows: seq<int>, i: nat)
    requires i < |cs| == |nows|
  {
    && !cs[i].throttled && ShouldRun(cs[i].plan, nows[i] + cs[i].offset)
    && forall j :: 0 <= j < i ==> cs[j].throttled || !ShouldRun(cs[j].plan, nows[j] + cs[j].offset)
  }

  predicate NobodyRuns(cs: seq<Candidate>, nows: seq<int>, n: nat)
    requires n <= |cs| == |nows|
  {
    forall j :: 0 <= j < n ==> !Runnable(cs[j], nows[j])
  }

  /** Of the first `n` candidates, the one whose turn it is: `window` is what closes it, if it was asked and is not throttled. */
  ghost predicate IsTurnsWindow(window: Option<Closing>, cs: seq<Candidate>, nows: seq<int>, n: nat)
    requires n <= |cs| == |nows|
  {
    if n == 0 || cs[0].throttled then window.None?
    else window.Some? && !OpenAt(cs[0], nows[0]) && ClosedBy(cs[0].plan, nows[0] + cs[0].offset, window.value)
  }

  /** Selection: the first candidate that can run, over the names of those before it; otherwise a pause until the
      earliest opening of a candidate that is not throttled. `nows` are the clock readings, candidate by candidate. */
  method SelectPhase(cs: seq<Candidate>, nows: seq<int>) returns (r: Selection)
    requires |nows| == |cs|
    ensures r.Run? ==> exists i :: 0 <= i < |cs| && FirstToRun(cs, nows, i) && r.phase == cs[i].phase && r.skipped == Names(cs[..i])
                                   && IsTurnsWindow(r.window, cs, nows, i)
    ensures r.Paused? ==> IsEarliest(r.wait, cs, nows, |cs|)
    ensures r.Paused? ==> forall i :: 0 <= i < |cs| ==> cs[i].throttled || !ShouldRun(cs[i].plan, nows[i] + cs[i].offset)
    ensures r.Paused? && r.wait.Some? ==> r.window == Some(r.wait.value.window)
    ensures r.Paused? && r.wait.None? ==> IsTurnsWindow(r.window, cs, nows, |cs|)
  {
    var skipped: seq<string> := [];
    var best: Option<Wait> := None;
    var turns: Option<Closing> := None;
    for i := 0 to |cs|
      invariant NobodyRuns(cs, nows, i)
      invariant skipped == Names(cs[..i])
      invariant IsEarliest(best, cs, nows, i)
      invariant IsTurnsWindow(turns, cs, nows, i)
    {
      if Runnable(cs[i], nows[i]) {
        assert FirstToRun(cs, nows, i);
        return Run(cs[i].phase, skipped, turns);
      }
      best, turns := PassOver(cs, nows, i, best, turns);
      assert cs[..i + 1][..i] == cs[..i];
      if cs[i].phase.Some? {
        skipped := skipped + [cs[i].phase.value];
      }
    }
    r := Paused(best, if best.Some? then Some(best.value.window) else turns);
  }

  /** A candidate that cannot run now: unless it is throttled it joins the search, and the first one's window is kept. */
  method PassOver(cs: seq<Candidate>, nows: seq<int>, i: nat, best0: Option<Wait>, turns0: Option<Closing>)
    returns (best: Option<Wait>, turns: Option<Closing>)
    requires i < |cs| == |nows| && !Runnable(cs[i], nows[i]) && IsEarliest(best0, cs, nows, i) && IsTurnsWindow(turns0, cs, nows, i)
    ensures IsEarliest(best, cs, nows, i + 1) && IsTurnsWindow(turns, cs, nows, i + 1)
  {
    best, turns := best0, turns0;
    if !cs[i].throttled {
      var window;
      best, window := Consider(cs, nows, i, best0);
      if i == 0 {
        turns := Some(window);
      }
    }
  }

  /** A closed candidate joins the search for the earliest opening. */
  method Consider(cs: seq<Candidate>, nows: seq<int>, i: nat, best0: Option<Wait>) returns (best: Option<Wait>, window: Closing)
    requires i < |cs| == |nows| && !cs[i].throttled && !OpenAt(cs[i], nows[i]) && IsEarliest(best0, cs, nows, i)
    ensures IsEarliest(best, cs, nows, i + 1)
    ensures ClosedBy(cs[i].plan, nows[i] + cs[i].offset, window)
  {
    best := best0;
    var resume := NextResumeAt(cs[i].plan, nows[i] + cs[i].offset);
    window := ActiveWindow(cs[i].plan, nows[i] + cs[i].offset);
    Opening(cs[i], nows[i], resume);
    if resume.Some? && (best.None? || resume.value - cs[i].offset < best.value.at) {
      best := Some(Wait(resume.value - cs[i].offset, i, window));
    }
  }

  /** A candidate's next opening, in universal time. */
  lemma Opening(c: Candidate, now: int, resume: Option<int>)
    requires resume.Some? ==> IsNextOpening(c.plan, now + c.offset, resume.value)
    requires resume.None? ==> NeverOpens(c.plan, now + c.offset)
    ensures resume.Some? ==> now < resume.value - c.offset && OpenAt(c, resume.value - c.offset)
    ensures resume.Some? ==> forall t :: now < t < resume.value - c.offset ==> !OpenAt(c, t)
    ensures resume.None? ==> forall t :: now < t ==> !OpenAt(c, t)
  {
  }

  // ---------------------------------------------------------------- overlaps

  /** A phase that brings its own agent and run windows; `zone` is its time zone's name. */
  datatype Own = Own(phase: string, zone: string, plan: Plan)

  predicate EffectivelyOpen(w: Window, pauses: seq<Window>, d: int, m: int) {
    Contains(w, d, m) && !AnyContains(pauses, d, m)
  }

  predicate WindowsCollide(a: Window, b: Window, pausesA: seq<Window>, pausesB: seq<Window>) {
    exists d, m :: 0 <= d < 7 && 0 <= m < DAY && EffectivelyOpen(a, pausesA, d, m) && EffectivelyOpen(b, pausesB, d, m)
  }

  /** Both phases run at some minute of the week. */
  predicate RunTogether(a: Plan, b: Plan) {
    exists d, m :: 0 <= d < 7 && 0 <= m < DAY && RunsOn(a, d, m) && RunsOn(b, d, m)
  }

  predicate SomeWindowsCollide(a: Plan, b: Plan, n: nat)
    requires n <= |a.runs|
  {
    exists i, j :: 0 <= i < n && 0 <= j < |b.runs| && WindowsCollide(a.runs[i], b.runs[j], a.pauses, b.pauses)
  }

  /** Two phases with run windows of their own run together exactly when two of their windows collide. */
  lemma CollideIffTogether(a: Plan, b: Plan)
    requires a.runs != [] && b.runs != []
    ensures SomeWindowsCollide(a, b, |a.runs|) <==> RunTogether(a, b)
  {
    if RunTogether(a, b) {
      var d, m :| 0 <= d < 7 && 0 <= m < DAY && RunsOn(a, d, m) && RunsOn(b, d, m);
      var i :| 0 <= i < |a.runs| && Contains(a.runs[i], d, m);
      var j :| 0 <= j < |b.runs| && Contains(b.runs[j], d, m);
      assert EffectivelyOpen(a.runs[i], a.pauses, d, m) && EffectivelyOpen(b.runs[j], b.pauses, d, m);
      assert WindowsCollide(a.runs[i], b.runs[j], a.pauses, b.pauses);
    }
    if SomeWindowsCollide(a, b, |a.runs|) {
      var i, j :| 0 <= i < |a.runs| && 0 <= j < |b.runs| && WindowsCollide(a.runs[i], b.runs[j], a.pauses, b.pauses);
      var d, m :| 0 <= d < 7 && 0 <= m < DAY && EffectivelyOpen(a.runs[i], a.pauses, d, m) && EffectivelyOpen(b.runs[j], b.pauses, d, m);
      assert RunsOn(a, d, m) && RunsOn(b, d, m);
    }
  }

  method FindHit(a: Plan, b: Plan) returns (hit: Option<(nat, nat)>)
    ensures hit.None? <==> !SomeWindowsCollide(a, b, |a.runs|)
    ensures hit.Some? ==> hit.value.0 < |a.runs| && hit.value.1 < |b.runs|
                          && WindowsCollide(a.runs[hit.value.0], b.runs[hit.value.1], a.pauses, b.pauses)
  {
    for i := 0 to |a.runs|
      invariant !SomeWindowsCollide(a, b, i)
    {
      for j := 0 to |b.runs|
        invariant forall k :: 0 <= k < j ==> !WindowsCollide(a.runs[i], b.runs[k], a.pauses, b.pauses)
      {
        if WindowsCollide(a.runs[i], b.runs[j], a.pauses, b.pauses) {
          return Some((i, j));
        }
      }
    }
    hit := None;
  }

  /** Phases `a` and `b` collide, in their windows `x` and `y`. */
  datatype Overlap = Overlap(a: nat, b: nat, x: nat, y: nat)

  predicate Alternates(cs: seq<Own>, i: nat, j: nat)
    requires i < |cs| && j < |cs|
  {
    cs[i].zone == cs[j].zone && RunTogether(cs[i].plan, cs[j].plan)
  }

  predicate Reported(overlaps: seq<Overlap>, i: nat, j: nat) {
    exists k :: 0 <= k < |overlaps| && overlaps[k].a == i && overlaps[k].b == j
  }

  predicate Genuine(o: Overlap, cs: seq<Own>) {
    && o.a < o.b < |cs| && Alternates(cs, o.a, o.b)
    && o.x < |cs[o.a].plan.runs| && o.y < |cs[o.b].plan.runs|
    && WindowsCollide(cs[o.a].plan.runs[o.x], cs[o.b].plan.runs[o.y], cs[o.a].plan.pauses, cs[o.b].plan.pauses)
  }

  /** The check reports a pair of phases exactly when both run at some minute of the week in the same zone, and
      names two windows that collide. */
  method FindPhaseWindowOverlaps(cs: seq<Own>) returns (overlaps: seq<Overlap>)
    requires forall i :: 0 <= i < |cs| ==> cs[i].plan.runs != []
    ensures forall k :: 0 <= k < |overlaps| ==> Genuine(overlaps[k], cs)
    ensures forall i: nat, j: nat :: i < j < |cs| ==>
              (Reported(overlaps, i, j) <==> cs[i].zone == cs[j].zone && RunTogether(cs[i].plan, cs[j].plan))
    ensures overlaps == [] <==> forall i: nat, j: nat :: i < j < |cs| ==> !Alternates(cs, i, j)
  {
    overlaps := [];
    for i := 0 to |cs|
      invariant forall k :: 0 <= k < |overlaps| ==> Genuine(overlaps[k], cs)
      invariant forall a: nat, b: nat :: a < i && a < b < |cs| ==> (Reported(overlaps, a, b) <==> Alternates(cs, a, b))
    {
      overlaps := OverlapsOf(cs, i, overlaps);
    }
    if overlaps != [] {
      assert Genuine(overlaps[0], cs);
    }
    if i: nat, j: nat :| i < j < |cs| && Alternates(cs, i, j) {
      assert Reported(overlaps, i, j);
    }
  }

  method OverlapsOf(cs: seq<Own>, i: nat, before: seq<Overlap>) returns (overlaps: seq<Overlap>)
    requires i < |cs| && forall i :: 0 <= i < |cs| ==> cs[i].plan.runs != []
    requires forall k :: 0 <= k < |before| ==> Genuine(before[k], cs)
    ensures forall k :: 0 <= k < |overlaps| ==> Genuine(overlaps[k], cs)
    ensures forall a: nat, b: nat :: a != i ==> (Reported(overlaps, a, b) <==> Reported(before, a, b))
    ensures forall b: nat :: i < b < |cs| ==> (Reported(overlaps, i, b) <==> Alternates(cs, i, b))
  {
    overlaps := before;
    for j := i + 1 to |cs|
      invariant forall k :: 0 <= k < |overlaps| ==> Genuine(overlaps[k], cs)
      invariant forall a: nat, b: nat :: a != i ==> (Reported(overlaps, a, b) <==> Reported(before, a, b))
      invariant forall b: nat :: i < b < j ==> (Reported(overlaps, i, b) <==> Alternates(cs, i, b))
    {
      if cs[i].zone == cs[j].zone {
        CollideIffTogether(cs[i].plan, cs[j].plan);
        var hit := FindHit(cs[i].plan, cs[j].plan);
        if hit.Some? {
          var o := Overlap(i, j, hit.value.0, hit.value.1);
          ReportedMore(overlaps, o);
          overlaps := overlaps + [o];
        }
      }
    }
  }

  lemma ReportedMore(overlaps: seq<Overlap>, o: Overlap)
    ensures forall i: nat, j: nat :: Reported(overlaps + [o], i, j) <==> Reported(overlaps, i, j) || (o.a == i && o.b == j)
  {
    forall i: nat, j: nat
      ensures Reported(overlaps + [o], i, j) <==> Reported(overlaps, i, j) || (o.a == i && o.b == j)
    {
      if Reported(overlaps, i, j) {
        var k :| 0 <= k < |overlaps| && overlaps[k].a == i && overlaps[k].b == j;
        assert (overlaps + [o])[k] == overlaps[k];
      }
      if o.a == i && o.b == j {
        assert (overlaps + [o])[|overlaps|] == o;
      }
    }
  }
}
