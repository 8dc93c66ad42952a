/** The treadmill detector: an advisory when round after round changes the tree and no goal check moves, meant
    to be given once for each stretch of rounds that is stuck in the same way. */
module Treadmill {
  import opened Wrappers

  /** What a goal check found. */
  datatype Entry = Entry(satisfied: bool, value: Option<real>)

  type Signature = map<string, Entry>

  datatype Kind =
    | Dirty
    | Before(head: Option<string>)
    | After(head: Option<string>)
    | Check(name: Option<string>, skipped: bool, entry: Entry)
    | Assessment
    | Other

  /** `round` is the round number an event carries itself, if it does. */
  datatype Event = Event(kind: Kind, round: Option<int>)

  // ---------------------------------------------------------------- rounds

  /** The round event `i` belongs to: its own, or the one last named before it. */
  function TagAt(tail: seq<Event>, i: nat): Option<int>
    requires i < |tail|
  {
    if tail[i].round.Some? then tail[i].round else if i == 0 then None else TagAt(tail, i - 1)
  }

  method TagRounds(tail: seq<Event>) returns (tags: seq<Option<int>>)
    ensures |tags| == |tail| && forall i :: 0 <= i < |tail| ==> tags[i] == TagAt(tail, i)
  {
    tags := [];
    var current: Option<int> := None;
    for i := 0 to |tail|
      invariant |tags| == i && forall j :: 0 <= j < i ==> tags[j] == TagAt(tail, j)
      invariant current == if i == 0 then None else TagAt(tail, i - 1)
    {
      if tail[i].round.Some? {
        current := tail[i].round;
      }
      tags := tags + [current];
    }
  }

  predicate Ascending(s: seq<int>) {
    forall i, j :: 0 <= i < j < |s| ==> s[i] < s[j]
  }

  function Insert(s: seq<int>, r: int): seq<int> {
    if s == [] || s[|s| - 1] < r then s + [r]
    else if s[|s| - 1] == r then s
    else Insert(s[..|s| - 1], r) + [s[|s| - 1]]
  }

  lemma {:induction false} InsertMeans(s: seq<int>, r: int)
    requires Ascending(s)
    ensures Ascending(Insert(s, r)) && forall x :: x in Insert(s, r) <==> x == r || x in s
  {
    if s != [] && s[|s| - 1] > r {
      var front, t := s[..|s| - 1], Insert(s[..|s| - 1], r);
      InsertMeans(front, r);
      assert forall x :: x in s <==> x in front || x == s[|s| - 1];
      assert forall i :: 0 <= i < |t| ==> t[i] in t;
    }
  }

  /** The rounds before `current` that the first `n` events show, in order. */
  function Completed(tail: seq<Event>, current: int, n: nat): seq<int>
    requires n <= |tail|
  {
    if n == 0 then []
    else
      var before, tag := Completed(tail, current, n - 1), TagAt(tail, n - 1);
      if tag.Some? && tag.value < current then Insert(before, tag.value) else before
  }

  predicate ShownUpTo(tail: seq<Event>, n: nat, r: int)
    requires n <= |tail|
  {
    exists i :: 0 <= i < n && TagAt(tail, i) == Some(r)
  }

  lemma {:induction false} CompletedMeans(tail: seq<Event>, current: int, n: nat, r: int)
    requires n <= |tail|
    ensures Ascending(Completed(tail, current, n))
    ensures r in Completed(tail, current, n) <==> r < current && ShownUpTo(tail, n, r)
  {
    if n > 0 {
      CompletedMeans(tail, current, n - 1, r);
      assert ShownUpTo(tail, n, r) <==> ShownUpTo(tail, n - 1, r) || TagAt(tail, n - 1) == Some(r);
      if TagAt(tail, n - 1).Some? {
        InsertMeans(Completed(tail, current, n - 1), TagAt(tail, n - 1).value);
      }
    }
  }

  /** The events of round `r` among the first `n`. */
  function Bucket(tail: seq<Event>, r: int, n: nat): seq<Event>
    requires n <= |tail|
  {
    if n == 0 then [] else Bucket(tail, r, n - 1) + if TagAt(tail, n - 1) == Some(r) then [tail[n - 1]] else []
  }

  // ---------------------------------------------------------------- what a round shows

  function LastBefore(bucket: seq<Event>): Option<string> {
    if bucket == [] then None
    else if bucket[|bucket| - 1].kind.Before? then bucket[|bucket| - 1].kind.head
    else LastBefore(bucket[..|bucket| - 1])
  }

  function LastAfter(bucket: seq<Event>): Option<string> {
    if bucket == [] then None
    else if bucket[|bucket| - 1].kind.After? then bucket[|bucket| - 1].kind.head
    else LastAfter(bucket[..|bucket| - 1])
  }

  /** The round left the tree dirty, or moved HEAD between its own two readings of it. */
  predicate HasActivity(bucket: seq<Event>) {
    || (exists i :: 0 <= i < |bucket| && bucket[i].kind.Dirty?)
    || (LastBefore(bucket).Some? && LastAfter(bucket).Some? && LastBefore(bucket) != LastAfter(bucket))
  }

  method RoundHasActivity(bucket: seq<Event>) returns (r: bool)
    ensures r <==> HasActivity(bucket)
  {
    var dirty := false;
    var before: Option<string>, after: Option<string> := None, None;
    for i := 0 to |bucket|
      invariant dirty <==> exists j :: 0 <= j < i && bucket[j].kind.Dirty?
      invariant before == LastBefore(bucket[..i]) && after == LastAfter(bucket[..i])
    {
      assert bucket[..i + 1][..i] == bucket[..i];
      match bucket[i].kind
      case Dirty => dirty := true;
      case Before(head) => before := head;
      case After(head) => after := head;
      case _ =>
    }
    assert bucket[..|bucket|] == bucket;
    return dirty || (before.Some? && after.Some? && before != after);
  }

  function SignatureOf(bucket: seq<Event>): Signature {
    if bucket == [] then map[]
    else
      var sig, k := SignatureOf(bucket[..|bucket| - 1]), bucket[|bucket| - 1].kind;
      if k.Check? && !k.skipped && k.name.Some? then sig[k.name.value := k.entry] else sig
  }

  method CheckSignature(bucket: seq<Event>) returns (sig: Signature)
    ensures sig == SignatureOf(bucket)
  {
    sig := map[];
    for i := 0 to |bucket|
      invariant sig == SignatureOf(bucket[..i])
    {
      assert bucket[..i + 1][..i] == bucket[..i];
      var k := bucket[i].kind;
      if k.Check? && !k.skipped && k.name.Some? {
        sig := sig[k.name.value := k.entry];
      }
    }
    assert bucket[..|bucket|] == bucket;
  }

  function RoundSignature(tail: seq<Event>, r: int): Signature {
    SignatureOf(Bucket(tail, r, |tail|))
  }

  predicate RoundActive(tail: seq<Event>, r: int) {
    HasActivity(Bucket(tail, r, |tail|))
  }

  // ---------------------------------------------------------------- stuck

  predicate Agree(a: Signature, b: Signature) {
    forall n :: n in a && n in b ==> a[n] == b[n]
  }

  /** What the checks of all the rounds showed together; none if one of them moved. */
  function Fold(sigs: seq<Signature>): Option<Signature> {
    if sigs == [] then Some(map[])
    else
      var last := sigs[|sigs| - 1];
      match Fold(sigs[..|sigs| - 1])
      case None => None
      case Some(sig) => if Agree(last, sig) then Some(last + sig) else None
  }

  /** `b` shows everything `a` does. */
  predicate Within(a: Signature, b: Signature) {
    forall n :: n in a ==> n in b && b[n] == a[n]
  }

  predicate SomeMade(sigs: seq<Signature>, n: string) {
    exists i :: 0 <= i < |sigs| && n in sigs[i]
  }

  /** `sig` shows each check as every round that made it did, and no others. */
  ghost predicate Sums(sig: Signature, sigs: seq<Signature>) {
    && (forall i :: 0 <= i < |sigs| ==> Within(sigs[i], sig))
    && (forall n :: n in sig ==> SomeMade(sigs, n))
  }

  predicate AllAgree(sigs: seq<Signature>) {
    forall i, j :: 0 <= i < j < |sigs| ==> Agree(sigs[j], sigs[i])
  }

  /** No check moved exactly when any two rounds that made a check agree on it; then the fold sums them up. */
  lemma {:induction false} FoldMeans(sigs: seq<Signature>)
    ensures Fold(sigs).Some? <==> AllAgree(sigs)
    ensures Fold(sigs).Some? ==> Sums(Fold(sigs).value, sigs)
  {
    if sigs != [] {
      var front, last := sigs[..|sigs| - 1], sigs[|sigs| - 1];
      FoldMeans(front);
      AllAgreeSplit(front, last);
      assert front + [last] == sigs;
      if Fold(front).Some? {
        AgreeWithAll(front, last, Fold(front).value);
        if Agree(last, Fold(front).value) {
          SumsMore(front, last, Fold(front).value);
        }
      }
    }
  }

  lemma AllAgreeSplit(front: seq<Signature>, last: Signature)
    ensures AllAgree(front + [last]) <==> AllAgree(front) && forall i :: 0 <= i < |front| ==> Agree(last, front[i])
  {
    var all := front + [last];
    assert all[|front|] == last;
    assert forall i :: 0 <= i < |front| ==> all[i] == front[i];
  }

  lemma SomeMadeMore(front: seq<Signature>, last: Signature, n: string)
    ensures SomeMade(front + [last], n) <==> SomeMade(front, n) || n in last
  {
    var all := front + [last];
    assert all[|front|] == last;
    if i :| 0 <= i < |front| && n in front[i] {
      assert all[i] == front[i];
    }
  }

  lemma WithinMore(a: Signature, last: Signature, sig: Signature)
    requires Agree(last, sig)
    ensures Within(last, last + sig)
    ensures Within(a, sig) ==> Within(a, last + sig)
  {
  }

  lemma SumsMore(front: seq<Signature>, last: Signature, sig: Signature)
    requires Sums(sig, front) && Agree(last, sig)
    ensures Sums(last + sig, front + [last])
  {
    forall i | 0 <= i < |front + [last]|
      ensures Within((front + [last])[i], last + sig)
    {
      WithinMore((front + [last])[i], last, sig);
      assert i < |front| ==> (front + [last])[i] == front[i];
    }
    forall n | n in last + sig
      ensures SomeMade(front + [last], n)
    {
      SomeMadeMore(front, last, n);
    }
  }

  lemma AgreeWithAll(front: seq<Signature>, last: Signature, sig: Signature)
    requires Sums(sig, front)
    ensures Agree(last, sig) <==> forall i :: 0 <= i < |front| ==> Agree(last, front[i])
  {
    if forall i :: 0 <= i < |front| ==> Agree(last, front[i]) {
      forall n | n in last && n in sig
        ensures last[n] == sig[n]
      {
        assert SomeMade(front, n);
        var i :| 0 <= i < |front| && n in front[i];
        assert Agree(last, front[i]) && Within(front[i], sig);
      }
    }
  }

  function Signatures(tail: seq<Event>, rounds: seq<int>): (sigs: seq<Signature>)
    ensures |sigs| == |rounds|
    ensures forall i :: 0 <= i < |rounds| ==> sigs[i] == RoundSignature(tail, rounds[i])
  {
    if rounds == [] then [] else Signatures(tail, rounds[..|rounds| - 1]) + [RoundSignature(tail, rounds[|rounds| - 1])]
  }

  /** Round `r` is active and shows exactly `sig`. */
  predicate Matches(tail: seq<Event>, r: int, sig: Signature) {
    RoundActive(tail, r) && RoundSignature(tail, r) == sig
  }

  /** Where the stretch of matching rounds that reaches position `i` begins: all of them match. */
  function EpisodeStart(tail: seq<Event>, rounds: seq<int>, i: nat, sig: Signature): (s: nat)
    requires i < |rounds|
    ensures s <= i && (s > 0 ==> !Matches(tail, rounds[s - 1], sig)) && MatchFrom(tail, rounds, s, i, sig)
  {
    if i > 0 && Matches(tail, rounds[i - 1], sig) then EpisodeStart(tail, rounds, i - 1, sig) else i
  }

  predicate MatchFrom(tail: seq<Event>, rounds: seq<int>, s: nat, i: nat, sig: Signature)
    requires i <= |rounds|
  {
    forall j :: s <= j < i ==> Matches(tail, rounds[j], sig)
  }

  /** It is the longest such stretch. */
  lemma {:induction false} EpisodeIs(tail: seq<Event>, rounds: seq<int>, i: nat, sig: Signature, s: nat)
    requires s <= i < |rounds| && MatchFrom(tail, rounds, s, i, sig) && (s > 0 ==> !Matches(tail, rounds[s - 1], sig))
    ensures EpisodeStart(tail, rounds, i, sig) == s
  {
    if s < i {
      EpisodeIs(tail, rounds, i - 1, sig, s);
    }
  }

  /** The first event of round `r`. */
  function Opening(tail: seq<Event>, r: int, from: nat): (i: nat)
    requires from <= |tail|
    ensures from <= i <= |tail| && (i < |tail| ==> TagAt(tail, i) == Some(r))
    ensures forall j :: from <= j < i ==> TagAt(tail, j) != Some(r)
    decreases |tail| - from
  {
    if from == |tail| || TagAt(tail, from) == Some(r) then from else Opening(tail, r, from + 1)
  }

  predicate Announced(tail: seq<Event>, from: nat) {
    exists i :: from <= i < |tail| && tail[i].kind.Assessment?
  }

  predicate AllActive(tail: seq<Event>, rounds: seq<int>) {
    forall i :: 0 <= i < |rounds| ==> RoundActive(tail, rounds[i])
  }

  predicate AllMet(sig: Signature) {
    forall n :: n in sig ==> sig[n].satisfied
  }

  /** The last `k` of the completed rounds are stuck: each is active, no check moved, and not all made are met. */
  predicate Stuck(tail: seq<Event>, rounds: seq<int>, k: nat) {
    && 0 < k <= |rounds|
    && var window := rounds[|rounds| - k..];
       && AllActive(tail, window)
       && Fold(Signatures(tail, window)).Some?
       && !AllMet(Fold(Signatures(tail, window)).value)
  }

  /** What a stuck window shows. */
  function StuckOn(tail: seq<Event>, rounds: seq<int>, k: nat): Signature
    requires Stuck(tail, rounds, k)
  {
    Fold(Signatures(tail, rounds[|rounds| - k..])).value
  }

  /** The position of the round that opens the stuck window's episode. */
  function Episode(tail: seq<Event>, rounds: seq<int>, k: nat): (s: nat)
    requires Stuck(tail, rounds, k)
    ensures s <= |rounds| - k
  {
    EpisodeStart(tail, rounds, |rounds| - k, StuckOn(tail, rounds, k))
  }

  /** An advisory is due: the window is stuck, and none was given since its episode opened. */
  predicate Fires(tail: seq<Event>, current: int, k: nat) {
    FiresOver(tail, Completed(tail, current, |tail|), k)
  }

  predicate FiresOver(tail: seq<Event>, rounds: seq<int>, k: nat) {
    Stuck(tail, rounds, k) && !Announced(tail, Opening(tail, rounds[Episode(tail, rounds, k)], 0))
  }

  method AssessTreadmill(tail: seq<Event>, current: int, k: nat) returns (fires: bool)
    requires k > 0
    ensures fires <==> Fires(tail, current, k)
  {
    var rounds := Completed(tail, current, |tail|);
    if |rounds| < k {
      return false;
    }
    var from := |rounds| - k;
    var active := WindowActive(tail, rounds[from..]);
    if !active {
      return false;
    }
    var sig := FoldWindow(tail, rounds[from..]);
    if sig.None? || AllMet(sig.value) {
      return false;
    }
    var start := WalkBack(tail, rounds, from, sig.value);
    return !Announced(tail, Opening(tail, rounds[start], 0));
  }

  method WindowActive(tail: seq<Event>, window: seq<int>) returns (r: bool)
    ensures r <==> AllActive(tail, window)
  {
    for i := 0 to |window|
      invariant forall j :: 0 <= j < i ==> RoundActive(tail, window[j])
    {
      var active := RoundHasActivity(Bucket(tail, window[i], |tail|));
      if !active {
        assert !RoundActive(tail, window[i]);
        return false;
      }
    }
    return true;
  }

  method FoldWindow(tail: seq<Event>, window: seq<int>) returns (sig: Option<Signature>)
    ensures sig == Fold(Signatures(tail, window))
  {
    var series: Signature, moved := map[], false;
    for i := 0 to |window|
      invariant Fold(Signatures(tail, window[..i])) == if moved then None else Some(series)
    {
      assert window[..i + 1][..i] == window[..i];
      assert Signatures(tail, window[..i + 1])[..i] == Signatures(tail, window[..i]);
      var here := CheckSignature(Bucket(tail, window[i], |tail|));
      if !Agree(here, series) {
        moved := true;
      }
      series := here + series;
    }
    assert window[..|window|] == window;
    sig := if moved then None else Some(series);
  }

  method RoundMatches(tail: seq<Event>, r: int, sig: Signature) returns (b: bool)
    ensures b <==> Matches(tail, r, sig)
  {
    var bucket := Bucket(tail, r, |tail|);
    var active := RoundHasActivity(bucket);
    var here := CheckSignature(bucket);
    b := active && here == sig;
  }

  method WalkBack(tail: seq<Event>, rounds: seq<int>, from: nat, sig: Signature) returns (start: nat)
    requires from < |rounds|
    ensures start == EpisodeStart(tail, rounds, from, sig)
  {
    start := from;
    var matches := true;
    while start > 0 && matches
      invariant start <= from
      invariant MatchFrom(tail, rounds, start, from, sig)
      invariant !matches ==> start > 0 && !Matches(tail, rounds[start - 1], sig)
      decreases start, matches
    {
      matches := RoundMatches(tail, rounds[start - 1], sig);
      if matches {
        start := start - 1;
      }
    }
    EpisodeIs(tail, rounds, from, sig, start);
  }

  // ---------------------------------------------------------------- once per episode

  /** Round numbers are written in order. */
  predicate InRoundOrder(tail: seq<Event>) {
    forall i, j :: 0 <= i < j < |tail| && tail[i].round.Some? && tail[j].round.Some? ==> tail[i].round.value <= tail[j].round.value
  }

  lemma {:induction false} TagSource(tail: seq<Event>, i: nat)
    requires i < |tail|
    ensures TagAt(tail, i).Some? ==> exists j :: 0 <= j <= i && tail[j].round == TagAt(tail, i)
    ensures forall j :: 0 <= j <= i && tail[j].round.Some? ==> TagAt(tail, i).Some?
  {
    if i > 0 && tail[i].round.None? {
      TagSource(tail, i - 1);
    }
  }

  lemma {:induction false} TagsAscend(tail: seq<Event>, i: nat, j: nat)
    requires i <= j < |tail| && InRoundOrder(tail) && TagAt(tail, i).Some?
    ensures TagAt(tail, j).Some? && TagAt(tail, i).value <= TagAt(tail, j).value
  {
    TagSource(tail, i);
    if i < j {
      TagsAscend(tail, i, j - 1);
      if tail[j].round.Some? {
        TagSource(tail, j - 1);
      }
    }
  }

  /** A round that opens after an advisory given in round `c` is a later round. */
  lemma OpensLater(tail: seq<Event>, given: nat, c: int, r: int)
    requires InRoundOrder(tail) && given < |tail| && TagAt(tail, given) == Some(c)
    requires given < Opening(tail, r, 0) < |tail|
    ensures c < r
  {
    TagsAscend(tail, given, Opening(tail, r, 0));
  }

  lemma RoundBefore(rounds: seq<int>, s: nat, c: int)
    requires Ascending(rounds) && s < |rounds| && c in rounds && c < rounds[s]
    ensures s > 0 && c <= rounds[s - 1]
  {
    var i :| 0 <= i < |rounds| && rounds[i] == c;
  }

  lemma OneAdvisoryOver(tail: seq<Event>, rounds: seq<int>, k: nat, given: nat, c: int)
    requires InRoundOrder(tail) && Ascending(rounds) && AllShown(tail, rounds) && c in rounds
    requires FiresOver(tail, rounds, k)
    requires given < |tail| && tail[given].kind.Assessment? && TagAt(tail, given) == Some(c)
    ensures var s := Episode(tail, rounds, k);
            s > 0 && c <= rounds[s - 1] && !Matches(tail, rounds[s - 1], StuckOn(tail, rounds, k))
  {
    var s := Episode(tail, rounds, k);
    OpensLater(tail, given, c, rounds[s]);
    RoundBefore(rounds, s, c);
  }

  /** If an advisory is due though one was given in round `c`, then the round right before the new episode, `c` or
      a later one, breaks the pattern: it lacks activity, or its signature is not the one now stuck on. */
  lemma OneAdvisoryPerEpisode(tail: seq<Event>, current: int, k: nat, given: nat, c: int)
    requires InRoundOrder(tail) && Fires(tail, current, k)
    requires given < |tail| && tail[given].kind.Assessment? && TagAt(tail, given) == Some(c) && c < current
    ensures var rounds := Completed(tail, current, |tail|);
            var s := Episode(tail, rounds, k);
            s > 0 && c <= rounds[s - 1] && !Matches(tail, rounds[s - 1], StuckOn(tail, rounds, k))
  {
    var rounds := Completed(tail, current, |tail|);
    ShownRounds(tail, current);
    CompletedMeans(tail, current, |tail|, c);
    OneAdvisoryOver(tail, rounds, k, given, c);
  }

  lemma ShownRounds(tail: seq<Event>, current: int)
    ensures var rounds := Completed(tail, current, |tail|); AllShown(tail, rounds) && Ascending(rounds)
  {
    var rounds := Completed(tail, current, |tail|);
    CompletedMeans(tail, current, |tail|, 0);
    forall i | 0 <= i < |rounds|
      ensures Opening(tail, rounds[i], 0) < |tail|
    {
      CompletedMeans(tail, current, |tail|, rounds[i]);
      var j :| 0 <= j < |tail| && TagAt(tail, j) == Some(rounds[i]);
    }
  }

  predicate AllShown(tail: seq<Event>, rounds: seq<int>) {
    forall i :: 0 <= i < |rounds| ==> Opening(tail, rounds[i], 0) < |tail|
  }

  // ---------------------------------------------------------------- exactly when an advisory comes again

  /** A round before the stuck window, `c` or a later one, breaks the window's pattern. */
  predicate BrokenSince(tail: seq<Event>, rounds: seq<int>, k: nat, c: int)
    requires Stuck(tail, rounds, k)
  {
    BrokenBefore(tail, rounds, |rounds| - k, StuckOn(tail, rounds, k), c)
  }

  predicate BrokenBefore(tail: seq<Event>, rounds: seq<int>, from: nat, sig: Signature, c: int)
    requires from <= |rounds|
  {
    exists j :: 0 <= j < from && c <= rounds[j] && !Matches(tail, rounds[j], sig)
  }

  /** An advisory stands after the opening of round `r` exactly if it was given in that round or a later one. */
  lemma GivenSince(tail: seq<Event>, given: nat, r: int)
    requires InRoundOrder(tail) && given < |tail| && Opening(tail, r, 0) < |tail|
    ensures Opening(tail, r, 0) <= given <==> TagAt(tail, given).Some? && r <= TagAt(tail, given).value
  {
    var opening := Opening(tail, r, 0);
    if opening <= given {
      TagsAscend(tail, opening, given);
    } else if TagAt(tail, given).Some? {
      TagsAscend(tail, given, opening);
    }
  }

  /** The episode opened after round `c` exactly if the pattern was broken since. */
  lemma {:induction false} EpisodeAfter(tail: seq<Event>, rounds: seq<int>, k: nat, c: int, s: nat)
    requires Ascending(rounds) && Stuck(tail, rounds, k) && s == Episode(tail, rounds, k)
    requires c < rounds[s] ==> c in rounds
    ensures c < rounds[s] <==> BrokenSince(tail, rounds, k, c)
  {
    var from, sig := |rounds| - k, StuckOn(tail, rounds, k);
    assert s == EpisodeStart(tail, rounds, from, sig);
    BreakBefore(tail, rounds, from, sig, s, c);
  }

  lemma {:induction false} BreakBefore(tail: seq<Event>, rounds: seq<int>, from: nat, sig: Signature, s: nat, c: int)
    requires Ascending(rounds) && from < |rounds| && s == EpisodeStart(tail, rounds, from, sig)
    requires c < rounds[s] ==> c in rounds
    ensures c < rounds[s] <==> BrokenBefore(tail, rounds, from, sig, c)
  {
    if c < rounds[s] {
      RoundBefore(rounds, s, c);
      assert !Matches(tail, rounds[s - 1], sig);
    } else {
      forall j | 0 <= j < from && c <= rounds[j]
        ensures Matches(tail, rounds[j], sig)
      {
        assert s <= j && MatchFrom(tail, rounds, s, from, sig);
      }
    }
  }

  /** Each advisory given so far lies before a break of the pattern. */
  ghost predicate BrokenSinceEach(tail: seq<Event>, rounds: seq<int>, k: nat)
    requires Stuck(tail, rounds, k)
  {
    forall given :: 0 <= given < |tail| && tail[given].kind.Assessment? && TagAt(tail, given).Some? ==>
      BrokenSince(tail, rounds, k, TagAt(tail, given).value)
  }

  /** An advisory is due if and only if the window is stuck and a round since each earlier advisory breaks its pattern. */
  lemma FiresIff(tail: seq<Event>, current: int, k: nat)
    requires InRoundOrder(tail)
    ensures var rounds := Completed(tail, current, |tail|);
            Fires(tail, current, k) <==> Stuck(tail, rounds, k) && BrokenSinceEach(tail, rounds, k)
  {
    var rounds := Completed(tail, current, |tail|);
    ShownRounds(tail, current);
    if Stuck(tail, rounds, k) {
      forall given | 0 <= given < |tail| && tail[given].kind.Assessment?
        ensures Opening(tail, rounds[Episode(tail, rounds, k)], 0) > given
            <==> TagAt(tail, given).None? || BrokenSince(tail, rounds, k, TagAt(tail, given).value)
      {
        GivenBefore(tail, current, rounds, k, given);
      }
    }
  }

  lemma GivenBefore(tail: seq<Event>, current: int, rounds: seq<int>, k: nat, given: nat)
    requires InRoundOrder(tail) && rounds == Completed(tail, current, |tail|) && Ascending(rounds) && AllShown(tail, rounds)
    requires Stuck(tail, rounds, k) && given < |tail|
    ensures Opening(tail, rounds[Episode(tail, rounds, k)], 0) > given
        <==> TagAt(tail, given).None? || BrokenSince(tail, rounds, k, TagAt(tail, given).value)
  {
    var r := rounds[Episode(tail, rounds, k)];
    GivenSince(tail, given, r);
    if TagAt(tail, given).Some? {
      var c := TagAt(tail, given).value;
      CompletedMeans(tail, current, |tail|, c);
      CompletedMeans(tail, current, |tail|, r);
      assert r in rounds && ShownUpTo(tail, |tail|, c);
      EpisodeAfter(tail, rounds, k, c, Episode(tail, rounds, k));
    }
  }

  /** `given` is the newest advisory, and it was given in round `c`. */
  predicate Newest(tail: seq<Event>, given: nat, c: int) {
    && given < |tail| && tail[given].kind.Assessment? && TagAt(tail, given) == Some(c)
    && forall i :: given < i < |tail| ==> !tail[i].kind.Assessment?
  }

  /** For a stuck window the newest advisory decides. */
  lemma RearmsIff(tail: seq<Event>, current: int, k: nat, given: nat, c: int)
    requires InRoundOrder(tail) && Newest(tail, given, c) && Stuck(tail, Completed(tail, current, |tail|), k)
    ensures Fires(tail, current, k) <==> BrokenSince(tail, Completed(tail, current, |tail|), k, c)
  {
    var rounds := Completed(tail, current, |tail|);
    FiresIff(tail, current, k);
    if BrokenSince(tail, rounds, k, c) {
      forall i | 0 <= i < |tail| && tail[i].kind.Assessment? && TagAt(tail, i).Some?
        ensures BrokenSince(tail, rounds, k, TagAt(tail, i).value)
      {
        TagsAscend(tail, i, given);
        var j :| 0 <= j < |rounds| - k && c <= rounds[j] && !Matches(tail, rounds[j], StuckOn(tail, rounds, k));
        assert TagAt(tail, i).value <= rounds[j];
      }
    }
  }

  /** The round had no activity, or read a check differently than the window does. */
  predicate Progress(tail: seq<Event>, r: int, sig: Signature) {
    !RoundActive(tail, r) || Moved(RoundSignature(tail, r), sig)
  }

  predicate ProgressSince(tail: seq<Event>, rounds: seq<int>, k: nat, c: int)
    requires Stuck(tail, rounds, k)
  {
    exists j :: 0 <= j < |rounds| - k && c <= rounds[j] && Progress(tail, rounds[j], StuckOn(tail, rounds, k))
  }

  /** A round since `c` made other checks than the window did. */
  predicate SkippedSince(tail: seq<Event>, rounds: seq<int>, k: nat, c: int)
    requires Stuck(tail, rounds, k)
  {
    exists j :: 0 <= j < |rounds| - k && c <= rounds[j] && RoundSignature(tail, rounds[j]).Keys != StuckOn(tail, rounds, k).Keys
  }

  lemma BreaksIff(tail: seq<Event>, r: int, sig: Signature)
    ensures !Matches(tail, r, sig) <==> Progress(tail, r, sig) || RoundSignature(tail, r).Keys != sig.Keys
  {
    if RoundSignature(tail, r).Keys == sig.Keys {
      SameKeysMoved(RoundSignature(tail, r), sig);
    }
  }

  /** Broken means progress or other checks. */
  lemma BrokenIff(tail: seq<Event>, rounds: seq<int>, k: nat, c: int)
    requires Stuck(tail, rounds, k)
    ensures BrokenSince(tail, rounds, k, c) <==> ProgressSince(tail, rounds, k, c) || SkippedSince(tail, rounds, k, c)
  {
    forall j | 0 <= j < |rounds| - k
      ensures !Matches(tail, rounds[j], StuckOn(tail, rounds, k))
          <==> Progress(tail, rounds[j], StuckOn(tail, rounds, k)) || RoundSignature(tail, rounds[j]).Keys != StuckOn(tail, rounds, k).Keys
    {
      BreaksIff(tail, rounds[j], StuckOn(tail, rounds, k));
    }
  }

  /** The exact condition under which the promise fails that only progress or a pause brings an advisory again: where
      there was neither since the newest one, a second is due if and only if some round made other checks than the
      window. */
  lemma SkippedCheckRearms(tail: seq<Event>, current: int, k: nat, given: nat, c: int)
    requires InRoundOrder(tail) && Newest(tail, given, c) && Stuck(tail, Completed(tail, current, |tail|), k)
    requires !ProgressSince(tail, Completed(tail, current, |tail|), k, c)
    ensures Fires(tail, current, k) <==> SkippedSince(tail, Completed(tail, current, |tail|), k, c)
  {
    RearmsIff(tail, current, k, given, c);
    BrokenIff(tail, Completed(tail, current, |tail|), k, c);
  }

  /** Every round from `c` on makes the same checks. */
  ghost predicate SameChecks(tail: seq<Event>, rounds: seq<int>, c: int, names: set<string>) {
    forall i :: 0 <= i < |rounds| && c <= rounds[i] ==> RoundSignature(tail, rounds[i]).Keys == names
  }

  /** Where every round since the newest advisory makes the same checks the promise holds: a second is due if and only
      if one of them, before the window, lacks activity or reads a check differently. */
  lemma OnlyProgressRearms(tail: seq<Event>, current: int, k: nat, given: nat, c: int, names: set<string>)
    requires InRoundOrder(tail) && Newest(tail, given, c) && Stuck(tail, Completed(tail, current, |tail|), k)
    requires SameChecks(tail, Completed(tail, current, |tail|), c, names)
    ensures Fires(tail, current, k) <==> ProgressSince(tail, Completed(tail, current, |tail|), k, c)
  {
    var rounds := Completed(tail, current, |tail|);
    ShownRounds(tail, current);
    RearmsIff(tail, current, k, given, c);
    BrokenIff(tail, rounds, k, c);
    if SkippedSince(tail, rounds, k, c) {
      var j :| 0 <= j < |rounds| - k && c <= rounds[j] && RoundSignature(tail, rounds[j]).Keys != StuckOn(tail, rounds, k).Keys;
      StuckNames(tail, rounds, k, c, names, j + 1);
    }
  }

  lemma StuckNames(tail: seq<Event>, rounds: seq<int>, k: nat, c: int, names: set<string>, s: nat)
    requires Ascending(rounds) && Stuck(tail, rounds, k) && 0 < s <= |rounds| - k
    requires c <= rounds[s - 1] && SameChecks(tail, rounds, c, names)
    ensures StuckOn(tail, rounds, k).Keys == names
  {
    var from := |rounds| - k;
    assert rounds[s - 1] <= rounds[from - 1];
    WindowNames(tail, rounds, rounds[from..], from, c, names);
  }

  /** A check both made reads differently. */
  predicate Moved(a: Signature, b: Signature) {
    !Agree(a, b)
  }

  lemma SameKeysMoved(a: Signature, b: Signature)
    requires a.Keys == b.Keys
    ensures a != b ==> Moved(a, b)
  {
    if Agree(a, b) {
      assert a == b;
    }
  }

  predicate AllNamed(sigs: seq<Signature>, names: set<string>) {
    forall i :: 0 <= i < |sigs| ==> sigs[i].Keys == names
  }

  lemma FromTheWindow(tail: seq<Event>, rounds: seq<int>, window: seq<int>, from: nat, c: int, names: set<string>)
    requires from < |rounds| && window == rounds[from..] && Ascending(rounds) && SameChecks(tail, rounds, c, names)
    requires from > 0 && c <= rounds[from - 1]
    ensures AllNamed(Signatures(tail, window), names)
  {
    var sigs := Signatures(tail, window);
    forall i | 0 <= i < |window|
      ensures sigs[i].Keys == names
    {
      assert window[i] == rounds[from + i];
    }
  }

  lemma WindowNames(tail: seq<Event>, rounds: seq<int>, window: seq<int>, from: nat, c: int, names: set<string>)
    requires 0 < from < |rounds| && window == rounds[from..] && Ascending(rounds) && SameChecks(tail, rounds, c, names)
    requires c <= rounds[from - 1] && Fold(Signatures(tail, window)).Some?
    ensures Fold(Signatures(tail, window)).value.Keys == names
  {
    var sigs := Signatures(tail, window);
    FromTheWindow(tail, rounds, window, from, c, names);
    FoldMeans(sigs);
    SumKeys(sigs, Fold(sigs).value, names);
  }

  lemma SumKeys(sigs: seq<Signature>, sig: Signature, names: set<string>)
    requires sigs != [] && Sums(sig, sigs) && AllNamed(sigs, names)
    ensures sig.Keys == names
  {
    assert Within(sigs[0], sig);
    forall n
      ensures n in sig <==> n in names
    {
      if n in sig {
        assert SomeMade(sigs, n);
      }
      assert n in names <==> n in sigs[0];
    }
  }

  // ---------------------------------------------------------------- a check that is skipped now and then

  lemma {:induction false} SkippedBefore(tail: seq<Event>, rounds: seq<int>, k: nat, name: string)
    requires Stuck(tail, rounds, k) && |rounds| > k
    requires name in StuckOn(tail, rounds, k) && name !in RoundSignature(tail, rounds[|rounds| - k - 1])
    ensures FiresOver(tail, rounds, k) <==> !Announced(tail, Opening(tail, rounds[|rounds| - k], 0))
  {
    assert !Matches(tail, rounds[|rounds| - k - 1], StuckOn(tail, rounds, k));
  }

  lemma {:induction false} BucketIs(tail: seq<Event>, r: int, lo: nat, hi: nat, n: nat)
    requires lo <= hi <= |tail| && n <= |tail|
    requires forall i :: 0 <= i < |tail| ==> (TagAt(tail, i) == Some(r) <==> lo <= i < hi)
    ensures Bucket(tail, r, n) == if n < lo then [] else if n < hi then tail[lo..n] else tail[lo..hi]
  {
    if n > 0 {
      BucketIs(tail, r, lo, hi, n - 1);
    }
  }

  lemma {:induction false} AscendingUnique(a: seq<int>, b: seq<int>)
    requires Ascending(a) && Ascending(b) && forall x :: x in a <==> x in b
    ensures a == b
  {
    assert b != [] ==> b[0] in b;
    if a != [] {
      assert a[|a| - 1] in a && (b != [] ==> b[|b| - 1] in b);
      var x, y := a[|a| - 1], b[|b| - 1];
      assert x == y;
      var a', b' := a[..|a| - 1], b[..|b| - 1];
      forall z
        ensures z in a' <==> z in b'
      {
        assert z in a <==> z in a' || z == x;
        assert z in b <==> z in b' || z == x;
      }
      AscendingUnique(a', b');
      assert a == a' + [x] && b == b' + [x];
    }
  }

  const UNMET := Entry(false, None)
  const A := Event(Check(Some("a"), false, UNMET), None)
  const B := Event(Check(Some("b"), false, UNMET), None)

  /** Rounds 4 to 7, each dirty; check "a" in all of them, "b" in round 5 only, and an advisory in round 4. */
  function Log4To7(): seq<Event> {
    [Event(Dirty, Some(4)), A, Event(Assessment, None),
     Event(Dirty, Some(5)), A, B,
     Event(Dirty, Some(6)), A,
     Event(Dirty, Some(7)), A]
  }

  predicate Tagged4To7(t: seq<Event>) {
    |t| == 10 && forall i :: 0 <= i < 10 ==> TagAt(t, i) == Some(
      if i < 3 then 4 else if i < 6 then 5 else if i < 8 then 6 else 7)
  }

  lemma Tags4To7()
    ensures Tagged4To7(Log4To7())
  {
    var t := Log4To7();
    assert TagAt(t, 0) == Some(4);
    assert TagAt(t, 1) == Some(4);
    assert TagAt(t, 2) == Some(4);
    assert TagAt(t, 4) == Some(5);
    assert TagAt(t, 5) == Some(5);
    assert TagAt(t, 7) == Some(6);
    assert TagAt(t, 9) == Some(7);
  }

  lemma CompletedAre(t: seq<Event>, current: int, rounds: seq<int>)
    requires Ascending(rounds) && forall x :: x in rounds <==> x < current && ShownUpTo(t, |t|, x)
    ensures Completed(t, current, |t|) == rounds
  {
    CompletedMeans(t, current, |t|, 0);
    forall x
      ensures x in Completed(t, current, |t|) <==> x in rounds
    {
      CompletedMeans(t, current, |t|, x);
    }
    AscendingUnique(Completed(t, current, |t|), rounds);
  }

  lemma Rounds4To7(t: seq<Event>)
    requires Tagged4To7(t)
    ensures Completed(t, 8, 10) == [4, 5, 6, 7]
  {
    assert TagAt(t, 0) == Some(4) && TagAt(t, 3) == Some(5) && TagAt(t, 6) == Some(6) && TagAt(t, 8) == Some(7);
    CompletedAre(t, 8, [4, 5, 6, 7]);
  }

  predicate Bucketed4To7(t: seq<Event>) {
    && |t| == 10
    && Bucket(t, 4, 10) == [Event(Dirty, Some(4)), A, Event(Assessment, None)]
    && Bucket(t, 5, 10) == [Event(Dirty, Some(5)), A, B]
    && Bucket(t, 6, 10) == [Event(Dirty, Some(6)), A]
    && Bucket(t, 7, 10) == [Event(Dirty, Some(7)), A]
  }

  lemma Buckets4To7()
    ensures Bucketed4To7(Log4To7())
  {
    var t := Log4To7();
    Tags4To7();
    Slices4To7(t);
    assert t[0..3] == [Event(Dirty, Some(4)), A, Event(Assessment, None)];
    assert t[3..6] == [Event(Dirty, Some(5)), A, B];
    assert t[6..8] == [Event(Dirty, Some(6)), A];
    assert t[8..10] == [Event(Dirty, Some(7)), A];
  }

  lemma Slices4To7(t: seq<Event>)
    requires Tagged4To7(t)
    ensures Bucket(t, 4, 10) == t[0..3] && Bucket(t, 5, 10) == t[3..6]
    ensures Bucket(t, 6, 10) == t[6..8] && Bucket(t, 7, 10) == t[8..10]
  {
    BucketIs(t, 4, 0, 3, 10);
    BucketIs(t, 5, 3, 6, 10);
    BucketIs(t, 6, 6, 8, 10);
    BucketIs(t, 7, 8, 10, 10);
  }

  lemma SignatureOfA(d: Event)
    requires !d.kind.Check?
    ensures SignatureOf([d, A]) == map["a" := UNMET]
    ensures SignatureOf([d, A, B]) == map["a" := UNMET, "b" := UNMET]
    ensures SignatureOf([d, A, Event(Assessment, None)]) == map["a" := UNMET]
  {
    assert [d, A, B][..2] == [d, A] && [d, A, Event(Assessment, None)][..2] == [d, A];
    assert [d, A][..1] == [d] && [d][..0] == [];
    assert SignatureOf([d]) == map[];
  }

  predicate Signed4To7(t: seq<Event>, one: Signature, both: Signature) {
    && RoundSignature(t, 4) == one && RoundSignature(t, 5) == both
    && RoundSignature(t, 6) == one && RoundSignature(t, 7) == one
  }

  lemma Signatures4To7(t: seq<Event>)
    requires Bucketed4To7(t)
    ensures Signed4To7(t, map["a" := UNMET], map["a" := UNMET, "b" := UNMET])
    ensures AllActive(t, [4, 5, 6, 7])
  {
    SignatureOfA(Event(Dirty, Some(4)));
    SignatureOfA(Event(Dirty, Some(5)));
    SignatureOfA(Event(Dirty, Some(6)));
    SignatureOfA(Event(Dirty, Some(7)));
    DirtyRound(t, 4);
    DirtyRound(t, 5);
    DirtyRound(t, 6);
    DirtyRound(t, 7);
  }

  lemma DirtyRound(t: seq<Event>, r: int)
    requires Bucket(t, r, |t|) != [] && Bucket(t, r, |t|)[0].kind.Dirty?
    ensures RoundActive(t, r)
  {
  }

  predicate Partial(one: Signature, both: Signature) {
    one.Keys <= both.Keys && Agree(one, both)
  }

  lemma FoldThree(one: Signature, both: Signature)
    requires Partial(one, both)
    ensures Fold([both, one, one]) == Some(both)
  {
    var sigs := [both, one, one];
    assert sigs[..2] == [both, one] && [both, one][..1] == [both] && [both][..0] == [];
    assert both + map[] == both && one + both == both;
    assert Fold([both]) == Some(both);
    assert Fold([both, one]) == Some(both);
  }

  lemma Stuck5To7(t: seq<Event>, one: Signature, both: Signature)
    requires Signed4To7(t, one, both) && AllActive(t, [4, 5, 6, 7])
    requires Partial(one, both) && "a" in both && !both["a"].satisfied
    ensures Stuck(t, [4, 5, 6, 7], 3) && StuckOn(t, [4, 5, 6, 7], 3) == both
  {
    var rounds, window := [4, 5, 6, 7], [5, 6, 7];
    assert rounds[1..] == window;
    assert forall i :: 0 <= i < 3 ==> window[i] == rounds[i + 1];
    FoldThree(one, both);
    assert Signatures(t, window) == [both, one, one];
  }

  lemma NothingMoved4To7(t: seq<Event>, one: Signature, both: Signature)
    requires Signed4To7(t, one, both) && Partial(one, both)
    ensures AllAgree(Signatures(t, [4, 5, 6, 7]))
  {
    var sigs := Signatures(t, [4, 5, 6, 7]);
    assert forall i :: 0 <= i < 4 ==> sigs[i] == one || sigs[i] == both;
    AllAgreeOnTwo(sigs, one, both);
  }

  lemma AllAgreeOnTwo(sigs: seq<Signature>, one: Signature, both: Signature)
    requires Partial(one, both) && forall i :: 0 <= i < |sigs| ==> sigs[i] == one || sigs[i] == both
    ensures AllAgree(sigs)
  {
  }

  lemma OpensAt3(t: seq<Event>)
    requires Tagged4To7(t)
    ensures Opening(t, 5, 0) == 3
  {
    assert TagAt(t, 3) == Some(5);
    assert TagAt(t, 0) == Some(4) && TagAt(t, 1) == Some(4) && TagAt(t, 2) == Some(4);
  }

  lemma AfterRound4(t: seq<Event>, one: Signature, both: Signature)
    requires Tagged4To7(t) && Signed4To7(t, one, both) && AllActive(t, [4, 5, 6, 7])
    requires Partial(one, both) && "a" in both && !both["a"].satisfied && "b" in both && "b" !in one
    requires forall i :: 3 <= i < 10 ==> !t[i].kind.Assessment?
    ensures Fires(t, 8, 3)
  {
    Rounds4To7(t);
    Stuck5To7(t, one, both);
    SkippedBefore(t, [4, 5, 6, 7], 3, "b");
    OpensAt3(t);
  }

  predicate Example(t: seq<Event>) {
    Tagged4To7(t) && Bucketed4To7(t) && t[2].kind.Assessment? && forall i :: 3 <= i < 10 ==> !t[i].kind.Assessment?
  }

  lemma IsExample()
    ensures Example(Log4To7())
  {
    Tags4To7();
    Buckets4To7();
    QuietAfter4();
  }

  lemma QuietAfter4()
    ensures var t := Log4To7(); t[2].kind.Assessment? && forall i :: 3 <= i < 10 ==> !t[i].kind.Assessment?
  {
  }

  lemma RepeatedOver(t: seq<Event>)
    requires Example(t)
    ensures Fires(t, 8, 3) && Announced(t, 0)
    ensures AllActive(t, [4, 5, 6, 7]) && AllAgree(Signatures(t, [4, 5, 6, 7]))
  {
    var one, both := map["a" := UNMET], map["a" := UNMET, "b" := UNMET];
    Signatures4To7(t);
    NothingMoved4To7(t, one, both);
    AfterRound4(t, one, both);
  }

  /** In rounds 4 to 7 an advisory is due again before round 8: every round was active, neither check ever
      moved, and the advisory of round 4 is still in the log. */
  lemma RepeatedAdvisory()
    ensures exists t: seq<Event> ::
              && Fires(t, 8, 3) && Announced(t, 0)
              && AllActive(t, [4, 5, 6, 7]) && AllAgree(Signatures(t, [4, 5, 6, 7]))
  {
    IsExample();
    RepeatedOver(Log4To7());
  }
}
