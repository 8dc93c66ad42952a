/** The treadmill detector read off the events: which round an event belongs to, what makes a round active, what a
    round's checks show, and when a window of rounds is stuck. */
module TreadmillMeaning {
  import opened Wrappers
  import opened Treadmill

  /** Event `i` belongs to round `r`: the last round number up to it is `r`. */
  predicate InRound(tail: seq<Event>, i: nat, r: int)
    requires i < |tail|
  {
    exists j :: 0 <= j <= i && tail[j].round == Some(r) && forall m :: j < m <= i ==> tail[m].round.None?
  }

  lemma {:induction false} TagIff(tail: seq<Event>, i: nat, r: int)
    requires i < |tail|
    ensures TagAt(tail, i) == Some(r) <==> InRound(tail, i, r)
  {
    if tail[i].round.None? && i > 0 {
      TagIff(tail, i - 1, r);
      if InRound(tail, i - 1, r) {
        var j :| 0 <= j <= i - 1 && tail[j].round == Some(r) && forall m :: j < m <= i - 1 ==> tail[m].round.None?;
        assert forall m :: j < m <= i ==> tail[m].round.None?;
      }
    }
  }

  // ---------------------------------------------------------------- activity

  predicate TreeDirty(tail: seq<Event>, r: int, n: nat)
    requires n <= |tail|
  {
    exists i :: 0 <= i < n && InRound(tail, i, r) && tail[i].kind.Dirty?
  }

  /** Of the first `n` events, `i` is the last of the round that is `wanted`. */
  predicate LastAt(tail: seq<Event>, r: int, n: nat, wanted: Event -> bool, i: nat)
    requires n <= |tail|
  {
    && i < n
    && InRound(tail, i, r)
    && wanted(tail[i])
    && forall j :: i < j < n && InRound(tail, j, r) ==> !wanted(tail[j])
  }

  function LastOf(tail: seq<Event>, r: int, n: nat, wanted: Event -> bool): Option<nat>
    requires n <= |tail|
  {
    if n == 0 then None
    else if InRound(tail, n - 1, r) && wanted(tail[n - 1]) then Some(n - 1)
    else LastOf(tail, r, n - 1, wanted)
  }

  lemma {:induction false} LastOfIs(tail: seq<Event>, r: int, n: nat, wanted: Event -> bool, last: Option<nat>)
    requires n <= |tail| && last == LastOf(tail, r, n, wanted)
    ensures last.Some? ==> LastAt(tail, r, n, wanted, last.value)
    ensures last.None? ==> forall i :: 0 <= i < n && InRound(tail, i, r) ==> !wanted(tail[i])
    decreases n
  {
    if n > 0 && !(InRound(tail, n - 1, r) && wanted(tail[n - 1])) {
      LastOfIs(tail, r, n - 1, wanted, last);
    }
  }

  lemma LastOfIff(tail: seq<Event>, r: int, n: nat, wanted: Event -> bool, i: nat)
    requires n <= |tail|
    ensures LastOf(tail, r, n, wanted) == Some(i) <==> LastAt(tail, r, n, wanted, i)
  {
    LastOfIs(tail, r, n, wanted, LastOf(tail, r, n, wanted));
  }

  predicate IsBefore(e: Event) {
    e.kind.Before?
  }

  predicate IsAfter(e: Event) {
    e.kind.After?
  }

  /** The round's last reading of this kind names commit `head`. */
  ghost predicate Reads(tail: seq<Event>, r: int, kind: Event -> bool, head: string) {
    exists i: nat :: LastAt(tail, r, |tail|, kind, i) && HeadAt(tail, Some(i)) == Some(head)
  }

  function HeadAt(tail: seq<Event>, i: Option<nat>): Option<string> {
    if i.Some? && i.value < |tail| && (tail[i.value].kind.Before? || tail[i.value].kind.After?) then tail[i.value].kind.head
    else None
  }

  /** The round's last two readings name two commits. */
  ghost predicate HeadMoved(tail: seq<Event>, r: int) {
    exists g, h :: Reads(tail, r, IsBefore, g) && Reads(tail, r, IsAfter, h) && g != h
  }

  lemma {:induction false} BucketMore(tail: seq<Event>, r: int, n: nat, b: seq<Event>)
    requires n < |tail| && b == Bucket(tail, r, n + 1)
    ensures if InRound(tail, n, r) then b != [] && b[|b| - 1] == tail[n] && b[..|b| - 1] == Bucket(tail, r, n)
            else b == Bucket(tail, r, n)
  {
    TagIff(tail, n, r);
  }

  lemma {:induction false} BeforeMeans(tail: seq<Event>, r: int, n: nat)
    requires n <= |tail|
    ensures LastBefore(Bucket(tail, r, n)) == HeadAt(tail, LastOf(tail, r, n, IsBefore))
  {
    if n > 0 {
      BeforeMeans(tail, r, n - 1);
      BucketMore(tail, r, n - 1, Bucket(tail, r, n));
    }
  }

  lemma {:induction false} AfterMeans(tail: seq<Event>, r: int, n: nat)
    requires n <= |tail|
    ensures LastAfter(Bucket(tail, r, n)) == HeadAt(tail, LastOf(tail, r, n, IsAfter))
  {
    if n > 0 {
      AfterMeans(tail, r, n - 1);
      BucketMore(tail, r, n - 1, Bucket(tail, r, n));
    }
  }

  predicate AnyDirty(bucket: seq<Event>) {
    exists i :: 0 <= i < |bucket| && bucket[i].kind.Dirty?
  }

  lemma {:induction false} DirtyMeans(tail: seq<Event>, r: int, n: nat)
    requires n <= |tail|
    ensures AnyDirty(Bucket(tail, r, n)) <==> TreeDirty(tail, r, n)
  {
    if n > 0 {
      DirtyMeans(tail, r, n - 1);
      BucketMore(tail, r, n - 1, Bucket(tail, r, n));
      DirtyMore(tail, r, n - 1, Bucket(tail, r, n - 1), Bucket(tail, r, n));
    }
  }

  lemma DirtyMore(tail: seq<Event>, r: int, n: nat, b: seq<Event>, b': seq<Event>)
    requires n < |tail| && (AnyDirty(b) <==> TreeDirty(tail, r, n))
    requires if InRound(tail, n, r) then b' == b + [tail[n]] else b' == b
    ensures AnyDirty(b') <==> TreeDirty(tail, r, n + 1)
  {
    if AnyDirty(b) {
      var i :| 0 <= i < |b| && b[i].kind.Dirty?;
      assert b'[i] == b[i];
    }
    if InRound(tail, n, r) && tail[n].kind.Dirty? {
      assert b'[|b|] == tail[n];
    }
  }

  /** A round is active exactly when an event of it finds the tree dirty, or its last readings of HEAD differ. */
  lemma ActiveMeans(tail: seq<Event>, r: int)
    ensures RoundActive(tail, r) <==> TreeDirty(tail, r, |tail|) || HeadMoved(tail, r)
  {
    var b := Bucket(tail, r, |tail|);
    DirtyMeans(tail, r, |tail|);
    MovedMeans(tail, r, LastBefore(b), LastAfter(b));
    assert RoundActive(tail, r) <==> AnyDirty(b) || (LastBefore(b).Some? && LastAfter(b).Some? && LastBefore(b) != LastAfter(b));
  }

  lemma ReadsIff(tail: seq<Event>, r: int, kind: Event -> bool, head: string)
    ensures Reads(tail, r, kind, head) <==> HeadAt(tail, LastOf(tail, r, |tail|, kind)) == Some(head)
  {
    LastOfIs(tail, r, |tail|, kind, LastOf(tail, r, |tail|, kind));
    if i: nat :| LastAt(tail, r, |tail|, kind, i) && HeadAt(tail, Some(i)) == Some(head) {
      LastOfIff(tail, r, |tail|, kind, i);
    }
  }

  lemma MovedMeans(tail: seq<Event>, r: int, before: Option<string>, after: Option<string>)
    requires before == LastBefore(Bucket(tail, r, |tail|)) && after == LastAfter(Bucket(tail, r, |tail|))
    ensures before.Some? && after.Some? && before != after <==> HeadMoved(tail, r)
  {
    BeforeMeans(tail, r, |tail|);
    AfterMeans(tail, r, |tail|);
    forall head
      ensures Reads(tail, r, IsBefore, head) <==> before == Some(head)
      ensures Reads(tail, r, IsAfter, head) <==> after == Some(head)
    {
      ReadsIff(tail, r, IsBefore, head);
      ReadsIff(tail, r, IsAfter, head);
    }
  }

  // ---------------------------------------------------------------- what the checks show

  /** A check that ran, under this name. */
  function IsCheck(name: string): Event -> bool {
    (e: Event) => e.kind.Check? && !e.kind.skipped && e.kind.name == Some(name)
  }

  lemma {:induction false} SignatureIs(tail: seq<Event>, r: int, n: nat, name: string, sig: Signature)
    requires n <= |tail| && sig == SignatureOf(Bucket(tail, r, n))
    ensures match LastOf(tail, r, n, IsCheck(name))
            case None => name !in sig
            case Some(i) => i < n && tail[i].kind.Check? && name in sig && sig[name] == tail[i].kind.entry
    decreases n
  {
    if n > 0 {
      SignatureIs(tail, r, n - 1, name, SignatureOf(Bucket(tail, r, n - 1)));
      BucketMore(tail, r, n - 1, Bucket(tail, r, n));
    }
  }

  // ---------------------------------------------------------------- stuck

  /** Round `r` last found `entry` under `name`. */
  ghost predicate Shows(tail: seq<Event>, r: int, name: string, entry: Entry) {
    exists i: nat :: LastAt(tail, r, |tail|, IsCheck(name), i) && tail[i].kind.entry == entry
  }

  /** A round shows, under each name, what the last check of that name found. */
  lemma ShowsIff(tail: seq<Event>, r: int, name: string, entry: Entry)
    ensures Shows(tail, r, name, entry) <==> name in RoundSignature(tail, r) && RoundSignature(tail, r)[name] == entry
  {
    var n := |tail|;
    SignatureIs(tail, r, n, name, RoundSignature(tail, r));
    LastOfIs(tail, r, n, IsCheck(name), LastOf(tail, r, n, IsCheck(name)));
    if i: nat :| LastAt(tail, r, n, IsCheck(name), i) && tail[i].kind.entry == entry {
      LastOfIff(tail, r, n, IsCheck(name), i);
    }
  }

  /** No check moved in the window: what two of its rounds show under one name is the same. */
  ghost predicate NoneMoved(tail: seq<Event>, window: seq<int>) {
    forall i, j, name, e, f :: 0 <= i < j < |window| && Shows(tail, window[i], name, e) && Shows(tail, window[j], name, f) ==> e == f
  }

  ghost predicate SomeUnmet(tail: seq<Event>, window: seq<int>) {
    exists i, name, e :: 0 <= i < |window| && Shows(tail, window[i], name, e) && !e.satisfied
  }

  lemma MovedIff(tail: seq<Event>, window: seq<int>)
    ensures AllAgree(Signatures(tail, window)) <==> NoneMoved(tail, window)
  {
    var sigs := Signatures(tail, window);
    if AllAgree(sigs) {
      forall i, j, name, e, f | 0 <= i < j < |window| && Shows(tail, window[i], name, e) && Shows(tail, window[j], name, f)
        ensures e == f
      {
        ShowsIff(tail, window[i], name, e);
        ShowsIff(tail, window[j], name, f);
        assert Agree(sigs[j], sigs[i]);
      }
    }
    if NoneMoved(tail, window) {
      forall i, j, name | 0 <= i < j < |sigs| && name in sigs[j] && name in sigs[i]
        ensures sigs[j][name] == sigs[i][name]
      {
        ShowsIff(tail, window[i], name, sigs[i][name]);
        ShowsIff(tail, window[j], name, sigs[j][name]);
      }
    }
  }

  lemma UnmetIff(tail: seq<Event>, window: seq<int>, sig: Signature)
    requires Sums(sig, Signatures(tail, window))
    ensures !AllMet(sig) <==> SomeUnmet(tail, window)
  {
    var sigs := Signatures(tail, window);
    if n :| n in sig && !sig[n].satisfied {
      assert SomeMade(sigs, n);
      var i :| 0 <= i < |sigs| && n in sigs[i];
      assert Within(sigs[i], sig);
      ShowsIff(tail, window[i], n, sig[n]);
    }
    if i, name, e :| 0 <= i < |window| && Shows(tail, window[i], name, e) && !e.satisfied {
      ShowsIff(tail, window[i], name, e);
      assert Within(sigs[i], sig);
    }
  }

  /** Each round of the window found the tree dirty or moved HEAD. */
  ghost predicate AllWorked(tail: seq<Event>, window: seq<int>) {
    forall i :: 0 <= i < |window| ==> TreeDirty(tail, window[i], |tail|) || HeadMoved(tail, window[i])
  }

  lemma WorkedIff(tail: seq<Event>, window: seq<int>)
    ensures AllActive(tail, window) <==> AllWorked(tail, window)
  {
    forall i | 0 <= i < |window|
      ensures RoundActive(tail, window[i]) <==> TreeDirty(tail, window[i], |tail|) || HeadMoved(tail, window[i])
    {
      ActiveMeans(tail, window[i]);
    }
  }

  lemma NotMetIff(tail: seq<Event>, window: seq<int>, sum: Option<Signature>)
    requires sum == Fold(Signatures(tail, window))
    ensures sum.Some? && !AllMet(sum.value) <==> NoneMoved(tail, window) && SomeUnmet(tail, window)
  {
    FoldMeans(Signatures(tail, window));
    MovedIff(tail, window);
    if sum.Some? {
      UnmetIff(tail, window, sum.value);
    }
  }

  /** The last `k` rounds are stuck exactly when each of them left the tree dirty or moved HEAD, no check that two of them
      made changed, and one of them made a check that is not met. */
  lemma {:induction false} StuckMeans(tail: seq<Event>, rounds: seq<int>, k: nat, window: seq<int>)
    requires 0 < k <= |rounds| && window == rounds[|rounds| - k..]
    ensures Stuck(tail, rounds, k) <==> AllWorked(tail, window) && NoneMoved(tail, window) && SomeUnmet(tail, window)
  {
    var sum := Fold(Signatures(tail, window));
    StuckIs(tail, rounds, k, window, sum);
    WorkedIff(tail, window);
    NotMetIff(tail, window, sum);
  }

  lemma {:induction false} StuckIs(tail: seq<Event>, rounds: seq<int>, k: nat, window: seq<int>, sum: Option<Signature>)
    requires 0 < k <= |rounds| && window == rounds[|rounds| - k..] && sum == Fold(Signatures(tail, window))
    ensures Stuck(tail, rounds, k) <==> AllActive(tail, window) && sum.Some? && !AllMet(sum.value)
  {
  }

  /** A window in which no check ran is not stuck. */
  lemma NoCheckNotStuck(tail: seq<Event>, rounds: seq<int>, k: nat)
    requires 0 < k <= |rounds|
    requires forall i, j, name :: |rounds| - k <= i < |rounds| && 0 <= j < |tail| && InRound(tail, j, rounds[i]) ==> !IsCheck(name)(tail[j])
    ensures !Stuck(tail, rounds, k)
  {
    StuckMeans(tail, rounds, k, rounds[|rounds| - k..]);
  }
}
