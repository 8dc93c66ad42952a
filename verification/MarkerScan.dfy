/** The watch for an agent's terminal marker in its growing log: the log is read in pieces, and only as much of
    the past is kept as a marker split between two reads needs. */
module MarkerScan {
  import opened Wrappers

  newtype byte = x: int | 0 <= x < 256

  const SCAN_INTERVAL := 1.0  // seconds

  predicate OccursAt(marker: seq<byte>, text: seq<byte>, i: nat) {
    i + |marker| <= |text| && text[i..i + |marker|] == marker
  }

  predicate Occurs(marker: seq<byte>, text: seq<byte>) {
    exists i: nat :: i <= |text| && OccursAt(marker, text, i)
  }

  /** The last `n` bytes, or all there are. */
  function Tail(text: seq<byte>, n: nat): seq<byte> {
    if |text| <= n then text else text[|text| - n..]
  }

  // ---------------------------------------------------------------- why the carry is enough

  lemma OccursInSuffix(marker: seq<byte>, text: seq<byte>, from: nat)
    requires from <= |text|
    ensures Occurs(marker, text[from..]) ==> Occurs(marker, text)
  {
    if i: nat :| i <= |text[from..]| && OccursAt(marker, text[from..], i) {
      assert text[from..][i..i + |marker|] == text[from + i..from + i + |marker|];
      assert OccursAt(marker, text, from + i);
    }
  }

  /** Looking at the carry and the new piece finds a marker exactly when there is one in all that was read. */
  lemma CarryIsEnough(marker: seq<byte>, past: seq<byte>, piece: seq<byte>)
    requires marker != [] && !Occurs(marker, past)
    ensures Occurs(marker, Tail(past, |marker| - 1) + piece) <==> Occurs(marker, past + piece)
  {
    var carry, all := Tail(past, |marker| - 1), past + piece;
    var from := |past| - |carry|;
    assert carry + piece == all[from..];
    OccursInSuffix(marker, all, from);
    if i: nat :| i <= |all| && OccursAt(marker, all, i) {
      if i + |marker| <= |past| {
        assert past[i..i + |marker|] == all[i..i + |marker|];
        assert OccursAt(marker, past, i);
      }
      assert i >= from;
      assert all[from..][i - from..i - from + |marker|] == all[i..i + |marker|];
      assert OccursAt(marker, all[from..], i - from);
    }
  }

  /** The new carry, cut from the old one and the new piece, is the tail of all that was read. */
  lemma CarryMoves(past: seq<byte>, piece: seq<byte>, n: nat)
    ensures Tail(Tail(past, n) + piece, n) == Tail(past + piece, n)
  {
  }

  // ---------------------------------------------------------------- the scan

  /** One look at the agent: the time, what the log holds, whether reading it works, and whether a child of the
      agent is still busy. */
  datatype Poll = Poll(now: real, log: seq<byte>, readable: bool, live: bool)

  /** The log only grows. */
  predicate LogGrows(polls: seq<Poll>) {
    forall i, j :: 0 <= i < j < |polls| ==> polls[i].log <= polls[j].log
  }

  /** When the log was last scanned before poll `n`; the start of the run counts as a scan, and so does a read
      that failed. */
  function LastScan(polls: seq<Poll>, start: real, n: nat): real
    requires n <= |polls|
  {
    if n == 0 then start
    else
      var last := LastScan(polls, start, n - 1);
      if polls[n - 1].now - last >= SCAN_INTERVAL then polls[n - 1].now else last
  }

  predicate ScanDue(polls: seq<Poll>, start: real, n: nat)
    requires n < |polls|
  {
    polls[n].now - LastScan(polls, start, n) >= SCAN_INTERVAL
  }

  /** A scan is due at poll `n` exactly when the one due before it, or else the start, lies a second or more back. */
  lemma {:induction false} ScanDueIff(polls: seq<Poll>, start: real, n: nat)
    requires n < |polls|
    ensures forall m: nat :: m < n && ScanDue(polls, start, m) && NoneDue(polls, start, m + 1, n) ==>
              (ScanDue(polls, start, n) <==> polls[n].now - polls[m].now >= 1.0)
    ensures NoneDue(polls, start, 0, n) ==> (ScanDue(polls, start, n) <==> polls[n].now - start >= 1.0)
  {
    forall m: nat | m < n && ScanDue(polls, start, m) && NoneDue(polls, start, m + 1, n)
      ensures LastScan(polls, start, n) == polls[m].now
    {
      NoneSince(polls, start, m + 1, n);
    }
    if NoneDue(polls, start, 0, n) {
      NoneSince(polls, start, 0, n);
    }
  }

  predicate NoneDue(polls: seq<Poll>, start: real, a: nat, b: nat)
    requires b <= |polls|
  {
    forall i :: a <= i < b ==> !ScanDue(polls, start, i)
  }

  lemma {:induction false} NoneSince(polls: seq<Poll>, start: real, a: nat, b: nat)
    requires a <= b <= |polls| && NoneDue(polls, start, a, b)
    ensures LastScan(polls, start, b) == LastScan(polls, start, a)
    decreases b
  {
    if a < b {
      NoneSince(polls, start, a, b - 1);
      assert !ScanDue(polls, start, b - 1);
    }
  }

  /** Poll `n` would see the marker: a scan is due, the read works, and the log holds the marker somewhere. */
  predicate Sees(marker: seq<byte>, polls: seq<Poll>, start: real, n: nat)
    requires n < |polls|
  {
    ScanDue(polls, start, n) && polls[n].readable && Occurs(marker, polls[n].log)
  }

  /** The poll that sees the marker first. */
  predicate SeesFirst(marker: seq<byte>, polls: seq<Poll>, start: real, n: nat)
    requires n < |polls|
  {
    Sees(marker, polls, start, n) && forall i :: 0 <= i < n ==> !Sees(marker, polls, start, i)
  }

  /** One scan: read what is new behind the offset, look, and move on. */
  method ScanOnce(marker: seq<byte>, log: seq<byte>, offset: nat, carry: seq<byte>)
    returns (found: bool, offset': nat, carry': seq<byte>)
    requires marker != [] && offset <= |log|
    requires carry == Tail(log[..offset], |marker| - 1) && !Occurs(marker, log[..offset])
    ensures found <==> Occurs(marker, log)
    ensures offset' == |log|
    ensures !found ==> carry' == Tail(log, |marker| - 1)
  {
    var chunk := log[offset..];
    offset' := offset + |chunk|;
    var haystack := carry + chunk;
    ScanFacts(marker, log, offset, carry, haystack);
    found := Occurs(marker, haystack);
    carry' := carry;
    if !found {
      var n := |marker| - 1;
      carry' := if n > 0 then Tail(haystack, n) else [];
      assert n == 0 ==> Tail(log, n) == [];
    }
  }

  lemma ScanFacts(marker: seq<byte>, log: seq<byte>, offset: nat, carry: seq<byte>, haystack: seq<byte>)
    requires marker != [] && offset <= |log| && haystack == carry + log[offset..]
    requires carry == Tail(log[..offset], |marker| - 1) && !Occurs(marker, log[..offset])
    ensures Occurs(marker, haystack) <==> Occurs(marker, log)
    ensures Tail(haystack, |marker| - 1) == Tail(log, |marker| - 1)
  {
    assert log[..offset] + log[offset..] == log;
    CarryIsEnough(marker, log[..offset], log[offset..]);
    CarryMoves(log[..offset], log[offset..], |marker| - 1);
  }

  /** Watching an agent until it overstays its grace: the marker is noticed at the first due and readable scan of
      a log that holds it anywhere, however the log was split into reads; and the agent is killed at the first
      poll after that which finds the grace over and no child busy. */
  method Watch(marker: seq<byte>, polls: seq<Poll>, start: real, grace: real)
    returns (seen: Option<nat>, killed: Option<nat>, carry: seq<byte>, offset: nat)
    requires marker != [] && grace > 0.0 && LogGrows(polls)
    ensures seen.Some? ==> seen.value < |polls| && SeesFirst(marker, polls, start, seen.value)
    ensures seen.None? ==> killed.None? && forall i :: 0 <= i < |polls| ==> !Sees(marker, polls, start, i)
    ensures seen.None? && polls != [] ==> offset <= |polls[|polls| - 1].log| && carry == Tail(polls[|polls| - 1].log[..offset], |marker| - 1)
    ensures killed.Some? ==> seen.Some? && seen.value < killed.value < |polls|
    ensures killed.Some? ==> polls[killed.value].now > polls[seen.value].now + grace && !polls[killed.value].live
    ensures seen.Some? ==> forall i :: seen.value < i < (if killed.Some? then killed.value else |polls|) ==>
                             polls[i].now <= polls[seen.value].now + grace || polls[i].live
  {
    seen, killed, carry, offset := None, None, [], 0;
    var lastScan := start;
    for k := 0 to |polls|
      invariant killed.None?
      invariant seen.None? ==> lastScan == LastScan(polls, start, k)
      invariant seen.None? ==> forall i :: 0 <= i < k ==> !Sees(marker, polls, start, i)
      invariant seen.Some? ==> seen.value < k && SeesFirst(marker, polls, start, seen.value)
      invariant seen.Some? ==> forall i :: seen.value < i < k ==> polls[i].now <= polls[seen.value].now + grace || polls[i].live
      invariant seen.None? ==> HasRead(marker, polls, k, offset, carry)
    {
      if seen.None? {
        var found;
        found, lastScan, offset, carry := LookAgain(marker, polls, start, k, lastScan, offset, carry);
        seen := if found then Some(k) else None;
      } else if polls[k].now - polls[seen.value].now > grace && !polls[k].live {
        killed := Some(k);
        return;
      }
    }
  }

  /** Scan the log if that is due and it can be read. */
  method LookAgain(marker: seq<byte>, polls: seq<Poll>, start: real, k: nat, lastScan0: real, offset0: nat, carry0: seq<byte>)
    returns (found: bool, lastScan: real, offset: nat, carry: seq<byte>)
    requires LogGrows(polls) && k < |polls| && lastScan0 == LastScan(polls, start, k) && HasRead(marker, polls, k, offset0, carry0)
    ensures lastScan == LastScan(polls, start, k + 1)
    ensures found <==> Sees(marker, polls, start, k)
    ensures !found ==> HasRead(marker, polls, k + 1, offset, carry)
  {
    found, lastScan, offset, carry := false, lastScan0, offset0, carry0;
    StillRead(marker, polls, k, offset, carry);
    if polls[k].now - lastScan >= SCAN_INTERVAL {
      lastScan := polls[k].now;
      if polls[k].readable {
        found, offset, carry := ScanOnce(marker, polls[k].log, offset, carry);
        if !found {
          assert polls[k].log[..offset] == polls[k].log;
        }
      }
    }
  }

  /** The first `offset` bytes of the log have been read, hold no marker, and end in the carry. */
  predicate HasReadOf(marker: seq<byte>, log: seq<byte>, offset: nat, carry: seq<byte>) {
    marker != [] && offset <= |log| && carry == Tail(log[..offset], |marker| - 1) && !Occurs(marker, log[..offset])
  }

  predicate HasRead(marker: seq<byte>, polls: seq<Poll>, k: nat, offset: nat, carry: seq<byte>)
    requires k <= |polls|
  {
    if k == 0 then marker != [] && offset == 0 && carry == [] else HasReadOf(marker, polls[k - 1].log, offset, carry)
  }

  lemma StillRead(marker: seq<byte>, polls: seq<Poll>, k: nat, offset: nat, carry: seq<byte>)
    requires LogGrows(polls) && k < |polls| && HasRead(marker, polls, k, offset, carry)
    ensures HasReadOf(marker, polls[k].log, offset, carry)
  {
    if k > 0 {
      assert polls[k - 1].log <= polls[k].log;
      assert polls[k].log[..offset] == polls[k - 1].log[..offset];
    } else {
      assert polls[k].log[..0] == [];
    }
  }
}
