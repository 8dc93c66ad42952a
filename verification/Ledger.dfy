/** The bounded advisory ledger: blocks of text separated by a blank line, newest first, cut off at a block
    boundary at 8192 bytes. Its writer reads back what it wrote before. */
module Ledger {
  import opened Utf8

  const MAX_BYTES: nat := 8192
  const SEP := "\n\n"

  /** How many bytes a character takes in the file. */
  function CharBytes(c: char): nat {
    var n := c as int;
    if n < 0x80 then 1 else if n < 0x800 then 2 else if n < 0x1_0000 then 3 else 4
  }

  function Bytes(s: string): nat {
    if s == "" then 0 else CharBytes(s[0]) + Bytes(s[1..])
  }

  lemma {:induction false} BytesEncoded(s: string)
    ensures Bytes(s) == |Encode(s)|
  {
    if s != "" {
      BytesEncoded(s[1..]);
    }
  }

  lemma {:induction false} BytesAppend(a: string, b: string)
    ensures Bytes(a + b) == Bytes(a) + Bytes(b)
  {
    if a == "" {
      assert a + b == b;
    } else {
      assert (a + b)[1..] == a[1..] + b;
      BytesAppend(a[1..], b);
    }
  }

  // ---------------------------------------------------------------- splitting and joining

  predicate SepAt(s: string, i: nat) {
    i + 1 < |s| && s[i] == '\n' && s[i + 1] == '\n'
  }

  predicate HasSep(s: string) {
    exists i: nat :: i < |s| && SepAt(s, i)
  }

  predicate EndsInNewline(s: string) {
    s != "" && s[|s| - 1] == '\n'
  }

  /** The first separator at or after `from`, or the length of the text. */
  function FindSep(s: string, from: nat): (i: nat)
    requires from <= |s|
    ensures from <= i <= |s|
    ensures i < |s| ==> SepAt(s, i)
    ensures forall j: nat :: from <= j < i ==> !SepAt(s, j)
    decreases |s| - from
  {
    if from == |s| || SepAt(s, from) then from else FindSep(s, from + 1)
  }

  function Split(s: string): (blocks: seq<string>)
    ensures blocks != []
    decreases |s|
  {
    var i := FindSep(s, 0);
    if i == |s| then [s] else [s[..i]] + Split(s[i + 2..])
  }

  function Join(blocks: seq<string>): string {
    if blocks == [] then "" else if |blocks| == 1 then blocks[0] else blocks[0] + SEP + Join(blocks[1..])
  }

  /** Blocks a text can have: none holds a separator, and only the last may end in a newline. */
  predicate Separable(blocks: seq<string>) {
    && (forall i :: 0 <= i < |blocks| ==> !HasSep(blocks[i]))
    && (forall i :: 0 <= i < |blocks| - 1 ==> !EndsInNewline(blocks[i]))
  }

  lemma {:induction false} SplitIsSeparable(s: string)
    ensures Separable(Split(s))
    decreases |s|
  {
    var i := FindSep(s, 0);
    if i == |s| {
      assert !HasSep(s);
    } else {
      SplitIsSeparable(s[i + 2..]);
      FirstBlock(s, i);
    }
  }

  lemma FirstBlock(s: string, i: nat)
    requires i < |s| && i == FindSep(s, 0)
    ensures !HasSep(s[..i]) && !EndsInNewline(s[..i])
  {
    forall j: nat | j < i
      ensures !SepAt(s[..i], j)
    {
      assert !SepAt(s, j);
    }
    assert i > 0 ==> !SepAt(s, i - 1);
  }

  lemma {:induction false} JoinSplit(s: string)
    ensures Join(Split(s)) == s
    decreases |s|
  {
    var i := FindSep(s, 0);
    if i < |s| {
      JoinSplit(s[i + 2..]);
      assert s == s[..i] + SEP + s[i + 2..];
      assert Split(s)[1..] == Split(s[i + 2..]);
    }
  }

  lemma FindSepUnique(s: string, i: nat)
    requires i < |s| && SepAt(s, i) && forall j: nat :: j < i ==> !SepAt(s, j)
    ensures FindSep(s, 0) == i
  {
  }

  /** Splitting undoes joining for separable blocks. */
  lemma {:induction false} SplitJoin(blocks: seq<string>)
    requires blocks != [] && Separable(blocks)
    ensures Split(Join(blocks)) == blocks
  {
    var s := Join(blocks);
    if |blocks| == 1 {
      assert !HasSep(s);
    } else {
      var b := blocks[0];
      SplitJoin(blocks[1..]);
      FirstSep(b, Join(blocks[1..]));
      assert s[..|b|] == b && s[|b| + 2..] == Join(blocks[1..]);
    }
  }

  lemma FirstSep(b: string, rest: string)
    requires !HasSep(b) && !EndsInNewline(b)
    ensures FindSep(b + SEP + rest, 0) == |b|
  {
    var s := b + SEP + rest;
    assert SepAt(s, |b|);
    forall j: nat | j < |b|
      ensures !SepAt(s, j)
    {
      if j + 1 < |b| {
        assert !SepAt(b, j);
      }
    }
    FindSepUnique(s, |b|);
  }

  // ---------------------------------------------------------------- blocks

  predicate IsSpace(c: char) {
    var n := c as int;
    || 0x09 <= n <= 0x0d || 0x1c <= n <= 0x20 || n == 0x85 || n == 0xa0 || n == 0x1680
    || 0x2000 <= n <= 0x200a || n == 0x2028 || n == 0x2029 || n == 0x202f || n == 0x205f || n == 0x3000
  }

  predicate Blank(s: string) {
    forall i :: 0 <= i < |s| ==> IsSpace(s[i])
  }

  function NonBlank(blocks: seq<string>): (r: seq<string>) {
    if blocks == [] then [] else (if Blank(blocks[0]) then [] else [blocks[0]]) + NonBlank(blocks[1..])
  }

  /** The blocks a reader sees in a ledger. */
  function BlocksOf(text: string): seq<string> {
    NonBlank(Split(text))
  }

  lemma {:induction false} NonBlankSeparable(blocks: seq<string>)
    requires Separable(blocks)
    ensures Separable(NonBlank(blocks))
    ensures forall b :: b in NonBlank(blocks) ==> b in blocks && !Blank(b)
    ensures |NonBlank(blocks)| <= |blocks|
    ensures NonBlank(blocks) == [] || |blocks| > 0
  {
    if blocks != [] {
      NonBlankSeparable(blocks[1..]);
      if !Blank(blocks[0]) && NonBlank(blocks[1..]) != [] {
        assert |blocks[1..]| > 0;
        assert !EndsInNewline(blocks[0]);
      }
    }
  }

  lemma {:induction false} NonBlankKeeps(blocks: seq<string>)
    requires forall b :: b in blocks ==> !Blank(b)
    ensures NonBlank(blocks) == blocks
  {
    if blocks != [] {
      assert blocks[0] in blocks;
      NonBlankKeeps(blocks[1..]);
    }
  }

  /** Each block of white space alone drops out, and no other, and the rest keep their order. */
  lemma {:induction false} BlankDropsOut(a: seq<string>, b: string, c: seq<string>)
    ensures NonBlank(a + [b] + c) == NonBlank(a) + (if exists i :: 0 <= i < |b| && !IsSpace(b[i]) then [b] else []) + NonBlank(c)
    ensures NonBlank([]) == []
  {
    if a == [] {
      assert [] + [b] + c == [b] + c && ([b] + c)[1..] == c;
    } else {
      assert (a + [b] + c)[1..] == a[1..] + [b] + c;
      BlankDropsOut(a[1..], b, c);
    }
  }

  // ---------------------------------------------------------------- what fits

  function Size(blocks: seq<string>): nat {
    if blocks == [] then 0 else Size(blocks[..|blocks| - 1]) + Bytes(blocks[|blocks| - 1]) + if |blocks| == 1 then 0 else 2
  }

  lemma {:induction false} JoinMore(blocks: seq<string>, b: string)
    requires blocks != []
    ensures Join(blocks + [b]) == Join(blocks) + SEP + b
  {
    if |blocks| == 1 {
      assert (blocks + [b])[1..] == [b];
    } else {
      assert (blocks + [b])[1..] == blocks[1..] + [b];
      JoinMore(blocks[1..], b);
    }
  }

  /** The running total is the length in bytes of the joined text. */
  lemma {:induction false} SizeIsBytes(blocks: seq<string>)
    ensures Size(blocks) == Bytes(Join(blocks))
  {
    if |blocks| > 1 {
      var front, b := blocks[..|blocks| - 1], blocks[|blocks| - 1];
      SizeIsBytes(front);
      JoinMore(front, b);
      assert front + [b] == blocks;
      BytesAppend(Join(front), SEP);
      BytesAppend(Join(front) + SEP, b);
      assert SEP[1..][1..] == "";
    }
  }

  /** `n` is how many of the blocks are kept: the first always, then as many as fit. */
  predicate IsCut(blocks: seq<string>, n: nat) {
    && n <= |blocks|
    && (blocks != [] ==> n > 0)
    && (forall m :: 1 < m <= n ==> Size(blocks[..m]) <= MAX_BYTES)
    && (n < |blocks| ==> Size(blocks[..n + 1]) > MAX_BYTES)
  }

  lemma {:induction false} SizeGrows(blocks: seq<string>, m: nat, n: nat)
    requires m <= n <= |blocks|
    ensures Size(blocks[..m]) <= Size(blocks[..n])
  {
    if m < n {
      assert blocks[..n][..n - 1] == blocks[..n - 1];
      SizeGrows(blocks, m, n - 1);
    }
  }

  /** There is one such number only, and what it keeps is the longest start of the blocks that fits. */
  lemma CutIsLongest(blocks: seq<string>, n: nat, m: nat)
    requires IsCut(blocks, n) && 0 < m <= |blocks|
    ensures (m == 1 || |Encode(Join(blocks[..m]))| <= 8192) <==> m <= n
  {
    SizeIsBytes(blocks[..m]);
    BytesEncoded(Join(blocks[..m]));
    if n < m {
      SizeGrows(blocks, n + 1, m);
    }
  }

  lemma SizeNext(blocks: seq<string>, k: nat)
    requires k < |blocks|
    ensures Size(blocks[..k + 1]) == Size(blocks[..k]) + Bytes(blocks[k]) + if k == 0 then 0 else 2
  {
    assert blocks[..k + 1][..k] == blocks[..k];
  }

  /** `after` holds `block`, then as many of the blocks of `before` as fit. */
  ghost predicate IsWrite(before: string, block: string, after: string) {
    exists n: nat :: IsCut([block] + BlocksOf(before), n) && n > 0 && after == Join(([block] + BlocksOf(before))[..n])
  }

  /** Write an advisory: its block in front of those of the ledger, cut to size. */
  method WriteLedgerAdvisory(existing: string, newBlock: string) returns (content: string)
    ensures IsWrite(existing, newBlock, content)
    ensures content == newBlock || |Encode(content)| <= 8192
  {
    var blocks := [newBlock] + BlocksOf(existing);
    var kept: seq<string>, total := [], 0;
    var full := false;
    while |kept| < |blocks| && !full
      invariant |kept| <= |blocks| && kept == blocks[..|kept|] && total == Size(blocks[..|kept|])
      invariant forall m :: 1 < m <= |kept| ==> Size(blocks[..m]) <= MAX_BYTES
      invariant full ==> 0 < |kept| < |blocks| && Size(blocks[..|kept| + 1]) > MAX_BYTES
      decreases |blocks| - |kept|, !full
    {
      var k := |kept|;
      SizeNext(blocks, k);
      var addition := Bytes(blocks[k]) + if kept != [] then 2 else 0;
      if kept != [] && total + addition > MAX_BYTES {
        full := true;
      } else {
        kept := kept + [blocks[k]];
        total := total + addition;
      }
    }
    content := Join(kept);
    SizeIsBytes(kept);
    BytesEncoded(content);
    assert IsCut(blocks, |kept|);
  }

  // ---------------------------------------------------------------- reading back

  /** The block of an advisory. */
  function FormatBlock(ts: string, observation: string, question: string, confidence: string): string {
    "### Goal assessment -- " + ts + "\n- Observation: " + observation + "\n- Question: " + question
    + "\n- Confidence: " + confidence
  }

  lemma SepOfConcat(a: string, b: string)
    ensures HasSep(a + b) <==> HasSep(a) || HasSep(b) || (EndsInNewline(a) && b != "" && b[0] == '\n')
    ensures EndsInNewline(a + b) <==> if b == "" then EndsInNewline(a) else EndsInNewline(b)
  {
    var s := a + b;
    if i: nat :| i < |a| && SepAt(a, i) {
      assert SepAt(s, i);
    }
    if i: nat :| i < |b| && SepAt(b, i) {
      assert SepAt(s, |a| + i);
    }
    if EndsInNewline(a) && b != "" && b[0] == '\n' {
      assert SepAt(s, |a| - 1);
    }
    if i: nat :| i < |s| && SepAt(s, i) {
      if i + 1 < |a| {
        assert SepAt(a, i);
      } else if i >= |a| {
        assert SepAt(b, i - |a|);
      }
    }
  }

  predicate Tidy(field: string) {
    !HasSep(field) && !EndsInNewline(field)
  }

  predicate Clean(b: string) {
    !Blank(b) && Tidy(b)
  }

  /** One labelled field more: the label begins a new line and does not end in one. */
  lemma FieldAdded(text: string, name: string, field: string)
    requires Tidy(name) && |name| > 1 && name[0] == '\n'
    ensures HasSep(text + name + field) <==> !Tidy(text) || HasSep(field)
    ensures EndsInNewline(text + name + field) <==> EndsInNewline(field)
  {
    SepOfConcat(text, name);
    SepOfConcat(text + name, field);
  }

  /** The writer's own format is fit for reading back exactly when no field holds a blank line or ends in a
      newline; a leading newline in a field does no harm. */
  lemma FormatCleanIff(ts: string, observation: string, question: string, confidence: string)
    requires '\n' !in ts
    ensures Clean(FormatBlock(ts, observation, question, confidence)) <==> Tidy(observation) && Tidy(question) && Tidy(confidence)
  {
    var t0 := "### Goal assessment -- " + ts;
    var t1 := t0 + "\n- Observation: " + observation;
    var t2 := t1 + "\n- Question: " + question;
    TidyLabels();
    assert Tidy(t0);
    FieldAdded(t0, "\n- Observation: ", observation);
    FieldAdded(t1, "\n- Question: ", question);
    FieldAdded(t2, "\n- Confidence: ", confidence);
    assert t2 + "\n- Confidence: " + confidence == FormatBlock(ts, observation, question, confidence);
    assert FormatBlock(ts, observation, question, confidence)[0] == '#';
  }

  lemma TidyLabels()
    ensures Tidy("\n- Observation: ") && Tidy("\n- Question: ") && Tidy("\n- Confidence: ")
  {
  }

  /** What the writer kept is what a reader gets back, whatever text was there before, exactly when the new block
      holds no blank line and either does not end in a newline or stands alone. */
  lemma ReadBackIff(existing: string, newBlock: string, n: nat)
    requires !Blank(newBlock) && 0 < n <= |[newBlock] + BlocksOf(existing)|
    ensures var kept := ([newBlock] + BlocksOf(existing))[..n];
            BlocksOf(Join(kept)) == kept <==> !HasSep(newBlock) && (n == 1 || !EndsInNewline(newBlock))
  {
    var prior := BlocksOf(existing);
    var kept := ([newBlock] + prior)[..n];
    SplitIsSeparable(existing);
    NonBlankSeparable(Split(existing));
    SplitIsSeparable(Join(kept));
    NonBlankSeparable(Split(Join(kept)));
    if !HasSep(newBlock) && (n == 1 || !EndsInNewline(newBlock)) {
      FrontSeparable(newBlock, prior, n);
      SplitJoin(kept);
      NonBlankKeeps(kept);
    } else {
      assert kept[0] == newBlock;
      assert !Separable(kept);
    }
  }

  lemma FrontSeparable(b: string, prior: seq<string>, n: nat)
    requires Separable(prior) && 0 < n <= |[b] + prior|
    requires !HasSep(b) && (n == 1 || !EndsInNewline(b))
    ensures Separable(([b] + prior)[..n])
  {
  }

  // ---------------------------------------------------------------- write after write

  /** The ledger after each of a run of writes. */
  ghost predicate IsHistory(texts: seq<string>, blocks: seq<string>) {
    && |texts| == |blocks| + 1
    && texts[0] == ""
    && forall i :: 0 <= i < |blocks| ==> IsWrite(texts[i], blocks[i], texts[i + 1])
  }

  function Reversed(blocks: seq<string>): seq<string> {
    if blocks == [] then [] else [blocks[|blocks| - 1]] + Reversed(blocks[..|blocks| - 1])
  }

  ghost predicate HoldsNewest(text: string, all: seq<string>) {
    exists n: nat :: IsCut(all, n) && BlocksOf(text) == all[..n]
  }

  /** However many advisories were written, and whatever was cut off on the way, the ledger holds the newest of
      them all that fit, newest first. */
  lemma {:induction false} LedgerHoldsTheNewest(texts: seq<string>, blocks: seq<string>)
    requires IsHistory(texts, blocks) && forall b :: b in blocks ==> Clean(b)
    ensures HoldsNewest(texts[|blocks|], Reversed(blocks))
  {
    if blocks == [] {
      assert Split("") == [""] && NonBlank([""][1..]) == [];
      assert IsCut([], 0) && BlocksOf("") == Reversed(blocks)[..0];
    } else {
      var k := |blocks| - 1;
      LedgerHoldsTheNewest(texts[..k + 1], blocks[..k]);
      assert texts[..k + 1][k] == texts[k];
      assert IsWrite(texts[k], blocks[k], texts[k + 1]);
      assert Clean(blocks[k]);
      OneMoreWrite(texts[k], blocks[k], texts[k + 1], Reversed(blocks[..k]));
    }
  }

  lemma OneMoreWrite(before: string, block: string, after: string, all: seq<string>)
    requires HoldsNewest(before, all) && IsWrite(before, block, after) && Clean(block)
    ensures HoldsNewest(after, [block] + all)
  {
    var m: nat :| IsCut(all, m) && BlocksOf(before) == all[..m];
    var n: nat :| IsCut([block] + BlocksOf(before), n) && n > 0 && after == Join(([block] + BlocksOf(before))[..n]);
    ReadBackIff(before, block, n);
    assert ([block] + all[..m])[..n] == ([block] + all)[..n];
    CutOfCut(block, all, m, n);
  }

  /** Cutting again what was cut before loses nothing that would have fitted. */
  lemma CutOfCut(block: string, all: seq<string>, m: nat, n: nat)
    requires IsCut(all, m) && IsCut([block] + all[..m], n)
    ensures IsCut([block] + all, n)
  {
    var part, whole := [block] + all[..m], [block] + all;
    forall i | 0 <= i <= m + 1
      ensures part[..i] == whole[..i]
    {
    }
    if n == m + 1 && n < |whole| {
      SizeWithFront(block, all, m + 1);
      assert whole[..n + 1] == [block] + all[..m + 1];
    }
  }

  lemma {:induction false} SizeWithFront(b: string, blocks: seq<string>, n: nat)
    requires 0 < n <= |blocks|
    ensures Size([b] + blocks[..n]) == Bytes(b) + 2 + Size(blocks[..n])
  {
    assert ([b] + blocks[..n])[..n] == [b] + blocks[..n - 1];
    assert blocks[..n][..n - 1] == blocks[..n - 1];
    if n > 1 {
      SizeWithFront(b, blocks, n - 1);
    } else {
      assert [b] + blocks[..0] == [b];
      assert Size([b]) == Bytes(b) by {
        assert [b][..0] == [];
      }
    }
  }
}
