/** The encoding of text files (UTF-8, section 3 of RFC 3629): its writer and its reader. */
module Utf8 {
  import opened Wrappers

  type Byte = n: nat | n < 0x100

  function EncodeChar(c: char): (r: seq<Byte>)
    ensures 1 <= |r| <= 4
  {
    var n := c as int;
    if n < 0x80 then [n]
    else if n < 0x800 then [0xC0 + n / 0x40, 0x80 + n % 0x40]
    else if n < 0x1_0000 then [0xE0 + n / 0x1000, 0x80 + n / 0x40 % 0x40, 0x80 + n % 0x40]
    else [0xF0 + n / 0x4_0000, 0x80 + n / 0x1000 % 0x40, 0x80 + n / 0x40 % 0x40, 0x80 + n % 0x40]
  }

  function Encode(s: string): seq<Byte> {
    if s == "" then [] else EncodeChar(s[0]) + Encode(s[1..])
  }

  /** What follows a lead byte carries six bits each. */
  predicate IsTail(b: Byte) {
    0x80 <= b < 0xC0
  }

  predicate IsScalar(n: int) {
    0 <= n < 0xD800 || 0xE000 <= n < 0x11_0000
  }

  function CharOf(n: int, least: int): Option<char> {
    if least <= n && IsScalar(n) then Some(n as char) else None
  }

  /** The bytes of the character a lead byte announces, or none. */
  function Length(lead: Byte): nat {
    if lead < 0x80 then 1
    else if lead < 0xC0 then 0
    else if lead < 0xE0 then 2
    else if lead < 0xF0 then 3
    else if lead < 0xF8 then 4
    else 0
  }

  function Over(b: int, marker: int): int {
    b - marker
  }

  /** The character at the front of `b`; overlong forms and surrogates are none. */
  function DecodeChar(b: seq<Byte>): Option<char>
    requires b != [] && |b| == Length(b[0])
  {
    if |b| == 1 then CharOf(b[0], 0)
    else if exists i :: 1 <= i < |b| && !IsTail(b[i]) then None
    else if |b| == 2 then CharOf(Over(b[0], 0xC0) * 0x40 + Over(b[1], 0x80), 0x80)
    else if |b| == 3 then CharOf(Over(b[0], 0xE0) * 0x1000 + Over(b[1], 0x80) * 0x40 + Over(b[2], 0x80), 0x800)
    else CharOf(Over(b[0], 0xF0) * 0x4_0000 + Over(b[1], 0x80) * 0x1000 + Over(b[2], 0x80) * 0x40 + Over(b[3], 0x80), 0x1_0000)
  }

  function Decode(b: seq<Byte>): Option<string>
    decreases |b|
  {
    if b == [] then Some("")
    else
      var n := Length(b[0]);
      if n == 0 || n > |b| then None
      else
        match DecodeChar(b[..n])
        case None => None
        case Some(c) =>
          match Decode(b[n..])
          case None => None
          case Some(s) => Some([c] + s)
  }

  lemma CharRoundTrip(c: char)
    ensures var b := EncodeChar(c); Length(b[0]) == |b| && DecodeChar(b) == Some(c)
  {
    var n := c as int;
    assert n < 0x11_0000;
    Sextets(n);
  }

  lemma Sextets(n: nat)
    ensures n == n / 0x40 * 0x40 + n % 0x40
    ensures n / 0x40 == n / 0x1000 * 0x40 + n / 0x40 % 0x40
    ensures n / 0x1000 == n / 0x4_0000 * 0x40 + n / 0x1000 % 0x40
  {
  }

  lemma {:induction false} DecodeFront(b: seq<Byte>, n: nat)
    requires b != [] && n == Length(b[0]) && 0 < n <= |b|
    ensures Decode(b) == match DecodeChar(b[..n])
                         case None => None
                         case Some(c) => if Decode(b[n..]).None? then None else Some([c] + Decode(b[n..]).value)
  {
  }

  /** Reading undoes writing. */
  lemma {:induction false} DecodeEncode(s: string)
    ensures Decode(Encode(s)) == Some(s)
  {
    if s != "" {
      var b, rest := EncodeChar(s[0]), Encode(s[1..]);
      CharRoundTrip(s[0]);
      DecodeEncode(s[1..]);
      assert (b + rest)[..|b|] == b && (b + rest)[|b|..] == rest;
      DecodeFront(b + rest, |b|);
      assert [s[0]] + s[1..] == s;
    }
  }

  lemma CharOnlyFrom(b: seq<Byte>, c: char)
    requires b != [] && |b| == Length(b[0]) && DecodeChar(b) == Some(c)
    ensures EncodeChar(c) == b
  {
    var n := c as int;
    assert forall i :: 1 <= i < |b| ==> IsTail(b[i]);
    if |b| == 2 {
      Digits(n, Over(b[0], 0xC0), Over(b[1], 0x80));
    } else if |b| == 3 {
      Digits(n, Over(b[0], 0xE0) * 0x40 + Over(b[1], 0x80), Over(b[2], 0x80));
      Digits(n / 0x40, Over(b[0], 0xE0), Over(b[1], 0x80));
      Sextets(n);
    } else if |b| == 4 {
      Digits(n, Over(b[0], 0xF0) * 0x1000 + Over(b[1], 0x80) * 0x40 + Over(b[2], 0x80), Over(b[3], 0x80));
      Digits(n / 0x40, Over(b[0], 0xF0) * 0x40 + Over(b[1], 0x80), Over(b[2], 0x80));
      Digits(n / 0x1000, Over(b[0], 0xF0), Over(b[1], 0x80));
      Sextets(n);
    }
  }

  lemma Digits(n: int, q: int, r: int)
    requires n == q * 0x40 + r && 0 <= r < 0x40
    ensures n / 0x40 == q && n % 0x40 == r
  {
  }

  /** And writing undoes reading: no two byte strings read as the same text. */
  lemma {:induction false} EncodeDecode(b: seq<Byte>, s: string)
    requires Decode(b) == Some(s)
    ensures Encode(s) == b
    decreases |b|, 1
  {
    if b != [] {
      var n := Length(b[0]);
      assert 0 < n <= |b|;
      DecodeFront(b, n);
      EncodeFront(b[..n], b[n..], DecodeChar(b[..n]).value, Decode(b[n..]).value, s);
      assert b == b[..n] + b[n..];
    }
  }

  lemma {:induction false} EncodeFront(front: seq<Byte>, rest: seq<Byte>, c: char, tail: string, s: string)
    requires front != [] && |front| == Length(front[0]) && DecodeChar(front) == Some(c) && Decode(rest) == Some(tail)
    requires s == [c] + tail
    ensures Encode(s) == front + rest
    decreases |rest|, 2
  {
    CharOnlyFrom(front, c);
    EncodeDecode(rest, tail);
    assert s[1..] == tail;
  }
}
