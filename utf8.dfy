/** UTF-8 as the Unicode Standard (chapter 3, table 3-7) defines it: the
    encoding Python's `str.encode('utf-8')` produces, and the decoding
    `bytes.decode('utf-8', errors='ignore')` performs. */
module Utf8 {
  import opened Values

  /** The bytes of one Unicode scalar value. */
  function EncodeChar(c: char): (r: seq<byte>)
    ensures 1 <= |r| <= 4
  {
    var n := c as int;
    if n < 0x80 then [n]
    else if n < 0x800 then [0xC0 + n / 64, 0x80 + n % 64]
    else if n < 0x10000 then [0xE0 + n / 4096, 0x80 + (n / 64) % 64, 0x80 + n % 64]
    else [0xF0 + n / 262144, 0x80 + (n / 4096) % 64, 0x80 + (n / 64) % 64, 0x80 + n % 64]
  }

  /** `s.encode('utf-8')` */
  function Encode(s: string): seq<byte> {
    if s == [] then [] else EncodeChar(s[0]) + Encode(s[1..])
  }

  predicate IsContinuation(b: byte) {
    0x80 <= b < 0xC0
  }

  /** The well-formed sequence at the start of `b`, if there is one: the
      character it encodes and its length in bytes. */
  function DecodeFirst(b: seq<byte>): (r: Option<(char, nat)>)
    ensures r.Some? ==> 1 <= r.value.1 <= |b|
  {
    if b == [] then None
    else
      var b0: int := b[0];
      if b0 < 0x80 then Some((b0 as char, 1))
      else if 0xC2 <= b0 < 0xE0 && |b| >= 2 && IsContinuation(b[1]) then
        Some((Join2(b0, b[1]) as char, 2))
      else if 0xE0 <= b0 < 0xF0 && |b| >= 3 && IsContinuation(b[1]) && IsContinuation(b[2])
              && (b0 != 0xE0 || b[1] >= 0xA0) && (b0 != 0xED || b[1] < 0xA0) then
        Some((Join3(b0, b[1], b[2]) as char, 3))
      else if 0xF0 <= b0 < 0xF5 && |b| >= 4 && IsContinuation(b[1]) && IsContinuation(b[2]) && IsContinuation(b[3])
              && (b0 != 0xF0 || b[1] >= 0x90) && (b0 != 0xF4 || b[1] < 0x90) then
        Some((Join4(b0, b[1], b[2], b[3]) as char, 4))
      else None
  }

  /** The scalar value a two-byte sequence carries. */
  function Join2(b0: int, b1: int): int {
    (b0 - 0xC0) * 64 + (b1 - 0x80)
  }

  function Join3(b0: int, b1: int, b2: int): int {
    (b0 - 0xE0) * 4096 + (b1 - 0x80) * 64 + (b2 - 0x80)
  }

  function Join4(b0: int, b1: int, b2: int, b3: int): int {
    (b0 - 0xF0) * 262144 + (b1 - 0x80) * 4096 + (b2 - 0x80) * 64 + (b3 - 0x80)
  }

  /** `b.decode('utf-8', errors='ignore')`: well-formed sequences become
      characters and every other byte is dropped. (Dropping an ill-formed
      prefix one byte at a time drops the same bytes as dropping its maximal
      subpart at once, since no continuation byte starts a sequence.) */
  function DecodeIgnore(b: seq<byte>): (r: string)
    ensures |r| <= |b|
    decreases |b|
  {
    if b == [] then ""
    else match DecodeFirst(b)
      case Some((c, k)) => [c] + DecodeIgnore(b[k..])
      case None => DecodeIgnore(b[1..])
  }

  lemma {:induction false} DecodeFirstEncoded(c: char, rest: seq<byte>)
    ensures DecodeFirst(EncodeChar(c) + rest) == Some((c, |EncodeChar(c)|))
  {
    var n := c as int;
    if n < 0x80 {
    } else if n < 0x800 {
      DecodeTwo(c, rest);
    } else if n < 0x10000 {
      DecodeThree(c, rest);
    } else {
      DecodeFour(c, rest);
    }
  }

  lemma {:induction false} DecodeTwo(c: char, rest: seq<byte>)
    requires 0x80 <= c as int < 0x800
    ensures DecodeFirst(EncodeChar(c) + rest) == Some((c, 2))
  {
    var n := c as int;
    var b := EncodeChar(c) + rest;
    assert b[0] == 0xC0 + n / 64 && b[1] == 0x80 + n % 64;
    assert Join2(b[0], b[1]) == n;
  }

  lemma {:induction false} DecodeThree(c: char, rest: seq<byte>)
    requires 0x800 <= c as int < 0x10000
    ensures DecodeFirst(EncodeChar(c) + rest) == Some((c, 3))
  {
    var n := c as int;
    var b := EncodeChar(c) + rest;
    assert b[0] == 0xE0 + n / 4096 && b[1] == 0x80 + (n / 64) % 64 && b[2] == 0x80 + n % 64;
    assert Join3(b[0], b[1], b[2]) == n;
  }

  lemma {:induction false} DecodeFour(c: char, rest: seq<byte>)
    requires 0x10000 <= c as int
    ensures DecodeFirst(EncodeChar(c) + rest) == Some((c, 4))
  {
    var n := c as int;
    var b := EncodeChar(c) + rest;
    var n1 := n / 64;
    var n2 := n1 / 64;
    DivideTwice(n);
    DivideTwice(n1);
    assert b[0] == 0xF0 + n2 / 64 && b[1] == 0x80 + n2 % 64;
    assert b[2] == 0x80 + n1 % 64 && b[3] == 0x80 + n % 64;
    assert Join4(b[0], b[1], b[2], b[3]) == n;
  }

  /** Dividing by 64 twice divides by 4096. */
  lemma {:induction false} DivideTwice(n: nat)
    ensures n / 4096 == (n / 64) / 64
  {
  }

  /** Decoding undoes encoding, whatever the text. */
  lemma {:induction false} DecodeEncode(s: string)
    ensures DecodeIgnore(Encode(s)) == s
    decreases |s|
  {
    if s != [] {
      var e := EncodeChar(s[0]);
      DecodeFirstEncoded(s[0], Encode(s[1..]));
      assert (e + Encode(s[1..]))[|e|..] == Encode(s[1..]);
      DecodeEncode(s[1..]);
    }
  }

  /** A character decoded from bytes without `b` (an ASCII byte) is not `b`'s character. */
  lemma {:induction false} DecodeAvoidsAscii(b: seq<byte>, x: byte)
    requires x < 0x80 && x !in b
    ensures (x as char) !in DecodeIgnore(b)
    decreases |b|
  {
    if b != [] {
      assert x !in b[1..];
      match DecodeFirst(b)
      case Some((c, k)) =>
        assert x !in b[k..];
        DecodeAvoidsAscii(b[k..], x);
        assert c != x as char;
      case None =>
        DecodeAvoidsAscii(b[1..], x);
    }
  }

  /** An ASCII byte after any bytes decodes to its own character: it ends
      whatever incomplete sequence comes before it. */
  lemma {:induction false} DecodeSnocAscii(b: seq<byte>, x: byte)
    requires x < 0x80
    ensures DecodeIgnore(b + [x]) == DecodeIgnore(b) + [x as char]
    decreases |b|
  {
    var u := b + [x];
    if b == [] {
      assert u == [x];
      assert DecodeIgnore(u[1..]) == "";
    } else {
      assert forall i :: 0 <= i < |b| ==> u[i] == b[i];
      assert u[|b|] == x && !IsContinuation(x);
      match DecodeFirst(b)
      case Some((c, k)) =>
        assert DecodeFirst(u) == Some((c, k));
        assert u[k..] == b[k..] + [x];
        DecodeSnocAscii(b[k..], x);
      case None =>
        assert DecodeFirst(u) == None;
        assert u[1..] == b[1..] + [x];
        DecodeSnocAscii(b[1..], x);
    }
  }

  /** ASCII text encodes to one byte per character. */
  lemma {:induction false} EncodeAscii(s: string)
    requires forall i :: 0 <= i < |s| ==> (s[i] as int) < 128
    ensures |Encode(s)| == |s|
    ensures forall i :: 0 <= i < |s| ==> Encode(s)[i] == s[i] as int
    decreases |s|
  {
    if s != [] {
      EncodeAscii(s[1..]);
    }
  }
}
