/** The base64 encoding of section 4 of RFC 4648 (standard alphabet, `=`
    padding), as Python's `base64.b64encode` produces it, with a decoder
    that reverses it. */
module Base64 {
  import opened Values

  /** The character for a 6-bit value. */
  function Digit(i: nat): (c: char)
    requires i < 64
    ensures c != '=' && DigitValue(c) == Some(i)
  {
    if i < 26 then (('A' as int) + i) as char
    else if i < 52 then (('a' as int) + i - 26) as char
    else if i < 62 then (('0' as int) + i - 52) as char
    else if i == 62 then '+'
    else '/'
  }

  /** The 6-bit value of an alphabet character. */
  function DigitValue(c: char): (r: Option<nat>)
    ensures r.Some? ==> r.value < 64
  {
    if 'A' <= c <= 'Z' then Some((c as int) - ('A' as int))
    else if 'a' <= c <= 'z' then Some((c as int) - ('a' as int) + 26)
    else if '0' <= c <= '9' then Some((c as int) - ('0' as int) + 52)
    else if c == '+' then Some(62)
    else if c == '/' then Some(63)
    else None
  }

  /** The four 6-bit values of a 24-bit group, most significant first. */
  function Sextets(n: nat): (r: (nat, nat, nat, nat))
    requires n < 0x1000000
    ensures r.0 < 64 && r.1 < 64 && r.2 < 64 && r.3 < 64
    ensures ((r.0 * 64 + r.1) * 64 + r.2) * 64 + r.3 == n
  {
    var q1 := n / 64;
    var q2 := q1 / 64;
    (q2 / 64, q2 % 64, q1 % 64, n % 64)
  }

  /** Four characters for a 24-bit group. */
  function Quad(n: nat): (q: string)
    requires n < 0x1000000
    ensures |q| == 4 && '=' !in q
  {
    var (a, b, c, d) := Sextets(n);
    [Digit(a), Digit(b), Digit(c), Digit(d)]
  }

  /** Three bytes as one 24-bit group, most significant first. */
  function Group(b0: byte, b1: byte, b2: byte): (n: nat)
    ensures n < 0x1000000
    ensures n / 65536 == b0 && (n / 256) % 256 == b1 && n % 256 == b2
  {
    var mid := b0 as nat * 256 + b1 as nat;
    DivideBy256(b0, b1);
    DivideBy256(mid, b2);
    DivideBy65536(b0, b1 as nat * 256 + b2 as nat);
    mid * 256 + b2 as nat
  }

  lemma {:induction false} DivideBy256(hi: nat, lo: nat)
    requires lo < 256
    ensures (hi * 256 + lo) / 256 == hi && (hi * 256 + lo) % 256 == lo
  {
  }

  lemma {:induction false} DivideBy65536(hi: nat, lo: nat)
    requires lo < 65536
    ensures (hi * 65536 + lo) / 65536 == hi
  {
  }

  /** `base64.b64encode(b)`: three bytes to four characters, the last group padded. */
  function Encode(b: seq<byte>): (r: string)
    ensures |r| == 4 * ((|b| + 2) / 3)
  {
    if |b| == 0 then ""
    else if |b| == 1 then Quad(Group(b[0], 0, 0))[..2] + "=="
    else if |b| == 2 then Quad(Group(b[0], b[1], 0))[..3] + "="
    else
      GroupsStep(|b|);
      Quad(Group(b[0], b[1], b[2])) + Encode(b[3..])
  }

  /** Three more bytes make one more group. */
  lemma {:induction false} GroupsStep(n: nat)
    requires n >= 3
    ensures (n + 2) / 3 == (n - 3 + 2) / 3 + 1
  {
  }

  /** The 24-bit group four alphabet characters carry. */
  function QuadValue(s: string): (r: Option<nat>)
    requires |s| == 4
    ensures r.Some? ==> r.value < 0x1000000
  {
    match (DigitValue(s[0]), DigitValue(s[1]), DigitValue(s[2]), DigitValue(s[3]))
    case (Some(a), Some(b), Some(c), Some(d)) => Some(((a * 64 + b) * 64 + c) * 64 + d)
    case _ => None
  }

  /** The three bytes of a 24-bit group, most significant first. */
  function Bytes(n: nat): (r: seq<byte>)
    requires n < 0x1000000
    ensures |r| == 3
  {
    [n / 65536, (n / 256) % 256, n % 256]
  }

  /** The last four characters: `==` keeps one byte, `=` two, no padding three. */
  function DecodeLast(s: string): Option<seq<byte>>
    requires |s| == 4
  {
    if s[2] == '=' && s[3] == '=' then
      match QuadValue(s[..2] + "AA")
      case Some(n) => Some(Bytes(n)[..1])
      case None => None
    else if s[3] == '=' then
      match QuadValue(s[..3] + "A")
      case Some(n) => Some(Bytes(n)[..2])
      case None => None
    else
      match QuadValue(s)
      case Some(n) => Some(Bytes(n))
      case None => None
  }

  /** Decodes padded base64 text; None for text that is not. */
  function Decode(s: string): Option<seq<byte>>
    decreases |s|
  {
    if s == [] then Some([])
    else if |s| < 4 then None
    else if |s| == 4 then DecodeLast(s)
    else
      match (QuadValue(s[..4]), Decode(s[4..]))
      case (Some(n), Some(rest)) => Some(Bytes(n) + rest)
      case _ => None
  }

  lemma {:induction false} QuadRoundTrip(n: nat)
    requires n < 0x1000000
    ensures QuadValue(Quad(n)) == Some(n)
  {
  }

  lemma {:induction false} BytesGroup(b0: byte, b1: byte, b2: byte)
    ensures Bytes(Group(b0, b1, b2)) == [b0, b1, b2]
  {
  }

  /** A group whose low byte is zero ends in the digit `A`; so do its two
      low sextets when its two low bytes are zero. */
  lemma {:induction false} LowSextets(b0: byte, b1: byte)
    ensures Sextets(Group(b0, b1, 0)).3 == 0
    ensures b1 == 0 ==> Sextets(Group(b0, b1, 0)).2 == 0
  {
    var n := Group(b0, b1, 0);
    var m := b0 * 1024 + b1 * 4;
    assert n == 64 * m;
    DivideBy64(m, 0);
    if b1 == 0 {
      DivideBy64(b0 * 16, 0);
    }
  }

  lemma {:induction false} DivideBy64(hi: nat, lo: nat)
    requires lo < 64
    ensures (hi * 64 + lo) / 64 == hi && (hi * 64 + lo) % 64 == lo
  {
  }

  lemma {:induction false} DecodeOne(b0: byte)
    ensures Decode(Encode([b0])) == Some([b0])
  {
    var n := Group(b0, 0, 0);
    var q := Quad(n);
    var e := Encode([b0]);
    assert e == q[..2] + "==";
    LowSextets(b0, 0);
    assert e[..2] + "AA" == q;
    QuadRoundTrip(n);
    assert Decode(e) == Some(Bytes(n)[..1]);
    BytesGroup(b0, 0, 0);
    assert Bytes(n)[..1] == [b0];
  }

  lemma {:induction false} DecodeTwo(b0: byte, b1: byte)
    ensures Decode(Encode([b0, b1])) == Some([b0, b1])
  {
    var n := Group(b0, b1, 0);
    var q := Quad(n);
    var e := Encode([b0, b1]);
    assert e == q[..3] + "=";
    assert e[2] == q[2] && e[2] != '=';
    LowSextets(b0, b1);
    assert e[..3] + "A" == q;
    QuadRoundTrip(n);
    assert Decode(e) == Some(Bytes(n)[..2]);
    BytesGroup(b0, b1, 0);
    assert Bytes(n)[..2] == [b0, b1];
  }

  /** Decoding undoes encoding. */
  lemma {:induction false} DecodeEncode(b: seq<byte>)
    ensures Decode(Encode(b)) == Some(b)
    decreases |b|
  {
    if |b| == 1 {
      DecodeOne(b[0]);
      assert b == [b[0]];
    } else if |b| == 2 {
      DecodeTwo(b[0], b[1]);
      assert b == [b[0], b[1]];
    } else if |b| >= 3 {
      var n := Group(b[0], b[1], b[2]);
      var q, tail := Quad(n), Encode(b[3..]);
      var e := Encode(b);
      assert e == q + tail;
      QuadRoundTrip(n);
      BytesGroup(b[0], b[1], b[2]);
      DecodeEncode(b[3..]);
      if tail == [] {
        assert e == q && q[2] != '=' && q[3] != '=';
        assert Decode(e) == Some(Bytes(n));
        assert b == [b[0], b[1], b[2]];
      } else {
        assert e[..4] == q && e[4..] == tail;
        assert Decode(e) == Some(Bytes(n) + b[3..]);
        assert b == [b[0], b[1], b[2]] + b[3..];
      }
    }
  }
}
