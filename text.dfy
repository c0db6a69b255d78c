/** The string operations of Python that the components rely on: `strip`,
    `split`/`join` on one separator, `startswith`, `in`, `replace`, slicing
    with negative indices, and the numeric conversions `int()`, `int(s, 16)`,
    `float()` and the `%d`/`%f`/`%X` formats. */
module Text {
  import opened Values

  // ---------------------------------------------------------------------
  // Whitespace and strip()

  /** `c.isspace()`: the characters `str.strip()` removes. */
  predicate IsWhitespace(c: char) {
    var n := c as int;
    (9 <= n <= 13) || (28 <= n <= 32) || n == 0x85 || n == 0xA0 || n == 0x1680
    || (0x2000 <= n <= 0x200A) || n == 0x2028 || n == 0x2029 || n == 0x202F
    || n == 0x205F || n == 0x3000
  }

  predicate NoWhitespace(s: string) {
    forall i :: 0 <= i < |s| ==> !IsWhitespace(s[i])
  }

  function TrimStart(s: string): (r: string)
    ensures |r| <= |s|
    ensures r == [] || !IsWhitespace(r[0])
  {
    if s != [] && IsWhitespace(s[0]) then TrimStart(s[1..]) else s
  }

  function TrimEnd(s: string): (r: string)
    ensures |r| <= |s|
    ensures r == [] || !IsWhitespace(r[|r| - 1])
  {
    if s != [] && IsWhitespace(s[|s| - 1]) then TrimEnd(s[..|s| - 1]) else s
  }

  /** What `lstrip()` keeps is a suffix of its input. */
  lemma {:induction false} TrimStartSuffix(s: string)
    ensures TrimStart(s) == s[|s| - |TrimStart(s)|..]
  {
    if s != [] && IsWhitespace(s[0]) {
      TrimStartSuffix(s[1..]);
      assert s[1..][|s| - 1 - |TrimStart(s)|..] == s[|s| - |TrimStart(s)|..];
    }
  }

  /** What `rstrip()` keeps is a prefix of its input. */
  lemma {:induction false} TrimEndPrefix(s: string)
    ensures TrimEnd(s) == s[..|TrimEnd(s)|]
  {
    if s != [] && IsWhitespace(s[|s| - 1]) {
      TrimEndPrefix(s[..|s| - 1]);
      assert s[..|s| - 1][..|TrimEnd(s)|] == s[..|TrimEnd(s)|];
    }
  }

  /** `s.strip()`: the result is a slice of `s` with no whitespace at either edge. */
  function Strip(s: string): (r: string)
    ensures |r| <= |s|
    ensures r == [] || (!IsWhitespace(r[0]) && !IsWhitespace(r[|r| - 1]))
  {
    var t := TrimStart(s);
    if t == [] then t else TrimEndHead(t); TrimEnd(t)
  }

  /** Stripping only removes characters. */
  lemma {:induction false} StripKeepsOut(s: string, c: char)
    requires c !in s
    ensures c !in Strip(s)
  {
    var t := TrimStart(s);
    var r := TrimEnd(t);
    TrimStartSuffix(s);
    TrimEndPrefix(t);
    assert forall i :: 0 <= i < |r| ==> r[i] == s[|s| - |t| + i];
  }

  lemma {:induction false} StripPlain(s: string)
    requires NoWhitespace(s)
    ensures Strip(s) == s
  {
    assert TrimStart(s) == s;
    assert TrimEnd(s) == s;
  }

  lemma {:induction false} StripIdempotent(s: string)
    ensures Strip(Strip(s)) == Strip(s)
  {
    var r := Strip(s);
    assert TrimStart(r) == r;
    assert TrimEnd(r) == r;
  }

  /** Trailing whitespace strips off: a whitespace character absent from
      `s` is not in the strip of `s` followed by it. */
  lemma {:induction false} StripDropsLast(s: string, c: char)
    requires IsWhitespace(c) && c !in s
    ensures c !in Strip(s + [c])
  {
    var u := s + [c];
    var t := TrimStart(u);
    var r := TrimEnd(t);
    TrimStartSuffix(u);
    TrimEndPrefix(t);
    var o := |u| - |t|;
    assert r == u[o..o + |r|];
    assert u[|s|] == c;
    if r != [] {
      assert r[|r| - 1] == u[o + |r| - 1];
      assert r == s[o..o + |r|];
    }
  }

  /** Trimming the end keeps a first character that is not whitespace. */
  lemma {:induction false} TrimEndHead(s: string)
    requires s != [] && !IsWhitespace(s[0])
    ensures TrimEnd(s) != [] && TrimEnd(s)[0] == s[0]
    decreases |s|
  {
    if IsWhitespace(s[|s| - 1]) {
      TrimEndHead(s[..|s| - 1]);
    }
  }

  // ---------------------------------------------------------------------
  // Searching, prefixes, substrings

  predicate StartsWith(s: string, p: string) {
    |p| <= |s| && s[..|p|] == p
  }

  /** `p in s` for strings: `p` occurs somewhere in `s`. */
  predicate Contains(s: string, p: string)
    decreases |s|
  {
    StartsWith(s, p) || (s != [] && Contains(s[1..], p))
  }

  lemma {:induction false} ContainsAt(s: string, p: string, i: nat)
    requires i + |p| <= |s| && s[i..i + |p|] == p
    ensures Contains(s, p)
    decreases i
  {
    if i > 0 {
      assert s[1..][i - 1..i - 1 + |p|] == s[i..i + |p|];
      ContainsAt(s[1..], p, i - 1);
    }
  }

  lemma {:induction false} ContainsWitness(s: string, p: string) returns (i: nat)
    requires Contains(s, p)
    ensures i + |p| <= |s| && s[i..i + |p|] == p
    decreases |s|
  {
    if StartsWith(s, p) {
      i := 0;
    } else {
      var j := ContainsWitness(s[1..], p);
      i := j + 1;
      assert s[1..][j..j + |p|] == s[i..i + |p|];
    }
  }

  /** Appending never removes an occurrence. */
  lemma {:induction false} ContainsExtend(s: string, t: string, p: string)
    requires Contains(s, p)
    ensures Contains(s + t, p)
  {
    var i := ContainsWitness(s, p);
    assert (s + t)[i..i + |p|] == s[i..i + |p|];
    ContainsAt(s + t, p, i);
  }

  /** `s.index(c)`: the first position of `c` in `s`. */
  function IndexOf(s: string, c: char): (i: nat)
    requires c in s
    ensures i < |s| && s[i] == c && c !in s[..i]
  {
    if s[0] == c then 0
    else
      var j := IndexOf(s[1..], c);
      assert s[..j + 1] == [s[0]] + s[1..][..j];
      j + 1
  }

  lemma {:induction false} IndexOfUnique(s: string, c: char, i: nat)
    requires i < |s| && s[i] == c && c !in s[..i]
    ensures c in s && IndexOf(s, c) == i
  {
    var j := IndexOf(s, c);
  }

  /** The position of the last `c` in `s` (`s.rsplit(c, 1)` splits there). */
  function LastIndexOf(s: string, c: char): (i: nat)
    requires c in s
    ensures i < |s| && s[i] == c && c !in s[i + 1..]
  {
    if s[|s| - 1] == c then |s| - 1
    else
      assert c in s[..|s| - 1] by {
        var k :| 0 <= k < |s| && s[k] == c;
        assert s[..|s| - 1][k] == c;
      }
      LastIndexOf(s[..|s| - 1], c)
  }

  lemma {:induction false} LastIndexOfUnique(s: string, c: char, i: nat)
    requires i < |s| && s[i] == c && c !in s[i + 1..]
    ensures c in s && LastIndexOf(s, c) == i
  {
    var j := LastIndexOf(s, c);
  }

  /** Python's index normalisation for a slice bound `k` of a sequence of
      length `len` (negative bounds count from the end, then clamped). */
  function SliceBound(len: nat, k: int): (j: nat)
    ensures j <= len
  {
    if k < 0 then (if len + k < 0 then 0 else len + k)
    else if k > len then len else k
  }

  /** `s[:k]` */
  function SliceTo(s: string, k: int): string {
    s[..SliceBound(|s|, k)]
  }

  /** `s[k:]` */
  function SliceFrom(s: string, k: int): string {
    s[SliceBound(|s|, k)..]
  }

  /** `s.replace(pat, rep)`: every non-overlapping occurrence, left to right. */
  function ReplaceAll(s: string, pat: string, rep: string): string
    requires pat != []
    decreases |s|
  {
    if |s| < |pat| then s
    else if s[..|pat|] == pat then rep + ReplaceAll(s[|pat|..], pat, rep)
    else [s[0]] + ReplaceAll(s[1..], pat, rep)
  }

  /** Text without some character of `pat` holds no occurrence of it. */
  lemma {:induction false} ReplaceAbsent(s: string, pat: string, rep: string, c: char)
    requires pat != [] && c in pat && c !in s
    ensures ReplaceAll(s, pat, rep) == s
    decreases |s|
  {
    if |s| >= |pat| {
      assert s[..|pat|] != pat by {
        var k :| 0 <= k < |pat| && pat[k] == c;
        assert s[..|pat|][k] == s[k];
      }
      ReplaceAbsent(s[1..], pat, rep, c);
      assert s == [s[0]] + s[1..];
    }
  }

  /** An occurrence at the start is replaced, and the scan goes on after it. */
  lemma {:induction false} ReplaceLeading(s: string, pat: string, rep: string)
    requires pat != []
    ensures ReplaceAll(pat + s, pat, rep) == rep + ReplaceAll(s, pat, rep)
  {
    assert (pat + s)[..|pat|] == pat;
    assert (pat + s)[|pat|..] == s;
  }

  /** A prefix without the first character of `pat` is kept as it is. */
  lemma {:induction false} ReplaceAfter(pre: string, s: string, pat: string, rep: string)
    requires pat != [] && pat[0] !in pre
    ensures ReplaceAll(pre + s, pat, rep) == pre + ReplaceAll(s, pat, rep)
    decreases |pre|
  {
    if pre != [] {
      var t := pre + s;
      assert t[1..] == pre[1..] + s;
      ReplaceAfter(pre[1..], s, pat, rep);
      var r := ReplaceAll(s, pat, rep);
      if |t| >= |pat| {
        assert t[..|pat|][0] == pre[0];
        assert ReplaceAll(t, pat, rep) == [pre[0]] + (pre[1..] + r);
      } else {
        assert r == s;
      }
      assert [pre[0]] + (pre[1..] + r) == pre + r;
    } else {
      assert pre + s == s;
    }
  }

  // ---------------------------------------------------------------------
  // split() and join() on one separator character

  /** `s.split(sep)`: the maximal pieces of `s` between separators. */
  function Split(s: string, sep: char): (parts: seq<string>)
    ensures |parts| >= 1
    ensures forall i :: 0 <= i < |parts| ==> sep !in parts[i]
    decreases |s|
  {
    if sep !in s then [s]
    else
      var i := IndexOf(s, sep);
      [s[..i]] + Split(s[i + 1..], sep)
  }

  /** `sep.join(parts)` */
  function Join(parts: seq<string>, sep: char): string {
    if |parts| == 0 then ""
    else if |parts| == 1 then parts[0]
    else parts[0] + [sep] + Join(parts[1..], sep)
  }

  /** Joining the pieces of a split gives back the original text. */
  /** Joining what a split returned gives the split text back. */
  lemma {:induction false} JoinOfSplit(s: string, sep: char, parts: seq<string>)
    requires Split(s, sep) == parts
    ensures Join(parts, sep) == s
  {
    JoinSplit(s, sep);
  }

  lemma {:induction false} JoinSplit(s: string, sep: char)
    ensures Join(Split(s, sep), sep) == s
    decreases |s|
  {
    if sep in s {
      var i := IndexOf(s, sep);
      var head, tail := s[..i], s[i + 1..];
      var parts := Split(tail, sep);
      JoinSplit(tail, sep);
      var all := [head] + parts;
      assert Split(s, sep) == all;
      assert |all| >= 2 && all[0] == head && all[1..] == parts;
      assert Join(all, sep) == head + [sep] + Join(parts, sep);
      assert s == head + [sep] + tail;
    } else {
      assert Split(s, sep) == [s];
    }
  }

  /** Splitting a join of separator-free pieces gives back the pieces. */
  lemma {:induction false} SplitJoin(parts: seq<string>, sep: char)
    requires |parts| >= 1
    requires forall i :: 0 <= i < |parts| ==> sep !in parts[i]
    ensures Split(Join(parts, sep), sep) == parts
    decreases |parts|
  {
    var p0 := parts[0];
    if |parts| > 1 {
      var tail := parts[1..];
      var rest := Join(tail, sep);
      var s := p0 + [sep] + rest;
      assert Join(parts, sep) == s;
      assert s[..|p0|] == p0 && s[|p0|] == sep;
      IndexOfUnique(s, sep, |p0|);
      assert s[|p0| + 1..] == rest;
      assert Split(s, sep) == [p0] + Split(rest, sep);
      assert forall i :: 0 <= i < |tail| ==> sep !in tail[i] by {
        forall i | 0 <= i < |tail| ensures sep !in tail[i] {
          assert tail[i] == parts[i + 1];
        }
      }
      SplitJoin(tail, sep);
      assert parts == [p0] + tail;
    } else {
      assert Join(parts, sep) == p0;
      assert sep !in p0;
    }
  }

  /** Text added after the last piece stays in the last piece. */
  lemma {:induction false} JoinAppend(parts: seq<string>, sep: char, t: string)
    requires |parts| >= 1
    ensures Join(parts, sep) + t == Join(parts[..|parts| - 1] + [parts[|parts| - 1] + t], sep)
    decreases |parts|
  {
    var last := parts[|parts| - 1] + t;
    var q := parts[..|parts| - 1] + [last];
    if |parts| > 1 {
      var tail := parts[1..];
      JoinAppend(tail, sep, t);
      assert tail[|tail| - 1] == parts[|parts| - 1];
      assert Join(tail, sep) + t == Join(tail[..|tail| - 1] + [last], sep);
      assert |q| > 1 && q[0] == parts[0];
      assert q[1..] == tail[..|tail| - 1] + [last];
      assert Join(q, sep) == parts[0] + [sep] + Join(q[1..], sep);
      assert Join(parts, sep) == parts[0] + [sep] + Join(tail, sep);
    } else {
      assert q == [last];
    }
  }

  // ---------------------------------------------------------------------
  // Decimal and hexadecimal numerals

  predicate IsDigit(c: char) {
    '0' <= c <= '9'
  }

  predicate AllDigits(s: string) {
    forall i :: 0 <= i < |s| ==> IsDigit(s[i])
  }

  function DigitValue(c: char): nat
    requires IsDigit(c)
  {
    (c as int) - ('0' as int)
  }

  function DigitChar(n: nat): (c: char)
    requires n < 10
    ensures IsDigit(c) && DigitValue(c) == n
  {
    (('0' as int) + n) as char
  }

  function Pow10(n: nat): (p: nat)
    ensures p >= 1
  {
    if n == 0 then 1 else 10 * Pow10(n - 1)
  }

  /** The value of a string of decimal digits. */
  function DigitsValue(s: string): nat
    requires AllDigits(s)
  {
    if s == [] then 0 else DigitsValue(s[..|s| - 1]) * 10 + DigitValue(s[|s| - 1])
  }

  lemma {:induction false} DigitsValueConcat(a: string, b: string)
    requires AllDigits(a) && AllDigits(b)
    ensures AllDigits(a + b)
    ensures DigitsValue(a + b) == DigitsValue(a) * Pow10(|b|) + DigitsValue(b)
    decreases |b|
  {
    if b != [] {
      var b' := b[..|b| - 1];
      assert (a + b)[..|a + b| - 1] == a + b';
      DigitsValueConcat(a, b');
      ShiftDigit(DigitsValue(a), Pow10(|b'|), DigitsValue(b'), DigitValue(b[|b| - 1]));
    } else {
      assert a + b == a;
    }
  }

  /** Appending one digit to a numeral `x` followed by `y` (`y < p`). */
  lemma {:induction false} ShiftDigit(x: nat, p: nat, y: nat, d: nat)
    ensures (x * p + y) * 10 + d == x * (10 * p) + (y * 10 + d)
  {
  }

  function Zeros(n: nat): (z: string)
    ensures |z| == n && AllDigits(z)
  {
    seq(n, _ => '0')
  }

  lemma {:induction false} ZerosValue(n: nat)
    ensures DigitsValue(Zeros(n)) == 0
  {
    if n > 0 {
      assert Zeros(n)[..n - 1] == Zeros(n - 1);
      ZerosValue(n - 1);
    }
  }

  lemma {:induction false} ZerosPrefixValue(n: nat, d: string)
    requires AllDigits(d)
    ensures AllDigits(Zeros(n) + d) && DigitsValue(Zeros(n) + d) == DigitsValue(d)
  {
    ZerosValue(n);
    DigitsValueConcat(Zeros(n), d);
  }

  /** Left-pads a numeral with zeros up to `width` characters. */
  function ZeroPad(d: string, width: nat): (r: string)
    ensures |r| == if |d| >= width then |d| else width
  {
    if |d| >= width then d else Zeros(width - |d|) + d
  }

  lemma {:induction false} ZeroPadValue(d: string, width: nat)
    requires AllDigits(d)
    ensures AllDigits(ZeroPad(d, width))
    ensures DigitsValue(ZeroPad(d, width)) == DigitsValue(d)
  {
    if |d| < width {
      ZerosValue(width - |d|);
      DigitsValueConcat(Zeros(width - |d|), d);
    }
  }

  /** `str(n)` for a natural number. */
  function NatText(n: nat): (r: string)
    ensures |r| >= 1 && AllDigits(r)
  {
    if n < 10 then [DigitChar(n)] else NatText(n / 10) + [DigitChar(n % 10)]
  }

  /** `int()` of the text of `n` is `n`. */
  lemma {:induction false} NatTextValue(n: nat)
    ensures DigitsValue(NatText(n)) == n
  {
    if n >= 10 {
      var r := NatText(n);
      assert r[..|r| - 1] == NatText(n / 10);
      NatTextValue(n / 10);
    }
  }

  lemma {:induction false} NatTextLength(n: nat, k: nat)
    requires 1 <= k && n < Pow10(k)
    ensures |NatText(n)| <= k
  {
    if n >= 10 {
      NatTextLength(n / 10, k - 1);
    }
  }

  /** Splits an optional leading sign off a numeral (`-` gives `neg`). */
  function SplitSign(t: string): (string, bool) {
    if t != [] && t[0] == '-' then (t[1..], true)
    else if t != [] && t[0] == '+' then (t[1..], false)
    else (t, false)
  }

  /** `int(s)`: None where Python raises ValueError. */
  function ParseInt(s: string): (r: Option<int>)
    ensures r.Some? ==> Strip(s) != []
  {
    var (body, neg) := SplitSign(Strip(s));
    if body != [] && AllDigits(body) then
      Some(if neg then -(DigitsValue(body) as int) else DigitsValue(body))
    else None
  }

  /** `int()` rejects text that starts with a character of no numeral. */
  lemma {:induction false} ParseIntRejects(s: string)
    requires s != [] && !IsWhitespace(s[0]) && !IsDigit(s[0]) && s[0] != '-' && s[0] != '+'
    ensures ParseInt(s) == None
  {
    assert TrimStart(s) == s;
    TrimEndHead(s);
  }

  /** `float(s)` for decimal notation: None where Python raises ValueError. */
  function ParseFloat(s: string): (r: Option<real>)
    ensures r.Some? ==> Strip(s) != []
  {
    var (body, neg) := SplitSign(Strip(s));
    match DecimalValue(body)
    case None => None
    case Some(m) => Some(SignedValue(neg, m))
  }

  function SignedValue(neg: bool, m: real): real {
    if neg then -m else m
  }

  /** The number written `whole.fraction` when the fraction has `digits` digits. */
  function PointValue(whole: nat, fraction: nat, digits: nat): real {
    whole as real + fraction as real / Pow10(digits) as real
  }

  /** The value of an unsigned decimal numeral with an optional point and at
      least one digit on some side of it. */
  function DecimalValue(body: string): (r: Option<real>)
    ensures r.Some? ==> body != []
  {
    if '.' in body then
      var i := IndexOf(body, '.');
      var ip := body[..i];
      var fp := body[i + 1..];
      if AllDigits(ip) && AllDigits(fp) && |ip| + |fp| > 0 then
        Some(PointValue(DigitsValue(ip), DigitsValue(fp), |fp|))
      else None
    else if body != [] && AllDigits(body) then Some(DigitsValue(body) as real)
    else None
  }

  predicate IsHexDigit(c: char) {
    IsDigit(c) || 'a' <= c <= 'f' || 'A' <= c <= 'F'
  }

  predicate AllHex(s: string) {
    forall i :: 0 <= i < |s| ==> IsHexDigit(s[i])
  }

  function HexDigitValue(c: char): (v: nat)
    requires IsHexDigit(c)
    ensures v < 16
  {
    if IsDigit(c) then DigitValue(c)
    else if 'a' <= c <= 'f' then (c as int) - ('a' as int) + 10
    else (c as int) - ('A' as int) + 10
  }

  function HexValue(s: string): nat
    requires AllHex(s)
  {
    if s == [] then 0 else HexValue(s[..|s| - 1]) * 16 + HexDigitValue(s[|s| - 1])
  }

  /** `int(s, 16)`: optional sign, optional `0x` prefix, hex digits of either case. */
  function ParseHex(s: string): Option<int> {
    var (body, neg) := SplitSign(Strip(s));
    match HexBodyValue(body)
    case None => None
    case Some(m) => Some(if neg then -(m as int) else m)
  }

  /** The value of an unsigned hexadecimal numeral with an optional `0x` prefix. */
  function HexBodyValue(body: string): Option<nat> {
    var digits := if |body| >= 2 && body[0] == '0' && (body[1] == 'x' || body[1] == 'X') then body[2..] else body;
    if digits != [] && AllHex(digits) then Some(HexValue(digits)) else None
  }

  /** An upper-case hexadecimal digit. */
  function HexChar(n: nat): (c: char)
    requires n < 16
    ensures IsHexDigit(c) && HexDigitValue(c) == n
  {
    if n < 10 then DigitChar(n) else (('A' as int) + n - 10) as char
  }

  /** `'%X' % n` */
  function HexText(n: nat): (r: string)
    ensures |r| >= 1 && AllHex(r)
  {
    if n < 16 then [HexChar(n)] else HexText(n / 16) + [HexChar(n % 16)]
  }

  /** `'%02X' % n` */
  function Hex2(n: nat): string {
    ZeroPad(HexText(n), 2)
  }

  lemma {:induction false} Hex2Digits(n: nat)
    requires n < 256
    ensures Hex2(n) == [HexChar(n / 16), HexChar(n % 16)]
  {
    if n < 16 {
      assert HexChar(0) == '0';
    } else {
      assert HexText(n / 16) == [HexChar(n / 16)];
    }
  }

  lemma {:induction false} ParseHexPair(hi: char, lo: char)
    requires IsHexDigit(hi) && IsHexDigit(lo)
    ensures ParseHex([hi, lo]) == Some(HexDigitValue(hi) * 16 + HexDigitValue(lo))
  {
    var h := [hi, lo];
    assert HexBodyValue(h) == Some(HexDigitValue(hi) * 16 + HexDigitValue(lo)) by {
      assert h[..1] == [hi];
      assert HexValue([hi]) == HexDigitValue(hi) by {
        assert [hi][..0] == [];
      }
    }
    assert Strip(h) == h && SplitSign(h) == (h, false) by {
      StripPlain(h);
    }
  }

  /** For a byte value, `'%02X'` gives exactly two digits that `int(_, 16)` reads back. */
  lemma {:induction false} Hex2RoundTrip(n: nat)
    requires n < 256
    ensures |Hex2(n)| == 2 && AllHex(Hex2(n))
    ensures ParseHex(Hex2(n)) == Some(n)
  {
    Hex2Digits(n);
    ParseHexPair(HexChar(n / 16), HexChar(n % 16));
  }

  // ---------------------------------------------------------------------
  // %d and %f formatting

  /** A numeral with an optional leading minus sign. */
  function Signed(neg: bool, body: string): string {
    if neg then "-" + body else body
  }

  /** `'%0{width}d' % i` (width 0 gives `str(i)`); the sign counts towards the width. */
  function PaddedInt(i: int, width: nat): string {
    if i < 0 then Signed(true, ZeroPad(NatText(-i), if width > 0 then width - 1 else 0))
    else Signed(false, ZeroPad(NatText(i), width))
  }

  /** `str(i)` */
  function IntText(i: int): string {
    PaddedInt(i, 0)
  }

  function Abs(x: real): real {
    if x < 0.0 then -x else x
  }

  /** Rounds to the nearest integer, ties to even (the rounding of `%f`). */
  function RoundHalfEven(y: real): (q: int)
    ensures -0.5 <= y - q as real <= 0.5
  {
    var f := y.Floor;
    var d := y - f as real;
    if d < 0.5 then f
    else if d > 0.5 then f + 1
    else if f % 2 == 0 then f else f + 1
  }

  /** The digits of `%.{decimals}f` for a non-negative rounded value `q / 10^decimals`. */
  function FixedDigits(q: nat, decimals: nat): string {
    NatText(Whole(q, decimals)) + (if decimals == 0 then "" else "." + ZeroPad(NatText(Fraction(q, decimals)), decimals))
  }

  /** The whole units in `q` units of `10^-decimals` (`q // 10**decimals`),
      one decimal digit at a time. */
  function Whole(q: nat, decimals: nat): nat {
    if decimals == 0 then q else Whole(q / 10, decimals - 1)
  }

  /** What is left of `q` units of `10^-decimals` after the whole units
      (`q % 10**decimals`). */
  function Fraction(q: nat, decimals: nat): (f: nat)
    ensures f < Pow10(decimals)
  {
    if decimals == 0 then 0 else q % 10 + 10 * Fraction(q / 10, decimals - 1)
  }

  /** The whole and the fractional units make up `q`. */
  lemma {:induction false} WholeFraction(q: nat, decimals: nat)
    ensures q == Whole(q, decimals) * Pow10(decimals) + Fraction(q, decimals)
  {
    if decimals > 0 {
      var w, f, p := Whole(q / 10, decimals - 1), Fraction(q / 10, decimals - 1), Pow10(decimals - 1);
      WholeFraction(q / 10, decimals - 1);
      assert q / 10 == w * p + f;
      assert w * Pow10(decimals) == 10 * (w * p);
    }
  }

  /** The rounded magnitude that `%.{decimals}f` prints for `x`, in units of the last digit. */
  function FixedMagnitude(x: real, decimals: nat): (q: nat)
    ensures Abs(x) * Pow10(decimals) as real - 0.5 <= q as real <= Abs(x) * Pow10(decimals) as real + 0.5
  {
    var q := RoundHalfEven(Abs(x) * Pow10(decimals) as real);
    assert q >= 0;
    q
  }

  /** `'%0{width}.{decimals}f' % x`, with exact decimal rounding. */
  function FixedText(x: real, decimals: nat, width: nat): string {
    var digits := FixedDigits(FixedMagnitude(x, decimals), decimals);
    if x < 0.0 then Signed(true, ZeroPad(digits, if width > 0 then width - 1 else 0))
    else Signed(false, ZeroPad(digits, width))
  }

  /** The text of an unsigned decimal number: it starts with a digit and holds
      only digits and points. */
  predicate Unsigned(body: string) {
    body != [] && IsDigit(body[0])
    && forall k :: 0 <= k < |body| ==> IsDigit(body[k]) || body[k] == '.'
  }

  /** Characters of the numbers that `%d` and `%f` print. */
  predicate NumericText(s: string) {
    forall i :: 0 <= i < |s| ==> IsDigit(s[i]) || s[i] == '-' || s[i] == '.'
  }

  /** Such numbers are plain ASCII with no whitespace, comma or star. */
  lemma {:induction false} NumericPlain(s: string)
    requires NumericText(s)
    ensures NoWhitespace(s) && ',' !in s && '*' !in s
    ensures forall i :: 0 <= i < |s| ==> (s[i] as int) < 128
  {
    assert forall i :: 0 <= i < |s| ==> s[i] != ',' && s[i] != '*' by {
      forall i | 0 <= i < |s| ensures s[i] != ',' && s[i] != '*' {
      }
    }
  }

  lemma {:induction false} SignedNumeric(neg: bool, body: string)
    requires Unsigned(body)
    ensures NumericText(Signed(neg, body))
  {
    var s := Signed(neg, body);
    forall i | 0 <= i < |s| ensures IsDigit(s[i]) || s[i] == '-' || s[i] == '.' {
      if neg && i > 0 {
        assert s[i] == body[i - 1];
      }
    }
  }

  /** `Strip` leaves a signed numeral alone and `SplitSign` takes it apart again. */
  lemma {:induction false} SignedRead(neg: bool, body: string)
    requires Unsigned(body)
    ensures Strip(Signed(neg, body)) == Signed(neg, body)
    ensures SplitSign(Signed(neg, body)) == (body, neg)
  {
    var s := Signed(neg, body);
    if neg {
      assert s[1..] == body;
    }
    assert SplitSign(s) == (body, neg);
    assert Strip(s) == s by {
      SignedNumeric(neg, body);
      NumericPlain(s);
      StripPlain(s);
    }
  }

  lemma {:induction false} DigitsUnsigned(d: string, width: nat)
    requires d != [] && AllDigits(d)
    ensures Unsigned(ZeroPad(d, width)) && AllDigits(ZeroPad(d, width))
    ensures DigitsValue(ZeroPad(d, width)) == DigitsValue(d)
  {
    ZeroPadValue(d, width);
  }

  lemma {:induction false} PaddedIntNumeric(i: int, width: nat)
    ensures NumericText(PaddedInt(i, width)) && |PaddedInt(i, width)| >= 1
  {
    var n := if i < 0 then -i else i;
    var w := if i < 0 then (if width > 0 then width - 1 else 0) else width;
    DigitsUnsigned(NatText(n), w);
    SignedNumeric(i < 0, ZeroPad(NatText(n), w));
  }

  lemma {:induction false} FixedUnsigned(q: nat, decimals: nat, pad: nat)
    ensures Unsigned(ZeroPad(FixedDigits(q, decimals), pad))
  {
    FixedDigitsUnsigned(q, decimals);
    ZeroPadUnsigned(FixedDigits(q, decimals), pad);
  }

  lemma {:induction false} FixedDigitsUnsigned(q: nat, decimals: nat)
    ensures Unsigned(FixedDigits(q, decimals))
  {
    var d := FixedDigits(q, decimals);
    var ip := NatText(Whole(q, decimals));
    if decimals > 0 {
      var fp := ZeroPad(NatText(Fraction(q, decimals)), decimals);
      ZeroPadValue(NatText(Fraction(q, decimals)), decimals);
      assert d == ip + "." + fp;
      assert forall k :: 0 <= k < |d| ==> IsDigit(d[k]) || d[k] == '.' by {
        forall k | 0 <= k < |d| ensures IsDigit(d[k]) || d[k] == '.' {
          if k < |ip| {
            assert d[k] == ip[k];
          } else if k > |ip| {
            assert d[k] == fp[k - |ip| - 1];
          }
        }
      }
    } else {
      assert d == ip;
    }
    assert d[0] == ip[0];
  }

  /** Padding with leading zeros keeps a number unsigned. */
  lemma {:induction false} ZeroPadUnsigned(d: string, pad: nat)
    requires Unsigned(d)
    ensures Unsigned(ZeroPad(d, pad))
  {
    if |d| < pad {
      var z := Zeros(pad - |d|);
      assert ZeroPad(d, pad) == z + d;
      assert forall k :: 0 <= k < |z + d| ==> (z + d)[k] == (if k < |z| then z[k] else d[k - |z|]);
    }
  }

  lemma {:induction false} FixedTextNumeric(x: real, decimals: nat, width: nat)
    ensures NumericText(FixedText(x, decimals, width))
  {
    var w := if x < 0.0 then (if width > 0 then width - 1 else 0) else width;
    FixedUnsigned(FixedMagnitude(x, decimals), decimals, w);
    SignedNumeric(x < 0.0, ZeroPad(FixedDigits(FixedMagnitude(x, decimals), decimals), w));
  }

  // ---------------------------------------------------------------------
  // Reading formatted numbers back

  /** A zero-padded integer is read back exactly by `int()`. */
  lemma {:induction false} ParseIntPadded(i: int, width: nat)
    ensures ParseInt(PaddedInt(i, width)) == Some(i)
  {
    var n := if i < 0 then -i else i;
    var w := if i < 0 then (if width > 0 then width - 1 else 0) else width;
    var body := ZeroPad(NatText(n), w);
    var s := PaddedInt(i, width);
    assert s == Signed(i < 0, body);
    assert body != [] && AllDigits(body) && DigitsValue(body) == n && Unsigned(body) by {
      DigitsUnsigned(NatText(n), w);
      NatTextValue(n);
    }
    assert Strip(s) == s && SplitSign(s) == (body, i < 0) by {
      SignedRead(i < 0, body);
    }
  }

  /** A zero-padded integer is read back exactly by `float()`. */
  lemma {:induction false} ParseFloatPadded(i: int, width: nat)
    ensures ParseFloat(PaddedInt(i, width)) == Some(i as real)
  {
    var n := if i < 0 then -i else i;
    var w := if i < 0 then (if width > 0 then width - 1 else 0) else width;
    var body := ZeroPad(NatText(n), w);
    var s := PaddedInt(i, width);
    assert s == Signed(i < 0, body);
    assert body != [] && AllDigits(body) && DigitsValue(body) == n && Unsigned(body) by {
      DigitsUnsigned(NatText(n), w);
      NatTextValue(n);
    }
    assert Strip(s) == s && SplitSign(s) == (body, i < 0) by {
      SignedRead(i < 0, body);
    }
    assert DecimalValue(body) == Some(n as real) by {
      assert '.' !in body by {
        forall k | 0 <= k < |body| ensures body[k] != '.' {
          assert IsDigit(body[k]);
        }
      }
    }
    ParseFloatOf(s, body, i < 0, n as real);
  }

  /** `float()` of a plain run of digits. */
  lemma {:induction false} ParseFloatDigits(s: string)
    requires s != [] && AllDigits(s)
    ensures ParseFloat(s) == Some(DigitsValue(s) as real)
  {
    assert Strip(s) == s && SplitSign(s) == (s, false) by {
      SignedRead(false, s);
    }
    assert DecimalValue(s) == Some(DigitsValue(s) as real) by {
      assert '.' !in s by {
        forall k | 0 <= k < |s| ensures s[k] != '.' {
          assert IsDigit(s[k]);
        }
      }
    }
    ParseFloatOf(s, s, false, DigitsValue(s) as real);
  }

  /** `float()` once stripping and the sign are known. */
  lemma {:induction false} ParseFloatOf(s: string, body: string, neg: bool, m: real)
    requires Strip(s) == s && SplitSign(s) == (body, neg) && DecimalValue(body) == Some(m)
    ensures ParseFloat(s) == Some(SignedValue(neg, m))
  {
  }

  lemma {:induction false} DecimalPoint(a: string, b: string)
    requires AllDigits(a) && AllDigits(b) && a != []
    ensures DecimalValue(a + "." + b) == Some(PointValue(DigitsValue(a), DigitsValue(b), |b|))
  {
    var body := a + "." + b;
    assert body[..|a|] == a && body[|a| + 1..] == b;
    IndexOfUnique(body, '.', |a|);
  }

  lemma {:induction false} PointUnsigned(a: string, b: string)
    requires AllDigits(a) && AllDigits(b) && a != []
    ensures Unsigned(a + "." + b)
  {
    var body := a + "." + b;
    forall k | 0 <= k < |body| ensures IsDigit(body[k]) || body[k] == '.' {
      if k < |a| {
        assert body[k] == a[k];
      } else if k > |a| {
        assert body[k] == b[k - |a| - 1];
      }
    }
  }

  /** `float()` of a signed numeral with one point. */
  lemma {:induction false} ParseFloatPoint(neg: bool, a: string, b: string, s: string)
    requires a != [] && AllDigits(a) && AllDigits(b)
    requires s == Signed(neg, a + "." + b)
    ensures ParseFloat(s) == Some(SignedValue(neg, PointValue(DigitsValue(a), DigitsValue(b), |b|)))
  {
    var body := a + "." + b;
    var m := PointValue(DigitsValue(a), DigitsValue(b), |b|);
    assert DecimalValue(body) == Some(m) by {
      DecimalPoint(a, b);
    }
    assert Strip(s) == s && SplitSign(s) == (body, neg) by {
      PointUnsigned(a, b);
      SignedRead(neg, body);
    }
    ParseFloatOf(s, body, neg, m);
  }

  /** The text `%0{pad}.{d}f` writes for a rounded magnitude `q`: zeros, the
      whole part, a point, and the fraction padded to `d` digits. */
  lemma {:induction false} FixedDigitsShape(q: nat, decimals: nat, pad: nat, zeros: nat)
    requires decimals > 0
    requires zeros == if |FixedDigits(q, decimals)| >= pad then 0 else pad - |FixedDigits(q, decimals)|
    ensures ZeroPad(FixedDigits(q, decimals), pad)
            == (Zeros(zeros) + NatText(Whole(q, decimals))) + "." + ZeroPad(NatText(Fraction(q, decimals)), decimals)
  {
  }

  /** The two halves of that text are worth `q / 10^d` and `q % 10^d`, the second in exactly `d` digits. */
  lemma {:induction false} FixedDigitsValue(q: nat, decimals: nat, zeros: nat, a: string, b: string)
    requires decimals > 0
    requires a == Zeros(zeros) + NatText(Whole(q, decimals))
    requires b == ZeroPad(NatText(Fraction(q, decimals)), decimals)
    ensures a != [] && AllDigits(a) && AllDigits(b) && |b| == decimals
    ensures DigitsValue(a) == Whole(q, decimals) && DigitsValue(b) == Fraction(q, decimals)
  {
    var whole, fraction := Whole(q, decimals), Fraction(q, decimals);
    NatTextLength(fraction, decimals);
    ZeroPadValue(NatText(fraction), decimals);
    NatTextValue(fraction);
    NatTextValue(whole);
    ZerosPrefixValue(zeros, NatText(whole));
  }

  /** Splitting a count of units into whole and fractional parts keeps its value. */
  lemma {:induction false} QuotientSplit(q: nat, decimals: nat)
    ensures PointValue(Whole(q, decimals), Fraction(q, decimals), decimals) == q as real / Pow10(decimals) as real
  {
    WholeFraction(q, decimals);
    RealSplit(Whole(q, decimals), Fraction(q, decimals), Pow10(decimals), q);
  }

  lemma {:induction false} RealSplit(a: nat, b: nat, p: nat, q: nat)
    requires p >= 1 && q == a * p + b
    ensures a as real + b as real / p as real == q as real / p as real
  {
    var pr := p as real;
    var m := a as real + b as real / pr;
    assert (b as real / pr) * pr == b as real;
    assert m * pr == a as real * pr + b as real;
    assert (a * p) as real == a as real * pr;
    assert m * pr == q as real;
  }

  /** `float()` of the text `%f` prints for a rounded magnitude `q`. */
  lemma {:induction false} ParseFixedDigits(neg: bool, q: nat, decimals: nat, pad: nat, s: string)
    requires decimals > 0
    requires s == Signed(neg, ZeroPad(FixedDigits(q, decimals), pad))
    ensures ParseFloat(s) == Some(SignedValue(neg, q as real / Pow10(decimals) as real))
  {
    var p := Pow10(decimals);
    var d := FixedDigits(q, decimals);
    var zeros := if |d| >= pad then 0 else pad - |d|;
    var a := Zeros(zeros) + NatText(Whole(q, decimals));
    var b := ZeroPad(NatText(Fraction(q, decimals)), decimals);
    assert s == Signed(neg, a + "." + b) by {
      FixedDigitsShape(q, decimals, pad, zeros);
    }
    FixedDigitsValue(q, decimals, zeros, a, b);
    ParseFloatPoint(neg, a, b, s);
    QuotientSplit(q, decimals);
  }

  /** Half a unit in the last place of a number printed with `decimals` decimals. */
  function Tolerance(decimals: nat): (t: real)
    ensures t > 0.0
  {
    if decimals == 0 then 0.5 else Tolerance(decimals - 1) / 10.0
  }

  lemma {:induction false} ToleranceScale(decimals: nat)
    ensures Tolerance(decimals) * Pow10(decimals) as real == 0.5
  {
    if decimals > 0 {
      ToleranceScale(decimals - 1);
      var t, p := Tolerance(decimals - 1), Pow10(decimals - 1) as real;
      assert Tolerance(decimals) * Pow10(decimals) as real == (t / 10.0) * (10.0 * p);
    }
  }

  /** An error of at most half a unit, scaled down by `p`, is within `t = 0.5 / p`. */
  lemma {:induction false} ErrorBound(m: real, a: real, pr: real, t: real)
    requires pr > 0.0 && t * pr == 0.5
    requires -0.5 <= m * pr - a * pr <= 0.5
    ensures -t <= m - a <= t
  {
    var e := m * pr - a * pr;
    assert m - a == e * (2.0 * t) by {
      assert (m - a) * pr == e;
      assert 2.0 * t * pr == 1.0;
    }
    assert t > 0.0;
    assert (0.5 - e) * (2.0 * t) >= 0.0;
    assert (e + 0.5) * (2.0 * t) >= 0.0;
  }

  /** Rounding `|x| * 10^d` to `q` leaves `±q / 10^d` within the tolerance of `x`. */
  lemma {:induction false} RoundingError(x: real, q: nat, decimals: nat, v: real)
    requires Abs(x) * Pow10(decimals) as real - 0.5 <= q as real <= Abs(x) * Pow10(decimals) as real + 0.5
    requires v == SignedValue(x < 0.0, q as real / Pow10(decimals) as real)
    ensures -Tolerance(decimals) <= v - x <= Tolerance(decimals)
  {
    var pr := Pow10(decimals) as real;
    var m := q as real / pr;
    assert m * pr == q as real;
    ToleranceScale(decimals);
    ErrorBound(m, Abs(x), pr, Tolerance(decimals));
  }

  lemma {:induction false} FixedTextShape(x: real, decimals: nat, width: nat, q: nat, w: nat)
    requires q == FixedMagnitude(x, decimals)
    requires w == if x < 0.0 then (if width > 0 then width - 1 else 0) else width
    ensures FixedText(x, decimals, width) == Signed(x < 0.0, ZeroPad(FixedDigits(q, decimals), w))
  {
  }

  /** `float()` reads `%0{w}.{d}f` back as the rounded magnitude over `10^d`, with the sign of `x`. */
  lemma {:induction false} ParseFixedText(x: real, decimals: nat, width: nat)
    requires decimals > 0
    ensures ParseFloat(FixedText(x, decimals, width))
            == Some(SignedValue(x < 0.0, FixedMagnitude(x, decimals) as real / Pow10(decimals) as real))
  {
    var q := FixedMagnitude(x, decimals);
    var w := if x < 0.0 then (if width > 0 then width - 1 else 0) else width;
    FixedTextShape(x, decimals, width, q, w);
    ParseFixedDigits(x < 0.0, q, decimals, w, FixedText(x, decimals, width));
  }

  lemma {:induction false} FixedRounding(x: real, decimals: nat, q: nat)
    requires q == FixedMagnitude(x, decimals)
    ensures -Tolerance(decimals) <= SignedValue(x < 0.0, q as real / Pow10(decimals) as real) - x <= Tolerance(decimals)
  {
    RoundingError(x, q, decimals, SignedValue(x < 0.0, q as real / Pow10(decimals) as real));
  }

  /** `float()` reads `%0{w}.{d}f` back to within half a unit of the last printed digit. */
  lemma {:induction false} ParseFloatFixed(x: real, decimals: nat, width: nat)
    requires decimals > 0
    ensures ParseFloat(FixedText(x, decimals, width)).Some?
    ensures -Tolerance(decimals) <= ParseFloat(FixedText(x, decimals, width)).value - x <= Tolerance(decimals)
  {
    ParseFixedText(x, decimals, width);
    FixedRounding(x, decimals, FixedMagnitude(x, decimals));
  }

  // ---------------------------------------------------------------------
  // Characters of joined and stripped text

  /** Every character is below 128. */
  predicate Ascii(s: string) {
    forall i :: 0 <= i < |s| ==> (s[i] as int) < 128
  }

  /** A character in none of the pieces, and not the separator, is not in their join. */
  lemma {:induction false} JoinAvoids(parts: seq<string>, sep: char, c: char)
    requires c != sep && forall i :: 0 <= i < |parts| ==> c !in parts[i]
    ensures c !in Join(parts, sep)
    decreases |parts|
  {
    if |parts| > 1 {
      JoinAvoids(parts[1..], sep, c);
    }
  }

  /** Joining ASCII pieces with an ASCII separator gives ASCII text. */
  lemma {:induction false} JoinAscii(parts: seq<string>, sep: char)
    requires (sep as int) < 128 && forall i :: 0 <= i < |parts| ==> Ascii(parts[i])
    ensures Ascii(Join(parts, sep))
    decreases |parts|
  {
    if |parts| > 1 {
      JoinAscii(parts[1..], sep);
      var a, b := parts[0] + [sep], Join(parts[1..], sep);
      assert Ascii(parts[0]);
      assert forall k :: 0 <= k < |a + b| ==> (a + b)[k] == (if k < |a| then a[k] else b[k - |a|]);
    }
  }

  lemma {:induction false} NumericConcat(a: string, b: string)
    requires NumericText(a) && NumericText(b)
    ensures NumericText(a + b)
  {
    assert forall k :: 0 <= k < |a + b| ==> (a + b)[k] == (if k < |a| then a[k] else b[k - |a|]);
  }

  /** A non-negative padded integer is a run of digits at least `width` long. */
  lemma {:induction false} PaddedNatDigits(i: int, width: nat)
    requires i >= 0
    ensures AllDigits(PaddedInt(i, width)) && |PaddedInt(i, width)| >= width && |PaddedInt(i, width)| >= 1
    ensures DigitsValue(PaddedInt(i, width)) == i
  {
    DigitsUnsigned(NatText(i), width);
    NatTextValue(i);
  }

  /** `strip()` removes a trailing CRLF from text with non-blank edges. */
  lemma {:induction false} StripCrLf(s: string)
    requires s != [] && !IsWhitespace(s[0]) && !IsWhitespace(s[|s| - 1])
    ensures Strip(s + "\r\n") == s
  {
    var t := s + "\r\n";
    assert TrimStart(t) == t;
    assert t[..|t| - 1] == s + "\r" && IsWhitespace(t[|t| - 1]);
    assert (s + "\r")[..|s|] == s && IsWhitespace((s + "\r")[|s|]);
    assert TrimEnd(t) == TrimEnd(s + "\r") == TrimEnd(s) == s;
  }

  // ---------------------------------------------------------------------
  // Numbers

  /** Python `int(x)` on a float: rounds toward zero. */
  function Truncate(x: real): (r: int)
    ensures x >= 0.0 ==> r >= 0 && r as real <= x < r as real + 1.0
    ensures x < 0.0 ==> r <= 0 && r as real - 1.0 < x <= r as real
  {
    if x >= 0.0 then x.Floor else -((-x).Floor)
  }

  // ---------------------------------------------------------------------
  // Paths (`os.path` on POSIX)

  /** `s.rstrip('/')` */
  function TrimSlashes(s: string): (r: string)
    ensures |r| <= |s| && r == s[..|r|] && (r == [] || r[|r| - 1] != '/')
  {
    if s != [] && s[|s| - 1] == '/' then TrimSlashes(s[..|s| - 1]) else s
  }

  predicate AllSlashes(s: string) {
    forall i :: 0 <= i < |s| ==> s[i] == '/'
  }

  /** `os.path.dirname(p)` on POSIX: everything up to the last `/`, with
      the trailing slashes removed unless it is all slashes. */
  function Dirname(p: string): string {
    var head := if '/' in p then p[..LastIndexOf(p, '/') + 1] else "";
    if head != [] && !AllSlashes(head) then TrimSlashes(head) else head
  }

  /** The directory of `dir + "/" + name` is `dir`. */
  lemma {:induction false} DirnameJoin(dir: string, name: string)
    requires '/' !in name && dir != [] && dir[|dir| - 1] != '/'
    ensures Dirname(dir + "/" + name) == dir
  {
    var p := dir + "/" + name;
    assert p[|dir|] == '/' && p[|dir| + 1..] == name;
    LastIndexOfUnique(p, '/', |dir|);
    var head := p[..|dir| + 1];
    assert head == dir + "/" && head[|dir| - 1] == dir[|dir| - 1];
    assert !AllSlashes(head);
    assert head[..|head| - 1] == dir;
    assert TrimSlashes(head) == TrimSlashes(dir);
  }

  /** A bare file name has no directory. */
  lemma {:induction false} DirnameBare(name: string)
    requires '/' !in name
    ensures Dirname(name) == ""
  {
  }

  // ---------------------------------------------------------------------
  // Case

  /** `c.upper()` on ASCII letters; every other character is kept. */
  function UpperChar(c: char): (u: char)
    ensures 'a' <= c <= 'z' ==> u as int == c as int - 32
    ensures !('a' <= c <= 'z') ==> u == c
    ensures !('a' <= u <= 'z')
  {
    if 'a' <= c <= 'z' then (c as int - 32) as char else c
  }

  /** `s.upper()` character by character. */
  function Upper(s: string): (r: string)
    ensures |r| == |s| && forall i :: 0 <= i < |s| ==> r[i] == UpperChar(s[i])
  {
    if s == [] then [] else [UpperChar(s[0])] + Upper(s[1..])
  }

  /** Upper-casing twice changes nothing more. */
  lemma {:induction false} UpperIdempotent(s: string)
    ensures Upper(Upper(s)) == Upper(s)
  {
    assert forall i :: 0 <= i < |s| ==> UpperChar(UpperChar(s[i])) == UpperChar(s[i]);
  }
}
