/** The NMEA 0183 sentence parser: checksum validation, dispatch on the
    sentence type, and decoding of GGA and RMC sentences into a location
    record. Coordinates are exact reals. */
module Nmea {
  import opened Values
  import opened Text

  /** A decoded position fix. `timestamp` is the reading of the clock when
      the sentence was parsed. */
  datatype LocationData = LocationData(
    timestamp: real,
    latitude: real,
    longitude: real,
    altitude: real,
    quality: int,
    satellites: int,
    hdop: real,
    rawNmea: string)

  // ---------------------------------------------------------------------
  // Checksum

  /** Bitwise exclusive or of two naturals (Python `^` on non-negative ints). */
  function Xor(a: nat, b: nat): (r: nat)
    decreases a + b
  {
    if a == 0 && b == 0 then 0 else 2 * Xor(a / 2, b / 2) + XorBit(a % 2, b % 2)
  }

  /** The exclusive or of two bits. */
  function XorBit(x: nat, y: nat): (r: nat)
    ensures r < 2 && (r == 0 <==> x == y)
  {
    if x == y then 0 else 1
  }

  lemma {:induction false} XorZero(a: nat)
    ensures Xor(a, 0) == a && Xor(0, a) == a
    decreases a
  {
    if a > 0 {
      XorZero(a / 2);
    }
  }

  lemma {:induction false} XorComm(a: nat, b: nat)
    ensures Xor(a, b) == Xor(b, a)
    decreases a + b
  {
    if a + b > 0 {
      XorComm(a / 2, b / 2);
    }
  }

  /** Halving and parity of an exclusive or. */
  lemma {:induction false} XorHalf(a: nat, b: nat)
    ensures Xor(a, b) / 2 == Xor(a / 2, b / 2)
    ensures Xor(a, b) % 2 == if a % 2 == b % 2 then 0 else 1
  {
    var x := Xor(a / 2, b / 2);
    var r := XorBit(a % 2, b % 2);
    if a + b > 0 {
      assert Xor(a, b) == 2 * x + r;
      HalfParts(x, r);
    } else {
      XorZero(0);
    }
  }

  lemma {:induction false} HalfParts(x: nat, r: nat)
    requires r < 2
    ensures (2 * x + r) / 2 == x && (2 * x + r) % 2 == r
  {
  }

  lemma {:induction false} XorAssoc(a: nat, b: nat, c: nat)
    ensures Xor(Xor(a, b), c) == Xor(a, Xor(b, c))
    decreases a + b + c
  {
    if a + b + c > 0 {
      var ab, bc := Xor(a, b), Xor(b, c);
      XorHalf(a, b);
      XorHalf(b, c);
      XorHalf(ab, c);
      XorHalf(a, bc);
      XorAssoc(a / 2, b / 2, c / 2);
      var l, r := Xor(ab, c), Xor(a, bc);
      assert l / 2 == r / 2 && l % 2 == r % 2;
    }
  }

  lemma {:induction false} XorSelf(a: nat)
    ensures Xor(a, a) == 0
    decreases a
  {
    if a > 0 {
      XorSelf(a / 2);
    }
  }

  /** The exclusive or of two numbers below 2^k is below 2^k. */
  lemma {:induction false} XorBelow(a: nat, b: nat, p: nat)
    requires p >= 1 && (p == 1 || p % 2 == 0) && IsPow2(p)
    requires a < p && b < p
    ensures Xor(a, b) < p
    decreases p
  {
    if a + b > 0 {
      XorBelow(a / 2, b / 2, p / 2);
    }
  }

  predicate IsPow2(p: nat)
    decreases p
  {
    p == 1 || (p >= 2 && p % 2 == 0 && IsPow2(p / 2))
  }

  /** If `a ^ x == a ^ y` then `x == y`. */
  lemma {:induction false} XorCancel(a: nat, x: nat, y: nat)
    requires Xor(a, x) == Xor(a, y)
    ensures x == y
  {
    XorAssoc(a, a, x);
    XorAssoc(a, a, y);
    XorSelf(a);
    XorZero(x);
    XorZero(y);
  }

  /** The XOR of the character codes of `s` (`ord` of each, folded with `^`). */
  function XorSum(s: string): nat
    decreases |s|
  {
    if s == [] then 0 else Xor(XorSum(s[..|s| - 1]), s[|s| - 1] as nat)
  }

  function Checksum(s: string): nat {
    XorSum(s)
  }

  /** The checksum covers the characters after the leading one, up to the last `*`. */
  function CoveredText(line: string): string
    requires '*' in line
  {
    SliceFrom(line[..LastIndexOf(line, '*')], 1)
  }

  /** The text after the last `*`. */
  function ChecksumText(line: string): string
    requires '*' in line
  {
    line[LastIndexOf(line, '*') + 1..]
  }

  /** The line carries a `*` and the number written after the last one, read
      as hexadecimal, equals the XOR of the covered characters. */
  predicate ChecksumValid(line: string) {
    '*' in line && ParseHex(ChecksumText(line)) == Some(Checksum(CoveredText(line)))
  }

  /** `_validate_checksum`: splits at the last `*`, reads the hex value after
      it, and compares it with the XOR accumulated over the covered text. */
  method ValidateChecksum(line: string) returns (ok: bool)
    ensures ok == ChecksumValid(line)
  {
    if '*' !in line {
      return false;
    }
    var star := LastIndexOf(line, '*');
    var message, checksumText := line[..star], line[star + 1..];
    var expected := ParseHex(checksumText);
    if expected.None? {
      return false;
    }
    var calculated := AccumulateXor(SliceFrom(message, 1));
    return calculated == expected.value;
  }

  /** The accumulation loop `for char in s: checksum ^= ord(char)`. */
  method AccumulateXor(s: string) returns (checksum: nat)
    ensures checksum == XorSum(s)
  {
    checksum := 0;
    for i := 0 to |s|
      invariant checksum == XorSum(s[..i])
    {
      assert XorSum(s[..i + 1]) == Xor(XorSum(s[..i]), s[i] as nat) by {
        assert s[..i + 1][..i] == s[..i];
      }
      checksum := Xor(checksum, s[i] as nat);
    }
    assert s[..|s|] == s;
  }

  lemma {:induction false} XorSumConcat(a: string, b: string)
    ensures XorSum(a + b) == Xor(XorSum(a), XorSum(b))
    decreases |b|
  {
    if b == [] {
      assert a + b == a;
      XorZero(XorSum(a));
    } else {
      var b' := b[..|b| - 1];
      assert (a + b)[..|a + b| - 1] == a + b';
      XorSumConcat(a, b');
      XorAssoc(XorSum(a), XorSum(b'), b[|b| - 1] as nat);
    }
  }

  lemma {:induction false} XorSumSingle(c: char)
    ensures XorSum([c]) == c as nat
  {
    assert [c][..0] == [];
    XorZero(c as nat);
  }

  /** Replacing one character by a different one always changes the XOR. */
  lemma {:induction false} XorSumDetects(s: string, i: nat, c: char)
    requires i < |s| && c != s[i]
    ensures Checksum(s[i := c]) != Checksum(s)
  {
    var a, b := s[..i], s[i + 1..];
    assert s == (a + [s[i]]) + b;
    assert s[i := c] == (a + [c]) + b;
    XorSumConcat(a + [s[i]], b);
    XorSumConcat(a, [s[i]]);
    XorSumConcat(a + [c], b);
    XorSumConcat(a, [c]);
    XorSumSingle(c);
    XorSumSingle(s[i]);
    var x, y, sb := Xor(XorSum(a), c as nat), Xor(XorSum(a), s[i] as nat), XorSum(b);
    if XorSum(s[i := c]) == XorSum(s) {
      XorComm(x, sb);
      XorComm(y, sb);
      XorCancel(sb, x, y);
      XorCancel(XorSum(a), c as nat, s[i] as nat);
    }
  }

  /** The XOR of ASCII characters is below 128, so it fits two hex digits. */
  lemma {:induction false} XorSumAscii(s: string)
    requires forall i :: 0 <= i < |s| ==> (s[i] as int) < 128
    ensures Checksum(s) < 128
    decreases |s|
  {
    if s != [] {
      XorSumAscii(s[..|s| - 1]);
      assert IsPow2(128) by {
        assert IsPow2(64) && IsPow2(32) && IsPow2(16) && IsPow2(8) && IsPow2(4) && IsPow2(2);
      }
      XorBelow(XorSum(s[..|s| - 1]), s[|s| - 1] as nat, 128);
    }
  }

  /** Corrupting any one covered character of a valid line makes it invalid. */
  lemma {:induction false} CorruptionDetected(line: string, i: nat, c: char)
    requires ChecksumValid(line)
    requires 1 <= i < LastIndexOf(line, '*')
    requires c != line[i] && c != '*'
    ensures !ChecksumValid(line[i := c])
  {
    CorruptedParts(line, i, c);
    CorruptedSum(line, i, c);
    InvalidFromParts(line, line[i := c]);
  }

  /** The changed character changes the checksum of the covered text. */
  lemma {:induction false} CorruptedSum(line: string, i: nat, c: char)
    requires '*' in line
    requires 1 <= i < LastIndexOf(line, '*')
    requires c != line[i] && c != '*'
    ensures '*' in line[i := c]
    ensures Checksum(CoveredText(line[i := c])) != Checksum(CoveredText(line))
  {
    CoveredAt(line, i);
    XorSumDetects(CoveredText(line), i - 1, c);
    CorruptedParts(line, i, c);
  }

  /** Changing a covered character keeps the star and the checksum text and
      changes the same position of the covered text. */
  lemma {:induction false} CorruptedParts(line: string, i: nat, c: char)
    requires '*' in line && 1 <= i < LastIndexOf(line, '*') && c != '*'
    ensures '*' in line[i := c] && ChecksumText(line[i := c]) == ChecksumText(line)
    ensures i - 1 < |CoveredText(line)|
    ensures CoveredText(line[i := c]) == CoveredText(line)[i - 1 := c]
  {
    var star := LastIndexOf(line, '*');
    var bad := line[i := c];
    assert bad[star + 1..] == line[star + 1..];
    LastIndexOfUnique(bad, '*', star);
    var m := line[..star][1..];
    assert CoveredText(line) == m;
    assert bad[..star][1..] == m[i - 1 := c];
  }

  /** The covered text starts after the first character. */
  lemma {:induction false} CoveredAt(line: string, i: nat)
    requires '*' in line && 1 <= i < LastIndexOf(line, '*')
    ensures i - 1 < |CoveredText(line)| && CoveredText(line)[i - 1] == line[i]
  {
  }

  /** A line with the checksum text of a valid line but a different XOR is invalid. */
  lemma {:induction false} InvalidFromParts(line: string, bad: string)
    requires ChecksumValid(line) && '*' in bad && ChecksumText(bad) == ChecksumText(line)
    requires Checksum(CoveredText(bad)) != Checksum(CoveredText(line))
    ensures !ChecksumValid(bad)
  {
  }

  /** Appending `*` and the two-digit checksum to a star-free sentence body
      gives a line that passes validation. */
  lemma {:induction false} ChecksumSealed(body: string)
    requires '*' !in body && body != []
    requires Checksum(body[1..]) < 256
    ensures ChecksumValid(body + "*" + Hex2(Checksum(body[1..])))
  {
    var sum := Checksum(body[1..]);
    var h := Hex2(sum);
    Hex2RoundTrip(sum);
    Hex2Digits(sum);
    var hi, lo := HexChar(sum / 16), HexChar(sum % 16);
    assert h == [hi, lo];
    assert IsHexDigit(hi) && IsHexDigit(lo);
    assert '*' !in h;
    SealedWith(body, h, sum);
  }

  /** Any star-free text that reads back as the checksum seals the body. */
  lemma {:induction false} SealedWith(body: string, h: string, sum: nat)
    requires '*' !in body && body != [] && '*' !in h
    requires sum == Checksum(body[1..]) && ParseHex(h) == Some(sum)
    ensures ChecksumValid(body + "*" + h)
  {
    SealedParts(body, h);
    ValidFromParts(body + "*" + h, h, body[1..], sum);
  }

  /** In `body * h` with no other star, the checksum text is `h` and the covered text `body[1..]`. */
  lemma {:induction false} SealedParts(body: string, h: string)
    requires '*' !in body && body != [] && '*' !in h
    ensures '*' in body + "*" + h
    ensures ChecksumText(body + "*" + h) == h && CoveredText(body + "*" + h) == body[1..]
  {
    var line := body + "*" + h;
    assert line[|body| + 1..] == h;
    LastIndexOfUnique(line, '*', |body|);
    assert line[..|body|] == body;
  }

  lemma {:induction false} ValidFromParts(line: string, h: string, covered: string, sum: nat)
    requires '*' in line && ChecksumText(line) == h && CoveredText(line) == covered
    requires ParseHex(h) == Some(sum) && sum == Checksum(covered)
    ensures ChecksumValid(line)
  {
  }

  // ---------------------------------------------------------------------
  // Coordinates

  /** Degrees and minutes of a `DDDMM.MMMM` coordinate: with a point, the
      degrees are the text before the two digits that precede it; without
      one, the last five characters are minutes times 100. */
  function CoordinateMagnitude(coord: string): Option<real> {
    var degrees := ParseFloat(SliceTo(coord, MinutesStart(coord)));
    var minutes := MinutesValue(coord);
    if degrees.Some? && minutes.Some? then Some(DecimalDegrees(degrees.value, minutes.value)) else None
  }

  /** Degrees and minutes of arc as decimal degrees. */
  function DecimalDegrees(degrees: real, minutes: real): real {
    degrees + minutes / 60.0
  }

  /** Where the minutes begin: two characters before the point, or five
      characters before the end. */
  function MinutesStart(coord: string): int {
    if '.' in coord then IndexOf(coord, '.') - 2 else -5
  }

  function MinutesValue(coord: string): Option<real> {
    var minutes := ParseFloat(SliceFrom(coord, MinutesStart(coord)));
    if '.' in coord then minutes
    else match minutes
         case None => None
         case Some(m) => Some(Hundredth(m))
  }

  function Hundredth(x: real): real {
    x / 100.0
  }

  predicate Southern(direction: string) {
    direction == "S" || direction == "W"
  }

  /** `_parse_coordinate`: decimal degrees, negated for `S` or `W`; text that
      is empty, shorter than 7 characters or not a number gives 0.0. */
  function ParseCoordinate(coord: string, direction: string): (r: real)
    ensures |coord| < 7 ==> r == 0.0
    ensures CoordinateMagnitude(coord).None? ==> r == 0.0
    ensures |coord| >= 7 && CoordinateMagnitude(coord).Some? ==>
              r == SignedValue(Southern(direction), CoordinateMagnitude(coord).value)
  {
    if coord == [] then 0.0
    else if |coord| >= 7 then
      match CoordinateMagnitude(coord)
      case Some(v) => if Southern(direction) then -v else v
      case None => 0.0
    else 0.0
  }

  /** The hemisphere only flips the sign: `S` and `W` negate, any other letter does not. */
  lemma {:induction false} CoordinateHemisphere(coord: string, direction: string)
    ensures ParseCoordinate(coord, "S") == ParseCoordinate(coord, "W") == -ParseCoordinate(coord, "N")
    ensures !Southern(direction) ==> ParseCoordinate(coord, direction) == ParseCoordinate(coord, "N")
    ensures Southern(direction) ==> ParseCoordinate(coord, direction) == ParseCoordinate(coord, "S")
  {
  }

  /** A coordinate with a point two characters into the minutes: the
      degrees and the minutes are read from the two halves. */
  lemma {:induction false} CoordinateWithPoint(d: string, m: string, direction: string, degrees: real, minutes: real)
    requires '.' !in d && |m| >= 3 && m[2] == '.' && m[0] != '.' && m[1] != '.'
    requires |d| + |m| >= 7
    requires ParseFloat(d) == Some(degrees) && ParseFloat(m) == Some(minutes)
    ensures ParseCoordinate(d + m, direction) == SignedValue(Southern(direction), DecimalDegrees(degrees, minutes))
  {
    PointHalves(d, m);
    MagnitudeWithPoint(d + m, d, m, degrees, minutes);
  }

  lemma {:induction false} PointHalves(d: string, m: string)
    requires '.' !in d && |m| >= 3 && m[2] == '.' && m[0] != '.' && m[1] != '.'
    ensures '.' in d + m && MinutesStart(d + m) == |d|
    ensures SliceTo(d + m, |d|) == d && SliceFrom(d + m, |d|) == m
  {
    var c := d + m;
    assert c[|d| + 2] == '.';
    assert '.' !in c[..|d| + 2] by {
      assert c[..|d| + 2] == d + m[..2];
    }
    IndexOfUnique(c, '.', |d| + 2);
    assert SliceTo(c, |d|) == c[..|d|] == d;
    assert SliceFrom(c, |d|) == c[|d|..] == m;
  }

  lemma {:induction false} MagnitudeWithPoint(c: string, d: string, m: string, degrees: real, minutes: real)
    requires '.' in c && SliceTo(c, MinutesStart(c)) == d && SliceFrom(c, MinutesStart(c)) == m
    requires ParseFloat(d) == Some(degrees) && ParseFloat(m) == Some(minutes)
    ensures CoordinateMagnitude(c) == Some(DecimalDegrees(degrees, minutes))
  {
  }

  /** A coordinate without a point: the last five characters are the minutes
      times 100. */
  lemma {:induction false} CoordinateWithoutPoint(d: string, m: string, direction: string, degrees: real, minutes: real)
    requires '.' !in d + m && |m| == 5 && |d| >= 2
    requires ParseFloat(d) == Some(degrees) && ParseFloat(m) == Some(minutes)
    ensures ParseCoordinate(d + m, direction) == SignedValue(Southern(direction), DecimalDegrees(degrees, Hundredth(minutes)))
  {
    var c := d + m;
    assert SliceTo(c, -5) == d && SliceFrom(c, -5) == m && MinutesStart(c) == -5;
    assert CoordinateMagnitude(c) == Some(DecimalDegrees(degrees, Hundredth(minutes)));
  }

  /** A minus sign between the degrees and two-digit minutes: the degrees
      text then ends in that sign, `float()` rejects it, and the coordinate
      reads as 0.0 whatever the direction. */
  lemma {:induction false} CoordinateInnerSign(d: string, m: string, direction: string)
    requires '.' !in d && NoWhitespace(d)
    requires |m| >= 3 && m[2] == '.' && m[0] != '.' && m[1] != '.'
    ensures ParseCoordinate(d + "-" + m, direction) == 0.0
  {
    var e := d + "-";
    assert '.' !in e;
    PointHalves(e, m);
    assert d + "-" + m == e + m;
    StripPlain(e);
    var (body, neg) := SplitSign(e);
    assert DecimalValue(body) == None by {
      assert '.' !in body;
      if body != [] {
        assert body[|body| - 1] == '-';
      }
    }
    assert ParseFloat(e) == None;
    assert CoordinateMagnitude(e + m) == None;
  }

  /** `3149.301528,N` is 31 degrees 49.301528 minutes north, and the same
      text with `S` is as far south. */
  lemma {:induction false} LatitudeExample(coord: string)
    requires coord == "3149.301528"
    ensures ParseCoordinate(coord, "N") == DecimalDegrees(31.0, 49.301528)
    ensures ParseCoordinate(coord, "S") == -DecimalDegrees(31.0, 49.301528)
  {
    assert !Southern("N") && Southern("S");
    ExampleCoordinate(coord, "N");
    ExampleCoordinate(coord, "S");
  }

  lemma {:induction false} ExampleCoordinate(coord: string, direction: string)
    requires coord == "3149.301528"
    ensures ParseCoordinate(coord, direction) == SignedValue(Southern(direction), DecimalDegrees(31.0, 49.301528))
  {
    var d, m := coord[..2], coord[2..];
    ExampleShape(coord, d, m);
    ExampleHalves(coord, d, m);
    CoordinateWithPoint(d, m, direction, 31.0, 49.301528);
  }

  lemma {:induction false} ExampleShape(coord: string, d: string, m: string)
    requires coord == "3149.301528" && d == coord[..2] && m == coord[2..]
    ensures coord == d + m
    ensures '.' !in d && |d| + |m| >= 7 && |m| >= 3 && m[2] == '.' && m[0] != '.' && m[1] != '.'
  {
  }

  lemma {:induction false} ExampleHalves(coord: string, d: string, m: string)
    requires coord == "3149.301528" && d == coord[..2] && m == coord[2..]
    ensures ParseFloat(d) == Some(31.0) && ParseFloat(m) == Some(49.301528)
  {
    var a, b := m[..2], m[3..];
    assert m == a + "." + b;
    assert d[0] == '3' && d[1] == '1' && a[0] == '4' && a[1] == '9';
    assert b[0] == '3' && b[1] == '0' && b[2] == '1' && b[3] == '5' && b[4] == '2' && b[5] == '8';
    ExampleParts(d, a, b, m);
  }

  lemma {:induction false} ExampleParts(d: string, a: string, b: string, m: string)
    requires |d| == 2 && |a| == 2 && |b| == 6 && m == a + "." + b
    requires d[0] == '3' && d[1] == '1' && a[0] == '4' && a[1] == '9'
    requires b[0] == '3' && b[1] == '0' && b[2] == '1' && b[3] == '5' && b[4] == '2' && b[5] == '8'
    ensures ParseFloat(d) == Some(31.0) && ParseFloat(m) == Some(49.301528)
  {
    ExampleDigits(d, a, b);
    WholeExample(d, 31);
    FractionExample(a, b, 49, 301528, 49.301528);
  }

  lemma {:induction false} ExampleDigits(d: string, a: string, b: string)
    requires |d| == 2 && |a| == 2 && |b| == 6
    requires d[0] == '3' && d[1] == '1' && a[0] == '4' && a[1] == '9'
    requires b[0] == '3' && b[1] == '0' && b[2] == '1' && b[3] == '5' && b[4] == '2' && b[5] == '8'
    ensures AllDigits(d) && AllDigits(a) && AllDigits(b)
    ensures 31 == DigitValue(d[0]) * 10 + DigitValue(d[1]) && 49 == DigitValue(a[0]) * 10 + DigitValue(a[1])
    ensures 301528 == ((((DigitValue(b[0]) * 10 + DigitValue(b[1])) * 10 + DigitValue(b[2])) * 10
                      + DigitValue(b[3])) * 10 + DigitValue(b[4])) * 10 + DigitValue(b[5])
  {
  }

  lemma {:induction false} WholeExample(a: string, x: nat)
    requires |a| == 2 && AllDigits(a) && x == DigitValue(a[0]) * 10 + DigitValue(a[1])
    ensures ParseFloat(a) == Some(x as real)
  {
    assert DigitsValue(a) == x by {
      assert a[..1][..0] == [];
      assert DigitsValue(a[..1]) == DigitValue(a[0]);
      assert a[..|a| - 1] == a[..1];
    }
    ParseFloatDigits(a);
  }

  /** `float()` of two digits, a point and six digits. */
  lemma {:induction false} FractionExample(a: string, b: string, x: nat, y: nat, v: real)
    requires |a| == 2 && |b| == 6 && AllDigits(a) && AllDigits(b)
    requires x == DigitValue(a[0]) * 10 + DigitValue(a[1])
    requires y == ((((DigitValue(b[0]) * 10 + DigitValue(b[1])) * 10 + DigitValue(b[2])) * 10
                  + DigitValue(b[3])) * 10 + DigitValue(b[4])) * 10 + DigitValue(b[5])
    requires v == x as real + y as real / 1000000.0
    ensures ParseFloat(a + "." + b) == Some(v)
  {
    assert DigitsValue(a) == x && DigitsValue(b) == y by {
      DigitsExample(a, b, x, y);
    }
    ParseFloatPoint(false, a, b, a + "." + b);
    SixDecimals(x, y, v);
  }

  lemma {:induction false} SixDecimals(x: nat, y: nat, v: real)
    requires v == x as real + y as real / 1000000.0
    ensures SignedValue(false, PointValue(x, y, 6)) == v
  {
    assert Pow10(6) == 1000000 by {
      assert Pow10(1) == 10 && Pow10(2) == 100 && Pow10(3) == 1000;
      assert Pow10(4) == 10000 && Pow10(5) == 100000;
    }
  }

  /** The values of two-digit minutes and a six-digit fraction. */
  lemma {:induction false} DigitsExample(a: string, b: string, x: nat, y: nat)
    requires |a| == 2 && |b| == 6 && AllDigits(a) && AllDigits(b)
    requires x == DigitValue(a[0]) * 10 + DigitValue(a[1])
    requires y == ((((DigitValue(b[0]) * 10 + DigitValue(b[1])) * 10 + DigitValue(b[2])) * 10
                  + DigitValue(b[3])) * 10 + DigitValue(b[4])) * 10 + DigitValue(b[5])
    ensures DigitsValue(a) == x && DigitsValue(b) == y
  {
    assert a[..1][..0] == [];
    assert DigitsValue(a[..1]) == DigitValue(a[0]);
    assert b[..1][..0] == [] && b[..2][..1] == b[..1] && b[..3][..2] == b[..2];
    assert b[..4][..3] == b[..3] && b[..5][..4] == b[..4] && b[..5] == b[..|b| - 1];
    var d1 := DigitsValue(b[..1]);
    var d2 := DigitsValue(b[..2]);
    var d3 := DigitsValue(b[..3]);
    var d4 := DigitsValue(b[..4]);
    var d5 := DigitsValue(b[..5]);
    assert d2 == d1 * 10 + DigitValue(b[1]);
    assert d3 == d2 * 10 + DigitValue(b[2]);
    assert d4 == d3 * 10 + DigitValue(b[3]);
    assert d5 == d4 * 10 + DigitValue(b[4]);
  }

  // ---------------------------------------------------------------------
  // Sentences

  /** `int(f) if f else 0` */
  function IntField(f: string): (r: Option<int>)
    ensures f == [] ==> r == Some(0)
    ensures f != [] ==> r == ParseInt(f)
  {
    if f == [] then Some(0) else ParseInt(f)
  }

  /** `float(f) if f else 0.0` */
  function FloatField(f: string): (r: Option<real>)
    ensures f == [] ==> r == Some(0.0)
    ensures f != [] ==> r == ParseFloat(f)
  {
    if f == [] then Some(0.0) else ParseFloat(f)
  }

  /** `_parse_gga`: at least 15 fields; coordinates in fields 2 to 5, then
      quality, satellites, HDOP and altitude, each 0 when empty. A
      non-numeric value among the last four rejects the sentence. */
  function ParseGga(fields: seq<string>, now: real): (r: Option<LocationData>)
    ensures |fields| < 15 ==> r.None?
    ensures r.Some? ==> r.value.rawNmea == Join(fields, ',') && r.value.timestamp == now
    ensures r.Some? ==>
              (r.value.latitude == ParseCoordinate(fields[2], fields[3])
               && r.value.longitude == ParseCoordinate(fields[4], fields[5]))
    ensures |fields| >= 15 ==>
              (r.Some? <==> IntField(fields[6]).Some? && IntField(fields[7]).Some?
                            && FloatField(fields[8]).Some? && FloatField(fields[9]).Some?)
    ensures r.Some? ==>
              (Some(r.value.quality) == IntField(fields[6])
               && Some(r.value.satellites) == IntField(fields[7])
               && Some(r.value.hdop) == FloatField(fields[8])
               && Some(r.value.altitude) == FloatField(fields[9]))
  {
    if |fields| < 15 then None
    else
      var latitude := ParseCoordinate(fields[2], fields[3]);
      var longitude := ParseCoordinate(fields[4], fields[5]);
      var quality := IntField(fields[6]);
      var satellites := IntField(fields[7]);
      var hdop := FloatField(fields[8]);
      var altitude := FloatField(fields[9]);
      if quality.Some? && satellites.Some? && hdop.Some? && altitude.Some? then
        Some(LocationData(now, latitude, longitude, altitude.value, quality.value,
                          satellites.value, hdop.value, Join(fields, ',')))
      else None
  }

  /** `_parse_rmc`: at least 12 fields and status `A`; coordinates in fields
      3 to 6; quality 1 and the other measurements 0. */
  function ParseRmc(fields: seq<string>, now: real): (r: Option<LocationData>)
    ensures r.Some? <==> |fields| >= 12 && fields[2] == "A"
    ensures r.Some? ==> r.value.rawNmea == Join(fields, ',') && r.value.timestamp == now
    ensures r.Some? ==>
              (r.value.latitude == ParseCoordinate(fields[3], fields[4])
               && r.value.longitude == ParseCoordinate(fields[5], fields[6]))
    ensures r.Some? ==>
              (r.value.quality == 1 && r.value.altitude == 0.0
               && r.value.satellites == 0 && r.value.hdop == 0.0)
  {
    if |fields| < 12 then None
    else if fields[2] != "A" then None
    else
      Some(LocationData(now, ParseCoordinate(fields[3], fields[4]), ParseCoordinate(fields[5], fields[6]),
                        0.0, 1, 0, 0.0, Join(fields, ',')))
  }

  /** The first comma field without its first three characters (`$GPGGA` gives `GGA`). */
  function SentenceType(parts: seq<string>): string
    requires |parts| >= 1
  {
    SliceFrom(parts[0], 3)
  }

  /** `parse`: None for an empty line or one not starting with `$` (checked
      first), and for a bad checksum; otherwise the decoding of its fields. */
  function Parse(line: string, now: real): (r: Option<LocationData>)
    ensures !StartsWith(line, "$") ==> r.None?
    ensures !ChecksumValid(line) ==> r.None?
    ensures StartsWith(line, "$") && ChecksumValid(line) ==> r == ParseFields(Split(line, ','), now)
  {
    if line == [] || !StartsWith(line, "$") then None
    else if !ChecksumValid(line) then None
    else ParseFields(Split(line, ','), now)
  }

  /** The dispatch of `parse` on the comma fields: fewer than 6 fields or a
      type other than GGA and RMC give None. */
  function ParseFields(parts: seq<string>, now: real): (r: Option<LocationData>)
    requires |parts| >= 1
    ensures |parts| < 6 ==> r.None?
    ensures r.Some? ==> SentenceType(parts) == "GGA" || SentenceType(parts) == "RMC"
    ensures |parts| >= 6 && SentenceType(parts) == "GGA" ==> r == ParseGga(parts, now)
    ensures |parts| >= 6 && SentenceType(parts) == "RMC" ==> r == ParseRmc(parts, now)
    ensures r.Some? ==> r.value.rawNmea == Join(parts, ',') && r.value.timestamp == now
  {
    if |parts| < 6 then None
    else if SentenceType(parts) == "GGA" then ParseGga(parts, now)
    else if SentenceType(parts) == "RMC" then ParseRmc(parts, now)
    else None
  }

  /** A parsed record keeps the input line exactly: splitting on commas and
      joining again gives it back. */
  lemma {:induction false} ParseKeepsLine(line: string, now: real)
    requires Parse(line, now).Some?
    ensures Parse(line, now).value.rawNmea == line && Parse(line, now).value.timestamp == now
  {
    JoinSplit(line, ',');
  }

  /** `parse_gga`: the dictionary view of a parsed sentence, or None when
      `parse` gives None. */
  function ParseGgaView(line: string, now: real, timeText: real -> string): (r: Option<map<string, Value>>)
    ensures r.Some? <==> Parse(line, now).Some?
    ensures r.Some? ==> r.value == LocationView(Parse(line, now).value, timeText(now))
  {
    match Parse(line, now)
    case None => None
    case Some(l) => Some(LocationView(l, timeText(l.timestamp)))
  }

  /** The seven entries of the dictionary view; `time` is the timestamp as
      rendered by `time.strftime('%Y-%m-%dT%H:%M:%S', time.gmtime(t))`. */
  function LocationView(l: LocationData, time: string): (r: map<string, Value>)
    ensures r.Keys == {"latitude", "longitude", "altitude", "quality", "satellites", "hdop", "timestamp"}
    ensures r["latitude"] == Float(l.latitude) && r["longitude"] == Float(l.longitude)
    ensures r["altitude"] == Float(l.altitude) && r["hdop"] == Float(l.hdop)
    ensures r["quality"] == Int(l.quality) && r["satellites"] == Int(l.satellites)
    ensures r["timestamp"] == Str(time)
  {
    map["latitude" := Float(l.latitude), "longitude" := Float(l.longitude),
        "altitude" := Float(l.altitude), "quality" := Int(l.quality),
        "satellites" := Int(l.satellites), "hdop" := Float(l.hdop),
        "timestamp" := Str(time)]
  }

  /** A GGA sentence whose four measurement fields are empty still parses,
      with zero quality, satellites, HDOP and altitude. */
  lemma {:induction false} GgaDefaults(fields: seq<string>, now: real)
    requires |fields| >= 15
    requires fields[6] == "" && fields[7] == "" && fields[8] == "" && fields[9] == ""
    ensures ParseGga(fields, now).Some?
    ensures ParseGga(fields, now).value.quality == 0 && ParseGga(fields, now).value.satellites == 0
    ensures ParseGga(fields, now).value.hdop == 0.0 && ParseGga(fields, now).value.altitude == 0.0
  {
  }
}
