/** The worker that connects the components: the start/stop lifecycle, one
    step of the single-threaded loop and of each background loop, the GGA
    heartbeat sentence it sends to the caster, and its status snapshot.
    The collaborators are not called from here: what they answer (the NTRIP
    connect, the link open, the RTCM bytes received, the line read from the
    receiver) is an input of each step, and what the worker asks of them is
    returned, in order, as a list of effects. */
module Worker {
  import opened Values
  import opened Text
  import Nmea

  // ---------------------------------------------------------------------
  // The heartbeat GGA sentence

  /** `f"{deg:0{width}d}{min:08.5f}"` with `deg = int(x)` and
      `min = (x - deg) * 60`. */
  function CoordinateText(x: real, width: nat): string {
    var degrees := Truncate(x);
    PaddedInt(degrees, width) + FixedText((x - degrees as real) * 60.0, 5, 8)
  }

  /** `%02d%02d%02d.000` of the UTC hour, minute and second of `time.gmtime(now)`. */
  function ClockText(now: real): string {
    var t := now.Floor;
    PaddedInt(t / 3600 % 24, 2) + PaddedInt(t / 60 % 60, 2) + PaddedInt(t % 60, 2) + ".000"
  }

  /** The fifteen comma fields of the GGA body for a given latitude text. */
  function GgaFields(loc: Nmea.LocationData, now: real, latitude: string): seq<string> {
    FieldList(ClockText(now), latitude, if loc.latitude >= 0.0 then "N" else "S",
              CoordinateText(Abs(loc.longitude), 3), if loc.longitude >= 0.0 then "E" else "W",
              IntText(loc.quality), PaddedInt(loc.satellites, 2), FixedText(loc.hdop, 2, 0),
              FixedText(loc.altitude, 1, 0))
  }

  /** Talker and type, time, latitude, N/S, longitude, E/W, quality,
      satellites, HDOP, altitude, its unit, a fixed geoid separation and its
      unit, and two empty differential fields. */
  function FieldList(clock: string, latitude: string, northSouth: string, longitude: string, eastWest: string,
                     quality: string, satellites: string, hdop: string, altitude: string): seq<string> {
    ["$GNGGA", clock, latitude, northSouth, longitude, eastWest, quality, satellites, hdop, altitude,
     "M", "-3.6", "M", "", ""]
  }

  /** A sentence body followed by `*`, `%02X` of the XOR over `body[1:]`, and CRLF. */
  function Sealed(body: string): string {
    body + "*" + Hex2(Nmea.Checksum(SliceFrom(body, 1))) + "\r\n"
  }

  /** `_generate_gga` as written: the latitude's degrees are `int(latitude)`
      and its minutes `(latitude - degrees) * 60`, both signed. */
  function GgaSentenceAsWritten(loc: Nmea.LocationData, now: real): string {
    Sealed(Join(GgaFields(loc, now, CoordinateText(loc.latitude, 2)), ','))
  }

  /** `_generate_gga` with the latitude converted through `abs`, as the
      longitude already is: the sentence the worker sends. */
  function GgaSentence(loc: Nmea.LocationData, now: real): string {
    Sealed(Join(GgaFields(loc, now, CoordinateText(Abs(loc.latitude), 2)), ','))
  }

  /** `_generate_gga`: formats the body, then accumulates the checksum over
      `body[1:]` one character at a time. */
  method GenerateGga(loc: Nmea.LocationData, now: real) returns (line: string)
    ensures line == GgaSentence(loc, now)
    ensures Nmea.Parse(Strip(line), now).Some?
  {
    var body := Join(GgaFields(loc, now, CoordinateText(Abs(loc.latitude), 2)), ',');
    var checksum := Nmea.AccumulateXor(SliceFrom(body, 1));
    line := body + "*" + Hex2(checksum) + "\r\n";
    GgaRoundTrip(loc, now, now);
  }

  // ---------------------------------------------------------------------
  // Reading the heartbeat back

  /** A field that survives the comma split and the checksum: ASCII, with no
      comma and no star. */
  predicate Plain(s: string) {
    Ascii(s) && ',' !in s && '*' !in s
  }

  lemma {:induction false} NumericField(s: string)
    requires NumericText(s)
    ensures Plain(s)
  {
    NumericPlain(s);
  }

  lemma {:induction false} CoordinateTextNumeric(x: real, width: nat)
    ensures NumericText(CoordinateText(x, width))
  {
    var degrees := Truncate(x);
    PaddedIntNumeric(degrees, width);
    FixedTextNumeric((x - degrees as real) * 60.0, 5, 8);
    NumericConcat(PaddedInt(degrees, width), FixedText((x - degrees as real) * 60.0, 5, 8));
  }

  lemma {:induction false} ClockTextNumeric(now: real)
    ensures NumericText(ClockText(now))
  {
    var t := now.Floor;
    var h, m, s := PaddedInt(t / 3600 % 24, 2), PaddedInt(t / 60 % 60, 2), PaddedInt(t % 60, 2);
    PaddedIntNumeric(t / 3600 % 24, 2);
    PaddedIntNumeric(t / 60 % 60, 2);
    PaddedIntNumeric(t % 60, 2);
    assert NumericText(".000");
    NumericConcat(h, m);
    NumericConcat(h + m, s);
    NumericConcat(h + m + s, ".000");
  }

  lemma {:induction false} LiteralsPlain()
    ensures Plain("$GNGGA") && Plain("N") && Plain("S") && Plain("E") && Plain("W")
    ensures Plain("M") && Plain("-3.6") && Plain("")
  {
  }

  lemma {:induction false} ClockPlain(now: real)
    ensures Plain(ClockText(now))
  {
    ClockTextNumeric(now);
    NumericField(ClockText(now));
  }

  lemma {:induction false} CoordinatePlain(x: real, width: nat)
    ensures Plain(CoordinateText(x, width))
  {
    CoordinateTextNumeric(x, width);
    NumericField(CoordinateText(x, width));
  }

  lemma {:induction false} PaddedPlain(i: int, width: nat)
    ensures Plain(PaddedInt(i, width))
  {
    PaddedIntNumeric(i, width);
    NumericField(PaddedInt(i, width));
  }

  lemma {:induction false} FixedPlain(x: real, decimals: nat, width: nat)
    ensures Plain(FixedText(x, decimals, width))
  {
    FixedTextNumeric(x, decimals, width);
    NumericField(FixedText(x, decimals, width));
  }

  /** Every field of the body is plain. */
  lemma {:induction false} FieldsPlain(loc: Nmea.LocationData, now: real, latitude: string)
    requires NumericText(latitude)
    ensures forall i :: 0 <= i < |GgaFields(loc, now, latitude)| ==> Plain(GgaFields(loc, now, latitude)[i])
  {
    ClockPlain(now);
    NumericField(latitude);
    CoordinatePlain(Abs(loc.longitude), 3);
    PaddedPlain(loc.quality, 0);
    PaddedPlain(loc.satellites, 2);
    FixedPlain(loc.hdop, 2, 0);
    FixedPlain(loc.altitude, 1, 0);
    LiteralsPlain();
    FieldListPlain(ClockText(now), latitude, if loc.latitude >= 0.0 then "N" else "S",
                   CoordinateText(Abs(loc.longitude), 3), if loc.longitude >= 0.0 then "E" else "W",
                   IntText(loc.quality), PaddedInt(loc.satellites, 2), FixedText(loc.hdop, 2, 0),
                   FixedText(loc.altitude, 1, 0));
  }

  lemma {:induction false} FieldListPlain(clock: string, latitude: string, northSouth: string, longitude: string, eastWest: string,
                       quality: string, satellites: string, hdop: string, altitude: string)
    requires Plain(clock) && Plain(latitude) && Plain(northSouth) && Plain(longitude) && Plain(eastWest)
    requires Plain(quality) && Plain(satellites) && Plain(hdop) && Plain(altitude)
    ensures forall i :: 0 <= i < 15 ==>
              Plain(FieldList(clock, latitude, northSouth, longitude, eastWest, quality, satellites, hdop, altitude)[i])
  {
    LiteralsPlain();
  }

  /** The fields sit where `FieldList` puts them. */
  lemma {:induction false} FieldListAt(clock: string, latitude: string, northSouth: string, longitude: string, eastWest: string,
                       quality: string, satellites: string, hdop: string, altitude: string)
    ensures var f := FieldList(clock, latitude, northSouth, longitude, eastWest, quality, satellites, hdop, altitude);
      && |f| == 15 && f[0] == "$GNGGA" && f[14] == "" && f[2] == latitude && f[3] == northSouth
      && f[4] == longitude && f[5] == eastWest && f[6] == quality && f[7] == satellites && f[8] == hdop && f[9] == altitude
  {
  }

  /** The joined body starts with `$`, has no star, and its checksum fits two hex digits. */
  lemma {:induction false} BodyFacts(fields: seq<string>)
    requires |fields| >= 2 && fields[0] == "$GNGGA"
    requires forall i :: 0 <= i < |fields| ==> Plain(fields[i])
    ensures Join(fields, ',') != [] && Join(fields, ',')[0] == '$' && '*' !in Join(fields, ',')
    ensures Nmea.Checksum(Join(fields, ',')[1..]) < 256
  {
    var body := Join(fields, ',');
    assert body == fields[0] + [','] + Join(fields[1..], ',');
    JoinAvoids(fields, ',', '*');
    JoinAscii(fields, ',');
    Nmea.XorSumAscii(body[1..]);
  }

  /** Stripping a sealed body leaves the body, `*` and the checksum, and that passes validation. */
  lemma {:induction false} SealedLine(body: string)
    requires body != [] && body[0] == '$' && '*' !in body
    requires Nmea.Checksum(body[1..]) < 256
    ensures Strip(Sealed(body)) == body + "*" + Hex2(Nmea.Checksum(body[1..]))
    ensures Nmea.ChecksumValid(body + "*" + Hex2(Nmea.Checksum(body[1..])))
  {
    var h := Hex2(Nmea.Checksum(body[1..]));
    Hex2RoundTrip(Nmea.Checksum(body[1..]));
    var line := body + "*" + h;
    assert Sealed(body) == line + "\r\n" by {
      assert SliceFrom(body, 1) == body[1..];
    }
    assert line[0] == '$' && line[|line| - 1] == h[1] && IsHexDigit(h[1]);
    StripCrLf(line);
    Nmea.ChecksumSealed(body);
  }

  /** Splitting the sealed line gives the fields, with the star and checksum in the last one. */
  lemma {:induction false} SealedSplit(fields: seq<string>, h: string)
    requires |fields| == 15 && fields[14] == ""
    requires forall i :: 0 <= i < |fields| ==> ',' !in fields[i]
    requires ',' !in h
    ensures Split(Join(fields, ',') + "*" + h, ',') == fields[..14] + ["*" + h]
  {
    var parts := fields[..14] + ["*" + h];
    JoinAppend(fields, ',', "*" + h);
    assert fields[14] + ("*" + h) == "*" + h;
    assert Join(fields, ',') + "*" + h == Join(fields, ',') + ("*" + h);
    assert forall i :: 0 <= i < |parts| ==> ',' !in parts[i] by {
      forall i | 0 <= i < |parts| ensures ',' !in parts[i] {
        if i < 14 {
          assert parts[i] == fields[i];
        }
      }
    }
    SplitJoin(parts, ',');
  }

  /** The stripped sentence parses as the GGA sentence made of the fields. */
  lemma {:induction false} ParseSealed(fields: seq<string>, t: real)
    requires |fields| == 15 && fields[0] == "$GNGGA" && fields[14] == ""
    requires forall i :: 0 <= i < |fields| ==> Plain(fields[i])
    ensures Nmea.Parse(Strip(Sealed(Join(fields, ','))), t)
            == Nmea.ParseGga(fields[..14] + ["*" + Hex2(Nmea.Checksum(Join(fields, ',')[1..]))], t)
  {
    var line := Strip(Sealed(Join(fields, ',')));
    var parts := fields[..14] + ["*" + Hex2(Nmea.Checksum(Join(fields, ',')[1..]))];
    SealedFacts(fields);
    assert Nmea.SentenceType(parts) == "GGA" by {
      GgaType(parts[0]);
    }
    ParseGgaLine(line, parts, t);
  }

  /** The stripped sentence starts with `$`, passes validation, and splits into the fields. */
  lemma {:induction false} SealedFacts(fields: seq<string>)
    requires |fields| == 15 && fields[0] == "$GNGGA" && fields[14] == ""
    requires forall i :: 0 <= i < |fields| ==> Plain(fields[i])
    ensures StartsWith(Strip(Sealed(Join(fields, ','))), "$")
    ensures Nmea.ChecksumValid(Strip(Sealed(Join(fields, ','))))
    ensures Split(Strip(Sealed(Join(fields, ','))), ',')
            == fields[..14] + ["*" + Hex2(Nmea.Checksum(Join(fields, ',')[1..]))]
  {
    var body := Join(fields, ',');
    var h := Hex2(Nmea.Checksum(body[1..]));
    var line := body + "*" + h;
    assert body != [] && body[0] == '$' && '*' !in body && Nmea.Checksum(body[1..]) < 256 by {
      BodyFacts(fields);
    }
    assert Strip(Sealed(body)) == line && Nmea.ChecksumValid(line) by {
      SealedLine(body);
    }
    assert Split(line, ',') == fields[..14] + ["*" + h] by {
      HexNoComma(Nmea.Checksum(body[1..]));
      SealedSplit(fields, h);
    }
    DollarStart(line);
  }

  lemma {:induction false} DollarStart(line: string)
    requires line != [] && line[0] == '$'
    ensures StartsWith(line, "$")
  {
    assert line[..1] == "$";
  }

  lemma {:induction false} HexNoComma(n: nat)
    requires n < 256
    ensures ',' !in Hex2(n) && |Hex2(n)| == 2 && IsHexDigit(Hex2(n)[1])
  {
    var h := Hex2(n);
    Hex2RoundTrip(n);
    forall k | 0 <= k < |h| ensures h[k] != ',' {
      assert IsHexDigit(h[k]);
    }
  }

  /** A valid line starting with `$` whose fields are a GGA sentence of fifteen fields. */
  lemma {:induction false} ParseGgaLine(line: string, parts: seq<string>, t: real)
    requires StartsWith(line, "$") && Nmea.ChecksumValid(line)
    requires Split(line, ',') == parts && |parts| == 15 && Nmea.SentenceType(parts) == "GGA"
    ensures Nmea.Parse(line, t) == Nmea.ParseGga(parts, t)
  {
  }

  lemma {:induction false} GgaType(talker: string)
    requires talker == "$GNGGA"
    ensures SliceFrom(talker, 3) == "GGA"
  {
    assert SliceBound(|talker|, 3) == 3;
    assert talker[3..] == "GGA";
  }

  /** `(x - int(x)) * 60` for a non-negative `x` is a minute count below 60. */
  lemma {:induction false} MinutesRange(x: real)
    requires x >= 0.0
    ensures 0.0 <= (x - Truncate(x) as real) * 60.0 < 60.0
  {
  }

  lemma {:induction false} Pow10Five()
    ensures Pow10(5) == 100000 && Pow10(2) == 100
  {
    assert Pow10(1) == 10 && Pow10(2) == 100 && Pow10(3) == 1000 && Pow10(4) == 10000;
  }

  /** `%08.5f` of a minute count below 60 is two digits, a point and five digits. */
  lemma {:induction false} MinutesShape(m: real)
    requires 0.0 <= m < 60.0
    ensures |FixedText(m, 5, 8)| == 8 && IsDigit(FixedText(m, 5, 8)[0]) && IsDigit(FixedText(m, 5, 8)[1])
    ensures FixedText(m, 5, 8)[2] == '.'
  {
    var q := FixedMagnitude(m, 5);
    Pow10Five();
    assert q <= 6000000;
    var whole, fraction := Whole(q, 5), Fraction(q, 5);
    WholeFraction(q, 5);
    NatTextLength(whole, 2);
    NatTextLength(fraction, 5);
    var d := FixedDigits(q, 5);
    assert |d| == |NatText(whole)| + 6;
    var zeros := if |d| >= 8 then 0 else 8 - |d|;
    var a := Zeros(zeros) + NatText(whole);
    var b := ZeroPad(NatText(fraction), 5);
    FixedDigitsShape(q, 5, 8, zeros);
    FixedDigitsValue(q, 5, zeros, a, b);
    FixedTextShape(m, 5, 8, q, 8);
    var s := FixedText(m, 5, 8);
    assert s == a + "." + b && |a| == 2;
    assert s[0] == a[0] && s[1] == a[1] && s[2] == '.';
  }

  /** A coordinate written as padded degrees and `%08.5f` minutes is read
      back as the degrees plus the minutes' reading over 60. */
  lemma {:induction false} CoordinateDecoded(degrees: int, m: real, width: nat, direction: string)
    requires 0.0 <= m < 60.0
    ensures ParseFloat(FixedText(m, 5, 8)).Some?
    ensures Nmea.ParseCoordinate(PaddedInt(degrees, width) + FixedText(m, 5, 8), direction)
            == SignedValue(Nmea.Southern(direction),
                           Nmea.DecimalDegrees(degrees as real, ParseFloat(FixedText(m, 5, 8)).value))
  {
    var d, t := PaddedInt(degrees, width), FixedText(m, 5, 8);
    MinutesShape(m);
    ParseFloatFixed(m, 5, 8);
    ParseFloatPadded(degrees, width);
    assert '.' !in d by {
      PaddedIntNumeric(degrees, width);
      PaddedNoPoint(degrees, width);
    }
    Nmea.CoordinateWithPoint(d, t, direction, degrees as real, ParseFloat(t).value);
  }

  /** `%d` never writes a point. */
  lemma {:induction false} PaddedNoPoint(i: int, width: nat)
    ensures '.' !in PaddedInt(i, width)
  {
    var n := if i < 0 then -i else i;
    var w := if i < 0 then (if width > 0 then width - 1 else 0) else width;
    PaddedNatDigits(n, w);
    var body := PaddedInt(n, w);
    var s := PaddedInt(i, width);
    assert s == Signed(i < 0, body);
    forall k | 0 <= k < |s| ensures s[k] != '.' {
      if i < 0 && k > 0 {
        assert s[k] == body[k - 1] && IsDigit(body[k - 1]);
      } else if i >= 0 {
        assert IsDigit(body[k]);
      }
    }
  }

  /** Sixty times the error of degrees-plus-minutes is the error in the minutes. */
  lemma {:induction false} DegreesError(degrees: real, v: real, m: real, x: real)
    requires m == (x - degrees) * 60.0
    ensures 60.0 * (Nmea.DecimalDegrees(degrees, v) - x) == v - m
  {
  }

  lemma {:induction false} CoordinateTextParts(x: real, width: nat)
    ensures CoordinateText(x, width) == PaddedInt(Truncate(x), width) + FixedText((x - Truncate(x) as real) * 60.0, 5, 8)
  {
  }

  lemma {:induction false} CoordinateAt(x: real, width: nat, direction: string, degrees: int, m: real, v: real)
    requires degrees == Truncate(x) && m == (x - degrees as real) * 60.0 && 0.0 <= m < 60.0
    requires ParseFloat(FixedText(m, 5, 8)) == Some(v)
    ensures Nmea.ParseCoordinate(CoordinateText(x, width), direction)
            == SignedValue(Nmea.Southern(direction), Nmea.DecimalDegrees(degrees as real, v))
  {
    var s := PaddedInt(degrees, width) + FixedText(m, 5, 8);
    assert CoordinateText(x, width) == s by {
      CoordinateTextParts(x, width);
    }
    assert Nmea.ParseCoordinate(s, direction)
           == SignedValue(Nmea.Southern(direction), Nmea.DecimalDegrees(degrees as real, v)) by {
      CoordinateDecoded(degrees, m, width, direction);
    }
  }

  /** Negating both sides keeps an error bound. */
  lemma {:induction false} SignedError(c: real, neg: bool, a: real, b: real, e: real, t: real)
    requires c == SignedValue(neg, a) && 60.0 * (a - b) == e && -t <= e <= t
    ensures -t <= 60.0 * (c - SignedValue(neg, b)) <= t
  {
  }

  /** A non-negative magnitude written by `CoordinateText` is read back, with
      the sign of the direction, to within half a unit of the fifth decimal
      of a minute. */
  lemma {:induction false} CoordinateRoundTrip(x: real, width: nat, direction: string)
    requires x >= 0.0
    ensures -Tolerance(5) <= 60.0 * (Nmea.ParseCoordinate(CoordinateText(x, width), direction)
                                     - SignedValue(Nmea.Southern(direction), x)) <= Tolerance(5)
  {
    var degrees := Truncate(x);
    var m := (x - degrees as real) * 60.0;
    var text := FixedText(m, 5, 8);
    assert 0.0 <= m < 60.0 by {
      MinutesRange(x);
    }
    assert ParseFloat(text).Some? && -Tolerance(5) <= ParseFloat(text).value - m <= Tolerance(5) by {
      ParseFloatFixed(m, 5, 8);
    }
    var v := ParseFloat(text).value;
    var dd := Nmea.DecimalDegrees(degrees as real, v);
    assert 60.0 * (dd - x) == v - m by {
      DegreesError(degrees as real, v, m, x);
    }
    var c := Nmea.ParseCoordinate(CoordinateText(x, width), direction);
    assert c == SignedValue(Nmea.Southern(direction), dd) by {
      CoordinateAt(x, width, direction, degrees, m, v);
    }
    SignedError(c, Nmea.Southern(direction), dd, x, v - m, Tolerance(5));
  }

  /** The fields of the sentence read back as what was formatted. */
  lemma {:induction false} FieldValues(loc: Nmea.LocationData)
    ensures Nmea.IntField(IntText(loc.quality)) == Some(loc.quality)
    ensures Nmea.IntField(PaddedInt(loc.satellites, 2)) == Some(loc.satellites)
    ensures Nmea.FloatField(FixedText(loc.hdop, 2, 0)).Some?
    ensures -Tolerance(2) <= Nmea.FloatField(FixedText(loc.hdop, 2, 0)).value - loc.hdop <= Tolerance(2)
    ensures Nmea.FloatField(FixedText(loc.altitude, 1, 0)).Some?
    ensures -Tolerance(1) <= Nmea.FloatField(FixedText(loc.altitude, 1, 0)).value - loc.altitude <= Tolerance(1)
  {
    PaddedIntNumeric(loc.quality, 0);
    PaddedIntNumeric(loc.satellites, 2);
    ParseIntPadded(loc.quality, 0);
    ParseIntPadded(loc.satellites, 2);
    ParseFloatFixed(loc.hdop, 2, 0);
    ParseFloatFixed(loc.altitude, 1, 0);
  }

  /** `N`/`S` (or `E`/`W`) chosen by the sign, applied to the magnitude, gives the value back. */
  lemma {:induction false} HemisphereSign(x: real, direction: string, positive: string, negative: string)
    requires (positive == "N" && negative == "S") || (positive == "E" && negative == "W")
    requires direction == if x >= 0.0 then positive else negative
    ensures SignedValue(Nmea.Southern(direction), Abs(x)) == x
  {
  }

  /** The heartbeat, once its CRLF is stripped, is a valid GGA sentence with
      fifteen fields; it decodes to the same quality and satellite count, to
      HDOP and altitude within half a unit of their last printed digit, and
      to latitude and longitude within half a unit of the fifth decimal of a
      minute, on the right side of the equator and of the meridian. */
  lemma {:induction false} GgaRoundTrip(loc: Nmea.LocationData, now: real, t: real)
    ensures Nmea.ChecksumValid(Strip(GgaSentence(loc, now)))
    ensures |Split(Strip(GgaSentence(loc, now)), ',')| == 15
    ensures Nmea.Parse(Strip(GgaSentence(loc, now)), t).Some?
    ensures Nmea.Parse(Strip(GgaSentence(loc, now)), t).value.quality == loc.quality
    ensures Nmea.Parse(Strip(GgaSentence(loc, now)), t).value.satellites == loc.satellites
    ensures -Tolerance(2) <= Nmea.Parse(Strip(GgaSentence(loc, now)), t).value.hdop - loc.hdop <= Tolerance(2)
    ensures -Tolerance(1) <= Nmea.Parse(Strip(GgaSentence(loc, now)), t).value.altitude - loc.altitude <= Tolerance(1)
    ensures -Tolerance(5) <= 60.0 * (Nmea.Parse(Strip(GgaSentence(loc, now)), t).value.latitude - loc.latitude)
            <= Tolerance(5)
    ensures -Tolerance(5) <= 60.0 * (Nmea.Parse(Strip(GgaSentence(loc, now)), t).value.longitude - loc.longitude)
            <= Tolerance(5)
  {
    var latitude := CoordinateText(Abs(loc.latitude), 2);
    var longitude := CoordinateText(Abs(loc.longitude), 3);
    var ns := if loc.latitude >= 0.0 then "N" else "S";
    var ew := if loc.longitude >= 0.0 then "E" else "W";
    assert Nmea.FloatField(FixedText(loc.hdop, 2, 0)).Some? && Nmea.FloatField(FixedText(loc.altitude, 1, 0)).Some? by {
      FieldValues(loc);
    }
    var hdop := Nmea.FloatField(FixedText(loc.hdop, 2, 0)).value;
    var altitude := Nmea.FloatField(FixedText(loc.altitude, 1, 0)).value;
    assert -Tolerance(2) <= hdop - loc.hdop <= Tolerance(2) && -Tolerance(1) <= altitude - loc.altitude <= Tolerance(1) by {
      FieldValues(loc);
    }
    assert NumericText(latitude) by {
      CoordinateTextNumeric(Abs(loc.latitude), 2);
    }
    var line := Strip(GgaSentence(loc, now));
    assert Nmea.ChecksumValid(line) && |Split(line, ',')| == 15
      && Nmea.Parse(line, t) == Some(Nmea.LocationData(t, Nmea.ParseCoordinate(latitude, ns),
                                       Nmea.ParseCoordinate(longitude, ew), altitude, loc.quality,
                                       loc.satellites, hdop, line)) by {
      ParsedFields(loc, now, latitude, ns, ew, hdop, altitude, t);
    }
    SignedCoordinateClose(loc.latitude, 2, ns, "N", "S");
    SignedCoordinateClose(loc.longitude, 3, ew, "E", "W");
  }

  /** A signed value written as its magnitude and the hemisphere letter its
      sign picks reads back within the rounding tolerance. */
  lemma {:induction false} SignedCoordinateClose(x: real, width: nat, direction: string, positive: string, negative: string)
    requires (positive == "N" && negative == "S") || (positive == "E" && negative == "W")
    requires direction == if x >= 0.0 then positive else negative
    ensures -Tolerance(5) <= 60.0 * (Nmea.ParseCoordinate(CoordinateText(Abs(x), width), direction) - x) <= Tolerance(5)
  {
    CoordinateRoundTrip(Abs(x), width, direction);
    HemisphereSign(x, direction, positive, negative);
  }

  /** The stripped sentence built around any numeric latitude text parses
      to that text's coordinate and the values read from the other fields. */
  lemma {:induction false} ParsedFields(loc: Nmea.LocationData, now: real, latitude: string, ns: string, ew: string,
                     hdop: real, altitude: real, t: real)
    requires NumericText(latitude)
    requires ns == (if loc.latitude >= 0.0 then "N" else "S") && ew == (if loc.longitude >= 0.0 then "E" else "W")
    requires Nmea.FloatField(FixedText(loc.hdop, 2, 0)) == Some(hdop)
    requires Nmea.FloatField(FixedText(loc.altitude, 1, 0)) == Some(altitude)
    ensures Nmea.ChecksumValid(Strip(Sealed(Join(GgaFields(loc, now, latitude), ','))))
    ensures |Split(Strip(Sealed(Join(GgaFields(loc, now, latitude), ','))), ',')| == 15
    ensures Nmea.Parse(Strip(Sealed(Join(GgaFields(loc, now, latitude), ','))), t)
            == Some(Nmea.LocationData(t, Nmea.ParseCoordinate(latitude, ns),
                      Nmea.ParseCoordinate(CoordinateText(Abs(loc.longitude), 3), ew),
                      altitude, loc.quality, loc.satellites, hdop,
                      Strip(Sealed(Join(GgaFields(loc, now, latitude), ',')))))
  {
    FieldsPlain(loc, now, latitude);
    FieldListAt(ClockText(now), latitude, ns, CoordinateText(Abs(loc.longitude), 3), ew,
                IntText(loc.quality), PaddedInt(loc.satellites, 2), FixedText(loc.hdop, 2, 0),
                FixedText(loc.altitude, 1, 0));
    FieldValues(loc);
    ParsedGga(GgaFields(loc, now, latitude), t, loc.quality, loc.satellites, hdop, altitude);
  }

  /** A GGA field list of plain fields, sealed and stripped, validates, splits
      back into fifteen fields and parses to the coordinates of fields 2-5 and
      the four values read from fields 6-9. */
  lemma {:induction false} ParsedGga(fields: seq<string>, t: real, quality: int, satellites: int, hdop: real, altitude: real)
    requires |fields| == 15 && fields[0] == "$GNGGA" && fields[14] == ""
    requires forall i :: 0 <= i < |fields| ==> Plain(fields[i])
    requires Nmea.IntField(fields[6]) == Some(quality) && Nmea.IntField(fields[7]) == Some(satellites)
    requires Nmea.FloatField(fields[8]) == Some(hdop) && Nmea.FloatField(fields[9]) == Some(altitude)
    ensures Nmea.ChecksumValid(Strip(Sealed(Join(fields, ','))))
    ensures |Split(Strip(Sealed(Join(fields, ','))), ',')| == 15
    ensures Nmea.Parse(Strip(Sealed(Join(fields, ','))), t)
            == Some(Nmea.LocationData(t, Nmea.ParseCoordinate(fields[2], fields[3]), Nmea.ParseCoordinate(fields[4], fields[5]),
                                      altitude, quality, satellites, hdop, Strip(Sealed(Join(fields, ',')))))
  {
    var line := Strip(Sealed(Join(fields, ',')));
    var parts := fields[..14] + ["*" + Hex2(Nmea.Checksum(Join(fields, ',')[1..]))];
    assert parts[2] == fields[2] && parts[3] == fields[3] && parts[4] == fields[4] && parts[5] == fields[5];
    assert parts[6] == fields[6] && parts[7] == fields[7] && parts[8] == fields[8] && parts[9] == fields[9];
    GgaOfParts(parts, t, quality, satellites, hdop, altitude);
    SealedFacts(fields);
    ParseSealed(fields, t);
    JoinOfSplit(line, ',', parts);
  }

  /** A fifteen-field GGA sentence whose four measurement fields read as given. */
  lemma {:induction false} GgaOfParts(parts: seq<string>, t: real, quality: int, satellites: int, hdop: real, altitude: real)
    requires |parts| == 15
    requires Nmea.IntField(parts[6]) == Some(quality) && Nmea.IntField(parts[7]) == Some(satellites)
    requires Nmea.FloatField(parts[8]) == Some(hdop) && Nmea.FloatField(parts[9]) == Some(altitude)
    ensures Nmea.ParseGga(parts, t)
            == Some(Nmea.LocationData(t, Nmea.ParseCoordinate(parts[2], parts[3]), Nmea.ParseCoordinate(parts[4], parts[5]),
                                      altitude, quality, satellites, hdop, Join(parts, ',')))
  {
  }

  /** As written, a negative whole number of degrees such as -31.0 has
      `int(x) == x` and zero minutes, so the text is `-3100.00000`; with
      `S` the sign is applied a second time and the value reads back negated. */
  lemma {:induction false} FlippedCoordinate(x: real, direction: string)
    requires x < 0.0 && x.Floor as real == x && Nmea.Southern(direction)
    ensures Nmea.ParseCoordinate(CoordinateText(x, 2), direction) == -x
  {
    var d := Truncate(x);
    assert d as real == x;
    var m := (x - d as real) * 60.0;
    assert m == 0.0;
    CoordinateTextParts(x, 2);
    ZeroMinutes(m);
    CoordinateDecoded(d, m, 2, direction);
    assert Nmea.DecimalDegrees(d as real, 0.0) == x;
  }

  /** `%08.5f` of zero minutes reads back as zero. */
  lemma {:induction false} ZeroMinutes(m: real)
    requires m == 0.0
    ensures ParseFloat(FixedText(m, 5, 8)) == Some(0.0)
  {
    var q := FixedMagnitude(m, 5);
    var p := Pow10(5) as real;
    assert Abs(m) == 0.0;
    assert Abs(m) * p == 0.0 by {
      ZeroScaled(p);
    }
    assert q == 0;
    assert q as real / p == 0.0 by {
      ZeroScaled(p);
    }
    assert ParseFloat(FixedText(m, 5, 8)) == Some(SignedValue(m < 0.0, q as real / p)) by {
      ParseFixedText(m, 5, 8);
    }
  }

  lemma {:induction false} ZeroScaled(p: real)
    requires p >= 1.0
    ensures 0.0 * p == 0.0 && 0.0 / p == 0.0
  {
  }

  /** As written, the heartbeat is still a valid fifteen-field GGA sentence
      for every location: only its latitude can be off (read back with the
      sign applied twice); quality, satellites, HDOP, altitude and longitude
      read back as the corrected sentence's do. */
  lemma {:induction false} AsWrittenParses(loc: Nmea.LocationData, now: real, t: real)
    ensures Nmea.ChecksumValid(Strip(GgaSentenceAsWritten(loc, now)))
    ensures |Split(Strip(GgaSentenceAsWritten(loc, now)), ',')| == 15
    ensures Nmea.Parse(Strip(GgaSentenceAsWritten(loc, now)), t).Some?
    ensures Nmea.Parse(Strip(GgaSentenceAsWritten(loc, now)), t).value.quality == loc.quality
    ensures Nmea.Parse(Strip(GgaSentenceAsWritten(loc, now)), t).value.satellites == loc.satellites
    ensures -Tolerance(2) <= Nmea.Parse(Strip(GgaSentenceAsWritten(loc, now)), t).value.hdop - loc.hdop <= Tolerance(2)
    ensures -Tolerance(1) <= Nmea.Parse(Strip(GgaSentenceAsWritten(loc, now)), t).value.altitude - loc.altitude
            <= Tolerance(1)
    ensures -Tolerance(5) <= 60.0 * (Nmea.Parse(Strip(GgaSentenceAsWritten(loc, now)), t).value.longitude - loc.longitude)
            <= Tolerance(5)
  {
    var latitude := CoordinateText(loc.latitude, 2);
    var ns := if loc.latitude >= 0.0 then "N" else "S";
    var ew := if loc.longitude >= 0.0 then "E" else "W";
    assert Nmea.FloatField(FixedText(loc.hdop, 2, 0)).Some? && Nmea.FloatField(FixedText(loc.altitude, 1, 0)).Some? by {
      FieldValues(loc);
    }
    var hdop := Nmea.FloatField(FixedText(loc.hdop, 2, 0)).value;
    var altitude := Nmea.FloatField(FixedText(loc.altitude, 1, 0)).value;
    assert -Tolerance(2) <= hdop - loc.hdop <= Tolerance(2) && -Tolerance(1) <= altitude - loc.altitude <= Tolerance(1) by {
      FieldValues(loc);
    }
    assert NumericText(latitude) by {
      CoordinateTextNumeric(loc.latitude, 2);
    }
    ParsedFields(loc, now, latitude, ns, ew, hdop, altitude, t);
    SignedCoordinateClose(loc.longitude, 3, ew, "E", "W");
  }

  /** As written, a southern latitude of a whole number of degrees, such as
      -31.0, is written `-3100.00000,S` and read back as +31.0: the minus
      sign of `int(latitude)` and the `S` both negate. */
  lemma {:induction false} SouthernLatitudeFlipped(loc: Nmea.LocationData, now: real, t: real)
    requires loc.latitude == -31.0
    ensures Nmea.Parse(Strip(GgaSentenceAsWritten(loc, now)), t).Some?
    ensures Nmea.Parse(Strip(GgaSentenceAsWritten(loc, now)), t).value.latitude == 31.0
  {
    var latitude := CoordinateText(loc.latitude, 2);
    var ns := if loc.latitude >= 0.0 then "N" else "S";
    var ew := if loc.longitude >= 0.0 then "E" else "W";
    assert Nmea.FloatField(FixedText(loc.hdop, 2, 0)).Some? && Nmea.FloatField(FixedText(loc.altitude, 1, 0)).Some? by {
      FieldValues(loc);
    }
    assert NumericText(latitude) by {
      CoordinateTextNumeric(loc.latitude, 2);
    }
    ParsedFields(loc, now, latitude, ns, ew, Nmea.FloatField(FixedText(loc.hdop, 2, 0)).value,
                 Nmea.FloatField(FixedText(loc.altitude, 1, 0)).value, t);
    FlippedCoordinate(loc.latitude, ns);
  }

  /** As written, a southern latitude whose minutes reach ten, such as
      -31.5, is written `-31-30.00000,S`: the degrees text `-31-` does not
      read, and the latitude comes back as 0.0. */
  lemma {:induction false} SouthernMinutesLost(loc: Nmea.LocationData, now: real, t: real)
    requires loc.latitude < 0.0 && (loc.latitude - Truncate(loc.latitude) as real) * 60.0 <= -10.0
    ensures Nmea.Parse(Strip(GgaSentenceAsWritten(loc, now)), t).Some?
    ensures Nmea.Parse(Strip(GgaSentenceAsWritten(loc, now)), t).value.latitude == 0.0
  {
    var latitude := CoordinateText(loc.latitude, 2);
    var ns := if loc.latitude >= 0.0 then "N" else "S";
    var ew := if loc.longitude >= 0.0 then "E" else "W";
    assert Nmea.FloatField(FixedText(loc.hdop, 2, 0)).Some? && Nmea.FloatField(FixedText(loc.altitude, 1, 0)).Some? by {
      FieldValues(loc);
    }
    assert NumericText(latitude) by {
      CoordinateTextNumeric(loc.latitude, 2);
    }
    ParsedFields(loc, now, latitude, ns, ew, Nmea.FloatField(FixedText(loc.hdop, 2, 0)).value,
                 Nmea.FloatField(FixedText(loc.altitude, 1, 0)).value, t);
    LostCoordinate(loc.latitude, ns);
  }

  /** A negative coordinate whose minutes reach ten reads as 0.0. */
  lemma {:induction false} LostCoordinate(x: real, direction: string)
    requires x < 0.0 && (x - Truncate(x) as real) * 60.0 <= -10.0
    ensures Nmea.ParseCoordinate(CoordinateText(x, 2), direction) == 0.0
  {
    var d := Truncate(x);
    var m := (x - d as real) * 60.0;
    assert -60.0 < m;
    var p := PaddedInt(d, 2);
    var f := FixedText(m, 5, 8);
    NegativeMinutesShape(m);
    var u := f[1..];
    assert f == "-" + u;
    assert CoordinateText(x, 2) == p + "-" + u by {
      CoordinateTextParts(x, 2);
    }
    PaddedNoPoint(d, 2);
    PaddedIntNumeric(d, 2);
    NumericPlain(p);
    Nmea.CoordinateInnerSign(p, u, direction);
  }

  /** `%08.5f` of minutes between -60 and -10: a minus sign, two digits and the point. */
  lemma {:induction false} NegativeMinutesShape(m: real)
    requires -60.0 < m <= -10.0
    ensures |FixedText(m, 5, 8)| == 9 && FixedText(m, 5, 8)[0] == '-'
    ensures IsDigit(FixedText(m, 5, 8)[1]) && IsDigit(FixedText(m, 5, 8)[2]) && FixedText(m, 5, 8)[3] == '.'
  {
    var q := FixedMagnitude(m, 5);
    Pow10Five();
    assert 1000000 <= q <= 6000000;
    var whole, fraction := Whole(q, 5), Fraction(q, 5);
    WholeFraction(q, 5);
    assert 10 <= whole;
    NatTextLength(whole, 2);
    NatTextLength(fraction, 5);
    assert |NatText(whole)| == 2 by {
      assert NatText(whole) == NatText(whole / 10) + [DigitChar(whole % 10)];
    }
    var d := FixedDigits(q, 5);
    assert |d| == 8;
    var a := Zeros(0) + NatText(whole);
    var b := ZeroPad(NatText(fraction), 5);
    FixedDigitsShape(q, 5, 7, 0);
    FixedDigitsValue(q, 5, 0, a, b);
    FixedTextShape(m, 5, 8, q, 7);
    var s := FixedText(m, 5, 8);
    assert s == "-" + (a + "." + b) && |a| == 2;
    assert s[1] == a[0] && s[2] == a[1] && s[3] == '.';
  }

  // ---------------------------------------------------------------------
  // The worker's lifecycle and its loop steps

  /** What the worker asks of its collaborators, in the order it asks. */
  datatype Effect =
    | ConnectNtrip                        // ntrip_client.connect()
    | OpenLink                            // serial_handler.open()
    | StartThreads                        // start the RTCM and NMEA threads
    | DisconnectNtrip                     // ntrip_client.disconnect()
    | CloseLink                           // serial_handler.close()
    | SendGga(line: string)               // ntrip_client.send_gga(line)
    | ReceiveRtcm                         // ntrip_client.receive_rtcm(timeout=1.0)
    | WriteRtcm(data: seq<byte>)          // serial_handler.write_rtcm(data)
    | ReadNmea                            // serial_handler.read_nmea(timeout=1.0)
    | Publish(location: Nmea.LocationData) // location_publisher.publish(location)
    | Notify(location: Nmea.LocationData)  // location_callback(location)

  /** `get_status()`: the six entries of the status dictionary. */
  datatype WorkerStatus = WorkerStatus(running: bool, ntripConnected: bool, serialOpen: bool,
                                       rtcmThreadAlive: bool, nmeaThreadAlive: bool,
                                       lastLocation: Option<Nmea.LocationData>)

  /** The effects of `start`: connect, then open the link only if the
      connect succeeded, then start the two threads only in background mode. */
  function StartEffects(background: bool, ntripConnects: bool, linkOpens: bool): seq<Effect> {
    if !ntripConnects then [ConnectNtrip]
    else if !linkOpens then [ConnectNtrip, OpenLink]
    else [ConnectNtrip, OpenLink] + (if background then [StartThreads] else [])
  }

  /** A heartbeat is due when thirty seconds or more have passed since the
      last one and a location is known (a record is always truthy). */
  predicate HeartbeatDue(now: real, lastGgaTime: real, lastLocation: Option<Nmea.LocationData>) {
    now - lastGgaTime >= 30.0 && lastLocation.Some?
  }

  /** The heartbeat step: one GGA sentence when due, nothing otherwise. */
  function HeartbeatEffects(now: real, lastGgaTime: real, lastLocation: Option<Nmea.LocationData>): seq<Effect> {
    if HeartbeatDue(now, lastGgaTime, lastLocation) then [SendGga(GgaSentence(lastLocation.value, now))] else []
  }

  /** The forwarding step: receive, and write what was received if it is not empty. */
  function ForwardEffects(rtcm: seq<byte>): seq<Effect> {
    [ReceiveRtcm] + (if rtcm != [] then [WriteRtcm(rtcm)] else [])
  }

  /** The location read from a line, if the line is non-empty and parses. */
  function ReadLocation(nmea: Option<string>, parseTime: real): Option<Nmea.LocationData> {
    if nmea.Some? && nmea.value != [] then Nmea.Parse(nmea.value, parseTime) else None
  }

  /** A location is read only from a non-empty line that passes validation,
      and it keeps that line and the time of the read. */
  lemma {:induction false} ReadLocationValid(nmea: Option<string>, parseTime: real)
    ensures ReadLocation(nmea, parseTime).Some? ==> nmea.Some? && nmea.value != [] && Nmea.ChecksumValid(nmea.value)
    ensures ReadLocation(nmea, parseTime).Some? ==>
              && ReadLocation(nmea, parseTime).value.rawNmea == nmea.value
              && ReadLocation(nmea, parseTime).value.timestamp == parseTime
  {
    if nmea.Some? && nmea.value != [] && Nmea.Parse(nmea.value, parseTime).Some? {
      Nmea.ParseKeepsLine(nmea.value, parseTime);
    }
  }

  /** The reading step: read a line; publish a parsed location, then hand it
      to the callback if one is set. */
  function NmeaEffects(nmea: Option<string>, parseTime: real, hasCallback: bool): seq<Effect> {
    LocationEffects(ReadLocation(nmea, parseTime), hasCallback)
  }

  /** What the reading step does once the line has been read to `location`. */
  function LocationEffects(location: Option<Nmea.LocationData>, hasCallback: bool): seq<Effect> {
    [ReadNmea] + if location.None? then []
                 else [Publish(location.value)] + (if hasCallback then [Notify(location.value)] else [])
  }

  lemma {:induction false} LocationEffectsFacts(location: Option<Nmea.LocationData>, hasCallback: bool, l: Nmea.LocationData)
    ensures Publish(l) in LocationEffects(location, hasCallback) <==> location == Some(l)
    ensures Notify(l) in LocationEffects(location, hasCallback) <==> hasCallback && location == Some(l)
    ensures Notify(l) in LocationEffects(location, hasCallback)
            ==> LocationEffects(location, hasCallback) == [ReadNmea, Publish(l), Notify(l)]
  {
  }

  lemma {:induction false} NmeaEffectsOf(nmea: Option<string>, parseTime: real, hasCallback: bool, location: Option<Nmea.LocationData>)
    requires location == ReadLocation(nmea, parseTime)
    ensures NmeaEffects(nmea, parseTime, hasCallback)
            == [ReadNmea] + if location.None? then []
               else [Publish(location.value)] + (if hasCallback then [Notify(location.value)] else [])
  {
  }

  /** `start` asks for the link only after the NTRIP connect succeeded,
      starts threads only when both succeeded in background mode, and always
      begins with the connect. */
  lemma {:induction false} StartOrder(background: bool, ntripConnects: bool, linkOpens: bool)
    ensures StartEffects(background, ntripConnects, linkOpens)[0] == ConnectNtrip
    ensures OpenLink in StartEffects(background, ntripConnects, linkOpens) <==> ntripConnects
    ensures StartThreads in StartEffects(background, ntripConnects, linkOpens)
            <==> ntripConnects && linkOpens && background
  {
  }

  /** RTCM bytes reach the link exactly when some were received, and then
      unchanged and after the receive. */
  lemma {:induction false} ForwardWritesReceived(rtcm: seq<byte>, data: seq<byte>)
    ensures WriteRtcm(data) in ForwardEffects(rtcm) <==> rtcm != [] && data == rtcm
    ensures ForwardEffects(rtcm)[0] == ReceiveRtcm
  {
  }

  /** Every heartbeat the worker sends is, without its CRLF, a valid GGA
      sentence for the last known location. */
  lemma {:induction false} HeartbeatSentences(now: real, lastGgaTime: real, lastLocation: Option<Nmea.LocationData>, line: string)
    requires SendGga(line) in HeartbeatEffects(now, lastGgaTime, lastLocation)
    ensures lastLocation.Some? && now - lastGgaTime >= 30.0
    ensures Nmea.ChecksumValid(Strip(line))
    ensures Nmea.Parse(Strip(line), now).Some?
    ensures Nmea.Parse(Strip(line), now).value.quality == lastLocation.value.quality
    ensures Nmea.Parse(Strip(line), now).value.satellites == lastLocation.value.satellites
  {
    GgaRoundTrip(lastLocation.value, now, now);
  }

  /** A location is published only if the line parsed to it, and the
      callback sees the same location, after the publish, only when set. */
  lemma {:induction false} PublishedParsed(nmea: Option<string>, parseTime: real, hasCallback: bool, l: Nmea.LocationData)
    ensures Publish(l) in NmeaEffects(nmea, parseTime, hasCallback) <==> ReadLocation(nmea, parseTime) == Some(l)
    ensures Notify(l) in NmeaEffects(nmea, parseTime, hasCallback)
            <==> hasCallback && ReadLocation(nmea, parseTime) == Some(l)
    ensures Notify(l) in NmeaEffects(nmea, parseTime, hasCallback)
            ==> NmeaEffects(nmea, parseTime, hasCallback) == [ReadNmea, Publish(l), Notify(l)]
  {
    LocationEffectsFacts(ReadLocation(nmea, parseTime), hasCallback, l);
  }

  /** The worker object: its lifecycle flag, the time of its last
      heartbeat, the last location parsed, whether a callback is set and
      whether the two threads were created. */
  class GnssWorker {
    var running: bool
    var lastGgaTime: real
    var lastLocation: Option<Nmea.LocationData>
    var hasCallback: bool
    var threadsStarted: bool

    /** `__init__`: not running, no heartbeat sent yet (time 0), no location,
        no callback, no threads. */
    constructor ()
      ensures !running && lastGgaTime == 0.0 && lastLocation.None? && !hasCallback && !threadsStarted
    {
      running := false;
      lastGgaTime := 0.0;
      lastLocation := None;
      hasCallback := false;
      threadsStarted := false;
    }

    /** `set_location_callback(callback)`: `callback` says whether the
        callable given is truthy (None clears the callback). */
    method SetLocationCallback(callback: bool)
      modifies this`hasCallback
      ensures hasCallback == callback
    {
      hasCallback := callback;
    }

    /** `start(background)`: `running` becomes true only when both the NTRIP
        connect and the link open succeeded; a failure changes nothing. */
    method Start(background: bool, ntripConnects: bool, linkOpens: bool) returns (ok: bool, effects: seq<Effect>)
      modifies this`running, this`threadsStarted
      ensures ok == (ntripConnects && linkOpens)
      ensures running == (if ok then true else old(running))
      ensures threadsStarted == (old(threadsStarted) || (ok && background))
      ensures effects == StartEffects(background, ntripConnects, linkOpens)
    {
      effects := [ConnectNtrip];
      if !ntripConnects {
        return false, effects;
      }
      effects := effects + [OpenLink];
      if !linkOpens {
        return false, effects;
      }
      running := true;
      if background {
        threadsStarted := true;
        effects := effects + [StartThreads];
      }
      ok := true;
    }

    /** `stop()`: `running` becomes false, then the NTRIP client is
        disconnected and the link closed, whatever the state was. */
    method Stop() returns (effects: seq<Effect>)
      modifies this`running
      ensures !running
      ensures effects == [DisconnectNtrip, CloseLink]
    {
      running := false;
      effects := [DisconnectNtrip, CloseLink];
    }

    /** The heartbeat shared by `run_once` and the RTCM thread: when due,
        send the sentence and take `now` as the new heartbeat time, whatever
        the send returns. */
    method Heartbeat(now: real) returns (effects: seq<Effect>)
      modifies this`lastGgaTime
      ensures effects == HeartbeatEffects(now, old(lastGgaTime), lastLocation)
      ensures lastGgaTime == if HeartbeatDue(now, old(lastGgaTime), lastLocation) then now else old(lastGgaTime)
    {
      effects := [];
      if now - lastGgaTime >= 30.0 {
        if lastLocation.Some? {
          var line := GenerateGga(lastLocation.value, now);
          effects := [SendGga(line)];
          lastGgaTime := now;
        }
      }
    }

    /** The reading shared by `run_once` and the NMEA thread: a parsed
        location is stored, then published, then given to the callback. */
    method Receive(nmea: Option<string>, parseTime: real) returns (effects: seq<Effect>, location: Option<Nmea.LocationData>)
      modifies this`lastLocation
      ensures location == ReadLocation(nmea, parseTime)
      ensures effects == NmeaEffects(nmea, parseTime, hasCallback)
      ensures lastLocation == if ReadLocation(nmea, parseTime).Some? then ReadLocation(nmea, parseTime)
                              else old(lastLocation)
    {
      effects := [ReadNmea];
      location := ReadLocation(nmea, parseTime);
      if location.Some? {
        lastLocation := location;
        effects := effects + [Publish(location.value)];
        if hasCallback {
          effects := effects + [Notify(location.value)];
        }
      }
      assert effects == NmeaEffects(nmea, parseTime, hasCallback) by {
        NmeaEffectsOf(nmea, parseTime, hasCallback, location);
      }
    }

    /** `run_once()`: nothing happens and the answer is false when not
        running; otherwise the heartbeat, the forwarding of `rtcm` (what the
        receive returned) and the reading of `nmea` (what the read returned)
        happen in that order, and the answer is false only when the callback
        raised (which ends the step after the callback call). */
    method RunOnce(now: real, rtcm: seq<byte>, nmea: Option<string>, parseTime: real, callbackRaises: bool)
      returns (ok: bool, effects: seq<Effect>)
      modifies this`lastGgaTime, this`lastLocation
      ensures !old(running) ==> !ok && effects == [] && lastGgaTime == old(lastGgaTime)
                                && lastLocation == old(lastLocation)
      ensures old(running) ==>
                effects == HeartbeatEffects(now, old(lastGgaTime), old(lastLocation)) + ForwardEffects(rtcm)
                           + NmeaEffects(nmea, parseTime, hasCallback)
      ensures old(running) ==>
                lastGgaTime == (if HeartbeatDue(now, old(lastGgaTime), old(lastLocation)) then now
                                else old(lastGgaTime))
      ensures old(running) ==>
                lastLocation == (if ReadLocation(nmea, parseTime).Some? then ReadLocation(nmea, parseTime)
                                 else old(lastLocation))
      ensures old(running) ==> (ok <==> !(callbackRaises && hasCallback && ReadLocation(nmea, parseTime).Some?))
    {
      if !running {
        return false, [];
      }
      var sent := Heartbeat(now);
      var forwarded := [ReceiveRtcm];
      if rtcm != [] {
        forwarded := forwarded + [WriteRtcm(rtcm)];
      }
      assert forwarded == ForwardEffects(rtcm);
      var read, location := Receive(nmea, parseTime);
      effects := sent + forwarded + read;
      ok := !(callbackRaises && hasCallback && location.Some?);
    }

    /** One pass of the RTCM thread's loop body (`_rtcm_worker`): the
        heartbeat, then the forwarding. */
    method RtcmStep(now: real, rtcm: seq<byte>) returns (effects: seq<Effect>)
      requires running
      modifies this`lastGgaTime
      ensures effects == HeartbeatEffects(now, old(lastGgaTime), lastLocation) + ForwardEffects(rtcm)
      ensures lastGgaTime == if HeartbeatDue(now, old(lastGgaTime), lastLocation) then now else old(lastGgaTime)
    {
      var sent := Heartbeat(now);
      effects := sent + [ReceiveRtcm];
      if rtcm != [] {
        effects := effects + [WriteRtcm(rtcm)];
      }
    }

    /** One pass of the NMEA thread's loop body (`_nmea_worker`): the
        reading; a callback that raises is caught by the loop and changes
        nothing more. */
    method NmeaStep(nmea: Option<string>, parseTime: real) returns (effects: seq<Effect>)
      requires running
      modifies this`lastLocation
      ensures effects == NmeaEffects(nmea, parseTime, hasCallback)
      ensures lastLocation == if ReadLocation(nmea, parseTime).Some? then ReadLocation(nmea, parseTime)
                              else old(lastLocation)
    {
      var location;
      effects, location := Receive(nmea, parseTime);
    }

    /** `get_status()` given what the collaborators and threads report: a
        thread counts as alive only if it was created. */
    function Status(ntripConnected: bool, serialOpen: bool, rtcmAlive: bool, nmeaAlive: bool): (r: WorkerStatus)
      reads this
      ensures r.running == running && r.lastLocation == lastLocation
      ensures r.ntripConnected == ntripConnected && r.serialOpen == serialOpen
      ensures r.rtcmThreadAlive <==> threadsStarted && rtcmAlive
      ensures r.nmeaThreadAlive <==> threadsStarted && nmeaAlive
    {
      WorkerStatus(running, ntripConnected, serialOpen, threadsStarted && rtcmAlive, threadsStarted && nmeaAlive,
                   lastLocation)
    }
  }
}
