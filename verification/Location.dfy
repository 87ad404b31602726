/** The position fields that GT06 location and alarm packets share: decoding, and what it forgets. */
module Location {
  import opened Common
  import opened Bytes
  import opened UtcTime

  /** Coordinates are in units of 1/1800000 of a degree, north and east positive. */
  datatype Location = Location(
    stamp: Stamp, latitude: int, longitude: int, speed: nat, heading: nat,
    fixed: bool, gpsLength: nat, satellites: nat)

  function Signed(magnitude: nat, positive: bool): int {
    if positive then magnitude else 0 - magnitude
  }

  predicate Bit(word: nat, weight: nat)
    requires weight > 0
  {
    word / weight % 2 == 1
  }

  /** Python's s[from:to], which clips instead of raising. */
  function Slice(s: Bytes, from: nat, to: nat): Bytes
    requires from <= to
  {
    s[(if |s| < from then |s| else from)..(if |s| < to then |s| else to)]
  }

  /** None where the original raises: a packet without a speed byte, or an impossible date. */
  function ParseLocation(raw: Bytes): Option<Location> {
    if |raw| < 20 then None
    else
      var stamp := Stamp(Date(raw[4] as int + 2000, raw[5], raw[6]), raw[7], raw[8], raw[9]);
      if !ValidStamp(stamp) then None
      else
        var course := FromBE(Slice(raw, 20, 22));
        Some(Location(
          stamp,
          Signed(FromBE(raw[11..15]), Bit(course, 0x400)),
          Signed(FromBE(raw[15..19]), !Bit(course, 0x800)),
          raw[19], course % 0x400, Bit(course, 0x1000), raw[10] / 16, raw[10] % 16))
  }

  /** Where each field lies, byte by byte: north, west and fix are bits 2, 3 and 4 of byte 20. */
  lemma FieldsLie(raw: Bytes)
    requires |raw| >= 22
    ensures ParseLocation(raw).Some? <==>
      && 1 <= raw[5] <= 12 && 1 <= raw[6] && raw[6] as int <= DaysIn(raw[4] as int + 2000, raw[5])
      && raw[7] < 24 && raw[8] < 60 && raw[9] < 60
    ensures ParseLocation(raw).Some? ==>
      var l := ParseLocation(raw).value;
      && l.stamp == Stamp(Date(raw[4] as int + 2000, raw[5], raw[6]), raw[7], raw[8], raw[9])
      && 16 * l.gpsLength + l.satellites == raw[10] && l.satellites < 16
      && l.latitude == (if raw[20] as int / 4 % 2 == 1 then 1 else -1)
                       * (0x100_0000 * raw[11] as int + 0x1_0000 * raw[12] as int + 0x100 * raw[13] as int + raw[14])
      && l.longitude == (if raw[20] as int / 8 % 2 == 1 then -1 else 1)
                        * (0x100_0000 * raw[15] as int + 0x1_0000 * raw[16] as int + 0x100 * raw[17] as int + raw[18])
      && l.speed == raw[19] && l.heading == raw[20] as int % 4 * 0x100 + raw[21]
      && l.fixed == (raw[20] as int / 16 % 2 == 1)
  {
    hide FromBE;
    assert Slice(raw, 20, 22) == raw[20..22];
    Weights(raw[20..22]);
    Weights(raw[11..15]);
    Weights(raw[15..19]);
    CourseBits(raw[20], raw[21]);
  }

  lemma CourseBits(high: nat, low: byte)
    ensures var word := 0x100 * high + low;
      && word % 0x400 == high % 4 * 0x100 + low
      && Bit(word, 0x400) == (high / 4 % 2 == 1)
      && Bit(word, 0x800) == (high / 8 % 2 == 1)
      && Bit(word, 0x1000) == (high / 16 % 2 == 1)
  {
    var word := 0x100 * high + low;
    assert word / 0x400 == high / 4 && word / 0x800 == high / 8 && word / 0x1000 == high / 16;
  }

  // ------------------------------------------------------------------
  // The layout, written the other way
  // ------------------------------------------------------------------

  predicate Fits(l: Location) {
    && ValidStamp(l.stamp) && 2000 <= l.stamp.date.year <= 2255
    && -0x1_0000_0000 < l.latitude < 0x1_0000_0000
    && -0x1_0000_0000 < l.longitude < 0x1_0000_0000
    && l.speed < 256 && l.heading < 0x400 && l.gpsLength < 16 && l.satellites < 16
  }

  function Magnitude(x: int): nat {
    if x < 0 then -x else x
  }

  function CourseWord(l: Location): (word: nat)
    requires Fits(l)
    ensures word < 0x2000
  {
    l.heading
      + (if l.latitude >= 0 then 0x400 else 0)
      + (if l.longitude < 0 then 0x800 else 0)
      + (if l.fixed then 0x1000 else 0)
  }

  function ToBE4(v: nat): (s: Bytes)
    requires v < 0x1_0000_0000
    ensures |s| == 4 && FromBE(s) == v
  {
    Sizes();
    ToBE(v, 4)
  }

  /** Bytes 4 to 21 of a packet that carries the location. */
  function Layout(l: Location): (b: Bytes)
    requires Fits(l)
    ensures |b| == 18
  {
    var t := l.stamp;
    [t.date.year - 2000, DayPart(t.date.month), DayPart(t.date.day), t.hour, t.minute, t.second,
     l.gpsLength * 16 + l.satellites]
    + ToBE4(Magnitude(l.latitude)) + ToBE4(Magnitude(l.longitude)) + [l.speed] + ToBE16(CourseWord(l))
  }

  /** A month or a day of a month, as a byte. */
  function DayPart(x: int): byte
    requires 0 <= x <= 31
  {
    x
  }

  lemma CourseReadsBack(l: Location)
    requires Fits(l)
    ensures var word := CourseWord(l);
      && word % 0x400 == l.heading
      && Bit(word, 0x400) == (l.latitude >= 0)
      && Bit(word, 0x800) == (l.longitude < 0)
      && Bit(word, 0x1000) == l.fixed
  {}

  /** Every location that fits comes back from its bytes, whatever surrounds them. */
  lemma LocationReadsBack(header: Bytes, l: Location, rest: Bytes)
    requires |header| == 4 && Fits(l)
    ensures ParseLocation(header + Layout(l) + rest) == Some(l)
  {
    hide FromBE, CourseWord, Bit, ValidStamp, ToBE4, ToBE16;
    var raw := header + Layout(l) + rest;
    CourseReadsBack(l);
    assert raw[4..22] == Layout(l);
    assert raw[11..15] == Layout(l)[7..11] == ToBE4(Magnitude(l.latitude));
    assert raw[15..19] == Layout(l)[11..15] == ToBE4(Magnitude(l.longitude));
    assert raw[20..22] == Layout(l)[16..18] == ToBE16(CourseWord(l));
  }

  /** The spare bits of the course word are clear, and a zero coordinate counts as north or east. */
  predicate Canonical(raw: Bytes)
    requires |raw| >= 22
  {
    var course := FromBE(raw[20..22]);
    && course < 0x2000
    && (FromBE(raw[11..15]) == 0 ==> Bit(course, 0x400))
    && (FromBE(raw[15..19]) == 0 ==> !Bit(course, 0x800))
  }

  lemma CourseSplits(word: nat)
    requires word < 0x1_0000
    ensures word == word % 0x400 + (if Bit(word, 0x400) then 0x400 else 0) + (if Bit(word, 0x800) then 0x800 else 0)
      + (if Bit(word, 0x1000) then 0x1000 else 0) + word / 0x2000 * 0x2000
  {
    BitStep(word, 0x400);
    BitStep(word, 0x800);
    BitStep(word, 0x1000);
  }

  lemma BitStep(word: nat, weight: nat)
    requires weight == 0x400 || weight == 0x800 || weight == 0x1000
    ensures word / weight * weight == (if Bit(word, weight) then weight else 0) + word / (2 * weight) * (2 * weight)
  {
    var q := word / weight;
    assert word / (2 * weight) == q / 2;
  }

  /** The course word is rebuilt from the decoded fields exactly when it is canonical. */
  lemma CourseReprints(raw: Bytes, l: Location)
    requires |raw| >= 22 && ParseLocation(raw) == Some(l) && Fits(l)
    ensures CourseWord(l) == FromBE(raw[20..22]) <==> Canonical(raw)
  {
    hide FromBE, ValidStamp, Bit;
    var course := FromBE(raw[20..22]);
    assert Slice(raw, 20, 22) == raw[20..22];
    TwoBytes(raw[20..22]);
    CourseSplits(course);
    CourseSplits(CourseWord(l));
    CourseReadsBack(l);
  }

  lemma TwoBytes(s: Bytes)
    requires |s| == 2
    ensures FromBE(s) < 0x1_0000
  {
    Sizes();
  }

  lemma FourBytes(s: Bytes)
    requires |s| == 4
    ensures FromBE(s) < 0x1_0000_0000
    ensures ToBE4(FromBE(s)) == s
  {
    Sizes();
    ToBEInvertsFromBE(s);
  }

  /**
   What decoding forgets, exactly: writing a decoded location back gives the
   packet's own bytes if and only if they are canonical.
   */
  lemma LocationReprints(raw: Bytes)
    requires |raw| >= 22 && ParseLocation(raw).Some?
    ensures Fits(ParseLocation(raw).value)
    ensures Layout(ParseLocation(raw).value) == raw[4..22] <==> Canonical(raw)
  {
    hide FromBE, Bit, CourseWord, ToBE4, ToBE16, Canonical;
    var l := ParseLocation(raw).value;
    FourBytes(raw[11..15]);
    FourBytes(raw[15..19]);
    assert Fits(l);
    CourseReprints(raw, l);
    var b := Layout(l);
    assert b[7..11] == raw[11..15] && b[11..15] == raw[15..19] && b[16..18] == ToBE16(CourseWord(l));
    FromBEInjective(ToBE16(CourseWord(l)), raw[20..22]);
    if Canonical(raw) {
      assert b[16..18] == raw[20..22];
      assert b == b[..7] + b[7..11] + b[11..15] + [b[15]] + b[16..18];
      assert raw[4..22] == raw[4..11] + raw[11..15] + raw[15..19] + [raw[19]] + raw[20..22];
      assert b[..7] == raw[4..11];
    } else {
      assert raw[4..22][16..18] == raw[20..22];
    }
  }

  /** So among canonical packets decoding loses nothing. */
  lemma DecodesAlike(raw: Bytes, other: Bytes)
    requires |raw| >= 22 && |other| >= 22 && ParseLocation(raw).Some? && ParseLocation(other).Some?
    requires Canonical(raw) && Canonical(other)
    ensures ParseLocation(raw) == ParseLocation(other) <==> raw[4..22] == other[4..22]
  {
    hide ParseLocation, Canonical, Layout;
    LocationReprints(raw);
    LocationReprints(other);
    if raw[4..22] == other[4..22] {
      LocationReadsBack(raw[..4], ParseLocation(raw).value, raw[22..]);
      LocationReadsBack(other[..4], ParseLocation(other).value, other[22..]);
      assert raw[..4] + raw[4..22] + raw[22..] == raw;
      assert other[..4] + other[4..22] + other[22..] == other;
      LocationReadsBack(raw[..4], ParseLocation(other).value, raw[22..]);
    }
  }
}
