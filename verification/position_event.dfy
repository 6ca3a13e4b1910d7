/** The GGA ("fix data") decoder of PositionEvent: time, latitude and longitude in the
    NMEA degrees-and-minutes format with hemisphere letters, fix quality, satellite
    count, horizontal dilution of precision, and the two altitudes. */
module PositionEvents {
  import opened Outcomes
  import opened JavaString
  import opened JavaInt
  import opened Floats
  import opened Fields
  import opened Locations
  import opened FixQualities
  import opened AccuracyCategories

  /** GPS.UNAIDED_POSITION_ACCURACY, in meters. */
  const UnaidedPositionAccuracy: real := 3.0

  /** The fields of a PositionEvent after parsing. `time` is `None` when the time field
      does not parse, which leaves the Java field null. */
  datatype PositionFix = PositionFix(
    time: Option<Instant>,
    fixQuality: FixQuality,
    location: Location,
    altitude: Float,
    geoidSeparation: Float,
    satellites: int,
    hdop: Float,
    accuracy: AccuracyCategory)

  /** Integer.parseInt in radix 10 as a computation that may raise. */
  function IntOf(s: string): (r: Result<int, Exception>)
    ensures r.Success? <==> ParseInt(s, 10).Some?
    ensures r.Success? ==> r.value == ParseInt(s, 10).value
    ensures r.Failure? ==> r.error == NumberFormat
  {
    match ParseInt(s, 10)
    case None => Failure(NumberFormat)
    case Some(v) => Success(v)
  }

  /** Float.parseFloat as a computation that may raise. */
  function FloatOf(p: Parsers, s: string): (r: Result<Float, Exception>)
    ensures r.Success? <==> p.float(s).Some?
    ensures r.Success? ==> r.value == p.float(s).value
    ensures r.Failure? ==> r.error == NumberFormat
  {
    match p.float(s)
    case None => Failure(NumberFormat)
    case Some(f) => Success(f)
  }

  /** The private `getInt`: an empty field is -1, anything else goes to
      Integer.parseInt and raises if that does. */
  function GetInt(s: string): (r: Result<int, Exception>)
    ensures s == [] ==> r == Success(-1)
    ensures s != [] ==> r == IntOf(s)
  {
    if s == [] then Success(-1) else IntOf(s)
  }

  /** parseCrazyHybridFormat, for NMEA's `dddmm.mmmm`: the two digits before the point
      and everything after it are minutes, whatever precedes them is whole degrees.
      Without a point the value is NaN. A point at index 0 or 1 makes the substring
      raise; a point at index 2 leaves no degree digits, which Integer.parseInt
      rejects. */
  function Hybrid(p: Parsers, s: string): (r: Result<Float, Exception>)
    ensures '.' !in s ==> r == Success(NaN)
    ensures '.' in s && IndexOf(s, '.') < 2 ==> r == Failure(StringIndexOutOfBounds)
    ensures '.' in s && IndexOf(s, '.') == 2 ==> r.Failure?
    ensures '.' in s && IndexOf(s, '.') >= 2 ==>
      var k := IndexOf(s, '.') - 2;
      && (r.Success? <==> p.float(s[k..]).Some? && ParseInt(s[..k], 10).Some?)
      && (r.Success? ==>
            r.value == Add(Some(ParseInt(s[..k], 10).value as real), Scale(p.float(s[k..]).value, 1.0 / 60.0)))
  {
    var index := IndexOf(s, '.');
    if index < 0 then Success(NaN)
    else
      var minutesText :- SubstringFrom(s, index - 2);
      var minutes :- FloatOf(p, minutesText);
      // substring(0, index - 2) cannot raise once substring(index - 2) has not.
      var degreesText := s[..index - 2];
      var degrees :- IntOf(degreesText);
      Success(Add(Some(degrees as real), Scale(minutes, 1.0 / 60.0)))
  }

  /** Hybrid on whole degrees followed by two-digit minutes with their fraction: the
      degrees plus a sixtieth of the minutes, whenever both parse. */
  lemma HybridOfParts(p: Parsers, degrees: string, minutes: string)
    requires '.' !in degrees
    requires |minutes| >= 3 && minutes[0] != '.' && minutes[1] != '.' && minutes[2] == '.'
    ensures var r := Hybrid(p, degrees + minutes);
      && (r.Success? <==> ParseInt(degrees, 10).Some? && p.float(minutes).Some?)
      && (r.Success? ==>
            r.value == Add(Some(ParseInt(degrees, 10).value as real), Scale(p.float(minutes).value, 1.0 / 60.0)))
  {
    var s := degrees + minutes;
    var k := |degrees|;
    assert IndexOf(s, '.') == k + 2 by {
      assert s[k + 2] == '.';
      assert s[..k + 2] == degrees + minutes[..2];
    }
    assert s[k..] == minutes && s[..k] == degrees;
  }

  /** `latitude *= -1` when the hemisphere field is exactly "S" (or "W"). */
  function Hemisphere(c: Float, field: string, negative: string): (r: Float)
    ensures field == negative ==> r == Negate(c)
    ensures field != negative ==> r == c
  {
    if field == negative then Negate(c) else c
  }

  /** PositionEvent.parse on the split fields, in the order the statements run: each
      `args[i]` raises when the sentence is too short, the time field's parse error is
      swallowed, and every other parse error propagates. */
  function ParseFields(p: Parsers, args: seq<string>): (r: Result<PositionFix, Exception>)
    ensures |args| < 12 ==> r.Failure?
    ensures r.Success? <==>
      && |args| >= 12
      && Hybrid(p, args[2]).Success? && Hybrid(p, args[4]).Success?
      && GetInt(args[7]).Success?
      && GetFloat(p, args[8]).Success? && GetFloat(p, args[9]).Success? && GetFloat(p, args[11]).Success?
      && ParseInt(args[6], 10).Some?
    ensures r.Success? ==>
      && r.value.time == p.time(args[1])
      && r.value.location == Location(
           Hemisphere(Hybrid(p, args[2]).value, args[3], "S"),
           Hemisphere(Hybrid(p, args[4]).value, args[5], "W"))
      && r.value.satellites == GetInt(args[7]).value
      && r.value.hdop == GetFloat(p, args[8]).value
      && r.value.altitude == GetFloat(p, args[9]).value
      && r.value.geoidSeparation == GetFloat(p, args[11]).value
      && r.value.fixQuality == FromCode(ParseInt(args[6], 10).value)
    ensures r.Success? ==> r.value.accuracy == FromDop(r.value.hdop)
  {
    var timeText :- Field(args, 1);
    var time := p.time(timeText);
    var latText :- Field(args, 2);
    var latitude :- Hybrid(p, latText);
    var northSouth :- Field(args, 3);
    var lat := Hemisphere(latitude, northSouth, "S");
    var lonText :- Field(args, 4);
    var longitude :- Hybrid(p, lonText);
    var eastWest :- Field(args, 5);
    var lon := Hemisphere(longitude, eastWest, "W");
    var satText :- Field(args, 7);
    var satellites :- GetInt(satText);
    var hdopText :- Field(args, 8);
    var hdop :- GetFloat(p, hdopText);
    var accuracy := FromDop(hdop);
    var altText :- Field(args, 9);
    var altitude :- GetFloat(p, altText);
    var geoidText :- Field(args, 11);
    var geoid :- GetFloat(p, geoidText);
    // args[6] cannot raise once args[11] has not.
    var fixText := args[6];
    var code :- IntOf(fixText);
    Success(PositionFix(time, FromCode(code), Location(lat, lon), altitude, geoid, satellites, hdop, accuracy))
  }

  /** The PositionEvent constructor: `data.split(",")`, then ParseFields. Text without
      a comma is a single field, too short to decode. */
  function Parse(p: Parsers, data: string): (r: Result<PositionFix, Exception>)
    ensures ',' !in data ==> r.Failure?
    ensures r.Success? ==> r.value.accuracy == FromDop(r.value.hdop)
  {
    ParseFields(p, Split(data, ','))
  }

  /** Decoding comma-joined fields decodes the fields themselves, less the trailing
      empty ones that `split` drops. */
  lemma ParseJoin(p: Parsers, fields: seq<string>)
    requires |fields| > 0
    requires forall i :: 0 <= i < |fields| ==> ',' !in fields[i]
    ensures Parse(p, Join(fields, ',')) == ParseFields(p, DropTrailingEmpty(fields))
  {
    if |fields| == 1 {
      assert ',' !in Join(fields, ',');
    } else {
      SplitJoin(fields, ',');
    }
  }

  /** getElipsoidAltitude: altitude above mean sea level plus the geoid separation; NaN
      when either is unknown. */
  function EllipsoidAltitude(fix: PositionFix): (r: Float)
    ensures r.None? <==> fix.altitude.None? || fix.geoidSeparation.None?
    ensures r.Some? ==> r.value - fix.geoidSeparation.value == fix.altitude.value
  {
    Add(fix.altitude, fix.geoidSeparation)
  }

  /** getMaxError: the dilution of precision times the unaided accuracy of 3 m. */
  function MaxError(fix: PositionFix): (r: Float)
    ensures r.None? <==> fix.hdop.None?
    ensures r.Some? ==> r.value / UnaidedPositionAccuracy == fix.hdop.value
  {
    Scale(fix.hdop, UnaidedPositionAccuracy)
  }

  /** The error estimate and the accuracy category agree: a known dilution of at most 100
      bounds the error by 3 m times the category's threshold, and every better category
      would have a smaller bound. */
  lemma MaxErrorWithinCategory(p: Parsers, args: seq<string>)
    requires ParseFields(p, args).Success?
    requires var fix := ParseFields(p, args).value; fix.hdop.Some? && fix.hdop.value <= 100.0
    ensures var fix := ParseFields(p, args).value;
      && MaxError(fix).value <= UnaidedPositionAccuracy * Threshold(fix.accuracy) as real
      && forall b :: AccuracyCategories.Ordinal(b) < AccuracyCategories.Ordinal(fix.accuracy) ==>
           UnaidedPositionAccuracy * Threshold(b) as real < MaxError(fix).value
  {
  }

  /** Only the fields the decoder reads matter: field 0 (the tag), field 10 (the unit of
      the altitude) and anything past field 11 are ignored. */
  lemma OnlyReadFieldsMatter(p: Parsers, args: seq<string>, args': seq<string>)
    requires |args| >= 12 && |args'| >= 12
    requires forall i :: 1 <= i <= 9 || i == 11 ==> args[i] == args'[i]
    ensures ParseFields(p, args) == ParseFields(p, args')
  {
    assert args[1] == args'[1] && args[2] == args'[2] && args[3] == args'[3];
    assert args[4] == args'[4] && args[5] == args'[5] && args[6] == args'[6];
    assert args[7] == args'[7] && args[8] == args'[8] && args[9] == args'[9];
    assert args[11] == args'[11];
  }

  /** Mirroring a fix across the equator: "N" and "S" decode to opposite latitudes and
      the same everything else. */
  lemma SouthNegatesLatitude(p: Parsers, args: seq<string>)
    requires |args| >= 12 && args[3] == "N"
    requires ParseFields(p, args).Success?
    ensures var north, south := ParseFields(p, args), ParseFields(p, args[3 := "S"]);
      && south.Success?
      && south.value.location.latitude == Negate(north.value.location.latitude)
      && south.value == north.value.(location := south.value.location)
      && south.value.location.longitude == north.value.location.longitude
  {
    var args' := args[3 := "S"];
    assert forall i :: 0 <= i < |args| && i != 3 ==> args'[i] == args[i];
  }

  /** Mirroring a fix across the prime meridian: "E" and "W" decode to opposite
      longitudes and the same everything else. */
  lemma WestNegatesLongitude(p: Parsers, args: seq<string>)
    requires |args| >= 12 && args[5] == "E"
    requires ParseFields(p, args).Success?
    ensures var east, west := ParseFields(p, args), ParseFields(p, args[5 := "W"]);
      && west.Success?
      && west.value.location.longitude == Negate(east.value.location.longitude)
      && west.value == east.value.(location := west.value.location)
      && west.value.location.latitude == east.value.location.latitude
  {
    var args' := args[5 := "W"];
    assert forall i :: 0 <= i < |args| && i != 5 ==> args'[i] == args[i];
  }

  /** The fix quality field has no empty-means-unknown rule: an empty field raises,
      while an empty satellite count is -1 and an empty dilution is NaN. */
  lemma EmptyFixQualityRaises(p: Parsers, args: seq<string>)
    requires |args| >= 12 && args[6] == []
    ensures ParseFields(p, args).Failure?
  {
  }

  /** The decimal stand-in for Float.parseFloat, with no time parser. */
  const Decimal: Parsers := Parsers(DecimalFloat, _ => None)

  lemma MinutesExample()
    ensures FloatOf(Decimal, "07.038") == Success(Some(7.038))
  {
    MinutesParts();
    var v := 7 as real + 38 as real / Pow10(3) as real;
    assert v == 7.038 by {
      assert Pow10(3) == 1000;
    }
    assert DecimalFloat("07.038") == Some(Some(v));
  }

  lemma MinutesParts()
    ensures IndexOf("07.038", '.') == 2
    ensures "07.038"[..2] == "07" && "07.038"[3..] == "038"
    ensures DigitsValue("07", 10) == 7 && DigitsValue("038", 10) == 38
    ensures AllDigits("07", 10) && AllDigits("038", 10)
  {
    assert "07.038"[2] == '.' && "07.038"[..2] == "07";
  }

  lemma PointExample()
    ensures IndexOf("4807.038", '.') == 4
  {
    assert "4807.038"[4] == '.' && "4807.038"[..4] == "4807";
  }

  lemma SliceExample()
    ensures "4807.038"[2..] == "07.038"
    ensures "4807.038"[..2] == "48"
  {
  }

  lemma DegreesExample()
    ensures IntOf("48") == Success(48)
  {
    assert DigitsValue("48", 10) == 48;
  }

  /** The degrees-and-minutes reading of the latitude of the standard GGA example. */
  lemma HybridExample()
    ensures Hybrid(Decimal, "4807.038") == Success(Some(48.0 + 7.038 / 60.0))
  {
    PointExample();
    SliceExample();
    MinutesExample();
    DegreesExample();
  }

  /** The degrees-and-minutes reading of the longitude of the standard GGA example. */
  lemma LongitudeExample()
    ensures Hybrid(Decimal, "01131.000") == Success(Some(11.0 + 31.0 / 60.0))
  {
    LongitudeOfParts();
    LongitudeText();
  }

  lemma LongitudeOfParts()
    ensures Hybrid(Decimal, "011" + "31.000") == Success(Some(11.0 + 31.0 / 60.0))
  {
    LongitudeDegrees();
    LongitudeMinutes();
    HybridOfValues(Decimal, "011", "31.000", 11, 31.0);
  }

  lemma HybridOfValues(p: Parsers, degrees: string, minutes: string, d: int, m: real)
    requires '.' !in degrees
    requires |minutes| >= 3 && minutes[0] != '.' && minutes[1] != '.' && minutes[2] == '.'
    requires ParseInt(degrees, 10) == Some(d) && p.float(minutes) == Some(Some(m))
    ensures Hybrid(p, degrees + minutes) == Success(Some(d as real + m / 60.0))
  {
    HybridOfParts(p, degrees, minutes);
  }

  lemma LongitudeText()
    ensures "01131.000" == "011" + "31.000"
  {
  }

  lemma LongitudeDegrees()
    ensures ParseInt("011", 10) == Some(11)
  {
    assert DigitsValue("01", 10) == 1;
    assert "011"[..2] == "01";
  }

  lemma LongitudeMinutes()
    ensures DecimalFloat("31.000") == Some(Some(31.0))
  {
    LongitudeMinutesParts();
    var v := 31 as real + 0 as real / Pow10(3) as real;
    assert v == 31.0;
    assert DecimalFloat("31.000") == Some(Some(v));
  }

  lemma LongitudeMinutesParts()
    ensures IndexOf("31.000", '.') == 2
    ensures "31.000"[..2] == "31" && "31.000"[3..] == "000"
    ensures DigitsValue("31", 10) == 31 && DigitsValue("000", 10) == 0
    ensures AllDigits("31", 10) && AllDigits("000", 10)
  {
    assert "31.000"[2] == '.' && "31.000"[..2] == "31";
    assert DigitsValue("00", 10) == 0;
    assert "000"[..2] == "00";
  }

  /** The fields of the standard GGA example sentence
      `$GPGGA,123519,4807.038,N,01131.000,E,1,08,0.9,545.4,M,46.9,M,,*47`. */
  const GoldenFields: seq<string> :=
    ["$GPGGA", "123519", "4807.038", "N", "01131.000", "E", "1", "08", "0.9", "545.4", "M", "46.9", "M", "", "*47"]

  /** The standard GGA example decodes to 48 degrees 7.038 minutes north, 11 degrees 31
      minutes east, a GPS fix from 8 satellites at dilution 0.9 (an ideal one), 545.4 m
      above the geoid, which lies 46.9 m above the ellipsoid. The decimal stand-in has no
      time parser, so the time is absent. */
  lemma GoldenFix()
    ensures ParseFields(Decimal, GoldenFields) == GoldenDecoded
  {
    var args := GoldenFields;
    assert args[1] == "123519" && args[2] == "4807.038" && args[3] == "N";
    assert args[4] == "01131.000" && args[5] == "E" && args[6] == "1";
    assert args[7] == "08" && args[8] == "0.9" && args[9] == "545.4" && args[11] == "46.9";
    GoldenFieldsDecode(args);
  }

  /** The sentence itself, glued back from its fields, decodes the same: its last field
      is the checksum, so `split` keeps every field. */
  lemma GoldenSentence()
    ensures Parse(Decimal, Join(GoldenFields, ',')) == GoldenDecoded
  {
    ParseJoin(Decimal, GoldenFields);
    assert DropTrailingEmpty(GoldenFields) == GoldenFields;
    GoldenFix();
  }

  /** What the standard GGA example decodes to. */
  const GoldenDecoded: Result<PositionFix, Exception> :=
    Success(PositionFix(None, Gps, Location(Some(48.0 + 7.038 / 60.0), Some(11.0 + 31.0 / 60.0)),
                        Some(545.4), Some(46.9), 8, Some(0.9), Ideal))

  lemma GoldenFieldsDecode(args: seq<string>)
    requires |args| >= 12 && args[1] == "123519" && args[2] == "4807.038" && args[3] == "N"
    requires args[4] == "01131.000" && args[5] == "E" && args[6] == "1"
    requires args[7] == "08" && args[8] == "0.9" && args[9] == "545.4" && args[11] == "46.9"
    ensures ParseFields(Decimal, args) == GoldenDecoded
  {
    GoldenLatitude(args[2], args[3]);
    GoldenLongitude(args[4], args[5]);
    GoldenNumbers(args[6], args[7], args[8], args[9], args[11]);
    assert Decimal.time(args[1]) == None;
  }

  lemma GoldenNumbers(fix: string, satellites: string, hdop: string, altitude: string, geoid: string)
    requires fix == "1" && satellites == "08" && hdop == "0.9" && altitude == "545.4" && geoid == "46.9"
    ensures ParseInt(fix, 10) == Some(1) && FromCode(1) == Gps
    ensures GetInt(satellites) == Success(8)
    ensures GetFloat(Decimal, hdop) == Success(Some(0.9)) && FromDop(Some(0.9)) == Ideal
    ensures GetFloat(Decimal, altitude) == Success(Some(545.4))
    ensures GetFloat(Decimal, geoid) == Success(Some(46.9))
  {
    CountFields();
    DilutionField();
    AltitudeField();
    GeoidField();
    assert FixQualities.Ordinal(FromCode(1)) == 1;
    FromDopByBounds(0.9);
  }

  lemma GoldenLatitude(text: string, hemisphere: string)
    requires text == "4807.038" && hemisphere == "N"
    ensures Hybrid(Decimal, text).Success?
    ensures Hemisphere(Hybrid(Decimal, text).value, hemisphere, "S") == Some(48.0 + 7.038 / 60.0)
  {
    HybridExample();
  }

  lemma GoldenLongitude(text: string, hemisphere: string)
    requires text == "01131.000" && hemisphere == "E"
    ensures Hybrid(Decimal, text).Success?
    ensures Hemisphere(Hybrid(Decimal, text).value, hemisphere, "W") == Some(11.0 + 31.0 / 60.0)
  {
    LongitudeExample();
  }

  lemma CountFields()
    ensures GetInt("08") == Success(8)
    ensures ParseInt("1", 10) == Some(1)
  {
    assert DigitsValue("08", 10) == 8;
    assert DigitsValue("1", 10) == 1;
  }

  lemma DilutionField()
    ensures GetFloat(Decimal, "0.9") == Success(Some(0.9))
  {
    assert IndexOf("0.9", '.') == 1 by {
      assert "0.9"[1] == '.' && "0.9"[..1] == "0";
    }
    assert "0.9"[..1] == "0" && "0.9"[2..] == "9";
    assert DigitsValue("0", 10) == 0 && DigitsValue("9", 10) == 9;
    var v := 0 as real + 9 as real / Pow10(1) as real;
    assert v == 0.9;
  }

  lemma AltitudeField()
    ensures GetFloat(Decimal, "545.4") == Success(Some(545.4))
  {
    AltitudeParts();
    var v := 545 as real + 4 as real / Pow10(1) as real;
    assert v == 545.4;
    assert DecimalFloat("545.4") == Some(Some(v));
  }

  lemma AltitudeParts()
    ensures IndexOf("545.4", '.') == 3
    ensures "545.4"[..3] == "545" && "545.4"[4..] == "4"
    ensures DigitsValue("545", 10) == 545 && DigitsValue("4", 10) == 4
    ensures AllDigits("545", 10) && AllDigits("4", 10)
  {
    assert "545.4"[3] == '.' && "545.4"[..3] == "545";
    assert DigitsValue("54", 10) == 54;
    assert "545"[..2] == "54";
  }

  lemma GeoidField()
    ensures GetFloat(Decimal, "46.9") == Success(Some(46.9))
  {
    GeoidParts();
    var v := 46 as real + 9 as real / Pow10(1) as real;
    assert v == 46.9;
    assert DecimalFloat("46.9") == Some(Some(v));
  }

  lemma GeoidParts()
    ensures IndexOf("46.9", '.') == 2
    ensures "46.9"[..2] == "46" && "46.9"[3..] == "9"
    ensures DigitsValue("46", 10) == 46 && DigitsValue("9", 10) == 9
    ensures AllDigits("46", 10) && AllDigits("9", 10)
  {
    assert "46.9"[2] == '.' && "46.9"[..2] == "46";
  }
}
