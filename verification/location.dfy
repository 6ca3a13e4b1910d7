/** A 2D location on earth in signed decimal degrees, and its degrees-minutes-seconds
    rendering. The constructor and the two getters are the datatype's constructor and
    fields; `toString` is `AsDms`. */
module Locations {
  import opened Outcomes
  import opened JavaInt
  import opened Floats
  import opened JavaString

  datatype Location = Location(latitude: Float, longitude: Float)

  /** The three integers `toDMS` prints. */
  datatype Dms = Dms(degrees: int, minutes: int, seconds: int)

  /** `toDMS` as written: Math.abs of the `(int)` casts of c, 60c and 3600c, the last two
      reduced with `% 60`. The cast saturates, and Math.abs of the minimum `int` is
      negative, so the parts are not sign-symmetric for large magnitudes. */
  function ToDmsAsWritten(c: Float): (d: Dms)
    ensures 0 <= d.minutes < 60 && 0 <= d.seconds < 60
    ensures ToInt(c) != MinInt ==> d.degrees >= 0
    ensures ToInt(c) == MinInt ==> d.degrees < 0
  {
    Dms(Abs(ToInt(c)), Abs(Rem(ToInt(Scale(c, 60.0)), 60)), Abs(Rem(ToInt(Scale(c, 3600.0)), 60)))
  }

  /** The as-written rendering can print a negative degree count, for a latitude of
      -2147483648, and it is not sign-symmetric: 600000 and -600000 render different
      seconds (7 and 8), because 3600 times each saturates to a different bound. */
  lemma ToDmsAsWrittenCounterexample()
    ensures ToDmsAsWritten(Some(-2147483648.0)).degrees < 0
    ensures ToDmsAsWritten(Some(600000.0)).seconds == 7
    ensures ToDmsAsWritten(Some(-600000.0)).seconds == 8
  {
    assert ToInt(Scale(Some(600000.0), 3600.0)) == MaxInt;
    assert ToInt(Scale(Some(-600000.0), 3600.0)) == MinInt;
  }

  /** `toDMS` with the magnitude taken before each cast: `(int) |c|`, and
      `(int) (|c| * 60) % 60` and `(int) (|c| * 3600) % 60`. Every part is non-negative
      and the sign of the coordinate is left to the hemisphere letter. */
  function ToDms(c: Float): (d: Dms)
    ensures d.degrees >= 0
    ensures 0 <= d.minutes < 60 && 0 <= d.seconds < 60
  {
    var m := Magnitude(c);
    Dms(ToInt(m), Rem(ToInt(Scale(m, 60.0)), 60), Rem(ToInt(Scale(m, 3600.0)), 60))
  }

  /** The sign of a coordinate never reaches its degrees, minutes or seconds. */
  lemma ToDmsSymmetric(c: Float)
    ensures ToDms(Negate(c)) == ToDms(c)
  {
    assert Magnitude(Negate(c)) == Magnitude(c);
  }

  /** For one unsaturated cast, taking the magnitude before or after the cast is the
      same, both for the whole part and for its remainder by 60. */
  lemma {:induction false} PartAgrees(y: real)
    requires -MaxInt as real <= y <= MaxInt as real
    ensures Abs(ToInt(Some(y))) == ToInt(Magnitude(Some(y)))
    ensures Abs(Rem(ToInt(Some(y)), 60)) == Rem(ToInt(Magnitude(Some(y))), 60)
  {
    TruncNegate(y);
    var t := Trunc(y);
    assert -MaxInt <= t <= MaxInt;
    if y < 0.0 {
      assert ToInt(Magnitude(Some(y))) == -t;
      assert Rem(t, 60) == -Rem(-t, 60);
    }
  }

  /** Within the range where none of the three casts saturates, the corrected rendering
      and the one as written print the same numbers. */
  lemma ToDmsAgreesInRange(x: real)
    requires -MaxInt as real <= x * 3600.0 <= MaxInt as real
    ensures ToDms(Some(x)) == ToDmsAsWritten(Some(x))
  {
    var m := Magnitude(Some(x));
    var c, w := ToDms(Some(x)), ToDmsAsWritten(Some(x));
    assert c.degrees == w.degrees by {
      PartAgrees(x);
    }
    assert c.minutes == w.minutes by {
      assert Scale(m, 60.0) == Magnitude(Some(x * 60.0));
      PartAgrees(x * 60.0);
    }
    assert c.seconds == w.seconds by {
      assert Scale(m, 3600.0) == Magnitude(Some(x * 3600.0));
      PartAgrees(x * 3600.0);
    }
  }

  /** Truncation of a non-negative real commutes with dividing by 60. */
  lemma FloorBy60(y: real)
    requires y >= 0.0
    ensures (y * 60.0).Floor / 60 == y.Floor
  {
    var f := y.Floor;
    var g := (y * 60.0).Floor;
    assert f as real <= y < f as real + 1.0;
    assert 60 * f <= g < 60 * f + 60;
  }

  /** Within the range where no cast saturates, the corrected rendering prints the whole
      degrees of |c|, and degrees, minutes and seconds rebuild the whole seconds of |c|. */
  lemma ToDmsValue(x: real)
    requires -MaxInt as real <= x * 3600.0 <= MaxInt as real
    ensures var a := if x < 0.0 then -x else x;
      var d := ToDms(Some(x));
      && d.degrees == a.Floor
      && d.degrees * 3600 + d.minutes * 60 + d.seconds == (a * 3600.0).Floor
  {
    var a := if x < 0.0 then -x else x;
    assert Magnitude(Some(x)) == Some(a);
    var dd := a.Floor;
    var mm := (a * 60.0).Floor;
    var ss := (a * 3600.0).Floor;
    assert a * 3600.0 <= MaxInt as real;
    assert 0 <= dd <= mm <= ss <= MaxInt;
    assert Scale(Some(a), 60.0) == Some(a * 60.0);
    assert Scale(Some(a), 3600.0) == Some(a * 3600.0);
    var d := ToDms(Some(x));
    assert d == Dms(dd, mm % 60, ss % 60);
    FloorBy60(a);
    assert (a * 60.0) * 60.0 == a * 3600.0;
    FloorBy60(a * 60.0);
    assert mm == 60 * dd + mm % 60;
    assert ss == 60 * mm + ss % 60;
  }

  /** The same holds of `toDMS` as written, which agrees with the corrected rendering in
      that range. */
  lemma ToDmsAsWrittenValue(x: real)
    requires -MaxInt as real <= x * 3600.0 <= MaxInt as real
    ensures var a := if x < 0.0 then -x else x;
      var d := ToDmsAsWritten(Some(x));
      && d.degrees == a.Floor
      && d.degrees * 3600 + d.minutes * 60 + d.seconds == (a * 3600.0).Floor
  {
    ToDmsValue(x);
    ToDmsAgreesInRange(x);
  }

  const DegreeSign: char := '°'

  /** The `%d°%d'%d"` text of `toDMS`. */
  function DmsText(d: Dms): (s: string)
    ensures |s| > 0 && s[|s| - 1] == '"'
  {
    IntText(d.degrees) + [DegreeSign] + IntText(d.minutes) + "'" + IntText(d.seconds) + "\""
  }

  /** The three parts read back from the text of every `int`-valued Dms. */
  lemma DmsTextRoundTrip(d: Dms)
    requires InRange(d.degrees) && InRange(d.minutes) && InRange(d.seconds)
    ensures ReadDms(DmsText(d)) == Some(d)
  {
    IntTextFree(d.degrees, DegreeSign);
    IntTextFree(d.minutes, '\'');
    ReadParts(IntText(d.degrees), IntText(d.minutes), IntText(d.seconds), DmsText(d));
    IntTextRoundTrip(d.degrees);
    IntTextRoundTrip(d.minutes);
    IntTextRoundTrip(d.seconds);
  }

  /** Reads a `%d°%d'%d"` text: the whole numbers before the first degree sign, between it
      and the next `'`, and from there to a closing `"`. */
  function ReadDms(s: string): Option<Dms> {
    var i := IndexOf(s, DegreeSign);
    if i < 0 then None
    else
      var rest := s[i + 1..];
      var j := IndexOf(rest, '\'');
      if j < 0 || j + 1 > |rest| - 1 || rest[|rest| - 1] != '"' then None
      else
        match (ParseInt(s[..i], 10), ParseInt(rest[..j], 10), ParseInt(rest[j + 1..|rest| - 1], 10))
        case (Some(degrees), Some(minutes), Some(seconds)) => Some(Dms(degrees, minutes, seconds))
        case _ => None
  }

  /** ReadDms finds the three parts of a text laid out as `a°b'c"`. */
  lemma ReadParts(a: string, b: string, c: string, s: string)
    requires DegreeSign !in a && '\'' !in b
    requires s == a + [DegreeSign] + b + "'" + c + "\""
    ensures |s| > 0 && s[|s| - 1] == '"'
    ensures ReadDms(s) ==
      match (ParseInt(a, 10), ParseInt(b, 10), ParseInt(c, 10))
      case (Some(degrees), Some(minutes), Some(seconds)) => Some(Dms(degrees, minutes, seconds))
      case _ => None
  {
    var rest := b + "'" + c + "\"";
    assert s == a + [DegreeSign] + rest;
    SplitAtFirst(a, DegreeSign, rest, s);
    SplitAtFirst(b, '\'', c + "\"", rest);
    assert rest[|b| + 1..|rest| - 1] == c;
  }

  /** The first `c` of `u + [c] + w` is the one after `u` when `u` holds none, and the
      text splits there into `u` and `w`. */
  lemma SplitAtFirst(u: string, c: char, w: string, s: string)
    requires c !in u && s == u + [c] + w
    ensures c in s && IndexOf(s, c) == |u|
    ensures s[..|u|] == u && s[|u| + 1..] == w
  {
    assert s[|u|] == c;
    assert s[..|u|] == u;
  }

  /** The hemisphere letter of `asDMS`: `positive` only for a coordinate above zero, so
      zero and NaN take `negative`. */
  function Letter(c: Float, positive: char, negative: char): (h: char)
    requires positive != negative
    ensures h == positive <==> Greater(c, 0.0)
    ensures h == positive || h == negative
  {
    if Greater(c, 0.0) then positive else negative
  }

  /** `latitude > 0 ? "N" : "S"`. */
  function NorthSouth(latitude: Float): char {
    Letter(latitude, 'N', 'S')
  }

  /** `longitude > 0 ? "E" : "W"`. */
  function EastWest(longitude: Float): char {
    Letter(longitude, 'E', 'W')
  }

  /** The `"%s%s %s%s"` layout of `asDMS`: latitude parts and letter, a space, longitude
      parts and letter. */
  function Render(latitude: Dms, northSouth: char, longitude: Dms, eastWest: char): (s: string)
    ensures var k := |DmsText(latitude)|;
      && |s| == k + |DmsText(longitude)| + 3
      && s[..k] == DmsText(latitude) && s[k] == northSouth && s[k + 1] == ' '
      && s[k + 2..|s| - 1] == DmsText(longitude) && s[|s| - 1] == eastWest
  {
    var t, u := DmsText(latitude), DmsText(longitude);
    Layout(t, northSouth, u, eastWest);
    t + [northSouth, ' '] + u + [eastWest]
  }

  /** Where each piece of `t + [a, ' '] + u + [b]` sits. */
  lemma Layout(t: string, a: char, u: string, b: char)
    ensures var s := t + [a, ' '] + u + [b];
      && |s| == |t| + |u| + 3
      && s[..|t|] == t && s[|t|] == a && s[|t| + 1] == ' '
      && s[|t| + 2..|s| - 1] == u && s[|s| - 1] == b
  {
    var s := t + [a, ' '] + u + [b];
    assert s[..|t|] == t;
    assert s[|t| + 2..|s| - 1] == u;
  }

  /** Location.asDMS (and toString) as written: both coordinates through `toDMS` as
      written, each followed by its hemisphere letter. The latitude's letter follows its
      degrees-minutes-seconds text and the longitude's letter ends the text: N exactly
      when the latitude is above zero, E exactly when the longitude is. */
  function AsDms(loc: Location): (s: string)
    ensures var k := |DmsText(ToDmsAsWritten(loc.latitude))|;
      && |s| > k + 1
      && s[..k] == DmsText(ToDmsAsWritten(loc.latitude)) && s[k + 1] == ' '
      && (s[k] == 'N' <==> Greater(loc.latitude, 0.0))
      && (s[|s| - 1] == 'E' <==> Greater(loc.longitude, 0.0))
  {
    Lettered(ToDmsAsWritten(loc.latitude), loc.latitude, ToDmsAsWritten(loc.longitude), loc.longitude)
  }

  /** The rendering with the corrected `toDMS`, with the same letters in the same places. */
  function AsDmsCorrected(loc: Location): (s: string)
    ensures var k := |DmsText(ToDms(loc.latitude))|;
      && |s| > k + 1
      && s[..k] == DmsText(ToDms(loc.latitude)) && s[k + 1] == ' '
      && (s[k] == 'N' <==> Greater(loc.latitude, 0.0))
      && (s[|s| - 1] == 'E' <==> Greater(loc.longitude, 0.0))
  {
    Lettered(ToDms(loc.latitude), loc.latitude, ToDms(loc.longitude), loc.longitude)
  }

  /** Both renderings: the parts, each followed by the hemisphere letter of its coordinate. */
  function Lettered(latitude: Dms, lat: Float, longitude: Dms, lon: Float): (s: string)
    ensures var k := |DmsText(latitude)|;
      && |s| > k + 1
      && s[..k] == DmsText(latitude) && s[k + 1] == ' '
      && (s[k] == 'N' <==> Greater(lat, 0.0))
      && (s[|s| - 1] == 'E' <==> Greater(lon, 0.0))
  {
    var s := Render(latitude, NorthSouth(lat), longitude, EastWest(lon));
    assert s[|DmsText(latitude)|] == NorthSouth(lat);
    assert s[|s| - 1] == EastWest(lon);
    s
  }

  /** A coordinate whose 3600-fold fits in an `int`. */
  predicate Unsaturated(c: Float) {
    c.Some? && -MaxInt as real <= c.value * 3600.0 <= MaxInt as real
  }

  /** As written, a coordinate in the unsaturated range prints the same parts as its
      negation. */
  lemma ToDmsAsWrittenMirror(c: Float)
    requires Unsaturated(c)
    ensures ToDmsAsWritten(Negate(c)) == ToDmsAsWritten(c)
  {
    var x := c.value;
    assert Negate(c) == Some(-x);
    assert -MaxInt as real <= (-x) * 3600.0 <= MaxInt as real;
    calc {
      ToDmsAsWritten(Some(-x));
      { ToDmsAgreesInRange(-x); }
      ToDms(Some(-x));
      { ToDmsSymmetric(c); }
      ToDms(c);
      { ToDmsAgreesInRange(x); }
      ToDmsAsWritten(c);
    }
  }

  /** Mirroring a northern latitude across the equator changes only its letter, from N to
      S, as long as the latitude is in the unsaturated range. */
  lemma AsDmsMirrorLatitude(loc: Location)
    requires Greater(loc.latitude, 0.0) && Unsaturated(loc.latitude)
    ensures var lat, lon := ToDmsAsWritten(loc.latitude), ToDmsAsWritten(loc.longitude);
      && AsDms(loc) == Render(lat, 'N', lon, EastWest(loc.longitude))
      && AsDms(loc.(latitude := Negate(loc.latitude))) == Render(lat, 'S', lon, EastWest(loc.longitude))
  {
    ToDmsAsWrittenMirror(loc.latitude);
  }

  /** Mirroring an eastern longitude across the prime meridian changes only its letter,
      from E to W, as long as the longitude is in the unsaturated range. */
  lemma AsDmsMirrorLongitude(loc: Location)
    requires Greater(loc.longitude, 0.0) && Unsaturated(loc.longitude)
    ensures var lat, lon := ToDmsAsWritten(loc.latitude), ToDmsAsWritten(loc.longitude);
      && AsDms(loc) == Render(lat, NorthSouth(loc.latitude), lon, 'E')
      && AsDms(loc.(longitude := Negate(loc.longitude))) == Render(lat, NorthSouth(loc.latitude), lon, 'W')
  {
    ToDmsAsWrittenMirror(loc.longitude);
  }

  /** Beyond that range the mirror fails as written: 600000 east and 600000 west print
      different seconds, so the two renderings differ in more than the letter. */
  lemma AsDmsMirrorFailsSaturated()
    ensures var east := Location(Some(0.0), Some(600000.0));
      var west := east.(longitude := Negate(east.longitude));
      ToDmsAsWritten(west.longitude) != ToDmsAsWritten(east.longitude)
  {
    ToDmsAsWrittenCounterexample();
  }

  /** With the corrected rendering, mirroring either coordinate changes only its letter,
      whatever its magnitude. */
  lemma AsDmsCorrectedMirror(loc: Location)
    ensures var lat, lon := ToDms(loc.latitude), ToDms(loc.longitude);
      && AsDmsCorrected(loc.(latitude := Negate(loc.latitude))) ==
           Render(lat, NorthSouth(Negate(loc.latitude)), lon, EastWest(loc.longitude))
      && AsDmsCorrected(loc.(longitude := Negate(loc.longitude))) ==
           Render(lat, NorthSouth(loc.latitude), lon, EastWest(Negate(loc.longitude)))
  {
    ToDmsSymmetric(loc.latitude);
    ToDmsSymmetric(loc.longitude);
  }
}
