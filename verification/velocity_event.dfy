/** The VTG ("track made good and ground speed") decoder of VelocityEvent: three float
    fields, all NaN unless the sentence splits into at least eight fields. */
module VelocityEvents {
  import opened Outcomes
  import opened JavaString
  import opened Floats
  import opened Fields

  /** Heading in degrees, magnetic heading, and speed over ground in km/h. */
  datatype VelocityFix = VelocityFix(trueTrack: Float, magneticTrack: Float, groundSpeed: Float)

  /** The field initialisers: everything NaN. */
  const Unknown: VelocityFix := VelocityFix(NaN, NaN, NaN)

  /** VelocityEvent.parse on the split fields. With fewer than eight fields nothing is
      read and every value stays NaN; otherwise fields 1, 3 and 7 are read with
      `getFloat`, whose parse errors propagate. */
  function ParseFields(p: Parsers, args: seq<string>): (r: Result<VelocityFix, Exception>)
    ensures |args| < 8 ==> r == Success(Unknown)
    ensures |args| >= 8 ==>
      (r.Success? <==>
        GetFloat(p, args[1]).Success? && GetFloat(p, args[3]).Success? && GetFloat(p, args[7]).Success?)
    ensures |args| >= 8 && r.Success? ==>
      r.value == VelocityFix(GetFloat(p, args[1]).value, GetFloat(p, args[3]).value, GetFloat(p, args[7]).value)
    ensures r.Failure? ==> r.error == NumberFormat
  {
    if |args| >= 8 then
      var trueTrack :- GetFloat(p, args[1]);
      var magneticTrack :- GetFloat(p, args[3]);
      var groundSpeed :- GetFloat(p, args[7]);
      Success(VelocityFix(trueTrack, magneticTrack, groundSpeed))
    else
      Success(Unknown)
  }

  /** The VelocityEvent constructor: `data.split(",")`, then ParseFields. Text without
      a comma is a single field, too short to read. */
  function Parse(p: Parsers, data: string): (r: Result<VelocityFix, Exception>)
    ensures ',' !in data ==> r == Success(Unknown)
    ensures r.Failure? ==> r.error == NumberFormat
  {
    ParseFields(p, Split(data, ','))
  }

  /** Decoding comma-joined fields decodes the fields themselves, less the trailing
      empty ones that `split` drops. */
  lemma ParseJoin(p: Parsers, fields: seq<string>)
    requires |fields| > 0
    requires forall i :: 0 <= i < |fields| ==> ',' !in fields[i]
    ensures Parse(p, Join(fields, ',')) == ParseFields(p, DropTrailingEmpty(fields))
  {
    if |fields| == 1 {
      assert ',' !in Join(fields, ',');
    } else {
      SplitJoin(fields, ',');
    }
  }

  /** Only fields 1, 3 and 7 matter: two field lists of at least eight fields that agree
      on those three decode alike. */
  lemma OnlyTrackAndSpeedFieldsMatter(p: Parsers, args: seq<string>, args': seq<string>)
    requires |args| >= 8 && |args'| >= 8
    requires args[1] == args'[1] && args[3] == args'[3] && args[7] == args'[7]
    ensures ParseFields(p, args) == ParseFields(p, args')
  {
  }

  /** Empty fields decode as unknown rather than failing. */
  lemma EmptyFieldsUnknown(p: Parsers, args: seq<string>)
    requires |args| >= 8 && args[1] == [] && args[3] == [] && args[7] == []
    ensures ParseFields(p, args) == Success(Unknown)
  {
  }

  /** Because `split` drops trailing empty fields, a sentence whose speed fields are
      empty and last keeps none of its values, not even the track it does carry. */
  lemma TrailingEmptySpeedDropsTrack(p: Parsers)
    ensures Parse(p, Join(["$GPVTG", "054.7", "T", "034.4", "M", "", "", "", ""], ',')) == Success(Unknown)
  {
    var fields := ["$GPVTG", "054.7", "T", "034.4", "M", "", "", "", ""];
    SplitJoin(fields, ',');
    assert DropTrailingEmpty(fields) == fields[..5];
  }
}
