/** What the two sentence decoders share: positional access to the comma-separated
    fields, the float field reader with its empty-means-unknown rule, and the library
    parsers they call, which are parameters of the model. */
module Fields {
  import opened Outcomes
  import opened JavaInt
  import opened JavaString
  import opened Floats

  /** A java.util.Date: milliseconds since the epoch. */
  datatype Instant = Instant(millis: int)

  /** The library parsers the decoders call. `float` is Float.parseFloat and `time` is
      SimpleDateFormat("HHmmss") in GMT; `None` is the exception each raises
      (NumberFormatException, ParseException). */
  datatype Parsers = Parsers(float: string -> Option<Float>, time: string -> Option<Instant>)

  /** `args[i]`: raises when the split produced fewer than i + 1 fields. */
  function Field(args: seq<string>, i: nat): (r: Result<string, Exception>)
    ensures r.Success? <==> i < |args|
    ensures r.Success? ==> r.value == args[i]
    ensures r.Failure? ==> r.error == IndexOutOfBounds
  {
    if i < |args| then Success(args[i]) else Failure(IndexOutOfBounds)
  }

  /** The private `getFloat` of both decoders: an empty field is NaN, anything else goes
      to Float.parseFloat and raises if that does. */
  function GetFloat(p: Parsers, s: string): (r: Result<Float, Exception>)
    ensures s == [] ==> r == Success(NaN)
    ensures s != [] ==> (r.Success? <==> p.float(s).Some?)
    ensures s != [] && r.Success? ==> r.value == p.float(s).value
    ensures r.Failure? ==> r.error == NumberFormat
  {
    if s == [] then Success(NaN)
    else
      match p.float(s)
      case None => Failure(NumberFormat)
      case Some(f) => Success(f)
  }

  function Pow10(k: nat): (r: nat)
    ensures r >= 1
  {
    if k == 0 then 1 else 10 * Pow10(k - 1)
  }

  /** A stand-in for Float.parseFloat on plain decimal text: an optional sign, digits,
      and at most one point, with at least one digit. It never yields NaN. */
  function DecimalFloat(s: string): (r: Option<Float>)
    ensures r.Some? ==> r.value.Some?
    ensures s == [] ==> r.None?
  {
    if s == [] then None
    else
      var body := if s[0] == '-' || s[0] == '+' then s[1..] else s;
      var dot := IndexOf(body, '.');
      var whole := if dot < 0 then body else body[..dot];
      var fraction := if dot < 0 then [] else body[dot + 1..];
      if (whole == [] && fraction == []) || !AllDigits(whole, 10) || !AllDigits(fraction, 10) then None
      else
        var v := DigitsValue(whole, 10) as real + DigitsValue(fraction, 10) as real / Pow10(|fraction|) as real;
        Some(Some(if s[0] == '-' then -v else v))
  }
}
