/** Java `float` values as the decoders use them. A float is a real number or NaN;
    NaN is the decoders' "unknown" sentinel, so it is `None` here. Rounding to 24-bit
    precision and the two infinities are not modelled. */
module Floats {
  import opened Outcomes
  import opened JavaInt

  type Float = Option<real>

  const NaN: Float := None

  /** `x * -1`; NaN stays NaN. */
  function Negate(f: Float): (r: Float)
    ensures r.None? <==> f.None?
    ensures r.Some? ==> r.value == -f.value
  {
    match f
    case None => None
    case Some(x) => Some(-x)
  }

  /** Math.abs(float); NaN stays NaN. */
  function Magnitude(f: Float): (r: Float)
    ensures r.None? <==> f.None?
    ensures r.Some? ==> r.value >= 0.0 && (r.value == f.value || r.value == -f.value)
  {
    match f
    case None => None
    case Some(x) => Some(if x < 0.0 then -x else x)
  }

  /** `a + b`: NaN if either operand is NaN. */
  function Add(a: Float, b: Float): (r: Float)
    ensures r.None? <==> a.None? || b.None?
    ensures r.Some? ==> r.value == a.value + b.value
  {
    if a.Some? && b.Some? then Some(a.value + b.value) else None
  }

  /** `a * k` for a constant factor: NaN if `a` is NaN. */
  function Scale(a: Float, k: real): (r: Float)
    ensures r.None? <==> a.None?
    ensures r.Some? ==> r.value == a.value * k
  {
    if a.Some? then Some(a.value * k) else None
  }

  /** The comparison `f > x`; every comparison with NaN is false. */
  predicate Greater(f: Float, x: real) {
    f.Some? && f.value > x
  }

  /** The comparison `x >= f`; false when `f` is NaN. */
  predicate AtLeast(x: real, f: Float) {
    f.Some? && x >= f.value
  }

  /** Rounding toward zero. */
  function Trunc(x: real): (t: int)
    ensures x >= 0.0 ==> 0 <= t && t as real <= x < t as real + 1.0
    ensures x < 0.0 ==> t <= 0 && t as real - 1.0 < x <= t as real
  {
    if x >= 0.0 then x.Floor else -((-x).Floor)
  }

  lemma TruncNegate(x: real)
    ensures Trunc(-x) == -Trunc(x)
  {
  }

  /** The narrowing cast `(int) f` of section 5.1.3 of the Java Language Specification:
      NaN becomes 0, other values round toward zero and saturate at the `int` bounds. */
  function ToInt(f: Float): (r: int)
    ensures InRange(r)
    ensures f.None? ==> r == 0
    ensures f.Some? && InRange(Trunc(f.value)) ==> r == Trunc(f.value)
    ensures f.Some? && Trunc(f.value) > MaxInt ==> r == MaxInt
    ensures f.Some? && Trunc(f.value) < MinInt ==> r == MinInt
  {
    match f
    case None => 0
    case Some(x) =>
      var t := Trunc(x);
      if t > MaxInt then MaxInt else if t < MinInt then MinInt else t
  }
}
