/** The dilution-of-precision classifier: six categories in declaration order, each with
    an upper DOP threshold, and `fromDOP`, which returns the first category whose
    threshold is at least the given value and falls back to POOR. */
module AccuracyCategories {
  import opened Outcomes
  import opened Floats

  datatype AccuracyCategory = Ideal | Excellent | Good | Moderate | Fair | Poor

  /** The order `values()` returns, which is declaration order. */
  const Values: seq<AccuracyCategory> := [Ideal, Excellent, Good, Moderate, Fair, Poor]

  function Ordinal(a: AccuracyCategory): (n: nat)
    ensures n < |Values| && Values[n] == a
  {
    match a
    case Ideal => 0
    case Excellent => 1
    case Good => 2
    case Moderate => 3
    case Fair => 4
    case Poor => 5
  }

  /** The `dop` constructor argument of each constant. */
  function Threshold(a: AccuracyCategory): int {
    match a
    case Ideal => 1
    case Excellent => 2
    case Good => 5
    case Moderate => 10
    case Fair => 20
    case Poor => 100
  }

  /** Thresholds grow strictly along the declaration order. */
  lemma ThresholdsIncrease(i: nat, j: nat)
    requires i < j < |Values|
    ensures Threshold(Values[i]) < Threshold(Values[j])
  {
  }

  /** The loop of `fromDOP` from position `i` on: the first constant whose threshold
      satisfies `a.dop >= dop`, or POOR after the loop. */
  function FirstAtLeast(dop: Float, i: nat): (a: AccuracyCategory)
    requires i <= |Values|
    ensures a == Poor || i <= Ordinal(a)
    ensures forall j :: i <= j < |Values| && j < Ordinal(a) ==> !AtLeast(Threshold(Values[j]) as real, dop)
    ensures a != Poor ==> AtLeast(Threshold(a) as real, dop)
    decreases |Values| - i
  {
    if i == |Values| then Poor
    else if AtLeast(Threshold(Values[i]) as real, dop) then Values[i]
    else FirstAtLeast(dop, i + 1)
  }

  /** AccuracyCategory.fromDOP. A known value at most 100 gets the first category whose
      threshold reaches it, every earlier threshold lying below it; a value above 100
      and NaN both fall through to POOR. */
  function FromDop(dop: Float): (a: AccuracyCategory)
    ensures dop.Some? && dop.value <= 100.0 ==>
      dop.value <= Threshold(a) as real &&
      forall b :: Ordinal(b) < Ordinal(a) ==> Threshold(b) as real < dop.value
    ensures dop.Some? && dop.value > 20.0 ==> a == Poor
    ensures dop.None? ==> a == Poor
  {
    FirstAtLeast(dop, 0)
  }

  /** An independent statement of the classifier as a chain of upper bounds. */
  function ByBounds(d: real): AccuracyCategory {
    if d <= 1.0 then Ideal
    else if d <= 2.0 then Excellent
    else if d <= 5.0 then Good
    else if d <= 10.0 then Moderate
    else if d <= 20.0 then Fair
    else Poor
  }

  lemma FromDopByBounds(d: real)
    ensures FromDop(Some(d)) == ByBounds(d)
  {
  }

  /** A larger dilution never yields a better category. */
  lemma FromDopMonotone(d1: real, d2: real)
    requires d1 <= d2
    ensures Ordinal(FromDop(Some(d1))) <= Ordinal(FromDop(Some(d2)))
  {
  }

  /** NaN classifies as the worst category, so it sits above every known value. */
  lemma FromDopNaNIsWorst(d: real)
    ensures Ordinal(FromDop(Some(d))) <= Ordinal(FromDop(NaN))
  {
  }

  lemma FromDopBoundaryTable()
    ensures FromDop(Some(0.5)) == Ideal && FromDop(Some(1.0)) == Ideal
    ensures FromDop(Some(1.5)) == Excellent && FromDop(Some(2.0)) == Excellent
    ensures FromDop(Some(5.0)) == Good
    ensures FromDop(Some(10.0)) == Moderate
    ensures FromDop(Some(20.0)) == Fair
    ensures FromDop(Some(50.0)) == Poor && FromDop(Some(150.0)) == Poor
    ensures FromDop(Some(-3.0)) == Ideal
  {
  }
}
