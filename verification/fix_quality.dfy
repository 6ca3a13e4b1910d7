/** The GGA fix-quality code: nine constants in declaration order, looked up by ordinal,
    with INVALID for every code that names none of them. */
module FixQualities {

  datatype FixQuality = Invalid | Gps | Dgps | Pps | Rtk | FloatRtk | Estimated | Manual | Simulation

  /** The order `values()` returns, which is declaration order. */
  const Values: seq<FixQuality> :=
    [Invalid, Gps, Dgps, Pps, Rtk, FloatRtk, Estimated, Manual, Simulation]

  function Ordinal(q: FixQuality): (n: nat)
    ensures n < |Values| && Values[n] == q
  {
    match q
    case Invalid => 0
    case Gps => 1
    case Dgps => 2
    case Pps => 3
    case Rtk => 4
    case FloatRtk => 5
    case Estimated => 6
    case Manual => 7
    case Simulation => 8
  }

  /** The loop of `getFixQuality` from position `i` on: the first constant whose ordinal
      is `code`, or INVALID after the loop. */
  function Search(code: int, i: nat): (q: FixQuality)
    requires i <= |Values|
    ensures i <= code < |Values| ==> Ordinal(q) == code
    ensures !(i <= code < |Values|) ==> q == Invalid
    decreases |Values| - i
  {
    if i == |Values| then Invalid
    else if Ordinal(Values[i]) == code then Values[i]
    else Search(code, i + 1)
  }

  /** FixQuality.getFixQuality: the constant with ordinal `code` for 0..8, INVALID for
      any other code. */
  function FromCode(code: int): (q: FixQuality)
    ensures 0 <= code < |Values| ==> Ordinal(q) == code
    ensures code < 0 || code >= |Values| ==> q == Invalid
  {
    Search(code, 0)
  }

  /** Looking a constant up by its own ordinal gives it back. */
  lemma FromCodeOrdinal(q: FixQuality)
    ensures FromCode(Ordinal(q)) == q
  {
    var n := Ordinal(q);
    assert Ordinal(FromCode(n)) == n;
    assert Values[n] == q;
  }
}
