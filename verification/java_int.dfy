/** Java's 32-bit `int` as the decoders use it: Integer.parseInt in radix 10 and 16,
    the truncating `%` operator, Math.abs with its overflow at the minimum value, and
    the decimal text that `%d` prints. */
module JavaInt {
  import opened Outcomes

  const MinInt: int := -0x8000_0000
  const MaxInt: int := 0x7FFF_FFFF

  predicate InRange(x: int) {
    MinInt <= x <= MaxInt
  }

  /** Two's-complement wrap-around of an unbounded integer into the `int` range. */
  function Wrap(x: int): (r: int)
    ensures InRange(r)
    ensures (r - x) % 0x1_0000_0000 == 0
  {
    (x - MinInt) % 0x1_0000_0000 + MinInt
  }

  /** Character.digit(c, radix) for ASCII input: the digit's value, or -1. */
  function Digit(c: char, radix: nat): (d: int)
    requires 2 <= radix <= 36
    ensures -1 <= d < radix as int
  {
    var v :=
      if '0' <= c <= '9' then c as int - '0' as int
      else if 'a' <= c <= 'z' then c as int - 'a' as int + 10
      else if 'A' <= c <= 'Z' then c as int - 'A' as int + 10
      else -1;
    if v < radix then v else -1
  }

  predicate AllDigits(s: string, radix: nat)
    requires 2 <= radix <= 36
  {
    forall i :: 0 <= i < |s| ==> Digit(s[i], radix) >= 0
  }

  /** A product of naturals, named so that its sign needs no nonlinear reasoning. */
  function MulNat(a: nat, b: nat): (r: nat) {
    a * b
  }

  /** The value of a digit string, most significant digit first. */
  function DigitsValue(s: string, radix: nat): nat
    requires 2 <= radix <= 36
    requires AllDigits(s, radix)
  {
    if s == [] then 0
    else
      var init := s[..|s| - 1];
      assert forall i :: 0 <= i < |init| ==> init[i] == s[i];
      var last := Digit(s[|s| - 1], radix);
      assert last >= 0;
      MulNat(DigitsValue(init, radix), radix) + last
  }

  /** Integer.parseInt(s, radix); None stands for NumberFormatException. One optional
      sign, then at least one digit, and the value must fit in an `int`. */
  function ParseInt(s: string, radix: nat): (r: Option<int>)
    requires 2 <= radix <= 36
    ensures r.Some? ==> InRange(r.value)
    ensures s == [] || s == "-" || s == "+" ==> r == None
    ensures r.Some? && s[0] != '-' ==> r.value >= 0
  {
    if s == [] then None
    else
      var digits := if s[0] == '-' || s[0] == '+' then s[1..] else s;
      if digits == [] || !AllDigits(digits, radix) then None
      else
        var magnitude: int := DigitsValue(digits, radix);
        var v: int := if s[0] == '-' then -magnitude else magnitude;
        if InRange(v) then Some(v) else None
  }

  /** The uppercase digit character for a value below the radix. */
  function DigitChar(d: nat, radix: nat): (c: char)
    requires 2 <= radix <= 36 && d < radix
    ensures Digit(c, radix) == d
  {
    if d < 10 then ('0' as int + d) as char else ('A' as int + d - 10) as char
  }

  /** The shortest digit string for `n` (Integer.toString(n, radix) for n >= 0). */
  function DigitsText(n: nat, radix: nat): (s: string)
    requires radix == 10 || radix == 16
    ensures s != [] && AllDigits(s, radix)
    ensures s[0] != '-' && s[0] != '+'
    decreases n
  {
    if n < radix then [DigitChar(n, radix)]
    else DigitsText(n / radix, radix) + [DigitChar(n % radix, radix)]
  }

  /** The digit text of `n` reads back as `n`, in the two radixes the model parses. */
  lemma DigitsTextValue(n: nat, radix: nat)
    requires radix == 10 || radix == 16
    ensures DigitsValue(DigitsText(n, radix), radix) == n
  {
    if radix == 10 {
      DecimalTextValue(n);
    } else {
      HexTextValue(n);
    }
  }

  lemma {:induction false} DecimalTextValue(n: nat)
    ensures DigitsValue(DigitsText(n, 10), 10) == n
    decreases n
  {
    if n >= 10 {
      DecimalTextValue(n / 10);
      var s := DigitsText(n, 10);
      assert s[..|s| - 1] == DigitsText(n / 10, 10);
    }
  }

  lemma {:induction false} HexTextValue(n: nat)
    ensures DigitsValue(DigitsText(n, 16), 16) == n
    decreases n
  {
    if n >= 16 {
      HexTextValue(n / 16);
      var s := DigitsText(n, 16);
      assert s[..|s| - 1] == DigitsText(n / 16, 16);
    }
  }

  /** The decimal text of an `int`, as `%d` and Integer.toString print it. */
  function IntText(x: int): string {
    if x < 0 then "-" + DigitsText(-x, 10) else DigitsText(x, 10)
  }

  /** Integer.toString prints only a sign and digits, so no other character occurs in it. */
  lemma IntTextFree(x: int, c: char)
    requires Digit(c, 10) < 0 && c != '-'
    ensures c !in IntText(x)
  {
    var s := IntText(x);
    var digits := if x < 0 then DigitsText(-x, 10) else DigitsText(x, 10);
    assert c !in digits;
    assert s == (if x < 0 then "-" else "") + digits;
  }

  /** Integer.parseInt reads back what Integer.toString prints, for every `int`. */
  lemma IntTextRoundTrip(x: int)
    requires InRange(x)
    ensures ParseInt(IntText(x), 10) == Some(x)
  {
    var s := IntText(x);
    if x < 0 {
      var digits := DigitsText(-x, 10);
      assert s[0] == '-' && s[1..] == digits;
      DigitsTextValue(-x, 10);
      assert DigitsValue(digits, 10) == -x;
    } else {
      DigitsTextValue(x, 10);
    }
  }

  /** Integer.parseInt(s, 16) reads back Integer.toHexString (uppercase) of a
      non-negative `int`. */
  lemma HexTextRoundTrip(n: nat)
    requires n <= MaxInt
    ensures ParseInt(DigitsText(n, 16), 16) == Some(n)
  {
    DigitsTextValue(n, 16);
  }

  /** Java's `%` on `int` for a positive divisor: the remainder of division truncated
      toward zero, so it takes the sign of the dividend. */
  function Rem(a: int, b: int): (r: int)
    requires b > 0
    ensures -b < r < b
    ensures a >= 0 ==> r >= 0
    ensures a <= 0 ==> r <= 0
  {
    if a >= 0 then a % b else -((-a) % b)
  }

  /** Math.abs(int): the magnitude, except that the minimum value is its own negation. */
  function Abs(x: int): (r: int)
    requires InRange(x)
    ensures InRange(r)
    ensures x != MinInt ==> r >= 0 && (r == x || r == -x)
    ensures x == MinInt ==> r == MinInt
  {
    if x >= 0 then x else Wrap(-x)
  }
}
