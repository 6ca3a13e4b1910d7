/** NMEA 0183 sentence checksums as GPS.hasValidCheckSum checks them: the XOR of every
    character strictly between the leading `$` and the first `*`, compared with the
    hexadecimal number after that `*`. */
module Checksum {
  import opened Outcomes
  import opened JavaString
  import opened JavaInt

  /** A character's code. */
  function Code(c: char): nat {
    c as int
  }

  /** Bitwise exclusive or of two naturals, one binary digit at a time. */
  function BitXor(a: nat, b: nat): nat
    decreases a + b
  {
    if a == 0 && b == 0 then 0
    else 2 * BitXor(a / 2, b / 2) + (if a % 2 == b % 2 then 0 else 1)
  }

  lemma {:induction false} BitXorZero(a: nat)
    ensures BitXor(a, 0) == a
    decreases a
  {
    if a != 0 {
      BitXorZero(a / 2);
    }
  }

  lemma {:induction false} BitXorSelf(a: nat)
    ensures BitXor(a, a) == 0
    decreases a
  {
    if a != 0 {
      BitXorSelf(a / 2);
    }
  }

  lemma {:induction false} BitXorAssoc(a: nat, b: nat, c: nat)
    ensures BitXor(BitXor(a, b), c) == BitXor(a, BitXor(b, c))
    decreases a + b + c
  {
    if a + b + c != 0 {
      var ab, bc := BitXor(a, b), BitXor(b, c);
      assert ab / 2 == BitXor(a / 2, b / 2);
      assert bc / 2 == BitXor(b / 2, c / 2);
      BitXorAssoc(a / 2, b / 2, c / 2);
    }
  }

  function Pow2(k: nat): nat {
    if k == 0 then 1 else 2 * Pow2(k - 1)
  }

  lemma {:induction false} BitXorBound(a: nat, b: nat, k: nat)
    requires a < Pow2(k) && b < Pow2(k)
    ensures BitXor(a, b) < Pow2(k)
    decreases k
  {
    if a + b != 0 {
      BitXorBound(a / 2, b / 2, k - 1);
    }
  }
  lemma {:induction false} BitXorZeroLeft(b: nat)
    ensures BitXor(0, b) == b
    decreases b
  {
    if b != 0 {
      BitXorZeroLeft(b / 2);
    }
  }

  /** Exclusive or with the same value on both sides cancels. */
  lemma BitXorCancel(a: nat, b: nat, w: nat, z: nat)
    requires BitXor(BitXor(a, w), b) == BitXor(BitXor(a, z), b)
    ensures w == z
  {
    BitXorAssoc(BitXor(a, w), b, b);
    BitXorAssoc(BitXor(a, z), b, b);
    BitXorSelf(b);
    BitXorZero(BitXor(a, w));
    BitXorZero(BitXor(a, z));
    BitXorAssoc(a, a, w);
    BitXorAssoc(a, a, z);
    BitXorSelf(a);
    BitXorZeroLeft(w);
    BitXorZeroLeft(z);
  }

  /** The running `checksum ^ chk.charAt(i)` over a string, left to right. Code points
      take at most 21 bits, and so does their exclusive or, so the `int` accumulator
      never overflows. */
  function Xor(s: string): (x: nat)
    ensures x < 0x20_0000
  {
    if s == [] then 0
    else
      var init := Xor(s[..|s| - 1]);
      Pow2Of21();
      BitXorBound(init, Code(s[|s| - 1]), 21);
      BitXor(init, Code(s[|s| - 1]))
  }

  lemma {:induction false} XorAppend(x: string, y: string)
    ensures Xor(x + y) == BitXor(Xor(x), Xor(y))
    decreases |y|
  {
    if y == [] {
      assert x + y == x;
      BitXorZero(Xor(x));
    } else {
      var y' := y[..|y| - 1];
      assert (x + y)[..|x + y| - 1] == x + y';
      XorAppend(x, y');
      BitXorAssoc(Xor(x), Xor(y'), Code(y[|y| - 1]));
    }
  }

  lemma Pow2Of21()
    ensures Pow2(21) == 0x20_0000
  {
    assert Pow2(7) == 128;
    assert Pow2(14) == 128 * 128;
  }

  /** GPS.hasValidCheckSum. A line that does not start with `$` or has no `*` is not
      valid. Otherwise the trimmed text after the first `*` is parsed as hexadecimal,
      which raises when it is empty or not a number, and the line is valid exactly when
      that number is the XOR of the characters between `$` and the first `*`. */
  function HasValidCheckSum(data: string): (r: Result<bool, Exception>)
    ensures data == [] || data[0] != '$' ==> r == Success(false)
    ensures '*' !in data ==> r == Success(false)
    ensures r.Failure? ==> r.error == NumberFormat
    ensures data != [] && data[0] == '$' && '*' in data ==>
      var k := IndexOf(data, '*');
      var suffix := Trim(data[k + 1..]);
      && (suffix == [] ==> r.Failure?)
      && (r.Failure? <==> ParseInt(suffix, 16).None?)
      && (r == Success(true) <==> ParseInt(suffix, 16) == Some(Xor(data[1..k])))
  {
    if !(data != [] && data[0] == '$') then Success(false)
    else
      var star := IndexOf(data, '*');
      if star <= 0 || star >= |data| then Success(false)
      else
        var chk := data[1..star];
        var checksumText := data[star + 1..];
        match ParseInt(Trim(checksumText), 16)
        case None => Failure(NumberFormat)
        case Some(valid) => Success(Xor(chk) == valid)
  }

  /** The checksum text a sender appends: uppercase hexadecimal, at least two digits. */
  function ChecksumText(x: nat): (s: string)
    ensures |s| >= 2
    ensures forall i :: 0 <= i < |s| ==> !IsTrimmable(s[i])
  {
    var digits := DigitsText(x, 16);
    if x < 16 then "0" + digits else digits
  }

  lemma {:induction false} LeadingZero(t: string)
    requires AllDigits(t, 16)
    ensures AllDigits("0" + t, 16)
    ensures DigitsValue("0" + t, 16) == DigitsValue(t, 16)
    decreases |t|
  {
    if t != [] {
      var t' := t[..|t| - 1];
      assert ("0" + t)[..|t|] == "0" + t';
      LeadingZero(t');
    }
  }

  lemma ChecksumTextValue(x: nat)
    requires x <= MaxInt
    ensures ParseInt(ChecksumText(x), 16) == Some(x)
  {
    var digits := DigitsText(x, 16);
    HexTextRoundTrip(x);
    if x < 16 {
      LeadingZero(digits);
      DigitsTextValue(x, 16);
      assert ChecksumText(x)[0] == '0';
    }
  }

  /** A sentence body framed as a sender frames it: `$`, the body, `*`, the checksum. */
  function Seal(body: string): string {
    "$" + body + "*" + ChecksumText(Xor(body))
  }

  lemma IndexOfFirst(a: string, c: char, b: string)
    requires c !in a
    ensures IndexOf(a + [c] + b, c) == |a|
  {
    var s := a + [c] + b;
    assert s[|a|] == c;
    assert s[..|a|] == a;
  }

  /** The verdict on a line `$chk*rest` whose span holds no `*`. */
  lemma Verdict(chk: string, rest: string)
    requires '*' !in chk
    ensures var data := "$" + chk + "*" + rest;
      HasValidCheckSum(data) ==
        match ParseInt(Trim(rest), 16)
        case None => Failure(NumberFormat)
        case Some(v) => Success(Xor(chk) == v)
  {
    var data := "$" + chk + "*" + rest;
    assert data == ("$" + chk) + ['*'] + rest;
    assert '*' !in "$" + chk;
    IndexOfFirst("$" + chk, '*', rest);
    assert data[1..|chk| + 1] == chk;
    assert data[|chk| + 2..] == rest;
  }

  /** The checksum text reads back as its value, whatever white space follows it. */
  lemma ChecksumTextTrailing(x: nat, tail: string)
    requires x <= MaxInt
    requires forall i :: 0 <= i < |tail| ==> IsTrimmable(tail[i])
    ensures ParseInt(Trim(ChecksumText(x) + tail), 16) == Some(x)
  {
    ChecksumTextValue(x);
    TrimDropsTrailing(ChecksumText(x), tail);
  }

  /** Round trip: every sealed body is valid, with or without a trailing carriage return
      or other trailing white space, as long as the body holds no `*`. */
  lemma SealIsValid(body: string, tail: string)
    requires '*' !in body
    requires forall i :: 0 <= i < |tail| ==> IsTrimmable(tail[i])
    ensures HasValidCheckSum(Seal(body) + tail) == Success(true)
  {
    var hex := ChecksumText(Xor(body));
    ChecksumTextTrailing(Xor(body), tail);
    Verdict(body, hex + tail);
    Regroup("$", body, "*", hex, tail);
  }

  lemma Regroup(a: string, b: string, c: string, d: string, e: string)
    ensures a + b + c + d + e == a + b + c + (d + e)
  {
  }

  /** Substituting one character changes the XOR of a string. */
  lemma XorSubstitute(u: string, x: char, y: char, v: string)
    requires x != y
    ensures Xor(u + [x] + v) != Xor(u + [y] + v)
  {
    XorAppend(u + [x], v);
    XorAppend(u + [y], v);
    assert (u + [x])[..|u|] == u && (u + [y])[..|u|] == u;
    if Xor(u + [x] + v) == Xor(u + [y] + v) {
      BitXorCancel(Xor(u), Xor(v), Code(x), Code(y));
    }
  }

  /** Changing one character between `$` and the first `*` to any other character
      except `*` turns a valid line into an invalid one: XOR detects every single
      substitution. */
  lemma MutationInvalidates(u: string, x: char, v: string, rest: string, y: char)
    requires '*' !in u && '*' !in v && x != '*' && y != '*'
    requires x != y
    requires HasValidCheckSum("$" + (u + [x] + v) + "*" + rest) == Success(true)
    ensures HasValidCheckSum("$" + (u + [y] + v) + "*" + rest) == Success(false)
  {
    Verdict(u + [x] + v, rest);
    Verdict(u + [y] + v, rest);
    XorSubstitute(u, x, y, v);
  }
}
