/** The java.lang.String operations the GPS decoders rely on, with their exact edge
    behaviour: first-occurrence search, bounds-checked substrings, `trim`, and
    `split` with a one-character delimiter (which drops trailing empty fields). */
module JavaString {
  import opened Outcomes

  /** String.indexOf(char): the index of the first occurrence of `c`, or -1. */
  function IndexOf(s: string, c: char): (r: int)
    ensures -1 <= r < |s|
    ensures r == -1 <==> c !in s
    ensures 0 <= r ==> s[r] == c && c !in s[..r]
  {
    if s == [] then -1
    else if s[0] == c then 0
    else
      var k := IndexOf(s[1..], c);
      if k < 0 then -1
      else
        assert s[..k + 1] == [s[0]] + s[1..][..k];
        k + 1
  }

  /** String.substring(begin): raises unless 0 <= begin <= length. */
  function SubstringFrom(s: string, begin: int): (r: Result<string, Exception>)
    ensures r.Success? <==> 0 <= begin <= |s|
    ensures r.Failure? ==> r.error == StringIndexOutOfBounds
  {
    if 0 <= begin <= |s| then Success(s[begin..]) else Failure(StringIndexOutOfBounds)
  }

  /** String.substring(begin, end): raises unless 0 <= begin <= end <= length. */
  function Substring(s: string, begin: int, end: int): (r: Result<string, Exception>)
    ensures r.Success? <==> 0 <= begin <= end <= |s|
    ensures r.Failure? ==> r.error == StringIndexOutOfBounds
  {
    if 0 <= begin <= end <= |s| then Success(s[begin..end]) else Failure(StringIndexOutOfBounds)
  }

  /** String.trim treats every character at or below U+0020 as white space. */
  predicate IsTrimmable(c: char) {
    c <= ' '
  }

  /** Drops the leading trimmable characters. */
  function TrimStart(s: string): (r: string)
    ensures |r| <= |s| && r == s[|s| - |r|..]
    ensures forall k :: 0 <= k < |s| - |r| ==> IsTrimmable(s[k])
    ensures r != [] ==> !IsTrimmable(r[0])
  {
    if s != [] && IsTrimmable(s[0]) then TrimStart(s[1..]) else s
  }

  /** Drops the trailing trimmable characters. */
  function TrimEnd(s: string): (r: string)
    ensures |r| <= |s| && r == s[..|r|]
    ensures forall k :: |r| <= k < |s| ==> IsTrimmable(s[k])
    ensures r != [] ==> !IsTrimmable(r[|r| - 1])
  {
    if s != [] && IsTrimmable(s[|s| - 1]) then TrimEnd(s[..|s| - 1]) else s
  }

  /** String.trim: the longest infix with no trimmable character at either end. */
  function Trim(s: string): (r: string)
    ensures r != [] ==> !IsTrimmable(r[0]) && !IsTrimmable(r[|r| - 1])
    ensures (forall k :: 0 <= k < |s| ==> !IsTrimmable(s[k])) ==> r == s
  {
    TrimEnd(TrimStart(s))
  }

  /** Trailing carriage returns and blanks never survive a trim. */
  lemma TrimDropsTrailing(s: string, tail: string)
    requires forall k :: 0 <= k < |s| ==> !IsTrimmable(s[k])
    requires forall k :: 0 <= k < |tail| ==> IsTrimmable(tail[k])
    ensures Trim(s + tail) == s
  {
    if s == [] {
      assert s + tail == tail;
      TrimStartAllTrimmable(tail);
    } else {
      assert (s + tail)[0] == s[0];
      TrimEndKeeps(s, tail);
    }
  }

  lemma {:induction false} TrimStartAllTrimmable(t: string)
    requires forall k :: 0 <= k < |t| ==> IsTrimmable(t[k])
    ensures TrimStart(t) == []
  {
    if t != [] {
      TrimStartAllTrimmable(t[1..]);
    }
  }

  lemma {:induction false} TrimEndKeeps(s: string, tail: string)
    requires forall k :: 0 <= k < |s| ==> !IsTrimmable(s[k])
    requires forall k :: 0 <= k < |tail| ==> IsTrimmable(tail[k])
    ensures TrimEnd(s + tail) == s
  {
    if tail != [] {
      var t := s + tail;
      assert t[|t| - 1] == tail[|tail| - 1];
      assert t[..|t| - 1] == s + tail[..|tail| - 1];
      TrimEndKeeps(s, tail[..|tail| - 1]);
    } else {
      assert s + tail == s;
    }
  }

  /** Glues pieces back together with the delimiter between consecutive pieces. */
  function Join(ps: seq<string>, d: char): string
    requires |ps| > 0
  {
    if |ps| == 1 then ps[0] else ps[0] + [d] + Join(ps[1..], d)
  }

  /** Every piece of `s` between occurrences of `d`, empty ones included: one more piece
      than there are delimiters. */
  function Pieces(s: string, d: char): (ps: seq<string>)
    ensures |ps| > 0
    ensures forall i :: 0 <= i < |ps| ==> d !in ps[i]
    ensures Join(ps, d) == s
    decreases |s|
  {
    if s == [] then [[]]
    else
      var tail := Pieces(s[1..], d);
      if s[0] == d then
        assert [d] + s[1..] == s;
        [[]] + tail
      else
        var ps := [[s[0]] + tail[0]] + tail[1..];
        assert ps[1..] == tail[1..];
        assert s == [s[0]] + s[1..];
        ps
  }

  lemma {:induction false} PiecesOfFree(x: string, d: char)
    requires d !in x
    ensures Pieces(x, d) == [x]
    decreases |x|
  {
    if x != [] {
      PiecesOfFree(x[1..], d);
      assert [x[0]] + x[1..] == x;
    }
  }

  lemma {:induction false} PiecesOfDelimited(x: string, d: char, y: string)
    requires d !in x
    ensures Pieces(x + [d] + y, d) == [x] + Pieces(y, d)
    decreases |x|
  {
    var s := x + [d] + y;
    if x == [] {
      assert s[1..] == y;
    } else {
      assert s[1..] == x[1..] + [d] + y;
      PiecesOfDelimited(x[1..], d, y);
      assert [x[0]] + x[1..] == x;
    }
  }

  /** Pieces is the inverse of Join on delimiter-free pieces. */
  lemma {:induction false} PiecesOfJoin(ps: seq<string>, d: char)
    requires |ps| > 0
    requires forall i :: 0 <= i < |ps| ==> d !in ps[i]
    ensures Pieces(Join(ps, d), d) == ps
    decreases |ps|
  {
    if |ps| == 1 {
      PiecesOfFree(ps[0], d);
    } else {
      PiecesOfJoin(ps[1..], d);
      PiecesOfDelimited(ps[0], d, Join(ps[1..], d));
      assert [ps[0]] + ps[1..] == ps;
    }
  }

  /** Removes the empty strings at the end of a sequence. */
  function DropTrailingEmpty(ps: seq<string>): (r: seq<string>)
    ensures |r| <= |ps| && r == ps[..|r|]
    ensures forall i :: |r| <= i < |ps| ==> ps[i] == []
    ensures r != [] ==> r[|r| - 1] != []
  {
    if ps == [] || ps[|ps| - 1] != [] then ps else DropTrailingEmpty(ps[..|ps| - 1])
  }

  /** String.split with a one-character, non-regular-expression delimiter and no limit:
      a string without the delimiter splits into itself alone; otherwise the result is
      every piece with the trailing empty ones removed. */
  function Split(s: string, d: char): (r: seq<string>)
    ensures d !in s ==> r == [s]
    ensures d in s ==> |r| <= |Pieces(s, d)| && r == Pieces(s, d)[..|r|]
    ensures d in s ==> forall i :: |r| <= i < |Pieces(s, d)| ==> Pieces(s, d)[i] == []
    ensures d in s && r != [] ==> r[|r| - 1] != []
    ensures forall i :: 0 <= i < |r| ==> d !in r[i]
  {
    if d in s then DropTrailingEmpty(Pieces(s, d)) else [s]
  }

  /** Splitting glued pieces gives them back, less the trailing empty ones. */
  lemma SplitJoin(ps: seq<string>, d: char)
    requires |ps| > 1
    requires forall i :: 0 <= i < |ps| ==> d !in ps[i]
    ensures Split(Join(ps, d), d) == DropTrailingEmpty(ps)
  {
    PiecesOfJoin(ps, d);
    assert Join(ps, d) == ps[0] + [d] + Join(ps[1..], d);
    assert Join(ps, d)[|ps[0]|] == d;
  }
}
