/** Line framing in the GPS reader loop. Each poll appends what the serial port has to
    the text left over from the previous poll, cuts the result at newlines with a
    StringTokenizer that returns the delimiters too, hands every line that a newline
    ends to `consume`, and keeps the unterminated tail for the next poll. */
module Framing {
  import opened JavaString

  const Newline: char := '\n'

  /** The longest prefix of `s` without a newline. */
  function TextRun(s: string): (r: string)
    ensures |r| <= |s| && r == s[..|r|] && Newline !in r
    ensures |r| == |s| || s[|r|] == Newline
  {
    if s == [] || s[0] == Newline then []
    else
      var r := TextRun(s[1..]);
      assert [s[0]] + r == s[..|r| + 1];
      [s[0]] + r
  }

  function Concat(ts: seq<string>): string {
    if ts == [] then [] else ts[0] + Concat(ts[1..])
  }

  /** A token of `new StringTokenizer(str, "\n", true)`: a lone newline, or a maximal
      non-empty run of other characters. */
  predicate IsToken(t: string) {
    t == [Newline] || (t != [] && Newline !in t)
  }

  /** The tokens of `new StringTokenizer(str, "\n", true)`, in order. Together they spell
      `s`, and no two text tokens are adjacent. */
  function Tokens(s: string): (ts: seq<string>)
    ensures Concat(ts) == s
    ensures forall i :: 0 <= i < |ts| ==> IsToken(ts[i])
    ensures forall i :: 0 <= i < |ts| - 1 && ts[i] != [Newline] ==> ts[i + 1] == [Newline]
    decreases |s|
  {
    if s == [] then []
    else if s[0] == Newline then
      assert s == [Newline] + s[1..];
      [[Newline]] + Tokens(s[1..])
    else
      var r := TextRun(s);
      assert s == r + s[|r|..];
      [r] + Tokens(s[|r|..])
  }

  /** The lines a poll consumes, in order, and the text it keeps for the next one. */
  datatype Framed = Framed(lines: seq<string>, rest: string)

  /** `consume` one more line ahead of a framing. Empty lines are never consumed. */
  function Cons(line: string, f: Framed): Framed {
    if line == [] then f else Framed([line] + f.lines, f.rest)
  }

  /** The token loop of the reader, from a suffix of the token list on: newline tokens
      are skipped; a text token with a token after it is consumed; a final text token
      is kept. */
  function Drain(ts: seq<string>): Framed
    decreases |ts|
  {
    if ts == [] then Framed([], [])
    else if ts[0] == [Newline] then Drain(ts[1..])
    else if |ts| > 1 then Framed([ts[0]] + Drain(ts[1..]).lines, Drain(ts[1..]).rest)
    else Framed([], ts[0])
  }

  /** The non-empty strings of a sequence, in order. */
  function NonEmpty(ps: seq<string>): (r: seq<string>)
    ensures forall i :: 0 <= i < |r| ==> r[i] != [] && r[i] in ps
  {
    if ps == [] then []
    else if ps[0] == [] then NonEmpty(ps[1..])
    else [ps[0]] + NonEmpty(ps[1..])
  }

  /** The framing of a text, stated without tokens: cut it at every newline; every
      piece but the last that is not empty is a line, and the last piece is kept. */
  function Frame(s: string): (f: Framed)
    ensures forall i :: 0 <= i < |f.lines| ==> f.lines[i] != [] && Newline !in f.lines[i]
    ensures Newline !in f.rest
    ensures Newline !in s ==> f == Framed([], s)
  {
    var ps := Pieces(s, Newline);
    if Newline !in s then
      PiecesOfFree(s, Newline);
      Framed([], s)
    else
      Framed(NonEmpty(ps[..|ps| - 1]), ps[|ps| - 1])
  }

  /** Input that ends with a newline leaves nothing to keep. */
  lemma {:induction false} FrameEndsWithNewline(s: string)
    requires s != [] && s[|s| - 1] == Newline
    ensures Frame(s).rest == []
    decreases |s|
  {
    var t := s[..|s| - 1];
    assert s == t + [Newline] + [];
    if Newline in t {
      var x := TextRun(t);
      var y := t[|x| + 1..];
      assert s == x + [Newline] + (y + [Newline]);
      FrameLine(x, y + [Newline]);
      FrameEndsWithNewline(y + [Newline]);
    } else {
      FrameLine(t, []);
    }
  }

  /** A newline in front of a text adds nothing to its framing. */
  lemma FrameNewline(y: string)
    ensures Frame([Newline] + y) == Frame(y)
  {
    var s := [Newline] + y;
    PiecesOfDelimited([], Newline, y);
    assert [] + [Newline] + y == s;
    var ps := Pieces(y, Newline);
    var qs := Pieces(s, Newline);
    assert qs == [[]] + ps;
    assert qs[..|qs| - 1] == [[]] + ps[..|ps| - 1];
    assert NonEmpty(qs[..|qs| - 1]) == NonEmpty(ps[..|ps| - 1]) by {
      assert ([[]] + ps[..|ps| - 1])[1..] == ps[..|ps| - 1];
    }
    if Newline !in y {
      PiecesOfFree(y, Newline);
    }
  }

  /** A newline-terminated line in front of a text is consumed ahead of its framing. */
  lemma FrameLine(x: string, y: string)
    requires Newline !in x
    ensures Frame(x + [Newline] + y) == Cons(x, Frame(y))
  {
    var s := x + [Newline] + y;
    PiecesOfDelimited(x, Newline, y);
    var ps := Pieces(y, Newline);
    var qs := Pieces(s, Newline);
    assert qs == [x] + ps;
    assert qs[..|qs| - 1] == [x] + ps[..|ps| - 1];
    assert NonEmpty(qs[..|qs| - 1]) == Cons(x, Framed(NonEmpty(ps[..|ps| - 1]), [])).lines by {
      assert ([x] + ps[..|ps| - 1])[1..] == ps[..|ps| - 1];
    }
    assert s[|x|] == Newline;
    if Newline !in y {
      PiecesOfFree(y, Newline);
    }
  }

  /** The token loop frames its input exactly as `Frame` does. */
  lemma {:induction false} DrainTokens(s: string)
    ensures Drain(Tokens(s)) == Frame(s)
    decreases |s|
  {
    if s == [] {
    } else if s[0] == Newline {
      DrainTokens(s[1..]);
      FrameNewline(s[1..]);
      assert [Newline] + s[1..] == s;
    } else {
      var r := TextRun(s);
      var y := s[|r|..];
      if y == [] {
        assert r == s;
      } else {
        DrainTokens(y[1..]);
        FrameLine(r, y[1..]);
        assert s == r + [Newline] + y[1..];
        assert Tokens(y) == [[Newline]] + Tokens(y[1..]);
      }
    }
  }

  /** What the serial port yields in one poll: the characters it had, or an I/O error. */
  datatype ReadResult = Read(chunk: string) | ReadFailed

  /** The text a poll tokenizes: the kept text followed by the new characters; nothing at
      all when the read fails, which also loses the kept text. */
  function PollText(carry: string, read: ReadResult): (s: string)
    ensures read.Read? ==> s == carry + read.chunk
    ensures read.ReadFailed? ==> s == []
  {
    match read
    case Read(chunk) => carry + chunk
    case ReadFailed => []
  }

  /** One pass of the reader loop's body over its token list, as written: skip
      newline tokens while more tokens follow; consume the token in hand if another
      follows it; otherwise keep it unless it is a newline. The consumed lines and the
      kept text are those of `Frame`. */
  method PollStep(carry: string, read: ReadResult) returns (consumed: seq<string>, kept: string)
    ensures Framed(consumed, kept) == Frame(PollText(carry, read))
    ensures read.ReadFailed? ==> consumed == [] && kept == []
  {
    var str := PollText(carry, read);
    var builder: string := [];
    var st := Tokens(str);
    var i := 0;
    consumed := [];
    while i < |st|
      invariant 0 <= i <= |st|
      invariant Drain(st) == Framed(consumed + Drain(st[i..]).lines, builder + Drain(st[i..]).rest)
      invariant i < |st| ==> builder == []
      decreases |st| - i
    {
      ghost var start := i;
      var dataLine := st[i];
      i := i + 1;
      assert [dataLine] + st[i..] == st[start..];
      while dataLine == [Newline] && i < |st|
        invariant start < i <= |st|
        invariant Drain([dataLine] + st[i..]) == Drain(st[start..])
      {
        assert st[i..] == [st[i]] + st[i + 1..];
        dataLine := st[i];
        i := i + 1;
      }
      DrainHead(dataLine, st[i..]);
      if i < |st| {
        consumed := consumed + [dataLine];
      } else if dataLine != [Newline] {
        builder := builder + dataLine;
      }
    }
    kept := builder;
    DrainTokens(str);
  }

  /** One step of the token loop: a token with more after it is consumed unless it is a
      newline; a last token is kept unless it is a newline. */
  lemma DrainHead(t: string, rest: seq<string>)
    requires t != [Newline] || rest == []
    ensures rest != [] ==> Drain([t] + rest) == Framed([t] + Drain(rest).lines, Drain(rest).rest)
    ensures rest == [] ==> Drain([t]) == if t == [Newline] then Framed([], []) else Framed([], t)
  {
    assert ([t] + rest)[1..] == rest;
  }

  /** Lines glued back together, each ended by a newline. */
  function Terminated(lines: seq<string>): string {
    if lines == [] then [] else lines[0] + [Newline] + Terminated(lines[1..])
  }

  /** Round trip: framing newline-terminated non-empty lines followed by an unterminated
      tail gives back exactly those lines and that tail. */
  lemma {:induction false} FrameTerminated(lines: seq<string>, rest: string)
    requires forall i :: 0 <= i < |lines| ==> lines[i] != [] && Newline !in lines[i]
    requires Newline !in rest
    ensures Frame(Terminated(lines) + rest) == Framed(lines, rest)
    decreases |lines|
  {
    if lines != [] {
      FrameTerminated(lines[1..], rest);
      FrameLine(lines[0], Terminated(lines[1..]) + rest);
      assert Terminated(lines) + rest == lines[0] + [Newline] + (Terminated(lines[1..]) + rest);
      assert [lines[0]] + lines[1..] == lines;
    }
  }

  /** Consuming one more line keeps a carry relation between two framings. */
  lemma CarryCons(x: string, f: Framed, g: Framed, next: Framed)
    requires f.lines + next.lines == g.lines && next.rest == g.rest
    ensures Cons(x, f).lines + next.lines == Cons(x, g).lines && next.rest == Cons(x, g).rest
  {
    if x != [] {
      assert ([x] + f.lines) + next.lines == [x] + (f.lines + next.lines);
    }
  }

  /** The carry makes framing independent of how the input is cut into chunks: framing
      `a` and then framing what it kept followed by `b` consumes the same lines, and
      keeps the same text, as framing `a + b` at once. */
  lemma {:induction false} FrameCarry(a: string, b: string)
    ensures Frame(a).lines + Frame(Frame(a).rest + b).lines == Frame(a + b).lines
    ensures Frame(Frame(a).rest + b).rest == Frame(a + b).rest
    decreases |a|
  {
    if Newline in a {
      var x := TextRun(a);
      var y := a[|x| + 1..];
      assert a == x + [Newline] + y;
      assert a + b == x + [Newline] + (y + b);
      FrameLine(x, y);
      FrameLine(x, y + b);
      FrameCarry(y, b);
      CarryCons(x, Frame(y), Frame(y + b), Frame(Frame(y).rest + b));
    }
  }
}
