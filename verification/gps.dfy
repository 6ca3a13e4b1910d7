/** The GPS facade: the reader loop's poll, which frames the serial text into lines and
    routes each line by its sentence tag, checksum first, to the position or velocity
    decoder, and hands every decoded event to every listener. */
module Gps {
  import opened Outcomes
  import opened JavaString
  import opened Fields
  import opened Checksum
  import opened Framing
  import opened Listeners
  import opened PositionEvents
  import opened VelocityEvents

  const PositionTag: string := "$GPGGA"
  const VelocityTag: string := "$GPVTG"

  predicate StartsWith(s: string, prefix: string) {
    |prefix| <= |s| && s[..|prefix|] == prefix
  }

  /** The two events the facade delivers. */
  datatype Event = PositionEvt(position: PositionFix) | VelocityEvt(velocity: VelocityFix)

  /** `consume` as written. A line not starting with `$` is ignored. A GGA line is
      checked and, if valid, decoded; otherwise a VTG line is checked and, if valid,
      decoded. The checksum check and the decoders raise, and nothing catches what they
      raise. */
  function ConsumeAsWritten(p: Parsers, line: string): (r: Result<Option<Event>, Exception>)
    ensures !StartsWith(line, "$") ==> r == Success(None)
    ensures HasValidCheckSum(line) == Success(false) ==> r == Success(None)
    ensures r == Success(None) || HasValidCheckSum(line) != Success(false)
    ensures r.Success? && r.value.Some? ==>
      HasValidCheckSum(line) == Success(true) &&
      match r.value.value
      case PositionEvt(fix) => StartsWith(line, PositionTag) && PositionEvents.Parse(p, line) == Success(fix)
      case VelocityEvt(fix) => StartsWith(line, VelocityTag) && VelocityEvents.Parse(p, line) == Success(fix)
  {
    if !StartsWith(line, "$") then Success(None)
    else
      var isPosition :- if StartsWith(line, PositionTag) then HasValidCheckSum(line) else Success(false);
      if isPosition then
        var fix :- PositionEvents.Parse(p, line);
        Success(Some(PositionEvt(fix)))
      else
        var isVelocity :- if StartsWith(line, VelocityTag) then HasValidCheckSum(line) else Success(false);
        if isVelocity then
          var fix :- VelocityEvents.Parse(p, line);
          Success(Some(VelocityEvt(fix)))
        else
          Success(None)
  }

  /** The routing of `consume`, case by case: a checked GGA line goes to the position
      decoder and a checked VTG line to the velocity decoder, whose exceptions pass
      through; a tagged line whose checksum raises raises; any other line yields nothing. */
  lemma Routing(p: Parsers, line: string)
    ensures StartsWith(line, PositionTag) && HasValidCheckSum(line) == Success(true) ==>
      ConsumeAsWritten(p, line) ==
        match PositionEvents.Parse(p, line)
        case Success(fix) => Success(Some(PositionEvt(fix)))
        case Failure(x) => Failure(x)
    ensures StartsWith(line, VelocityTag) && HasValidCheckSum(line) == Success(true) ==>
      ConsumeAsWritten(p, line) ==
        match VelocityEvents.Parse(p, line)
        case Success(fix) => Success(Some(VelocityEvt(fix)))
        case Failure(x) => Failure(x)
    ensures (StartsWith(line, PositionTag) || StartsWith(line, VelocityTag)) && HasValidCheckSum(line).Failure? ==>
      ConsumeAsWritten(p, line) == Failure(NumberFormat)
    ensures !StartsWith(line, PositionTag) && !StartsWith(line, VelocityTag) ==>
      ConsumeAsWritten(p, line) == Success(None)
  {
    if StartsWith(line, PositionTag) {
      TagStartsWithDollar(line, PositionTag);
    } else if StartsWith(line, VelocityTag) {
      TagStartsWithDollar(line, VelocityTag);
    }
  }

  /** Both tags begin with `$`, and no line carries both. */
  lemma TagStartsWithDollar(line: string, tag: string)
    requires tag == PositionTag || tag == VelocityTag
    requires StartsWith(line, tag)
    ensures StartsWith(line, "$")
    ensures tag == VelocityTag ==> !StartsWith(line, PositionTag)
  {
    assert line[0] == tag[0];
    assert line[..1] == "$";
    if tag == VelocityTag {
      assert line[3] == 'V';
    }
  }

  /** `consume` with the reader surviving bad input: a line that raises is dropped like
      any other line that yields no event. */
  function Consume(p: Parsers, line: string): (e: Option<Event>)
    ensures e.Some? <==> ConsumeAsWritten(p, line).Success? && ConsumeAsWritten(p, line).value.Some?
    ensures e.Some? ==> e == ConsumeAsWritten(p, line).value
  {
    match ConsumeAsWritten(p, line)
    case Failure(_) => None
    case Success(e) => e
  }

  /** The decoder the surviving loop hands every framed line to. */
  function Decoder(p: Parsers): string -> Option<Event> {
    line => Consume(p, line)
  }

  /** The events of consecutive lines under a line decoder, in order. */
  function Events<E>(consume: string -> Option<E>, lines: seq<string>): (es: seq<E>)
    ensures |es| <= |lines|
  {
    if lines == [] then []
    else
      var rest := Events(consume, lines[1..]);
      match consume(lines[0])
      case None => rest
      case Some(e) => [e] + rest
  }

  lemma {:induction false} EventsAppend<E>(consume: string -> Option<E>, xs: seq<string>, ys: seq<string>)
    ensures Events(consume, xs + ys) == Events(consume, xs) + Events(consume, ys)
    decreases |xs|
  {
    if xs == [] {
      assert xs + ys == ys;
    } else {
      assert (xs + ys)[1..] == xs[1..] + ys;
      EventsAppend(consume, xs[1..], ys);
    }
  }

  /** The facade between polls: its listeners and the text kept from the last read. */
  datatype Receiver<L> = Receiver(listeners: seq<L>, carry: string)

  /** What one poll delivered, and the receiver after it. */
  datatype Polled<L, E> = Polled(after: Receiver<L>, delivered: seq<Delivery<L, E>>)

  /** One iteration of the reader loop under a line decoder: frame the carried text and
      the new characters, decode every framed line, and deliver each event to every
      listener in order. */
  function Step<L, E>(consume: string -> Option<E>, g: Receiver<L>, read: ReadResult): (r: Polled<L, E>)
    ensures r.after.listeners == g.listeners
    ensures r.after.carry == Frame(PollText(g.carry, read)).rest
    ensures r.delivered == Deliveries(g.listeners, Events(consume, Frame(PollText(g.carry, read)).lines))
  {
    var f := Frame(PollText(g.carry, read));
    Polled(g.(carry := f.rest), Deliveries(g.listeners, Events(consume, f.lines)))
  }

  /** One iteration of the reader loop, with the reader surviving bad lines. */
  function Poll<L>(p: Parsers, g: Receiver<L>, read: ReadResult): (r: Polled<L, Event>)
    ensures r.after.listeners == g.listeners
    ensures read.ReadFailed? ==> r == Polled(g.(carry := []), [])
    ensures Newline !in PollText(g.carry, read) ==> r == Polled(g.(carry := PollText(g.carry, read)), [])
    ensures Newline !in r.after.carry
  {
    Step(Decoder(p), g, read)
  }

  /** Delivering the events of two batches of lines one after the other is delivering
      the events of both at once. */
  lemma DeliveriesOfLines<L, E>(consume: string -> Option<E>, ls: seq<L>, x: seq<string>, y: seq<string>)
    ensures Deliveries(ls, Events(consume, x)) + Deliveries(ls, Events(consume, y)) == Deliveries(ls, Events(consume, x + y))
  {
    EventsAppend(consume, x, y);
    DeliveriesAppend(ls, Events(consume, x), Events(consume, y));
  }

  lemma StepCarry<L, E>(consume: string -> Option<E>, g: Receiver<L>, a: string, b: string)
    ensures Step(consume, Step(consume, g, Read(a)).after, Read(b)).after == Step(consume, g, Read(a + b)).after
  {
    var s := g.carry + a;
    FrameCarry(s, b);
    assert g.carry + (a + b) == s + b;
  }

  lemma StepDeliveries<L, E>(consume: string -> Option<E>, g: Receiver<L>, a: string, b: string)
    ensures var first := Step(consume, g, Read(a));
      first.delivered + Step(consume, first.after, Read(b)).delivered == Step(consume, g, Read(a + b)).delivered
  {
    var s := g.carry + a;
    var first := Step(consume, g, Read(a));
    assert first.after == Receiver(g.listeners, Frame(s).rest);
    assert g.carry + (a + b) == s + b;
    FrameDeliveries(consume, g.listeners, s, b);
  }

  /** The deliveries of framing `s` and then framing what it kept followed by `b` are
      those of framing `s + b`. */
  lemma FrameDeliveries<L, E>(consume: string -> Option<E>, ls: seq<L>, s: string, b: string)
    ensures Deliveries(ls, Events(consume, Frame(s).lines)) + Deliveries(ls, Events(consume, Frame(Frame(s).rest + b).lines))
      == Deliveries(ls, Events(consume, Frame(s + b).lines))
  {
    var f1 := Frame(s);
    var f2 := Frame(f1.rest + b);
    FrameCarry(s, b);
    assert Frame(s + b).lines == f1.lines + f2.lines;
    DeliveriesOfLines(consume, ls, f1.lines, f2.lines);
  }

  /** Two polls deliver what one poll of both chunks would: the carried text makes the
      result independent of where the serial port cut the stream. */
  lemma PollReassembles<L>(p: Parsers, g: Receiver<L>, a: string, b: string)
    ensures var first := Poll(p, g, Read(a));
      var second := Poll(p, first.after, Read(b));
      var once := Poll(p, g, Read(a + b));
      && second.after == once.after
      && first.delivered + second.delivered == once.delivered
  {
    StepCarry(Decoder(p), g, a, b);
    StepDeliveries(Decoder(p), g, a, b);
  }

  /** A poll of newline-terminated lines, with nothing carried, decodes exactly those
      lines and keeps nothing. */
  lemma StepTerminated<L, E>(consume: string -> Option<E>, ls: seq<L>, lines: seq<string>)
    requires forall i :: 0 <= i < |lines| ==> lines[i] != [] && Newline !in lines[i]
    ensures Step(consume, Receiver(ls, []), Read(Terminated(lines))) ==
      Polled(Receiver(ls, []), Deliveries(ls, Events(consume, lines)))
  {
    FrameTerminated(lines, []);
    assert [] + Terminated(lines) == Terminated(lines) + [];
  }

  /** Complete lines with a failing checksum are delivered to nobody. */
  lemma InvalidLinesDeliverNothing<L>(p: Parsers, ls: seq<L>, lines: seq<string>)
    requires forall i :: 0 <= i < |lines| ==> lines[i] != [] && Newline !in lines[i]
    requires forall i :: 0 <= i < |lines| ==> HasValidCheckSum(lines[i]) != Success(true)
    ensures Poll(p, Receiver(ls, []), Read(Terminated(lines))) == Polled(Receiver(ls, []), [])
  {
    StepTerminated(Decoder(p), ls, lines);
    NoEvents(p, lines);
  }

  lemma {:induction false} NoEvents(p: Parsers, lines: seq<string>)
    requires forall i :: 0 <= i < |lines| ==> HasValidCheckSum(lines[i]) != Success(true)
    ensures Events(Decoder(p), lines) == []
    decreases |lines|
  {
    if lines != [] {
      NoEvents(p, lines[1..]);
      assert HasValidCheckSum(lines[0]) != Success(true);
      assert Decoder(p)(lines[0]) == None;
    }
  }

  /** How one iteration of the loop ends as written: it goes on, or an exception from
      `consume` ends the reader thread after the events decoded so far were delivered. */
  datatype Outcome<L> =
    | Continue(polled: Polled<L, Event>)
    | Halted(delivered: seq<Delivery<L, Event>>, error: Exception)

  /** The events of consecutive lines under a decoder that may raise: the events before
      the first line that raises, and that line's exception. */
  function Raising<E, X>(consume: string -> Result<Option<E>, X>, lines: seq<string>): (r: (seq<E>, Option<X>))
    ensures |r.0| <= |lines|
    ensures r.1.None? <==> forall i :: 0 <= i < |lines| ==> consume(lines[i]).Success?
    ensures r.1.Some? ==> exists i :: 0 <= i < |lines| && consume(lines[i]) == Failure(r.1.value)
  {
    if lines == [] then ([], None)
    else
      match consume(lines[0])
      case Failure(x) => ([], Some(x))
      case Success(e) =>
        var rest := Raising(consume, lines[1..]);
        assert forall i :: 1 <= i < |lines| ==> lines[i] == lines[1..][i - 1];
        (if e.Some? then [e.value] + rest.0 else rest.0, rest.1)
  }

  /** `decode` yields what `consume` yields on every line on which `consume` does not
      raise. */
  ghost predicate Survives<E, X>(consume: string -> Result<Option<E>, X>, decode: string -> Option<E>) {
    forall line :: consume(line).Success? ==> decode(line) == consume(line).value
  }

  /** The as-written `consume` of one line, as a decoder that may raise. */
  function AsWritten(p: Parsers): string -> Result<Option<Event>, Exception> {
    line => ConsumeAsWritten(p, line)
  }

  /** Where the as-written `consume` does not raise, the surviving decoder agrees with it. */
  lemma AsWrittenSurvives(p: Parsers)
    ensures Survives(AsWritten(p), Decoder(p))
  {
  }

  /** The events of consecutive lines as written: the events before the first line that
      raises, and that line's exception. */
  function EventsAsWritten(p: Parsers, lines: seq<string>): (r: (seq<Event>, Option<Exception>))
    ensures r.1.None? ==> r.0 == Events(Decoder(p), lines)
  {
    AsWrittenSurvives(p);
    RaisingSurvives(AsWritten(p), Decoder(p), lines);
    Raising(AsWritten(p), lines)
  }

  /** When no line raises, the events are those of the surviving decoder. */
  lemma {:induction false} RaisingSurvives<E, X>(consume: string -> Result<Option<E>, X>, decode: string -> Option<E>,
                                                 lines: seq<string>)
    requires Survives(consume, decode)
    ensures var r := Raising(consume, lines); r.1.None? ==> r.0 == Events(decode, lines)
    decreases |lines|
  {
    if lines != [] && consume(lines[0]).Success? {
      RaisingSurvives(consume, decode, lines[1..]);
    }
  }

  /** The loop as written raises exactly when some line raises, and then it raises the
      exception of the first such line, after delivering the events of the lines ahead of
      it. */
  lemma RaisedByLine(p: Parsers, lines: seq<string>)
    ensures var r := EventsAsWritten(p, lines);
      r.1.Some? <==> exists i :: 0 <= i < |lines| && ConsumeAsWritten(p, lines[i]).Failure?
    ensures var r := EventsAsWritten(p, lines);
      r.1.Some? ==> exists i ::
        && 0 <= i < |lines| && ConsumeAsWritten(p, lines[i]) == Failure(r.1.value)
        && (forall k :: 0 <= k < i ==> ConsumeAsWritten(p, lines[k]).Success?)
        && r.0 == Events(Decoder(p), lines[..i])
  {
    AsWrittenSurvives(p);
    RaisedBy(AsWritten(p), Decoder(p), lines);
  }

  /** A decoder that may raise, over consecutive lines, raises exactly when some line
      raises, and then it raises the exception of the first such line, after the events of
      the lines ahead of it. */
  lemma RaisedBy<E, X>(consume: string -> Result<Option<E>, X>, decode: string -> Option<E>, lines: seq<string>)
    requires Survives(consume, decode)
    ensures var r := Raising(consume, lines);
      r.1.Some? <==> exists i :: 0 <= i < |lines| && consume(lines[i]).Failure?
    ensures var r := Raising(consume, lines);
      r.1.Some? ==> exists i ::
        && 0 <= i < |lines| && consume(lines[i]) == Failure(r.1.value)
        && (forall k :: 0 <= k < i ==> consume(lines[k]).Success?)
        && r.0 == Events(decode, lines[..i])
  {
    if i :| 0 <= i < |lines| && consume(lines[i]).Failure? {
      FirstFailure(consume, lines, i);
      var j :| 0 <= j <= i && consume(lines[j]).Failure? &&
        forall k :: 0 <= k < j ==> consume(lines[k]).Success?;
      FirstRaise(consume, decode, lines, j);
    } else {
      NoneRaises(consume, lines);
    }
  }

  /** Some line raises, so some line is the first to raise. */
  lemma {:induction false} FirstFailure<E, X>(consume: string -> Result<Option<E>, X>, lines: seq<string>, i: nat)
    requires i < |lines| && consume(lines[i]).Failure?
    ensures exists j ::
      && 0 <= j <= i && consume(lines[j]).Failure?
      && forall k :: 0 <= k < j ==> consume(lines[k]).Success?
    decreases i
  {
    if k :| 0 <= k < i && consume(lines[k]).Failure? {
      FirstFailure(consume, lines, k);
    } else {
      assert forall k :: 0 <= k < i ==> consume(lines[k]).Success?;
    }
  }

  /** The loop stops at the first line that raises, with that line's exception and the
      events of the lines before it. */
  lemma {:induction false} FirstRaise<E, X>(consume: string -> Result<Option<E>, X>, decode: string -> Option<E>,
                                            lines: seq<string>, i: nat)
    requires Survives(consume, decode)
    requires i < |lines| && consume(lines[i]).Failure?
    requires forall k :: 0 <= k < i ==> consume(lines[k]).Success?
    ensures Raising(consume, lines) == (Events(decode, lines[..i]), Some(consume(lines[i]).error))
    decreases i
  {
    if i == 0 {
      HeadFails(consume, lines);
      assert lines[..0] == [];
    } else {
      assert consume(lines[0]).Success?;
      var tail := lines[1..];
      assert tail[i - 1] == lines[i];
      forall k | 0 <= k < i - 1
        ensures consume(tail[k]).Success?
      {
        assert tail[k] == lines[k + 1];
      }
      FirstRaise(consume, decode, tail, i - 1);
      HeadSucceeds(consume, decode, lines);
      EventsOfPrefix(decode, lines, i - 1);
    }
  }

  /** A first line that does not raise contributes its event and leaves the outcome to
      the rest. */
  lemma HeadSucceeds<E, X>(consume: string -> Result<Option<E>, X>, decode: string -> Option<E>, lines: seq<string>)
    requires Survives(consume, decode)
    requires lines != [] && consume(lines[0]).Success?
    ensures var r, rest := Raising(consume, lines), Raising(consume, lines[1..]);
      && r.1 == rest.1
      && r.0 == (if decode(lines[0]).Some? then [decode(lines[0]).value] else []) + rest.0
  {
  }

  /** A first line that raises ends the loop at once, with nothing delivered. */
  lemma HeadFails<E, X>(consume: string -> Result<Option<E>, X>, lines: seq<string>)
    requires lines != [] && consume(lines[0]).Failure?
    ensures Raising(consume, lines) == ([], Some(consume(lines[0]).error))
  {
  }

  /** When no line raises, neither does the loop. */
  lemma {:induction false} NoneRaises<E, X>(consume: string -> Result<Option<E>, X>, lines: seq<string>)
    requires forall i :: 0 <= i < |lines| ==> consume(lines[i]).Success?
    ensures Raising(consume, lines).1.None?
    decreases |lines|
  {
    if lines != [] {
      assert consume(lines[0]).Success?;
      NoneRaises(consume, lines[1..]);
    }
  }

  /** The events of the first i + 1 lines: the first line's event, if any, ahead of the
      events of the next i lines. */
  lemma EventsOfPrefix<E>(consume: string -> Option<E>, lines: seq<string>, i: nat)
    requires i < |lines|
    ensures Events(consume, lines[..i + 1]) ==
      (if consume(lines[0]).Some? then [consume(lines[0]).value] else []) + Events(consume, lines[1..][..i])
  {
    assert lines[..i + 1][1..] == lines[1..][..i];
  }

  /** One iteration of the reader loop as written. */
  function PollAsWritten<L>(p: Parsers, g: Receiver<L>, read: ReadResult): (r: Outcome<L>)
    ensures r.Continue? ==> r.polled == Poll(p, g, read)
    ensures var lines := Frame(PollText(g.carry, read)).lines;
      r.Halted? <==> exists i :: 0 <= i < |lines| && ConsumeAsWritten(p, lines[i]).Failure?
    ensures r.Halted? ==> var lines := Frame(PollText(g.carry, read)).lines;
      exists i ::
        && 0 <= i < |lines| && ConsumeAsWritten(p, lines[i]) == Failure(r.error)
        && (forall k :: 0 <= k < i ==> ConsumeAsWritten(p, lines[k]).Success?)
        && r.delivered == Deliveries(g.listeners, Events(Decoder(p), lines[..i]))
  {
    var f := Frame(PollText(g.carry, read));
    RaisedByLine(p, f.lines);
    var (es, raised) := EventsAsWritten(p, f.lines);
    match raised
    case None => Continue(Polled(g.(carry := f.rest), Deliveries(g.listeners, es)))
    case Some(x) => Halted(Deliveries(g.listeners, es), x)
  }

  /** As long as no line raises, the loop as written and the surviving loop agree. */
  lemma PollAgrees<L>(p: Parsers, g: Receiver<L>, read: ReadResult)
    requires var lines := Frame(PollText(g.carry, read)).lines;
      forall i :: 0 <= i < |lines| ==> ConsumeAsWritten(p, lines[i]).Success?
    ensures PollAsWritten(p, g, read) == Continue(Poll(p, g, read))
  {
    NoneRaises(AsWritten(p), Frame(PollText(g.carry, read)).lines);
  }

  /** A GGA line with nothing but white space after the `*` raises in `consume`:
      `Integer.parseInt("", 16)`. */
  lemma EmptyChecksumRaises(p: Parsers, tail: string)
    requires forall i :: 0 <= i < |tail| ==> IsTrimmable(tail[i])
    ensures ConsumeAsWritten(p, PositionTag + "*" + tail) == Failure(NumberFormat)
  {
    var line := PositionTag + "*" + tail;
    PositionLine(line, "*" + tail);
    EmptyChecksumVerdict(tail);
  }

  /** A line behind the GGA tag starts with `$` and with the tag. */
  lemma PositionLine(line: string, after: string)
    requires line == PositionTag + after
    ensures StartsWith(line, "$") && StartsWith(line, PositionTag)
  {
    assert line[..|PositionTag|] == PositionTag;
    assert line[..1] == PositionTag[..1];
  }

  lemma EmptyChecksumVerdict(tail: string)
    requires forall i :: 0 <= i < |tail| ==> IsTrimmable(tail[i])
    ensures HasValidCheckSum(PositionTag + "*" + tail) == Failure(NumberFormat)
  {
    var line := PositionTag + "*" + tail;
    assert line == "$" + "GPGGA" + "*" + tail;
    Verdict("GPGGA", tail);
    TrimDropsTrailing([], tail);
    assert [] + tail == tail;
  }

  /** Such a line ends the reader as written, while the surviving loop drops it and goes
      on with nothing kept. */
  lemma EmptyChecksumHaltsReader<L>(p: Parsers, ls: seq<L>, tail: string)
    requires forall i :: 0 <= i < |tail| ==> IsTrimmable(tail[i]) && tail[i] != Newline
    ensures var text := PositionTag + "*" + tail + [Newline];
      && PollAsWritten(p, Receiver(ls, []), Read(text)) == Halted([], NumberFormat)
      && Poll(p, Receiver(ls, []), Read(text)) == Polled(Receiver(ls, []), [])
  {
    var line := PositionTag + "*" + tail;
    assert line[0] == '$';
    assert [] + (line + [Newline]) == Terminated([line]) + [];
    assert Newline !in line by {
      assert line == "$GPGGA*" + tail;
    }
    FrameTerminated([line], []);
    EmptyChecksumRaises(p, tail);
    assert Decoder(p)(line) == None;
  }
}
