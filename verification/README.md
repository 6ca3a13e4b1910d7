# GPS sentence pipeline of robo4j-rpi, in Dafny

This project models the GPS package of robo4j-rpi (`com.robo4j.rpi.serial.gps`). That
package reads NMEA 0183 text from a serial port and turns it into events. A reader loop
polls the port. It appends the new characters to the text kept from the previous poll and
cuts the result into lines at newlines. Each complete line goes to `consume`. `consume`
routes `$GPGGA` lines to the position decoder and `$GPVTG` lines to the velocity decoder,
but only when the line's XOR checksum is valid. Each decoded event is sent to every
registered listener, in registration order.

The model is functional. Strings are `seq<char>`. A Java `float` is `Option<real>`, and
`None` stands for NaN. Java exceptions are the `Failure` side of a `Result`. The framing
carry and the listener list are explicit state, threaded through the step functions.

Modules, in dependency order:

- `Outcomes`: `Option`, `Result`, and the three Java exceptions the core can raise.
- `JavaString`: `indexOf`, `substring`, `trim` and `split(",")`, with Java's rule that
  trailing empty fields are dropped.
- `JavaInt`: `Integer.parseInt` with sign, radix and 32-bit range; hex and decimal
  printing; truncating `%`; `Math.abs`.
- `Floats`: NaN-aware arithmetic and comparison, and the saturating `(int)` cast of a
  float (section 5.1.3 of the Java Language Specification).
- `Fields`: array access that can raise, `getFloat`, and the parser parameters.
- `AccuracyCategories`, `FixQualities`, `Locations`: the enums and the
  degrees-minutes-seconds rendering.
- `Checksum`: `hasValidCheckSum`, with an XOR on naturals whose algebra is proved.
- `Framing`: the tokenizer loop of the reader, and an independent reference framing.
- `Listeners`: `addListener`, `removeListener` and `notifyListeners`.
- `PositionEvents`, `VelocityEvents`: the GGA and VTG decoders.
- `Gps`: `consume`, and one iteration of the reader loop, both as written and with
  bad lines dropped.

Three behaviours of the code are easy to miss, and the model keeps them:

- A malformed number field raises rather than reading as "unknown". `Integer.parseInt` and
  `Float.parseFloat` raise on non-empty bad text, and so do a short GGA sentence and an
  empty or non-hex checksum. Only an empty float or satellite field, a coordinate with no
  `.`, and an unparsable time fall back to a default. Nothing catches those exceptions
  (see Findings).
- Only the first `*` counts. Any later `*` becomes part of the checksum text, which then
  fails to parse and raises.
- A failed read is logged and the loop goes on, but the kept partial line is cleared as
  well, so that text is lost (`Framing.PollText`).

## Model

| member | source | states |
|---|---|---|
| JavaString.Split | robo4j-rpi/src/com/robo4j/rpi/serial/gps/PositionEvent.java:175 | `split(",")` keeps the comma-cut pieces up to the last non-empty one, drops only empty trailing pieces, and leaves text without a comma whole |
| JavaString.SplitJoin | robo4j-rpi/src/com/robo4j/rpi/serial/gps/VelocityEvent.java:92 | splitting comma-joined comma-free fields returns them, minus the trailing empty ones |
| JavaInt.ParseInt | robo4j-rpi/src/com/robo4j/rpi/serial/gps/GPS.java:123 | `Integer.parseInt` gives only 32-bit values; empty text and a lone sign raise; text without `-` gives no negative value |
| JavaInt.IntTextRoundTrip | robo4j-rpi/src/com/robo4j/rpi/serial/gps/PositionEvent.java:204 | `Integer.parseInt` reads back the decimal text of every 32-bit int |
| JavaInt.HexTextRoundTrip | robo4j-rpi/src/com/robo4j/rpi/serial/gps/GPS.java:123 | `Integer.parseInt(_, 16)` reads back the hex text of every non-negative int |
| Floats.ToInt | robo4j-rpi/src/com/robo4j/rpi/serial/gps/Location.java:84-86 | the `(int)` cast truncates toward zero within range, saturates outside it, and maps NaN to 0 |
| Floats.TruncNegate | robo4j-rpi/src/com/robo4j/rpi/serial/gps/Location.java:84 | truncation commutes with negation |
| Fields.GetFloat | robo4j-rpi/src/com/robo4j/rpi/serial/gps/PositionEvent.java:207-212 | an empty field is NaN; otherwise the field parses or raises NumberFormatException |
| AccuracyCategories.ThresholdsIncrease | robo4j-rpi/src/com/robo4j/rpi/serial/gps/AccuracyCategory.java:41-56 | the thresholds 1, 2, 5, 10, 20, 100 grow strictly in declaration order |
| AccuracyCategories.FromDop | robo4j-rpi/src/com/robo4j/rpi/serial/gps/AccuracyCategory.java:93-99 | a known dop at most 100 gets the first category whose threshold is at least dop, and every earlier threshold is below dop; above 20 and NaN give POOR |
| AccuracyCategories.FromDopByBounds | robo4j-rpi/src/com/robo4j/rpi/serial/gps/AccuracyCategory.java:93-99 | the loop agrees with an independent chain of upper bounds |
| AccuracyCategories.FromDopMonotone | robo4j-rpi/src/com/robo4j/rpi/serial/gps/AccuracyCategory.java:93-99 | a larger dop never gives a better category |
| AccuracyCategories.FromDopNaNIsWorst | robo4j-rpi/src/com/robo4j/rpi/serial/gps/AccuracyCategory.java:98 | NaN falls through every comparison to POOR, which is at least as bad as any known value |
| AccuracyCategories.FromDopBoundaryTable | robo4j-rpi/src/com/robo4j/rpi/serial/gps/AccuracyCategory.java:93-99 | 0.5, 1 and -3 give IDEAL; 1.5 and 2 give EXCELLENT; 5 GOOD; 10 MODERATE; 20 FAIR; 50 and 150 POOR |
| FixQualities.FromCode | robo4j-rpi/src/com/robo4j/rpi/serial/gps/PositionEvent.java:60-67 | codes 0 to 8 give the constant with that ordinal; every other code gives INVALID |
| FixQualities.FromCodeOrdinal | robo4j-rpi/src/com/robo4j/rpi/serial/gps/PositionEvent.java:57-67 | looking a constant up by its own ordinal gives it back |
| JavaInt.Abs | robo4j-rpi/src/com/robo4j/rpi/serial/gps/Location.java:84-86 | `Math.abs` on an int: the magnitude for every int but `Integer.MIN_VALUE`, which is its own result |
| JavaInt.IntTextFree | robo4j-rpi/src/com/robo4j/rpi/serial/gps/Location.java:87 | the decimal text of an int holds only a sign and digits, so no degree sign or `'` occurs in it |
| Locations.ToDmsAsWritten | robo4j-rpi/src/com/robo4j/rpi/serial/gps/Location.java:83-88 | minutes and seconds are in 0..59; degrees are negative exactly when the cast gives `Integer.MIN_VALUE` |
| Locations.ToDmsAsWrittenValue | robo4j-rpi/src/com/robo4j/rpi/serial/gps/Location.java:83-88 | when 3600 times the coordinate fits in an int, degrees are the whole part of its magnitude m, and degrees·3600 + minutes·60 + seconds is the whole part of 3600·m |
| Locations.ToDmsAsWrittenCounterexample | robo4j-rpi/src/com/robo4j/rpi/serial/gps/Location.java:84-86 | -2147483648 renders negative degrees, and 600000 and -600000 render different seconds |
| Locations.ToDms | robo4j-rpi/src/com/robo4j/rpi/serial/gps/Location.java:83-88 | degrees are never negative; minutes and seconds are in 0..59 |
| Locations.ToDmsValue | robo4j-rpi/src/com/robo4j/rpi/serial/gps/Location.java:83-88 | when 3600 times the coordinate fits in an int, degrees are the whole part of its magnitude m, and degrees·3600 + minutes·60 + seconds is the whole part of 3600·m |
| Locations.ToDmsSymmetric | robo4j-rpi/src/com/robo4j/rpi/serial/gps/Location.java:83-88 | a coordinate and its negation render the same degrees, minutes and seconds |
| Locations.ToDmsAgreesInRange | robo4j-rpi/src/com/robo4j/rpi/serial/gps/Location.java:83-88 | wherever 3600 times the coordinate fits in an int, the corrected rendering equals the one as written |
| Locations.Letter | robo4j-rpi/src/com/robo4j/rpi/serial/gps/Location.java:80 | the letter is N (or E) exactly when the coordinate is above zero; zero and NaN give S (or W) |
| Locations.DmsText | robo4j-rpi/src/com/robo4j/rpi/serial/gps/Location.java:87 | the `%d°%d'%d"` text of `toDMS` ends with the `"` sign |
| Locations.DmsTextRoundTrip | robo4j-rpi/src/com/robo4j/rpi/serial/gps/Location.java:87 | the three int parts are read back from the text: the number before the first degree sign, the one up to the next `'`, and the one before the closing `"` |
| Locations.ReadParts | robo4j-rpi/src/com/robo4j/rpi/serial/gps/Location.java:87 | a text of the form a°b'c" is read back as the parses of a, b and c, when a holds no degree sign and b no `'` |
| Locations.Render | robo4j-rpi/src/com/robo4j/rpi/serial/gps/Location.java:80 | the `"%s%s %s%s"` layout: the latitude text, its letter, a space, the longitude text, its letter |
| Locations.Lettered | robo4j-rpi/src/com/robo4j/rpi/serial/gps/Location.java:80 | the text starts with the latitude's parts; the character after them is N exactly when the latitude is above zero and is followed by a space; the last character is E exactly when the longitude is above zero |
| Locations.AsDms | robo4j-rpi/src/com/robo4j/rpi/serial/gps/Location.java:79-81 | as written, the text starts with the latitude text; the character after it is N exactly when latitude > 0 and is followed by a space; the last character is E exactly when longitude > 0 |
| Locations.AsDmsCorrected | robo4j-rpi/src/com/robo4j/rpi/serial/gps/Location.java:79-81 | the corrected rendering puts the same letters in the same places |
| Locations.ToDmsAsWrittenMirror | robo4j-rpi/src/com/robo4j/rpi/serial/gps/Location.java:83-88 | as written, a coordinate whose 3600-fold fits in an int prints the same parts as its negation |
| Locations.AsDmsMirrorLatitude | robo4j-rpi/src/com/robo4j/rpi/serial/gps/Location.java:79-88 | as written, mirroring a northern latitude whose 3600-fold fits in an int changes only its letter, from N to S |
| Locations.AsDmsMirrorLongitude | robo4j-rpi/src/com/robo4j/rpi/serial/gps/Location.java:79-88 | as written, mirroring an eastern longitude whose 3600-fold fits in an int changes only its letter, from E to W |
| Locations.AsDmsMirrorFailsSaturated | robo4j-rpi/src/com/robo4j/rpi/serial/gps/Location.java:83-88 | as written, 600000 east and 600000 west print different parts |
| Locations.AsDmsCorrectedMirror | robo4j-rpi/src/com/robo4j/rpi/serial/gps/Location.java:79-88 | with the corrected rendering, mirroring either coordinate changes only its letter, whatever its size |
| Checksum.BitXorAssoc | robo4j-rpi/src/com/robo4j/rpi/serial/gps/GPS.java:126 | the bitwise XOR the loop applies, defined bit by bit on naturals, is associative |
| Checksum.XorAppend | robo4j-rpi/src/com/robo4j/rpi/serial/gps/GPS.java:124-127 | the checksum of two texts glued together is the XOR of their checksums |
| Checksum.Xor | robo4j-rpi/src/com/robo4j/rpi/serial/gps/GPS.java:124-127 | the folded XOR of characters stays below 2^21, so the `int` accumulator never overflows |
| Checksum.HasValidCheckSum | robo4j-rpi/src/com/robo4j/rpi/serial/gps/GPS.java:113-129 | no `$` at the start, or no `*`, gives false; otherwise, at the first `*`, the line is valid iff the trimmed text after it is hex for the XOR of the characters between `$` and `*`; empty or non-hex text raises NumberFormatException |
| Checksum.ChecksumTextValue | robo4j-rpi/src/com/robo4j/rpi/serial/gps/GPS.java:123 | the two-digit hex checksum text parses back to its value |
| Checksum.SealIsValid | robo4j-rpi/src/com/robo4j/rpi/serial/gps/GPS.java:113-129 | a `*`-free body sealed with its own checksum, followed by any white space, is valid |
| Checksum.MutationInvalidates | robo4j-rpi/src/com/robo4j/rpi/serial/gps/GPS.java:124-128 | replacing one character other than `*` in a valid line's checksummed span with a different character other than `*` makes it invalid |
| Framing.Tokens | robo4j-rpi/src/com/robo4j/rpi/serial/gps/GPS.java:158 | the tokens of `StringTokenizer(str, "\n", true)` spell the text; each is a lone newline or a newline-free run, and a run is always followed by a newline token |
| Framing.Frame | robo4j-rpi/src/com/robo4j/rpi/serial/gps/GPS.java:157-169 | consumed lines are non-empty and newline-free; the kept text is newline-free; text without a newline is kept whole |
| Framing.PollStep | robo4j-rpi/src/com/robo4j/rpi/serial/gps/GPS.java:151-169 | the token loop as written consumes exactly the lines and keeps exactly the text of the reference framing; a failed read consumes and keeps nothing |
| Framing.DrainTokens | robo4j-rpi/src/com/robo4j/rpi/serial/gps/GPS.java:159-169 | the token loop over the tokenizer's output equals the reference framing |
| Framing.FrameEndsWithNewline | robo4j-rpi/src/com/robo4j/rpi/serial/gps/GPS.java:164-168 | text that ends with a newline keeps nothing |
| Framing.FrameTerminated | robo4j-rpi/src/com/robo4j/rpi/serial/gps/GPS.java:157-169 | framing newline-terminated non-empty lines followed by a tail gives back exactly those lines and that tail |
| Framing.FrameCarry | robo4j-rpi/src/com/robo4j/rpi/serial/gps/GPS.java:146-169 | framing `a`, then the kept text followed by `b`, consumes the same lines and keeps the same text as framing `a + b` |
| Framing.PollText | robo4j-rpi/src/com/robo4j/rpi/serial/gps/GPS.java:151-157 | a read appends its chunk to the kept text; a failed read yields empty text and loses the kept text |
| Listeners.Add | robo4j-rpi/src/com/robo4j/rpi/serial/gps/GPS.java:80-82 | the listener is appended at the end, duplicates allowed |
| Listeners.Remove | robo4j-rpi/src/com/robo4j/rpi/serial/gps/GPS.java:92-94 | an absent listener changes nothing; a present one is removed once, and the multiset loses exactly one copy |
| Listeners.RemoveAdd | robo4j-rpi/src/com/robo4j/rpi/serial/gps/GPS.java:80-94 | removing a listener just added, which was not registered before, restores the list |
| Listeners.RemoveKeepsOrder | robo4j-rpi/src/com/robo4j/rpi/serial/gps/GPS.java:92-94 | removal takes the first registration; entries before it stay put, entries after it move up one |
| Listeners.RemoveOneOfTwo | robo4j-rpi/src/com/robo4j/rpi/serial/gps/GPS.java:80-94 | a listener added twice is still registered after one removal |
| Listeners.NotifyAll | robo4j-rpi/src/com/robo4j/rpi/serial/gps/GPS.java:131-141 | every listener receives the event exactly once, in list order |
| Listeners.DeliveriesAppend | robo4j-rpi/src/com/robo4j/rpi/serial/gps/GPS.java:131-141 | delivering two batches of events in turn is delivering both at once |
| PositionEvents.Hybrid | robo4j-rpi/src/com/robo4j/rpi/serial/gps/PositionEvent.java:214-222 | no `.` gives NaN; a `.` before index 2 raises StringIndexOutOfBounds; otherwise the integer before the two minute digits plus the minutes over 60, raising if either part fails to parse |
| PositionEvents.HybridOfParts | robo4j-rpi/src/com/robo4j/rpi/serial/gps/PositionEvent.java:214-222 | for whole degrees followed by minutes with the point at their third character, the result succeeds exactly when both parts parse, and is the degrees plus a sixtieth of the minutes |
| PositionEvents.HybridExample | robo4j-rpi/src/com/robo4j/rpi/serial/gps/PositionEvent.java:214-222 | `4807.038` decodes as 48 + 7.038/60 with a decimal float parser |
| PositionEvents.LongitudeExample | robo4j-rpi/src/com/robo4j/rpi/serial/gps/PositionEvent.java:214-222 | `01131.000` decodes as 11 + 31/60 with a decimal float parser |
| PositionEvents.GetInt | robo4j-rpi/src/com/robo4j/rpi/serial/gps/PositionEvent.java:200-205 | an empty field is -1; anything else is `Integer.parseInt` of it |
| PositionEvents.Hemisphere | robo4j-rpi/src/com/robo4j/rpi/serial/gps/PositionEvent.java:184-190 | the coordinate is negated exactly when the field equals the negative letter |
| PositionEvents.ParseFields | robo4j-rpi/src/com/robo4j/rpi/serial/gps/PositionEvent.java:174-198 | fewer than 12 fields raise; the decode succeeds exactly when fields 2, 4, 7, 8, 9, 11 and 6 parse, whatever the time field holds; fields map to time, location with hemisphere signs, satellites, hdop, altitude, geoid separation and fix quality; the category is `fromDOP(hdop)` |
| PositionEvents.Parse | robo4j-rpi/src/com/robo4j/rpi/serial/gps/PositionEvent.java:78-81 | text without a comma does not decode; a decoded fix has the category of its hdop |
| PositionEvents.ParseJoin | robo4j-rpi/src/com/robo4j/rpi/serial/gps/PositionEvent.java:175 | decoding comma-joined comma-free fields decodes those fields, less the trailing empty ones |
| PositionEvents.GoldenFix | robo4j-rpi/src/com/robo4j/rpi/serial/gps/PositionEvent.java:174-198 | the fields of `$GPGGA,123519,4807.038,N,01131.000,E,1,08,0.9,545.4,M,46.9,M,,*47` decode to 48°7.038'N, 11°31'E, a GPS fix from 8 satellites at hdop 0.9 (IDEAL), altitude 545.4 and geoid separation 46.9 |
| PositionEvents.GoldenSentence | robo4j-rpi/src/com/robo4j/rpi/serial/gps/PositionEvent.java:174-198 | the whole sentence, glued back from its fields, decodes to the same fix |
| PositionEvents.EllipsoidAltitude | robo4j-rpi/src/com/robo4j/rpi/serial/gps/PositionEvent.java:130-132 | altitude plus geoid separation, NaN when either is NaN |
| PositionEvents.MaxError | robo4j-rpi/src/com/robo4j/rpi/serial/gps/PositionEvent.java:164-166 | hdop times the unaided accuracy of 3.0 metres, NaN when hdop is NaN |
| PositionEvents.MaxErrorWithinCategory | robo4j-rpi/src/com/robo4j/rpi/serial/gps/PositionEvent.java:164-166 | for a decoded hdop up to 100, the max error is at most 3 times its category's threshold and above 3 times the threshold of every better category |
| PositionEvents.OnlyReadFieldsMatter | robo4j-rpi/src/com/robo4j/rpi/serial/gps/PositionEvent.java:174-198 | two field lists that agree on fields 1 to 9 and 11 decode alike |
| PositionEvents.SouthNegatesLatitude | robo4j-rpi/src/com/robo4j/rpi/serial/gps/PositionEvent.java:183-186 | changing field 3 from N to S negates the latitude and changes nothing else |
| PositionEvents.WestNegatesLongitude | robo4j-rpi/src/com/robo4j/rpi/serial/gps/PositionEvent.java:187-190 | changing field 5 from E to W negates the longitude and changes nothing else |
| PositionEvents.EmptyFixQualityRaises | robo4j-rpi/src/com/robo4j/rpi/serial/gps/PositionEvent.java:197 | an empty fix-quality field raises, because it goes to `Integer.parseInt` directly |
| VelocityEvents.ParseFields | robo4j-rpi/src/com/robo4j/rpi/serial/gps/VelocityEvent.java:40-105 | fewer than 8 fields leave all three values NaN; otherwise fields 1, 3 and 7 give true track, magnetic track and speed, and the decode raises exactly when one of them fails to parse |
| VelocityEvents.Parse | robo4j-rpi/src/com/robo4j/rpi/serial/gps/VelocityEvent.java:52-55 | text without a comma leaves all three values NaN; a failure is always NumberFormatException |
| VelocityEvents.ParseJoin | robo4j-rpi/src/com/robo4j/rpi/serial/gps/VelocityEvent.java:92 | decoding comma-joined comma-free fields decodes those fields, less the trailing empty ones |
| VelocityEvents.OnlyTrackAndSpeedFieldsMatter | robo4j-rpi/src/com/robo4j/rpi/serial/gps/VelocityEvent.java:91-98 | fields other than 1, 3 and 7 never affect the result |
| VelocityEvents.EmptyFieldsUnknown | robo4j-rpi/src/com/robo4j/rpi/serial/gps/VelocityEvent.java:100-105 | empty track and speed fields give NaN rather than an error |
| VelocityEvents.TrailingEmptySpeedDropsTrack | robo4j-rpi/src/com/robo4j/rpi/serial/gps/VelocityEvent.java:92-93 | a sentence whose last four fields are empty splits into five fields, so even its track is left NaN |
| Gps.ConsumeAsWritten | robo4j-rpi/src/com/robo4j/rpi/serial/gps/GPS.java:179-187 | a line without `$` or with a false checksum yields nothing; an event comes only from a valid line with the matching tag and is that decoder's result |
| Gps.Routing | robo4j-rpi/src/com/robo4j/rpi/serial/gps/GPS.java:179-187 | a valid GGA line yields the position decoder's result and a valid VTG line the velocity decoder's; a tagged line whose checksum raises raises; an untagged line yields nothing |
| Gps.Consume | robo4j-rpi/src/com/robo4j/rpi/serial/gps/GPS.java:179-187 | the surviving `consume` yields an event exactly when the as-written one does, and the same event |
| Gps.Step | robo4j-rpi/src/com/robo4j/rpi/serial/gps/GPS.java:149-169 | one poll keeps the listeners, keeps the framing's tail, and delivers every event of the framed lines to every listener in order |
| Gps.EventsAppend | robo4j-rpi/src/com/robo4j/rpi/serial/gps/GPS.java:159-169 | the events of two runs of lines are the events of the first followed by those of the second |
| Gps.Poll | robo4j-rpi/src/com/robo4j/rpi/serial/gps/GPS.java:149-169 | a poll keeps the listeners and keeps no newline; a failed read delivers nothing and forgets the kept text; text with no newline is kept whole and delivers nothing |
| Gps.PollReassembles | robo4j-rpi/src/com/robo4j/rpi/serial/gps/GPS.java:146-169 | two polls of `a` and `b` keep the same text and deliver the same events, in the same order, as one poll of `a + b` |
| Gps.StepTerminated | robo4j-rpi/src/com/robo4j/rpi/serial/gps/GPS.java:157-169 | a poll of newline-terminated lines with nothing kept decodes exactly those lines and keeps nothing |
| Gps.InvalidLinesDeliverNothing | robo4j-rpi/src/com/robo4j/rpi/serial/gps/GPS.java:179-187 | complete lines whose checksum is not valid reach no listener |
| Gps.Raising | robo4j-rpi/src/com/robo4j/rpi/serial/gps/GPS.java:159-169 | the line loop as written under a decoder that may raise: it keeps at most one event per line, it ends without an exception exactly when no line raises, and an exception it ends with is the exception of one of the lines |
| Gps.EventsAsWritten | robo4j-rpi/src/com/robo4j/rpi/serial/gps/GPS.java:159-169 | when no line raises, the loop as written decodes the same events as the surviving loop |
| Gps.RaisedByLine | robo4j-rpi/src/com/robo4j/rpi/serial/gps/GPS.java:159-169 | the loop as written raises exactly when some framed line raises; it then raises the exception of the first such line, after delivering the events of the lines before it |
| Gps.RaisedBy | robo4j-rpi/src/com/robo4j/rpi/serial/gps/GPS.java:159-169 | for any line decoder that may raise, the loop raises exactly when some line raises, and then the first such line's exception after the events of the lines before it |
| Gps.FirstRaise | robo4j-rpi/src/com/robo4j/rpi/serial/gps/GPS.java:159-169 | when line i raises and every earlier line does not, the loop delivers the events of the first i lines and raises line i's exception |
| Gps.HeadFails | robo4j-rpi/src/com/robo4j/rpi/serial/gps/GPS.java:159-165 | a first line that raises ends the loop at once with nothing delivered |
| Gps.HeadSucceeds | robo4j-rpi/src/com/robo4j/rpi/serial/gps/GPS.java:159-169 | a first line that does not raise contributes its event ahead of the rest, and the outcome is the rest's |
| Gps.NoneRaises | robo4j-rpi/src/com/robo4j/rpi/serial/gps/GPS.java:159-169 | when no line raises, neither does the loop |
| Gps.RaisingSurvives | robo4j-rpi/src/com/robo4j/rpi/serial/gps/GPS.java:159-169 | when the loop does not raise, its events are those of the decoder that agrees with `consume` on every line that does not raise |
| Gps.AsWrittenSurvives | robo4j-rpi/src/com/robo4j/rpi/serial/gps/GPS.java:179-187 | the surviving decoder yields exactly what `consume` as written yields on every line on which it does not raise |
| Gps.PollAsWritten | robo4j-rpi/src/com/robo4j/rpi/serial/gps/GPS.java:149-187 | an iteration as written halts exactly when some framed line raises, and then with the first such line's exception after delivering the events of the lines before it; one that goes on has the surviving poll's result |
| Gps.PollAgrees | robo4j-rpi/src/com/robo4j/rpi/serial/gps/GPS.java:149-187 | when no framed line raises, one iteration as written continues with exactly the surviving poll's result |
| Gps.EmptyChecksumRaises | robo4j-rpi/src/com/robo4j/rpi/serial/gps/GPS.java:121-123 | a GGA line with only white space after `*` raises NumberFormatException in `consume` |
| Gps.EmptyChecksumHaltsReader | robo4j-rpi/src/com/robo4j/rpi/serial/gps/GPS.java:149-187 | such a line ends the reader as written, while the surviving poll drops it, delivers nothing and keeps nothing |

## Left out

- Thread lifecycle: the constructor, `initialize`, `shutdown` with its `join`, the
  volatile run flag and the 550 ms sleep. The model is one iteration of the loop, as a
  function.
- The pi4j serial port: `open`, `available`, `read` and `close`. Each poll's input is a
  `ReadResult`, either the characters the port had or a failed read.
- The snapshot iteration of `CopyOnWriteArrayList` under concurrent registration. The
  listener list is changed and read sequentially.
- Logging of read errors.
- Float rounding and infinities. Values are exact reals, and NaN is `None`.
  `Float.parseFloat` and `SimpleDateFormat("HHmmss")` are parameters of every decoder.
  `Fields.DecimalFloat` is a plain decimal reader used only for the worked example.
- `Integer.parseInt` accepts only ASCII digits and letters here. Java also accepts other
  Unicode digits.
- Dafny characters are Unicode scalar values, while Java `char` is a UTF-16 code unit.
  The checksum agrees for text in the Basic Multilingual Plane.
- `String.format`: the text of `toDMS` and `asDMS` is built by concatenation, with no
  locale-dependent formatting. `Location.toString` is `AsDms`. The getters of `Location`
  are the datatype's fields.
- The names and descriptions of `AccuracyCategory`, and the `toString` of the events.
- The event source reference `GPSEvent.getSource`.
- Gps.PollAsWritten: every listener's `onEvent` is taken to return normally. A
  RuntimeException thrown by a listener inside `consume` (GPS.java:182 and 184) would
  also end the reader thread and skip the later listeners; the model does not say so.
- Listeners.NotifyAll: same assumption; a listener that throws would stop the delivery
  to the listeners after it.
- The golden sentence's checksum, 47, is not evaluated: the XOR of its characters is
  not computed on that literal. `Checksum.SealIsValid` covers sealed lines in general.
- PositionEvents.MaxError: hdop times 3.0 is exact here, with no float rounding.
- PositionEvents.EllipsoidAltitude: the sum is exact here, with no float rounding.
- The I2C drivers, `Int3D` and the example programs are not part of this model.

## Findings

| source | as written | input that shows it | evidently intended | confidence | as-written member | corrected member |
|---|---|---|---|---|---|---|
| robo4j-rpi/src/com/robo4j/rpi/serial/gps/GPS.java:149-187 | `run` catches exceptions only around `readNext`. An exception from `consume` (an empty or non-hex checksum, a short GGA sentence, an unparsable number) leaves the loop, and the reader thread ends. | the serial text `$GPGGA*` followed by a newline | a malformed line is dropped and polling goes on | not executed | Gps.EmptyChecksumHaltsReader | Gps.PollReassembles |
| robo4j-rpi/src/com/robo4j/rpi/serial/gps/Location.java:83-88 | `Math.abs((int) c)` takes the magnitude after a saturating cast. A cast that gives `Integer.MIN_VALUE` stays negative under `Math.abs`, and the two ends of the int range differ by one. | degrees of -2147483648.0; seconds of 600000.0 (7) and of -600000.0 (8) | degrees never negative, and the rendering independent of the sign | not executed | Locations.ToDmsAsWrittenCounterexample | Locations.AsDmsCorrectedMirror |
