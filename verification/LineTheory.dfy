/**
 * The line assembler computes splitting at line feeds, and a command received in lines computes a fold
 * over the lines.
 */
module LineTheory {
  import opened Bytes
  import opened AtcTypes
  import opened UrcSpec
  import opened ReceiveSpec

  /** The longest line that can be handed on. */
  const LINE_LIMIT: nat := 255

  // Splitting a byte stream at line feeds.

  /** The complete lines of s, each with its line feed. */
  function Lines(s: seq<byte>): seq<seq<byte>> {
    if s == [] then [] else
      var init := s[..|s| - 1];
      if s[|s| - 1] == LF then Lines(init) + [Rest(init) + [LF]] else Lines(init)
  }

  /** What follows the last line feed of s. */
  function Rest(s: seq<byte>): seq<byte> {
    if s == [] then [] else
      if s[|s| - 1] == LF then [] else Rest(s[..|s| - 1]) + [s[|s| - 1]]
  }

  function Flatten(lines: seq<seq<byte>>): seq<byte> {
    if lines == [] then [] else Flatten(lines[..|lines| - 1]) + lines[|lines| - 1]
  }

  /** A line: some bytes without a line feed, then a line feed. */
  predicate IsLine(line: seq<byte>) {
    line != [] && line[|line| - 1] == LF && LF !in line[..|line| - 1]
  }

  lemma SplitAppend(s: seq<byte>, b: byte)
    ensures Lines(s + [b]) == if b == LF then Lines(s) + [Rest(s) + [LF]] else Lines(s)
    ensures Rest(s + [b]) == if b == LF then [] else Rest(s) + [b]
  {
    assert (s + [b])[..|s|] == s;
  }

  lemma FlattenAppend(lines: seq<seq<byte>>, line: seq<byte>)
    ensures Flatten(lines + [line]) == Flatten(lines) + line
  {
    assert (lines + [line])[..|lines|] == lines;
  }

  lemma IsLineOf(rest: seq<byte>)
    requires LF !in rest
    ensures IsLine(rest + [LF])
  {
    assert (rest + [LF])[..|rest|] == rest;
  }

  lemma {:induction false} RestHasNoLineFeed(s: seq<byte>)
    ensures LF !in Rest(s)
  {
    if s != [] {
      RestHasNoLineFeed(s[..|s| - 1]);
    }
  }

  lemma {:induction false} LinesAreLines(s: seq<byte>)
    ensures forall i | 0 <= i < |Lines(s)| :: IsLine(Lines(s)[i])
  {
    if s != [] {
      var init := s[..|s| - 1];
      LinesAreLines(init);
      RestHasNoLineFeed(init);
      IsLineOf(Rest(init));
    }
  }

  /** Lines and remainder give the stream back. */
  lemma {:induction false} LinesRejoin(s: seq<byte>)
    ensures Flatten(Lines(s)) + Rest(s) == s
  {
    if s != [] {
      var init, b := s[..|s| - 1], s[|s| - 1];
      LinesRejoin(init);
      assert s == init + [b];
      if b == LF {
        FlattenAppend(Lines(init), Rest(init) + [LF]);
        assert Flatten(Lines(s)) + Rest(s) == Flatten(Lines(init)) + (Rest(init) + [LF]) + [];
      } else {
        assert Flatten(Lines(s)) + Rest(s) == Flatten(Lines(init)) + (Rest(init) + [b]);
      }
    }
  }

  lemma Regrouped(a: seq<byte>, b: seq<byte>, c: seq<byte>)
    ensures a + (b + c) == (a + b) + c
  {
  }

  predicate AllLines(lines: seq<seq<byte>>) {
    forall i | 0 <= i < |lines| :: IsLine(lines[i])
  }

  /** No other division into lines and a remainder gives the stream back. */
  lemma {:induction false} SplitIsUnique(lines: seq<seq<byte>>, rest: seq<byte>)
    requires LF !in rest && AllLines(lines)
    ensures Lines(Flatten(lines) + rest) == lines && Rest(Flatten(lines) + rest) == rest
    decreases |lines|, |rest|, 1
  {
    if rest != [] {
      var less, b := rest[..|rest| - 1], rest[|rest| - 1];
      assert rest == less + [b] && b in rest;
      SplitIsUnique(lines, less);
      Regrouped(Flatten(lines), less, [b]);
      SplitAppend(Flatten(lines) + less, b);
    } else if lines != [] {
      LastLineIsSplit(lines);
      assert Flatten(lines) + rest == Flatten(lines);
    }
  }

  lemma {:induction false} LastLineIsSplit(lines: seq<seq<byte>>)
    requires lines != [] && AllLines(lines)
    ensures Lines(Flatten(lines)) == lines && Rest(Flatten(lines)) == []
    decreases |lines|, 0, 0
  {
    var last, front := lines[|lines| - 1], lines[..|lines| - 1];
    var body := last[..|last| - 1];
    assert IsLine(last) && last == body + [LF] && lines == front + [last];
    SplitIsUnique(front, body);
    Regrouped(Flatten(front), body, [LF]);
    SplitAppend(Flatten(front) + body, LF);
  }

  predicate IsSplit(s: seq<byte>, lines: seq<seq<byte>>, rest: seq<byte>) {
    Flatten(lines) + rest == s && LF !in rest && AllLines(lines)
  }

  /** Lines and Rest are characterised by what they are for: cutting s into lines and a remainder. */
  lemma SplitIff(s: seq<byte>, lines: seq<seq<byte>>, rest: seq<byte>)
    ensures IsSplit(s, lines, rest) <==> lines == Lines(s) && rest == Rest(s)
  {
    LinesAreLines(s);
    LinesRejoin(s);
    RestHasNoLineFeed(s);
    if IsSplit(s, lines, rest) {
      SplitIsUnique(lines, rest);
    }
  }

  // The lines of a received stream, with the registry each one meets.

  datatype Line = Line(text: seq<byte>, urcs: seq<Urc>)

  /** The complete lines of `partial` followed by the stream. */
  function StreamLines(partial: seq<byte>, input: seq<Rx>): seq<Line> {
    if input == [] then [] else
      var init, last := input[..|input| - 1], input[|input| - 1];
      if last.b == LF then
        StreamLines(partial, init) + [Line(StreamRest(partial, init) + [LF], last.urcs)]
      else
        StreamLines(partial, init)
  }

  function StreamRest(partial: seq<byte>, input: seq<Rx>): seq<byte> {
    if input == [] then partial else
      var last := input[|input| - 1];
      if last.b == LF then [] else StreamRest(partial, input[..|input| - 1]) + [last.b]
  }

  lemma StreamAppend(partial: seq<byte>, input: seq<Rx>, last: Rx)
    ensures var (rest, lines) := (StreamRest(partial, input), StreamLines(partial, input));
            StreamRest(partial, input + [last]) == (if last.b == LF then [] else rest + [last.b]) &&
            StreamLines(partial, input + [last]) ==
            if last.b == LF then lines + [Line(rest + [LF], last.urcs)] else lines
  {
    assert (input + [last])[..|input|] == input;
  }

  function Texts(lines: seq<Line>): (t: seq<seq<byte>>)
    ensures |t| == |lines| && forall i :: 0 <= i < |t| ==> t[i] == lines[i].text
  {
    seq(|lines|, i requires 0 <= i < |lines| => lines[i].text)
  }

  lemma TextsOfAppend(lines: seq<Line>, line: Line)
    ensures Texts(lines + [line]) == Texts(lines) + [line.text]
  {
  }

  /** The texts are the split of the bytes. */
  lemma {:induction false} StreamLinesAreLines(partial: seq<byte>, input: seq<Rx>)
    requires LF !in partial
    ensures Texts(StreamLines(partial, input)) == Lines(partial + BytesOf(input))
    ensures StreamRest(partial, input) == Rest(partial + BytesOf(input))
  {
    if input == [] {
      assert partial + BytesOf(input) == partial == Flatten([]) + partial;
      SplitIsUnique([], partial);
    } else {
      var init, last := input[..|input| - 1], input[|input| - 1];
      StreamLinesAreLines(partial, init);
      assert partial + BytesOf(input) == partial + BytesOf(init) + [last.b];
      SplitAppend(partial + BytesOf(init), last.b);
      TextsOfAppend(StreamLines(partial, init), Line(StreamRest(partial, init) + [LF], last.urcs));
    }
  }

  // What the 256-byte line buffer can hand on.

  predicate Fits(line: Line) {
    |line.text| <= LINE_LIMIT
  }

  /** The lines before the first over-long one. */
  function FittingPrefix(lines: seq<Line>): seq<Line> {
    if lines == [] || !Fits(lines[0]) then [] else [lines[0]] + FittingPrefix(lines[1..])
  }

  predicate AllFit(lines: seq<Line>) {
    forall i | 0 <= i < |lines| :: Fits(lines[i])
  }

  lemma {:induction false} FittingPrefixOfAppend(lines: seq<Line>, line: Line)
    ensures AllFit(lines) ==> FittingPrefix(lines) == lines
    ensures FittingPrefix(lines + [line]) ==
            if AllFit(lines) && Fits(line) then lines + [line] else FittingPrefix(lines)
  {
    if lines != [] {
      FittingPrefixOfAppend(lines[1..], line);
      assert (lines + [line])[1..] == lines[1..] + [line];
      assert AllFit(lines) <==> Fits(lines[0]) && AllFit(lines[1..]) by {
        if Fits(lines[0]) && AllFit(lines[1..]) {
          forall i | 0 <= i < |lines| ensures Fits(lines[i]) {
            assert i > 0 ==> Fits(lines[1..][i - 1]);
          }
        } else if !AllFit(lines[1..]) {
          var i :| 0 <= i < |lines[1..]| && !Fits(lines[1..][i]);
          assert !Fits(lines[i + 1]);
        }
      }
    } else {
      assert lines + [line] == [line];
      assert FittingPrefix([line][1..]) == [];
    }
  }

  /** The assembler is stuck: an over-long line has begun and nothing is ever handed on again. */
  predicate Overrun(partial: seq<byte>, input: seq<Rx>) {
    !AllFit(StreamLines(partial, input)) || |StreamRest(partial, input)| >= LINE_LIMIT
  }

  function Handed(partial: seq<byte>, input: seq<Rx>): seq<Line> {
    FittingPrefix(StreamLines(partial, input))
  }

  lemma OverrunPersists(partial: seq<byte>, input: seq<Rx>, last: Rx)
    requires Overrun(partial, input)
    ensures Overrun(partial, input + [last])
    ensures Handed(partial, input + [last]) == Handed(partial, input)
  {
    var all := input + [last];
    assert all[..|all| - 1] == input;
    var lines := StreamLines(partial, input);
    var line := Line(StreamRest(partial, input) + [LF], last.urcs);
    FittingPrefixOfAppend(lines, line);
    if last.b == LF {
      assert StreamLines(partial, all) == lines + [line];
      if AllFit(lines) {
        assert !Fits(StreamLines(partial, all)[|lines|]);
      } else {
        var i :| 0 <= i < |lines| && !Fits(lines[i]);
        assert !Fits(StreamLines(partial, all)[i]);
      }
    }
  }

  lemma HandedGrows(partial: seq<byte>, input: seq<Rx>, last: Rx)
    requires !Overrun(partial, input)
    ensures var line := Line(StreamRest(partial, input) + [LF], last.urcs);
            Handed(partial, input + [last]) ==
            if last.b == LF then Handed(partial, input) + [line] else Handed(partial, input)
    ensures Overrun(partial, input + [last]) <==>
            last.b != LF && |StreamRest(partial, input)| + 1 >= LINE_LIMIT
  {
    var all := input + [last];
    assert all[..|all| - 1] == input;
    FittingPrefixOfAppend(StreamLines(partial, input), Line(StreamRest(partial, input) + [LF], last.urcs));
  }

  // The assembler refines the split, over every history of the receive state.

  /** What the line buffer and the handed-on lines must be, given every byte ever routed to it. */
  ghost predicate AssembledFrom(handled: seq<seq<byte>>, line: seq<byte>, routed: seq<Rx>) {
    && handled == Texts(Handed([], routed))
    && (if Overrun([], routed) then |line| == LINE_LIMIT else line == StreamRest([], routed))
  }

  ghost predicate Assembled(s: RxState) {
    AssembledFrom(s.handled, s.line, s.routed)
  }

  /** One byte more, stored, dropped, or completing a line. */
  lemma AssembleOne(handled: seq<seq<byte>>, line: seq<byte>, routed: seq<Rx>, last: Rx)
    requires AssembledFrom(handled, line, routed) && |line| <= LINE_LIMIT
    ensures AssembledFrom(if |line| < LINE_LIMIT && last.b == LF then handled + [line + [LF]] else handled,
                          if |line| == LINE_LIMIT then line else if last.b == LF then [] else line + [last.b],
                          routed + [last])
  {
    StreamAppend([], routed, last);
    if Overrun([], routed) {
      OverrunPersists([], routed, last);
    } else {
      HandedGrows([], routed, last);
      TextsOfAppend(Handed([], routed), Line(line + [LF], last.urcs));
    }
  }

  /** What the line assembler does to its own state. */
  lemma LineByteFields(s: RxState, urcs: seq<Urc>, b: byte)
    requires Shape(s) && !InBinary(s)
    ensures var t := LineByte(s, urcs, b).0;
            t.routed == s.routed + [Rx(b, urcs)] &&
            t.line == (if |s.line| == LINE_LIMIT then s.line else if b == LF then [] else s.line + [b]) &&
            t.handled == if |s.line| < LINE_LIMIT && b == LF then s.handled + [s.line + [LF]] else s.handled
  {
  }

  lemma LineByteKeepsAssembled(s: RxState, urcs: seq<Urc>, b: byte)
    requires Shape(s) && !InBinary(s) && Assembled(s)
    ensures Assembled(LineByte(s, urcs, b).0)
  {
    LineByteFields(s, urcs, b);
    AssembleOne(s.handled, s.line, s.routed, Rx(b, urcs));
  }

  /** Whatever phase the engine is in: line, prompt or binary, so a partial line survives other phases. */
  lemma ByteStepKeepsAssembled(s: RxState, urcs: seq<Urc>, b: byte)
    requires Shape(s) && Assembled(s)
    ensures Assembled(ByteStep(s, urcs, b))
  {
    if s.task.None? || s.task.value.status == LineRecv {
      LineByteKeepsAssembled(s, urcs, b);
    }
  }

  lemma {:induction false} FittingPrefixSize(lines: seq<Line>)
    ensures |FittingPrefix(lines)| <= |lines|
    ensures |FittingPrefix(lines)| == |lines| <==> AllFit(lines)
  {
    if lines != [] {
      FittingPrefixSize(lines[1..]);
      if AllFit(lines) {
        FittingPrefixOfAppend(lines, lines[0]);
      } else if Fits(lines[0]) {
        var i :| 0 <= i < |lines| && !Fits(lines[i]);
        assert !Fits(lines[1..][i - 1]);
      }
    }
  }

  /** None is longer than the buffer can hand on. */
  predicate AllShort(texts: seq<seq<byte>>) {
    forall i | 0 <= i < |texts| :: |texts[i]| <= LINE_LIMIT
  }

  /** The lines that fit are all lines exactly when all fit. */
  lemma FittingIsAllIff(lines: seq<Line>)
    ensures Texts(FittingPrefix(lines)) == Texts(lines) <==> AllShort(Texts(lines))
  {
    FittingPrefixSize(lines);
    if AllFit(lines) {
      FittingPrefixOfAppend(lines, Line([], []));
    } else {
      var i :| 0 <= i < |lines| && !Fits(lines[i]);
      assert |Texts(lines)[i]| > LINE_LIMIT;
    }
  }

  /**
   * The lines handed on are those of all routed bytes exactly when each of them has at most 255 bytes; and
   * until the assembler is stuck the line buffer is the unfinished rest.
   */
  lemma AssemblerIsSplit(s: RxState)
    requires Assembled(s)
    ensures s.handled == Lines(BytesOf(s.routed)) <==> AllShort(Lines(BytesOf(s.routed)))
    ensures !Overrun([], s.routed) ==> s.line == Rest(BytesOf(s.routed))
  {
    StreamLinesAreLines([], s.routed);
    assert [] + BytesOf(s.routed) == BytesOf(s.routed);
    FittingIsAllIff(StreamLines([], s.routed));
  }

  /** Stuck for good exactly when 255 bytes have been routed since the last handed-on line feed. */
  lemma StuckIff(s: RxState)
    requires Shape(s) && Assembled(s)
    ensures |s.line| == LINE_LIMIT <==> Overrun([], s.routed)
  {
  }

  // A command received in lines.

  predicate Relevant(line: Line) {
    |line.text| > 2 && !IsUrcLine(line.urcs, line.text)
  }

  /** The line begins with the letters OK. */
  predicate SaysOk(text: seq<byte>) {
    |text| >= 2 && text[..2] == [79, 75]
  }

  /** The line begins with the letters ERROR. */
  predicate SaysError(text: seq<byte>) {
    |text| >= 5 && text[..5] == [69, 82, 82, 79, 82]
  }

  /** Ends the command. */
  predicate Final(line: Line) {
    Relevant(line) && (SaysOk(line.text) || SaysError(line.text))
  }

  /** A line is final exactly if it has over 2 bytes, no registered prefix starts it, and it says OK or ERROR. */
  lemma FinalIff(line: Line)
    ensures Final(line) <==>
            |line.text| > 2 && (forall u | u in line.urcs :: !(u.prefix <= line.text)) &&
            (SaysOk(line.text) || SaysError(line.text))
  {
  }

  /** The result is what the line says. */
  predicate Says(text: seq<byte>, result: AtcResult) {
    (result == Success <==> SaysOk(text)) && (result == Error <==> SaysError(text)) &&
    (result == Success || result == Error)
  }

  /** The markers the code compares with are these letters, and each stands for its result. */
  lemma FinalResultSays(text: seq<byte>)
    ensures FinalResult(text).Some? <==> SaysOk(text) || SaysError(text)
    ensures FinalResult(text).Some? ==> Says(text, FinalResult(text).value)
    ensures !(SaysOk(text) && SaysError(text))
  {
    if SaysOk(text) {
      assert text[0] == text[..2][0] == 79;
    }
    if SaysError(text) {
      assert text[0] == text[..5][0] == 69;
    }
  }

  /** A line handled with a command in flight ends it exactly if it says OK or ERROR, and as it says. */
  predicate EndsAsItSays(s: RxState, text: seq<byte>, t: RxState) {
    s.task.Some? ==>
      (t.task.None? <==> SaysOk(text) || SaysError(text)) &&
      (t.task.None? ==>
         |t.trace| == |s.trace| + 1 && t.trace[|s.trace|].Completed? && Says(text, t.trace[|s.trace|].result))
  }

  lemma NormalLineEndsAsItSays(s: RxState, text: seq<byte>)
    requires Shape(s) && !InBinary(s)
    ensures EndsAsItSays(s, text, Settle(NormalLine(s, text)))
  {
    FinalResultSays(text);
  }

  predicate NoFinal(lines: seq<Line>) {
    forall i | 0 <= i < |lines| :: !Final(lines[i])
  }

  /** The line is kept after this many bytes: it is relevant, and the total stays below 512. */
  predicate Joins(size: nat, line: Line) {
    Relevant(line) && size + |line.text| < 512
  }

  /** The greedy concatenation: each relevant line whole, or not at all. */
  function Greedy(lines: seq<Line>): (r: seq<byte>)
    ensures |r| < RESPONSE_MAX
  {
    if lines == [] then [] else
      var init, line := lines[..|lines| - 1], lines[|lines| - 1];
      if Joins(|Greedy(init)|, line) then Greedy(init) + line.text else Greedy(init)
  }

  /** The lines it keeps. */
  function Kept(lines: seq<Line>): seq<Line> {
    if lines == [] then [] else
      var init, line := lines[..|lines| - 1], lines[|lines| - 1];
      if Joins(|Greedy(init)|, line) then Kept(init) + [line] else Kept(init)
  }

  /** What C strings make of it: each kept line up to its first NUL. */
  function Collected(lines: seq<Line>): (r: seq<byte>)
    ensures |r| <= |Greedy(lines)| && NUL !in r
  {
    if lines == [] then [] else
      var init, line := lines[..|lines| - 1], lines[|lines| - 1];
      if Joins(|Greedy(init)|, line) then Collected(init) + line.text[..CLen(line.text)] else Collected(init)
  }

  /** The response handed over: the collected string, filled with zeros to the recorded length. */
  function Response(lines: seq<Line>): (r: seq<byte>)
    ensures |r| == |Greedy(lines)|
  {
    Collected(lines) + Zeros(|Greedy(lines)| - |Collected(lines)|)
  }

  /** The URC handlers called on the way. */
  function UrcTrace(lines: seq<Line>): seq<Event> {
    if lines == [] then [] else
      var line := lines[|lines| - 1];
      UrcTrace(lines[..|lines| - 1]) + (if |line.text| > 2 then Calls(line.urcs, line.text) else [])
  }

  ghost predicate FreshLineTask(s: RxState) {
    RxInv(s) && s.task.Some? && s.task.value.status == LineRecv && s.length == 0
  }

  /** Every text NUL-free. */
  predicate NulFree(lines: seq<Line>) {
    forall i | 0 <= i < |lines| :: NUL !in lines[i].text
  }

  /** Every line ends with its line feed. */
  predicate Terminated(lines: seq<Line>) {
    forall i | 0 <= i < |lines| :: lines[i].text != [] && lines[i].text[|lines[i].text| - 1] == LF
  }

  lemma WholeIffNulFree(text: seq<byte>)
    ensures CLen(text) == |text| <==> NUL !in text
  {
    assert text[..|text|] == text;
    if NUL !in text {
      CLenUnique(text, |text|);
    }
  }

  lemma NulFreeAppend(lines: seq<Line>, line: Line)
    ensures NulFree(lines + [line]) <==> NulFree(lines) && NUL !in line.text
  {
    assert (lines + [line])[|lines|] == line;
    assert forall i | 0 <= i < |lines| :: (lines + [line])[i] == lines[i];
  }

  /** Collecting shortens exactly at NULs in kept lines. */
  lemma {:induction false} CollectedWholeIff(lines: seq<Line>)
    ensures |Collected(lines)| == |Greedy(lines)| <==> NulFree(Kept(lines))
    ensures |Collected(lines)| == |Greedy(lines)| ==> Collected(lines) == Greedy(lines)
  {
    if lines != [] {
      var init, line := lines[..|lines| - 1], lines[|lines| - 1];
      CollectedWholeIff(init);
      WholeIffNulFree(line.text);
      NulFreeAppend(Kept(init), line);
      assert line.text[..|line.text|] == line.text;
    }
  }

  /** The total of the lines kept before leaves no room for the last one: the guard that drops it. */
  predicate DropsLast(lines: seq<Line>)
    requires lines != []
  {
    |Greedy(lines[..|lines| - 1])| + |lines[|lines| - 1].text| >= 512
  }

  /** The response leaves its last line out exactly when there is no room for it. */
  lemma ResponseWithoutLastIff(lines: seq<Line>)
    requires lines != [] && Relevant(lines[|lines| - 1])
    ensures Response(lines) == Response(lines[..|lines| - 1]) <==> DropsLast(lines)
  {
  }

  lemma {:induction false} GreedyIsTerminated(lines: seq<Line>)
    requires Terminated(lines)
    ensures Greedy(lines) != [] ==> Greedy(lines)[|Greedy(lines)| - 1] == LF
  {
    if lines != [] {
      GreedyIsTerminated(lines[..|lines| - 1]);
    }
  }

  /** The response is the greedy concatenation exactly when every kept line is NUL-free. */
  lemma ResponseIsGreedyIff(lines: seq<Line>)
    requires Terminated(lines)
    ensures Response(lines) == Greedy(lines) <==> NulFree(Kept(lines))
  {
    CollectedWholeIff(lines);
    GreedyIsTerminated(lines);
    if |Collected(lines)| < |Greedy(lines)| {
      assert Response(lines)[|Greedy(lines)| - 1] == NUL;
    }
  }

  /** The lines handed on are terminated. */
  lemma {:induction false} StreamLinesAreTerminated(partial: seq<byte>, input: seq<Rx>)
    ensures Terminated(StreamLines(partial, input))
  {
    if input != [] {
      StreamLinesAreTerminated(partial, input[..|input| - 1]);
    }
  }

  lemma {:induction false} PrefixIsTerminated(lines: seq<Line>)
    requires Terminated(lines)
    ensures Terminated(FittingPrefix(lines))
  {
    if lines != [] && Fits(lines[0]) {
      PrefixIsTerminated(lines[1..]);
    }
  }

  lemma HandedAreTerminated(partial: seq<byte>, input: seq<Rx>)
    ensures Terminated(Handed(partial, input))
  {
    StreamLinesAreTerminated(partial, input);
    PrefixIsTerminated(StreamLines(partial, input));
  }

  /** The response buffer holds what was collected, and zeros. */
  predicate Holds(t: RxState, lines: seq<Line>) {
    t.length == |Greedy(lines)| && t.response == Collected(lines) + Zeros(RESPONSE_MAX - |Collected(lines)|)
  }

  /** t is what s has become after handling these lines without a final one. */
  ghost predicate Running(s: RxState, t: RxState, lines: seq<Line>) {
    && RxInv(t) && t.task == s.task && t.window == s.window && t.freed == s.freed
    && t.trace == s.trace + UrcTrace(lines) && Holds(t, lines)
  }

  lemma HeldResponse(t: RxState, lines: seq<Line>)
    requires Holds(t, lines)
    ensures t.length <= |t.response| && t.response[..t.length] == Response(lines)
  {
  }

  /** strncat behind a collected string adds the line up to its first NUL. */
  lemma AppendCollects(dest: seq<byte>, collected: seq<byte>, text: seq<byte>)
    requires |collected| + |text| < |dest| && NUL !in collected
    requires dest == collected + Zeros(|dest| - |collected|)
    ensures CLen(dest) == |collected|
    ensures var more := collected + text[..CLen(text)];
            StrCat(dest, text) == more + Zeros(|dest| - |more|)
  {
    assert dest[..|collected|] == collected;
    CLenUnique(dest, |collected|);
    var more := collected + text[..CLen(text)];
    forall i | 0 <= i < |dest| ensures StrCat(dest, text)[i] == (more + Zeros(|dest| - |more|))[i] {
      StrCatAt(dest, text, i);
    }
  }

  /** The response after one more relevant line, final or not. */
  lemma PushedIsGreedy(t: RxState, lines: seq<Line>, line: Line)
    requires Shape(t) && Holds(t, lines) && !InBinary(t) && Relevant(line)
    ensures Holds(PushResponse(t, line.text), lines + [line])
  {
    assert (lines + [line])[..|lines|] == lines;
    if Joins(|Greedy(lines)|, line) {
      AppendCollects(t.response, Collected(lines), line.text);
    }
  }

  /** What the line buffer holds after the stream. */
  ghost predicate Buffered(partial: seq<byte>, input: seq<Rx>, t: RxState) {
    if Overrun(partial, input) then |t.line| == LINE_LIMIT else t.line == StreamRest(partial, input)
  }

  lemma OneRelevantLine(s: RxState, t: RxState, lines: seq<Line>, line: Line)
    requires FreshLineTask(s) && Running(s, t, lines) && Relevant(line) && !Final(line)
    requires RxInv(PushResponse(t, line.text))
    ensures Running(s, PushResponse(t, line.text), lines + [line])
  {
    assert (lines + [line])[..|lines|] == lines;
    CallsIffUrcLine(line.urcs, line.text);
    PushedIsGreedy(t, lines, line);
  }

  lemma OneIgnoredLine(s: RxState, t: RxState, lines: seq<Line>, line: Line)
    requires FreshLineTask(s) && Running(s, t, lines) && !Relevant(line)
    requires RxInv(LineEffect(t, line.urcs, line.text).0)
    ensures Running(s, LineEffect(t, line.urcs, line.text).0, lines + [line])
  {
    assert (lines + [line])[..|lines|] == lines;
  }

  /** One more handed-on line, not final: a short one, a URC or a plain one. */
  lemma OneLine(s: RxState, t: RxState, lines: seq<Line>, line: Line)
    requires FreshLineTask(s) && Running(s, t, lines) && !Final(line)
    requires RxInv(LineEffect(t, line.urcs, line.text).0)
    ensures LineEffect(t, line.urcs, line.text).1.None?
    ensures Running(s, LineEffect(t, line.urcs, line.text).0, lines + [line])
  {
    FinalResultSays(line.text);
    if Relevant(line) {
      OneRelevantLine(s, t, lines, line);
    } else {
      OneIgnoredLine(s, t, lines, line);
    }
  }

  /** The state in which the assembler hands a completed line on. */
  function AtLineEnd(t: RxState, last: Rx): RxState {
    t.(routed := t.routed + [last], line := [], handled := t.handled + [t.line + [LF]])
  }

  lemma RunningAtLineEnd(s: RxState, t: RxState, lines: seq<Line>, last: Rx)
    requires Running(s, t, lines) && last.b == LF
    ensures Running(s, AtLineEnd(t, last), lines)
  {
    assert BytesOf(t.routed + [last]) == BytesOf(t.routed) + [LF];
  }

  lemma OneByte(s: RxState, t: RxState, input: seq<Rx>, last: Rx)
    requires FreshLineTask(s)
    requires Running(s, t, Handed(s.line, input)) && Buffered(s.line, input, t)
    requires NoFinal(Handed(s.line, input + [last]))
    ensures var u := ByteStep(t, last.urcs, last.b);
            Running(s, u, Handed(s.line, input + [last])) && Buffered(s.line, input + [last], u)
  {
    ByteStepKeepsInv(t, last.urcs, last.b);
    if Overrun(s.line, input) {
      OverrunPersists(s.line, input, last);
    } else {
      HandedGrows(s.line, input, last);
      assert (input + [last])[..|input|] == input;
      if last.b == LF {
        var lines, line := Handed(s.line, input), Line(t.line + [LF], last.urcs);
        assert (lines + [line])[|lines|] == line;
        OneLineFeed(s, t, lines, last);
      }
    }
  }

  /** The line feed that completes a line which is not final. */
  lemma OneLineFeed(s: RxState, t: RxState, lines: seq<Line>, last: Rx)
    requires FreshLineTask(s) && Running(s, t, lines) && last.b == LF && |t.line| < LINE_LIMIT
    requires !Final(Line(t.line + [LF], last.urcs))
    ensures var u := ByteStep(t, last.urcs, last.b);
            Running(s, u, lines + [Line(t.line + [LF], last.urcs)]) && u.line == []
  {
    RunningAtLineEnd(s, t, lines, last);
    LineByteKeepsInv(t, last.urcs, last.b);
    OneLine(s, AtLineEnd(t, last), lines, Line(t.line + [LF], last.urcs));
  }

  lemma {:induction false} LineTaskRunning(s: RxState, input: seq<Rx>)
    requires FreshLineTask(s) && NoFinal(Handed(s.line, input))
    ensures Running(s, Feed(s, input), Handed(s.line, input)) && Buffered(s.line, input, Feed(s, input))
  {
    if input == [] {
      assert s.response == Zeros(RESPONSE_MAX);
    } else {
      var init, last := input[..|input| - 1], input[|input| - 1];
      assert input == init + [last];
      HandedExtends(s.line, init, last);
      LineTaskRunning(s, init);
      OneByte(s, Feed(s, init), init, last);
    }
  }

  lemma HandedExtends(partial: seq<byte>, input: seq<Rx>, last: Rx)
    ensures Handed(partial, input) <= Handed(partial, input + [last])
    ensures NoFinal(Handed(partial, input + [last])) ==> NoFinal(Handed(partial, input))
  {
    if Overrun(partial, input) {
      OverrunPersists(partial, input, last);
    } else {
      HandedGrows(partial, input, last);
    }
    var before, after := Handed(partial, input), Handed(partial, input + [last]);
    assert forall i | 0 <= i < |before| :: before[i] == after[i];
  }

  /** The lines handed on when the last byte brings the first final one. */
  lemma FirstFinalLine(partial: seq<byte>, input: seq<Rx>, last: Rx)
    requires NoFinal(Handed(partial, input)) && !NoFinal(Handed(partial, input + [last]))
    ensures !Overrun(partial, input) && last.b == LF
    ensures var line := Line(StreamRest(partial, input) + [LF], last.urcs);
            Final(line) && Handed(partial, input + [last]) == Handed(partial, input) + [line]
  {
    if Overrun(partial, input) {
      OverrunPersists(partial, input, last);
    } else {
      HandedGrows(partial, input, last);
      var before, lines := Handed(partial, input), Handed(partial, input + [last]);
      var i :| 0 <= i < |lines| && Final(lines[i]);
      assert forall k | 0 <= k < |before| :: lines[k] == before[k];
    }
  }

  lemma FinalLineEnds(s: RxState, t: RxState, lines: seq<Line>, last: Rx)
    requires FreshLineTask(s) && Running(s, t, lines) && last.b == LF && |t.line| < LINE_LIMIT
    requires Final(Line(t.line + [LF], last.urcs))
    ensures var u, line := ByteStep(t, last.urcs, last.b), Line(t.line + [LF], last.urcs);
            u.task.None? && |u.trace| == |t.trace| + 1 && t.trace <= u.trace &&
            var event := u.trace[|t.trace|];
            event.Completed? && event.req == s.task.value.req &&
            Says(line.text, event.result) &&
            event.response == Response(lines + [line])
  {
    FinalResultSays(t.line + [LF]);
    var line := Line(t.line + [LF], last.urcs);
    RunningAtLineEnd(s, t, lines, last);
    PushedIsGreedy(AtLineEnd(t, last), lines, line);
    var pushed := PushResponse(AtLineEnd(t, last), line.text);
    HeldResponse(pushed, lines + [line]);
    assert ByteStep(t, last.urcs, last.b) == CommandEnd(pushed, FinalResult(line.text).value);
  }

  /**
   * The byte that completes the first final line ends the command with that line's result, after the
   * URC calls made on the way. The handler is given the relevant lines that fit, the final one included,
   * each up to its first NUL, then zeros up to their full length: the greedy concatenation itself exactly
   * when every line kept is NUL-free, and the response of the lines before the final one exactly when
   * there is no room for that.
   */
  lemma EndsAtFirstFinalLine(s: RxState, input: seq<Rx>, last: Rx)
    requires FreshLineTask(s)
    requires NoFinal(Handed(s.line, input)) && !NoFinal(Handed(s.line, input + [last]))
    ensures var t, lines := Feed(s, input + [last]), Handed(s.line, input + [last]);
            lines != [] && Final(lines[|lines| - 1]) && NoFinal(lines[..|lines| - 1]) && t.task.None? &&
            var before := s.trace + UrcTrace(lines[..|lines| - 1]);
            |t.trace| == |before| + 1 && before <= t.trace &&
            var event := t.trace[|before|];
            event.Completed? && event.req == s.task.value.req &&
            Says(lines[|lines| - 1].text, event.result) &&
            event.response == Response(lines) &&
            (event.response == Greedy(lines) <==> NulFree(Kept(lines))) &&
            (event.response == Response(lines[..|lines| - 1]) <==> DropsLast(lines))
  {
    LineTaskRunning(s, input);
    FirstFinalLine(s.line, input, last);
    var t, before := Feed(s, input), Handed(s.line, input);
    var line := Line(t.line + [LF], last.urcs);
    FinalLineEnds(s, t, before, last);
    assert (input + [last])[..|input|] == input;
    var lines := before + [line];
    assert lines[..|before|] == before && lines[|before|] == line;
    HandedAreTerminated(s.line, input + [last]);
    ResponseIsGreedyIff(lines);
    ResponseWithoutLastIff(lines);
  }

  /** Main result: the command has ended within the stream exactly when a final line was handed on. */
  lemma {:induction false} LineTaskEndsIff(s: RxState, input: seq<Rx>)
    requires FreshLineTask(s)
    ensures Feed(s, input).task.None? <==> !NoFinal(Handed(s.line, input))
  {
    if NoFinal(Handed(s.line, input)) {
      LineTaskRunning(s, input);
    } else {
      assert Handed(s.line, []) == [];
      var init, last := input[..|input| - 1], input[|input| - 1];
      assert input == init + [last];
      if NoFinal(Handed(s.line, init)) {
        EndsAtFirstFinalLine(s, init, last);
      } else {
        LineTaskEndsIff(s, init);
      }
    }
  }

  /** With every line at most 255 bytes long, the handed-on lines are simply the lines of the stream. */
  lemma HandedIsSplit(partial: seq<byte>, input: seq<Rx>)
    requires LF !in partial && AllFit(StreamLines(partial, input))
    ensures Texts(Handed(partial, input)) == Lines(partial + BytesOf(input))
  {
    FittingPrefixOfAppend(StreamLines(partial, input), Line([], []));
    StreamLinesAreLines(partial, input);
  }

  // Concrete streams, met by an empty registry.

  lemma {:induction false} BodyArrives(partial: seq<byte>, input: seq<Rx>, body: seq<byte>)
    requires LF !in body
    ensures StreamLines(partial, input + Stamped(body, [])) == StreamLines(partial, input)
    ensures StreamRest(partial, input + Stamped(body, [])) == StreamRest(partial, input) + body
  {
    if body == [] {
      assert input + Stamped(body, []) == input;
    } else {
      var init, last := body[..|body| - 1], body[|body| - 1];
      assert body == init + [last];
      BodyArrives(partial, input, init);
      StampedBehind(input, init, last);
      StreamAppend(partial, input + Stamped(init, []), Rx(last, []));
    }
  }

  /** One more whole line. */
  lemma LineArrives(partial: seq<byte>, input: seq<Rx>, text: seq<byte>)
    requires IsLine(text) && StreamRest(partial, input) == []
    ensures StreamLines(partial, input + Stamped(text, [])) == StreamLines(partial, input) + [Line(text, [])]
    ensures StreamRest(partial, input + Stamped(text, [])) == []
  {
    var body := text[..|text| - 1];
    assert text == body + [LF] && [] + body == body;
    BodyArrives(partial, input, body);
    StampedBehind(input, body, LF);
    StreamAppend(partial, input + Stamped(body, []), Rx(LF, []));
  }

  lemma StampedBehind(input: seq<Rx>, body: seq<byte>, b: byte)
    ensures input + Stamped(body + [b], []) == input + Stamped(body, []) + [Rx(b, [])]
  {
    StampedAppend(body, b, []);
  }

  lemma FirstLineArrives(partial: seq<byte>, text: seq<byte>)
    requires IsLine(text) && partial == []
    ensures StreamLines(partial, Stamped(text, [])) == [Line(text, [])]
    ensures StreamRest(partial, Stamped(text, [])) == []
  {
    var none: seq<Rx> := [];
    assert none + Stamped(text, []) == Stamped(text, []) && [] + [Line(text, [])] == [Line(text, [])];
    LineArrives(partial, none, text);
  }

  lemma KeptAlone(line: Line)
    requires Joins(0, line)
    ensures Greedy([line]) == line.text && Collected([line]) == line.text[..CLen(line.text)]
  {
    assert [line][..0] == [];
  }

  lemma WholeAlone(text: seq<byte>)
    requires 2 < |text| < RESPONSE_MAX && NUL !in text
    ensures Response([Line(text, [])]) == Greedy([Line(text, [])]) == Collected([Line(text, [])]) == text
  {
    KeptAlone(Line(text, []));
    WholeIffNulFree(text);
    assert text[..|text|] == text;
  }

  lemma WholeTwice(text: seq<byte>)
    requires 2 < |text| && 2 * |text| < RESPONSE_MAX && NUL !in text
    ensures var lines := [Line(text, [])] + [Line(text, [])];
            Response(lines) == text + text && |Greedy(lines)| == 2 * |text|
  {
    WholeAlone(text);
    WholeIffNulFree(text);
    assert text[..|text|] == text;
    KeptAgain([Line(text, [])], Line(text, []));
  }

  lemma KeptAgain(lines: seq<Line>, line: Line)
    requires Joins(|Greedy(lines)|, line)
    ensures Greedy(lines + [line]) == Greedy(lines) + line.text
    ensures Collected(lines + [line]) == Collected(lines) + line.text[..CLen(line.text)]
  {
    assert (lines + [line])[..|lines|] == lines;
  }

  lemma FirstHanded(partial: seq<byte>, text: seq<byte>)
    requires IsLine(text) && partial == [] && |text| <= LINE_LIMIT
    ensures Handed(partial, Stamped(text, [])) == [Line(text, [])]
  {
    var line := Line(text, []);
    FirstLineArrives(partial, text);
    assert [line][1..] == [] && FittingPrefix([line][1..]) == [];
  }

  /** Of a line with a NUL the C string functions keep only the part before it. */
  lemma OneLineCollected(s: RxState, input: seq<Rx>, line: Line)
    requires FreshLineTask(s) && Handed(s.line, input) == [line] && Joins(0, line) && !Final(line)
    ensures var (t, n) := (Feed(s, input), CLen(line.text));
            t.length == |line.text| <= |t.response| &&
            t.response[..t.length] == line.text[..n] + Zeros(|line.text| - n)
  {
    LineTaskRunning(s, input);
    HeldAlone(Feed(s, input), line);
  }

  lemma HeldAlone(t: RxState, line: Line)
    requires Holds(t, [line]) && Joins(0, line)
    ensures var n := CLen(line.text);
            t.length == |line.text| <= |t.response| &&
            t.response[..t.length] == line.text[..n] + Zeros(|line.text| - n)
  {
    KeptAlone(line);
    HeldResponse(t, [line]);
  }

  /** Of the line A NUL LF only the A is collected, where the greedy response has all. */
  lemma NulCutsResponse(s: RxState, text: seq<byte>)
    requires FreshLineTask(s) && s.line == [] && text == [65, NUL, LF]
    ensures var t := Feed(s, Stamped(text, []));
            Greedy(Handed(s.line, Stamped(text, []))) == text &&
            t.length == 3 <= |t.response| && t.response[..t.length] == [65, NUL, NUL]
  {
    CLenUnique(text, 1);
    FirstHanded(s.line, text);
    KeptAlone(Line(text, []));
    OneLineCollected(s, Stamped(text, []), Line(text, []));
  }

  /** The command has ended as this line says, and its handler was given this response. */
  predicate Answered(t: RxState, text: seq<byte>, response: seq<byte>) {
    t.task.None? && t.trace != [] &&
    var event := t.trace[|t.trace| - 1];
    event.Completed? && Says(text, event.result) && event.response == response
  }

  /** A final line behind others, none of them final: what the handler is given. */
  lemma FinalLineArrives(s: RxState, input: seq<Rx>, lines: seq<Line>, text: seq<byte>)
    requires FreshLineTask(s) && IsLine(text) && |text| <= LINE_LIMIT && Final(Line(text, []))
    requires StreamLines(s.line, input) == lines && StreamRest(s.line, input) == []
    requires AllFit(lines) && NoFinal(lines)
    ensures Answered(Feed(s, input + Stamped(text, [])), text, Response(lines + [Line(text, [])]))
  {
    var (body, last, line) := (text[..|text| - 1], Rx(LF, []), Line(text, []));
    var init := input + Stamped(body, []);
    assert text == body + [LF];
    StampedBehind(input, body, LF);
    BodyArrives(s.line, input, body);
    LineArrives(s.line, input, text);
    FittingPrefixOfAppend(lines, line);
    assert (lines + [line])[|lines|] == line;
    EndsAtFirstFinalLine(s, init, last);
  }

  lemma FirstLineEnds(s: RxState, none: seq<Rx>, before: seq<Line>, text: seq<byte>)
    requires FreshLineTask(s) && s.line == [] && IsLine(text) && |text| <= LINE_LIMIT && Final(Line(text, []))
    requires none == [] && before == []
    ensures Answered(Feed(s, none + Stamped(text, [])), text, Response(before + [Line(text, [])]))
  {
    FinalLineArrives(s, none, before, text);
  }

  /** A lone final line is the response. */
  lemma FinalLineAlone(s: RxState, text: seq<byte>)
    requires FreshLineTask(s) && s.line == [] && IsLine(text) && |text| <= LINE_LIMIT && NUL !in text
    requires Final(Line(text, []))
    ensures Answered(Feed(s, Stamped(text, [])), text, text)
  {
    FirstLineEnds(s, [], [], text);
    Alone([], Stamped(text, []));
    Alone([], [Line(text, [])]);
    WholeAlone(text);
  }

  lemma Alone<T>(none: seq<T>, some: seq<T>)
    requires none == []
    ensures none + some == some
  {
  }

  /** Behind lines that leave no room for it, the final line is not in the response. */
  lemma FinalLineDropped(s: RxState, input: seq<Rx>, lines: seq<Line>, text: seq<byte>)
    requires FreshLineTask(s) && IsLine(text) && |text| <= LINE_LIMIT && Final(Line(text, []))
    requires StreamLines(s.line, input) == lines && StreamRest(s.line, input) == []
    requires AllFit(lines) && NoFinal(lines) && |Greedy(lines)| + |text| >= RESPONSE_MAX
    ensures Answered(Feed(s, input + Stamped(text, [])), text, Response(lines))
  {
    FinalLineArrives(s, input, lines, text);
    var all := lines + [Line(text, [])];
    assert all[..|lines|] == lines && all[|lines|] == Line(text, []);
    ResponseWithoutLastIff(all);
  }

  predicate IsOkLine(text: seq<byte>) {
    text == [79, 75, 13, LF]
  }

  lemma OkLineIsFinal(text: seq<byte>)
    requires IsOkLine(text)
    ensures IsLine(text) && |text| == 4 && NUL !in text && Final(Line(text, []))
  {
  }

  /** The response is documented as the lines before OK: of a lone OK line it is that line. */
  lemma OkIsIncluded(s: RxState, ok: seq<byte>)
    requires FreshLineTask(s) && s.line == [] && IsOkLine(ok)
    ensures Answered(Feed(s, Stamped(ok, [])), ok, ok)
  {
    OkLineIsFinal(ok);
    FinalLineAlone(s, ok);
  }

  /** Behind two lines of 255 bytes there is no room for the OK line, and the response is as documented. */
  lemma OkIsDropped(s: RxState, long: seq<byte>, ok: seq<byte>)
    requires FreshLineTask(s) && s.line == [] && IsOkLine(ok)
    requires IsLine(long) && |long| == LINE_LIMIT && NUL !in long && !SaysOk(long) && !SaysError(long)
    ensures Answered(Feed(s, Stamped(long, []) + Stamped(long, []) + Stamped(ok, [])), ok, long + long)
  {
    FirstLineArrives(s.line, long);
    LineArrives(s.line, Stamped(long, []), long);
    WholeTwice(long);
    OkLineIsFinal(ok);
    FinalLineDropped(s, Stamped(long, []) + Stamped(long, []), [Line(long, [])] + [Line(long, [])], ok);
  }
}
