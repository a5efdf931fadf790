/**
 * From the bytes to the result: over every run, what a command is ended with, and what its handler is
 * given, is the short function of the bytes drained since its task started.
 */
module EngineStreams {
  import opened Bytes
  import opened AtcTypes
  import opened ReceiveSpec
  import opened PromptTheory
  import opened LineTheory
  import opened Ticks
  import opened Engine
  import opened EngineTasks
  import opened EngineTime

  /** The receive state without its history of events. */
  function Blind(s: RxState): RxState {
    s.(trace := [])
  }

  /** Events never influence what a byte does. */
  lemma EffectIsBlind(a: RxState, b: RxState, x: Rx)
    requires Shape(a) && Blind(a) == Blind(b)
    ensures Shape(b)
    ensures var (ea, eb) := (ByteEffect(a, x.urcs, x.b), ByteEffect(b, x.urcs, x.b));
            Blind(ea.0) == Blind(eb.0) && ea.1 == eb.1
  {
    assert b == a.(trace := b.trace);
  }

  /** A task that has just been started. */
  ghost predicate FreshTask(s: RxState) {
    RxInv(s) && s.task.Some? && s.length == 0 && s.window == [] &&
    s.task.value.status == InitialStatus(s.task.value.req)
  }

  /** The last byte fed ended the command with this result, and rx is what it left for the handler. */
  ghost predicate LastByteEnds(origin: RxState, fed: seq<Rx>, rx: RxState, result: AtcResult)
    requires Shape(origin)
  {
    fed != [] &&
    var (before, last) := (Feed(origin, fed[..|fed| - 1]), fed[|fed| - 1]);
    var (t, end) := ByteEffect(before, last.urcs, last.b);
    before.task.Some? && t.task.Some? && end == Some(result) && Blind(t) == Blind(rx)
  }

  predicate ByData(result: AtcResult) {
    result == Success || result == Error
  }

  /** The task in flight started at origin, and its receive state is origin fed with every byte drained since. */
  ghost predicate FedSince(loop: Loop, rx: RxState, origin: RxState, fed: seq<Rx>)
    requires rx.task.Some?
  {
    FreshTask(origin) && rx.task.value.req == origin.task.value.req &&
    (!Ending(loop) || (loop.EndReply? && !ByData(loop.result)) ==> Blind(rx) == Blind(Feed(origin, fed))) &&
    (loop.EndReply? && ByData(loop.result) ==> LastByteEnds(origin, fed, rx, loop.result))
  }

  ghost predicate InStream(loop: Loop, rx: RxState, origin: RxState, fed: seq<Rx>) {
    rx.task.Some? ==> FedSince(loop, rx, origin, fed)
  }

  /** The receive state in which the latest task started. */
  function NextOrigin(origin: RxState, step: Step, m': M): RxState {
    if step == OfLoop(AllocTask(true)) then m'.rx else origin
  }

  /** The bytes drained since, each with the registry it met. */
  function NextFed(m: M, fed: seq<Rx>, step: Step): seq<Rx> {
    if step == OfLoop(AllocTask(true)) then []
    else if step.OfLoop? && step.l.DrainByte? && m.ring != [] then fed + [Rx(m.ring[0], m.reg.urcs)]
    else fed
  }

  function Origin(states: seq<M>, steps: seq<Step>, n: nat): RxState
    requires |states| == |steps| + 1 && n < |states|
  {
    if n == 0 then INITIAL else NextOrigin(Origin(states, steps, n - 1), steps[n - 1], states[n])
  }

  function Fed(states: seq<M>, steps: seq<Step>, n: nat): seq<Rx>
    requires |states| == |steps| + 1 && n < |states|
  {
    if n == 0 then [] else NextFed(states[n - 1], Fed(states, steps, n - 1), steps[n - 1])
  }

  lemma TaskStarts(m: M)
    requires RxKept(m) && Sane(m) && CanLoop(m, AllocTask(true))
    ensures var rx := NextRx(m, AllocTask(true)); InStream(NextLoop(m, AllocTask(true)), rx, rx, [])
  {
    BeginKeepsInv(m.rx, m.loop.req, m.nextHandle, Tick(m.now));
  }

  lemma FeedOne(origin: RxState, fed: seq<Rx>, x: Rx)
    requires Shape(origin)
    ensures Feed(origin, fed + [x]) == ByteStep(Feed(origin, fed), x.urcs, x.b)
  {
    assert (fed + [x])[..|fed|] == fed;
  }

  /** A byte that does not end the command is one step of the pure fold. */
  lemma StepOfByte(before: RxState, x: Rx)
    requires Shape(before) && ByteEffect(before, x.urcs, x.b).1.None?
    ensures ByteStep(before, x.urcs, x.b) == ByteEffect(before, x.urcs, x.b).0
  {
  }

  /** A drained byte moves the stream and the receive state alike. */
  lemma ByteFollows(rx: RxState, origin: RxState, fed: seq<Rx>, x: Rx, rx': RxState)
    requires Shape(origin) && Blind(rx) == Blind(Feed(origin, fed)) && Received(rx, x.urcs, x.b, rx', None)
    ensures Blind(rx') == Blind(Feed(origin, fed + [x]))
  {
    var before := Feed(origin, fed);
    calc {
      Blind(rx');
    == { EffectIsBlind(rx, before, x); }
      Blind(ByteEffect(before, x.urcs, x.b).0);
    == { EffectIsBlind(rx, before, x); StepOfByte(before, x); }
      Blind(ByteStep(before, x.urcs, x.b));
    == { FeedOne(origin, fed, x); }
      Blind(Feed(origin, fed + [x]));
    }
  }

  lemma ByteEnds(rx: RxState, origin: RxState, fed: seq<Rx>, x: Rx, rx': RxState, result: AtcResult)
    requires Shape(origin) && rx.task.Some? && Blind(rx) == Blind(Feed(origin, fed))
    requires Received(rx, x.urcs, x.b, rx', Some(result))
    ensures LastByteEnds(origin, fed + [x], rx', result)
  {
    EffectIsBlind(rx, Feed(origin, fed), x);
    ByteEffectAddsCalls(rx, x.urcs, x.b);
    assert (fed + [x])[..|fed|] == fed;
  }

  /** Where the byte leads: on with the drain, or to the end of the command. */
  lemma ByteStaysInStream(rx: RxState, origin: RxState, fed: seq<Rx>, x: Rx, rx': RxState, end: Option<AtcResult>)
    requires rx.task.Some? && InStream(Drain, rx, origin, fed) && Received(rx, x.urcs, x.b, rx', end)
    ensures rx'.task.Some?
    ensures InStream(if end.Some? then EndReply(end.value, ToDrain) else Drain, rx', origin, fed + [x])
  {
    ByteEffectAddsCalls(rx, x.urcs, x.b);
    ByteEndsByData(rx, x.urcs, x.b);
    if end.None? {
      ByteFollows(rx, origin, fed, x, rx');
    } else {
      ByteEnds(rx, origin, fed, x, rx', end.value);
    }
  }

  lemma DrainFollows(m: M, s: LoopStep, origin: RxState, fed: seq<Rx>)
    requires InStream(m.loop, m.rx, origin, fed) && Sane(m) && CanLoop(m, s) && s.DrainByte? && Honest(m, s)
    ensures InStream(NextLoop(m, s), NextRx(m, s), origin, fed + [Rx(m.ring[0], m.reg.urcs)])
  {
    if m.rx.task.Some? {
      ByteStaysInStream(m.rx, origin, fed, Rx(m.ring[0], m.reg.urcs), s.rx, s.end);
    } else {
      ByteEffectAddsCalls(m.rx, m.reg.urcs, m.ring[0]);
    }
  }

  lemma OtherStepIsQuiet(m: M, s: LoopStep)
    requires Phases(m.loop, m.rx.task) && Sane(m) && CanLoop(m, s) && !s.DrainByte? && s != AllocTask(true)
    ensures var (loop', rx') := (NextLoop(m, s), NextRx(m, s));
            rx'.task.Some? ==>
              m.rx.task.Some? && Blind(rx') == Blind(m.rx) && (!Ending(loop') ==> !Ending(m.loop)) &&
              (loop'.EndReply? ==> !ByData(loop'.result) && !Ending(m.loop))
  {
  }

  lemma OtherStepFollows(m: M, s: LoopStep, origin: RxState, fed: seq<Rx>)
    requires InStream(m.loop, m.rx, origin, fed) && Phases(m.loop, m.rx.task) && Sane(m) && CanLoop(m, s)
    requires !s.DrainByte? && s != AllocTask(true)
    ensures InStream(NextLoop(m, s), NextRx(m, s), origin, fed)
  {
    OtherStepIsQuiet(m, s);
  }

  lemma StepFollows(m: M, step: Step, m': M, origin: RxState, fed: seq<Rx>)
    requires Inv(m) && Follows(m, step, m') && InStream(m.loop, m.rx, origin, fed)
    ensures InStream(m'.loop, m'.rx, NextOrigin(origin, step, m'), NextFed(m, fed, step))
  {
    if step == OfLoop(AllocTask(true)) {
      TaskStarts(m);
    } else if step.OfLoop? && step.l.DrainByte? {
      DrainFollows(m, step.l, origin, fed);
    } else if step.OfLoop? {
      OtherStepFollows(m, step.l, origin, fed);
    }
  }

  lemma RunStepFollows(states: seq<M>, steps: seq<Step>, n: nat, origin: RxState, fed: seq<Rx>)
    requires Engine.Run(states, steps) && n < |steps| && InStream(states[n].loop, states[n].rx, origin, fed)
    ensures InStream(states[n + 1].loop, states[n + 1].rx, NextOrigin(origin, steps[n], states[n + 1]),
                     NextFed(states[n], fed, steps[n]))
  {
    RunKeepsInv(states, steps, n);
    RunStep(states, steps, n);
    StepFollows(states[n], steps[n], states[n + 1], origin, fed);
  }

  lemma StartFollows(m: M)
    requires Start(m)
    ensures InStream(m.loop, m.rx, INITIAL, [])
  {
  }

  lemma HistoryStep(states: seq<M>, steps: seq<Step>, n: nat)
    requires |states| == |steps| + 1 && n < |steps|
    ensures Origin(states, steps, n + 1) == NextOrigin(Origin(states, steps, n), steps[n], states[n + 1])
    ensures Fed(states, steps, n + 1) == NextFed(states[n], Fed(states, steps, n), steps[n])
  {
  }

  lemma {:induction false} RunFollows(states: seq<M>, steps: seq<Step>, n: nat)
    returns (origin: RxState, fed: seq<Rx>)
    requires Engine.Run(states, steps) && n < |states|
    ensures origin == Origin(states, steps, n) && fed == Fed(states, steps, n)
    ensures InStream(states[n].loop, states[n].rx, origin, fed)
  {
    if n == 0 {
      origin, fed := INITIAL, [];
      RunStart(states, steps);
      StartFollows(states[0]);
    } else {
      origin, fed := RunFollows(states, steps, n - 1);
      HistoryStep(states, steps, n - 1);
      RunStepFollows(states, steps, n - 1, origin, fed);
      origin, fed := NextOrigin(origin, steps[n - 1], states[n]), NextFed(states[n - 1], fed, steps[n - 1]);
    }
  }

  // What that means for the two kinds of task.

  lemma LastEvent(origin: RxState, fed: seq<Rx>, rx: RxState, result: AtcResult)
    requires Shape(origin) && rx.length <= |rx.response| && LastByteEnds(origin, fed, rx, result)
    ensures var (before, after) := (Feed(origin, fed[..|fed| - 1]), Feed(origin, fed));
            before.task.Some? && after.task.None? && EndsWith(after.trace, result, rx.response[..rx.length])
  {
    var (init, last) := (fed[..|fed| - 1], fed[|fed| - 1]);
    assert fed == init + [last];
    var t := ByteEffect(Feed(origin, init), last.urcs, last.b).0;
    assert t.response == rx.response && t.length == rx.length;
  }

  /**
   * The last of these lines is the first final one; it decides the result, and all make up the response,
   * which is the greedy concatenation exactly when the lines kept are NUL-free, and leaves the final line
   * out exactly when there is no room for it.
   */
  ghost predicate LineAnswer(lines: seq<Line>, result: AtcResult, response: seq<byte>) {
    lines != [] && NoFinal(lines[..|lines| - 1]) && Final(lines[|lines| - 1]) &&
    Says(lines[|lines| - 1].text, result) && response == Response(lines) &&
    (response == Greedy(lines) <==> NulFree(Kept(lines))) &&
    (response == Response(lines[..|lines| - 1]) <==> DropsLast(lines))
  }

  /** The last `need` bytes are those after the first occurrence of the prompt, and make up the response. */
  ghost predicate PromptAnswer(req: SendReq, bytes: seq<byte>, result: AtcResult, response: seq<byte>) {
    result == Success && Recognisable(req.prompt) && req.need <= |bytes| &&
    FirstEnd(req.prompt, bytes, |bytes| - req.need) && response == bytes[|bytes| - req.need..]
  }

  lemma LineResult(origin: RxState, fed: seq<Rx>, rx: RxState, result: AtcResult)
    requires FreshTask(origin) && origin.task.value.req.promptBlock.None?
    requires rx.length <= |rx.response| && LastByteEnds(origin, fed, rx, result)
    ensures LineAnswer(Handed(origin.line, fed), result, rx.response[..rx.length])
  {
    var (init, last) := (fed[..|fed| - 1], fed[|fed| - 1]);
    assert fed == init + [last];
    LastEvent(origin, fed, rx, result);
    LineTaskEndsIff(origin, init);
    LineTaskEndsIff(origin, fed);
    EndsAtFirstFinalLine(origin, init, last);
  }

  /** The first 512 bytes after the first occurrence of the prompt, if it has occurred. */
  ghost predicate PromptSoFar(req: SendReq, bytes: seq<byte>, rx: RxState) {
    (forall e: nat | Recognisable(req.prompt) && FirstEnd(req.prompt, bytes, e) :: Collects(rx, bytes[e..])) &&
    (Waiting(req.prompt, bytes) ==> Collects(rx, []))
  }

  lemma JustDone(req: SendReq, bytes: seq<byte>)
    requires bytes != [] && Done(req, bytes) && !Done(req, bytes[..|bytes| - 1])
    ensures req.need <= |bytes| && FirstEnd(req.prompt, bytes, |bytes| - req.need)
  {
    var e: nat :| FirstEnd(req.prompt, bytes, e) && e + req.need <= |bytes|;
    if e + req.need < |bytes| {
      FirstEndOfPrefix(req.prompt, bytes, e, |bytes| - 1);
      assert false;
    }
  }

  /** The last event is the end of a command, with this result and response. */
  predicate EndsWith(trace: seq<Event>, result: AtcResult, response: seq<byte>) {
    trace != [] &&
    var event := trace[|trace| - 1];
    event.Completed? && event.result == result && event.response == response
  }

  /** Where the prompt was, in a stream whose last byte ends a prompt command. */
  lemma PromptWasThere(origin: RxState, init: seq<Rx>, fed: seq<Rx>)
    requires FreshTask(origin) && origin.task.value.req.promptBlock.Some? && fed != [] && init == fed[..|fed| - 1]
    requires Feed(origin, init).task.Some? && Feed(origin, fed).task.None?
    ensures var (req, bytes) := (origin.task.value.req, BytesOf(fed));
            Done(req, bytes) && !Done(req, bytes[..|bytes| - 1])
  {
    PromptTaskEndsIff(origin, init);
    PromptTaskEndsIff(origin, fed);
    assert BytesOf(init) == BytesOf(fed)[..|fed| - 1];
  }

  lemma PromptAnswers(origin: RxState, fed: seq<Rx>, result: AtcResult, response: seq<byte>)
    requires FreshTask(origin) && origin.task.value.req.promptBlock.Some? && fed != []
    requires var (req, bytes) := (origin.task.value.req, BytesOf(fed));
             Done(req, bytes) && !Done(req, bytes[..|bytes| - 1])
    requires EndsWith(Feed(origin, fed).trace, result, response)
    ensures PromptAnswer(origin.task.value.req, BytesOf(fed), result, response)
  {
    var (req, bytes) := (origin.task.value.req, BytesOf(fed));
    JustDone(req, bytes);
    EndsExactlyThere(origin, fed, |bytes| - req.need);
    LastIs(origin.trace, Completed(req, Success, bytes[|bytes| - req.need..]), result, response);
  }

  lemma LastIs(trace: seq<Event>, e: Event, result: AtcResult, response: seq<byte>)
    ensures EndsWith(trace + [e], result, response) <==>
            e.Completed? && e.result == result && e.response == response
  {
  }

  lemma PromptResult(origin: RxState, fed: seq<Rx>, rx: RxState, result: AtcResult)
    requires FreshTask(origin) && origin.task.value.req.promptBlock.Some?
    requires rx.length <= |rx.response| && LastByteEnds(origin, fed, rx, result)
    ensures PromptAnswer(origin.task.value.req, BytesOf(fed), result, rx.response[..rx.length])
  {
    LastEvent(origin, fed, rx, result);
    PromptWasThere(origin, fed[..|fed| - 1], fed);
    PromptAnswers(origin, fed, result, rx.response[..rx.length]);
  }

  /** What a task that received data have not ended has collected. */
  lemma LineStillRunning(origin: RxState, fed: seq<Rx>, rx: RxState)
    requires FreshTask(origin) && origin.task.value.req.promptBlock.None?
    requires rx.task.Some? && Blind(rx) == Blind(Feed(origin, fed))
    ensures var lines := Handed(origin.line, fed);
            NoFinal(lines) && rx.length <= |rx.response| && rx.response[..rx.length] == Response(lines)
  {
    LineTaskEndsIff(origin, fed);
    LineTaskRunning(origin, fed);
    HeldResponse(Feed(origin, fed), Handed(origin.line, fed));
  }

  lemma PromptStillRunning(origin: RxState, fed: seq<Rx>, rx: RxState)
    requires FreshTask(origin) && origin.task.value.req.promptBlock.Some?
    requires rx.task.Some? && Blind(rx) == Blind(Feed(origin, fed))
    ensures var (req, bytes) := (origin.task.value.req, BytesOf(fed)); !Done(req, bytes) && PromptSoFar(req, bytes, rx)
  {
    PromptTaskEndsIff(origin, fed);
    CollectedSoFar(origin, fed);
    var t := Feed(origin, fed);
    assert rx.response == t.response && rx.length == t.length;
  }

  /** A command is being ended by received data. */
  predicate Answering(m: M) {
    m.loop.EndReply? && ByData(m.loop.result) && m.rx.length <= |m.rx.response|
  }

  /** A command is being ended by its timeout or by the hardware. */
  predicate Failing(m: M) {
    m.loop.EndReply? && !ByData(m.loop.result)
  }

  /**
   * Over every run, for a command without prompt: while it runs, no final line has been completed since it
   * started; when received data end it, the last line completed is the first final one, it decides the
   * result, and the handler is given the response over the lines since the start. When its timeout or the
   * hardware ends it, the handler is given the response over the lines so far.
   */
  lemma LineCommandOutcome(states: seq<M>, steps: seq<Step>, n: nat)
    requires Engine.Run(states, steps) && n < |states|
    requires states[n].rx.task.Some? && states[n].rx.task.value.req.promptBlock.None?
    ensures var (m, lines) := (states[n], Handed(Origin(states, steps, n).line, Fed(states, steps, n)));
            (!Ending(m.loop) || Failing(m) ==>
               NoFinal(lines) && m.rx.length <= |m.rx.response| &&
               m.rx.response[..m.rx.length] == Response(lines)) &&
            (Answering(m) ==> LineAnswer(lines, m.loop.result, m.rx.response[..m.rx.length]))
  {
    var m := states[n];
    var origin, fed := RunFollows(states, steps, n);
    if !Ending(m.loop) || Failing(m) {
      LineStillRunning(origin, fed, m.rx);
    } else if Answering(m) {
      LineResult(origin, fed, m.rx, m.loop.result);
    }
  }

  /**
   * The same for a command with a prompt: while it runs, `need` bytes have not yet followed the first
   * occurrence of its prompt; when received data end it they just have, the result is success, and the
   * handler is given exactly those bytes. When its timeout or the hardware ends it, the handler is given
   * the bytes collected so far, at most 512.
   */
  lemma PromptCommandOutcome(states: seq<M>, steps: seq<Step>, n: nat)
    requires Engine.Run(states, steps) && n < |states|
    requires states[n].rx.task.Some? && states[n].rx.task.value.req.promptBlock.Some?
    ensures var (m, req, bytes) := (states[n], states[n].rx.task.value.req, BytesOf(Fed(states, steps, n)));
            (!Ending(m.loop) || Failing(m) ==> !Done(req, bytes) && PromptSoFar(req, bytes, m.rx)) &&
            (Answering(m) ==> PromptAnswer(req, bytes, m.loop.result, m.rx.response[..m.rx.length]))
  {
    var m := states[n];
    var origin, fed := RunFollows(states, steps, n);
    if !Ending(m.loop) || Failing(m) {
      PromptStillRunning(origin, fed, m.rx);
    } else if Answering(m) {
      PromptResult(origin, fed, m.rx, m.loop.result);
    }
  }
}
