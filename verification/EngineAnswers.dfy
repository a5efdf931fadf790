/**
 * From end to end: what a synchronous sender finds in its variables is the short function of the bytes
 * drained while its command was in flight.
 */
module EngineAnswers {
  import opened Bytes
  import opened AtcTypes
  import opened ReceiveSpec
  import opened LineTheory
  import opened PromptTheory
  import opened Engine
  import opened EngineTasks
  import opened EngineStreams
  import opened EngineSync

  // Where a Completed event comes from.

  /** The handler of the request in flight is about to be called, with this response. */
  predicate Replying(m: M, response: seq<byte>) {
    m.loop.EndReply? && m.rx.task.Some? && m.rx.length <= |m.rx.response| && response == m.rx.response[..m.rx.length]
  }

  predicate CompletedBy(m: M, e: Event) {
    e.Completed? && Replying(m, e.response) && e.req == Task(m).req && e.result == m.loop.result
  }

  lemma StepCompletes(m: M, step: Step, m': M, i: nat)
    requires Inv(m) && Follows(m, step, m') && i < |m'.rx.trace| && m'.rx.trace[i].Completed?
    ensures (i < |m.rx.trace| && m.rx.trace[i] == m'.rx.trace[i]) ||
            (step == OfLoop(Reply) && CompletedBy(m, m'.rx.trace[i]))
  {
    if step.OfLoop? {
      HonestFits(m, step.l);
      LoopCompletes(m, step.l, i);
    }
  }

  lemma LoopCompletes(m: M, s: LoopStep, i: nat)
    requires Sane(m) && CanLoop(m, s) && LabelFits(m, s)
    requires i < |NextRx(m, s).trace| && NextRx(m, s).trace[i].Completed?
    ensures (i < |m.rx.trace| && m.rx.trace[i] == NextRx(m, s).trace[i]) ||
            (s == Reply && CompletedBy(m, NextRx(m, s).trace[i]))
  {
  }

  lemma {:induction false} CompletedWasReplied(states: seq<M>, steps: seq<Step>, n: nat, i: nat) returns (k: nat)
    requires Engine.Run(states, steps) && n < |states| && i < |states[n].rx.trace| && states[n].rx.trace[i].Completed?
    ensures k < n && steps[k] == OfLoop(Reply) && CompletedBy(states[k], states[n].rx.trace[i])
    decreases n
  {
    if n == 0 {
      RunStart(states, steps);
      assert false;
    }
    RunStep(states, steps, n - 1);
    RunKeepsInv(states, steps, n - 1);
    StepCompletes(states[n - 1], steps[n - 1], states[n], i);
    if i < |states[n - 1].rx.trace| && states[n - 1].rx.trace[i] == states[n].rx.trace[i] {
      k := CompletedWasReplied(states, steps, n - 1, i);
    } else {
      k := n - 1;
    }
  }

  /** A sender that is past its take, now or later. */
  predicate SenderIsPast(m: M, c: nat) {
    c in m.callers && (m.callers[c].Taken? || m.callers[c].Finished?) && m.callers[c].op.Send?
  }

  /** In this state the request with this ticket is answered, and these are the variables it leads to. */
  predicate AnsweredWith(m: M, op: Op, t: nat, response: seq<byte>, cells: Cells) {
    Replying(m, response) && Task(m).req.ticket == t && ReqMatches(Task(m).req, op) &&
    Shows(cells, op, m.loop.result, response)
  }

  /** Some earlier step called its handler, and its variables are what that step's result and response make them. */
  lemma SenderWasAnswered(states: seq<M>, steps: seq<Step>, n: nat, c: nat) returns (k: nat, response: seq<byte>)
    requires Engine.Run(states, steps) && n < |states| && SenderIsPast(states[n], c)
    ensures k < n && steps[k] == OfLoop(Reply) && c in states[n].cells
    ensures AnsweredWith(states[k], states[n].callers[c].op, states[n].callers[c].ticket, response, states[n].cells[c])
  {
    var (m, op, t) := (states[n], states[n].callers[c].op, states[n].callers[c].ticket);
    CallerSeesItsOutcome(states, steps, n, c);
    var i :| 0 <= i < |m.rx.trace| && Reports(m.rx.trace[i], m.cells[c], op, t);
    k := CompletedWasReplied(states, steps, n, i);
    response := m.rx.trace[i].response;
  }

  // A sender without prompt.

  /** The lines completed between the command's start and this moment. */
  function LinesAt(states: seq<M>, steps: seq<Step>, k: nat): seq<Line>
    requires |states| == |steps| + 1 && k < |states|
  {
    Handed(Origin(states, steps, k).line, Fed(states, steps, k))
  }

  /**
   * A synchronous sender without prompt that is past its take: its variables hold the result, and as much as
   * fits of the response over the lines drained between the start of its command and some Reply step. That
   * step ends it either by the first final line, which decides the result, or by timeout or hardware error
   * before there was one.
   */
  lemma LineSenderSees(states: seq<M>, steps: seq<Step>, n: nat, c: nat) returns (k: nat)
    requires Engine.Run(states, steps) && n < |states| && SenderIsPast(states[n], c)
    requires states[n].callers[c].op.prompt.None?
    ensures k < n && steps[k] == OfLoop(Reply) && c in states[n].cells
    ensures var (caller, lines) := (states[n].callers[c], LinesAt(states, steps, k));
            AnsweredWith(states[k], caller.op, caller.ticket, Response(lines), states[n].cells[c]) &&
            if ByData(states[k].loop.result) then LineAnswer(lines, states[k].loop.result, Response(lines))
            else NoFinal(lines)
  {
    var response;
    k, response := SenderWasAnswered(states, steps, n, c);
    LineCommandOutcome(states, steps, k);
  }

  lemma {:induction false} NothingKeptIff(lines: seq<Line>)
    ensures Kept(lines) == [] <==> Greedy(lines) == []
  {
    if lines != [] {
      NothingKeptIff(lines[..|lines| - 1]);
    }
  }

  lemma {:induction false} PrefixFits(lines: seq<Line>)
    ensures AllFit(FittingPrefix(lines))
  {
    if lines != [] && Fits(lines[0]) {
      PrefixFits(lines[1..]);
    }
  }

  /** A final line is kept, or others leave no room for it. */
  lemma AnswerKeepsSomething(lines: seq<Line>)
    requires lines != [] && Final(lines[|lines| - 1]) && AllFit(lines)
    ensures Kept(lines) != []
  {
    NothingKeptIff(lines[..|lines| - 1]);
  }

  /**
   * The length such a sender finds is that of the response copied exactly if its buffer has no room at all
   * or some line was kept; always if received data ended the command, so it can be wrong only after a
   * timeout or a hardware error.
   */
  lemma LineSenderLength(states: seq<M>, steps: seq<Step>, n: nat, c: nat) returns (k: nat)
    requires Engine.Run(states, steps) && n < |states| && SenderIsPast(states[n], c)
    requires states[n].callers[c].op.prompt.None? && states[n].callers[c].op.capacity.Some?
    ensures k < n && steps[k] == OfLoop(Reply) && c in states[n].cells && states[k].loop.EndReply?
    ensures var (op, cells, lines) := (states[n].callers[c].op, states[n].cells[c], LinesAt(states, steps, k));
            CopiedFrom(cells, Response(lines), op.capacity.value) &&
            (cells.length == |cells.copied| <==> op.capacity == Some(0) || Kept(lines) != []) &&
            (ByData(states[k].loop.result) ==> cells.length == |cells.copied|)
  {
    k := LineSenderSees(states, steps, n, c);
    var (m, op, lines) := (states[k], states[n].callers[c].op, LinesAt(states, steps, k));
    CopiedExactly(states[n].cells[c], op, m.loop.result, Response(lines));
    NothingKeptIff(lines);
    if ByData(m.loop.result) {
      PrefixFits(StreamLines(Origin(states, steps, k).line, Fed(states, steps, k)));
      AnswerKeepsSomething(lines);
    }
  }

  // A sender with a prompt.

  /**
   * The same for a sender with a prompt: ended by data, its response is exactly the bytes after the first
   * occurrence of the prompt; otherwise the first 512 of those drained so far, none if it has not occurred.
   */
  lemma PromptSenderSees(states: seq<M>, steps: seq<Step>, n: nat, c: nat) returns (k: nat, response: seq<byte>)
    requires Engine.Run(states, steps) && n < |states| && SenderIsPast(states[n], c)
    requires states[n].callers[c].op.prompt.Some?
    ensures k < n && steps[k] == OfLoop(Reply) && c in states[n].cells
    ensures var (caller, m) := (states[n].callers[c], states[k]);
            AnsweredWith(m, caller.op, caller.ticket, response, states[n].cells[c]) &&
            var bytes := BytesOf(Fed(states, steps, k));
            if ByData(m.loop.result) then PromptAnswer(Task(m).req, bytes, m.loop.result, response)
            else !Done(Task(m).req, bytes) && PromptSoFar(Task(m).req, bytes, m.rx)
  {
    k, response := SenderWasAnswered(states, steps, n, c);
    PromptCommandOutcome(states, steps, k);
  }

  /** Some byte has followed the first occurrence of the prompt. */
  ghost predicate SomethingFollows(prompt: seq<byte>, bytes: seq<byte>) {
    Recognisable(prompt) && exists e: nat :: FirstEnd(prompt, bytes, e) && e < |bytes|
  }

  lemma CollectedIff(req: SendReq, bytes: seq<byte>, rx: RxState)
    requires PromptSoFar(req, bytes, rx)
    ensures rx.length <= |rx.response|
    ensures rx.length > 0 <==> SomethingFollows(req.prompt, bytes)
  {
    if Recognisable(req.prompt) && exists e: nat :: EndsAt(req.prompt, bytes, e) {
      var any: nat :| EndsAt(req.prompt, bytes, any);
      var e := FirstEndExists(req.prompt, bytes, any);
      assert Collects(rx, bytes[e..]);
      forall d: nat | FirstEnd(req.prompt, bytes, d) ensures d == e {
        FirstEndsAgree(req.prompt, bytes, d, e);
      }
    } else {
      assert PromptTheory.Waiting(req.prompt, bytes);
    }
  }

  /**
   * Its length is right exactly if the buffer has no room or the response is not empty: if data ended the
   * command, that is if something was to be received; else, if something has followed the prompt.
   */
  lemma PromptSenderLength(states: seq<M>, steps: seq<Step>, n: nat, c: nat) returns (k: nat)
    requires Engine.Run(states, steps) && n < |states| && SenderIsPast(states[n], c)
    requires states[n].callers[c].op.prompt.Some? && states[n].callers[c].op.capacity.Some?
    ensures k < n && steps[k] == OfLoop(Reply) && c in states[n].cells && states[k].loop.EndReply?
    ensures var (op, cells, bytes) := (states[n].callers[c].op, states[n].cells[c], BytesOf(Fed(states, steps, k)));
            cells.length == |cells.copied| <==>
            op.capacity == Some(0) ||
            if ByData(states[k].loop.result) then op.need > 0 else SomethingFollows(op.prompt.value, bytes)
  {
    var response;
    k, response := PromptSenderSees(states, steps, n, c);
    var (m, op) := (states[k], states[n].callers[c].op);
    CopiedExactly(states[n].cells[c], op, m.loop.result, response);
    if !ByData(m.loop.result) {
      CollectedIff(Task(m).req, BytesOf(Fed(states, steps, k)), m.rx);
    }
  }
}
