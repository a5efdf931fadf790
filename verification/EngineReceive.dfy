/** The receive side over whole runs: the stuck assembler, the task's status, and the reads of a nulled task. */
module EngineReceive {
  import opened Bytes
  import opened AtcTypes
  import opened ReceiveSpec
  import opened LineTheory
  import opened PromptTheory
  import opened Engine
  import opened EngineTasks
  import opened EngineStreams

  // A line buffer full without a line feed.

  lemma ByteKeepsStuck(s: RxState, x: Rx)
    requires Shape(s) && |s.line| == LINE_LIMIT
    ensures var t := ByteEffect(s, x.urcs, x.b).0; t.line == s.line && t.handled == s.handled
  {
  }

  lemma StepKeepsStuck(m: M, step: Step, m': M)
    requires Shape(m.rx) && Follows(m, step, m') && |m.rx.line| == LINE_LIMIT
    ensures m'.rx.line == m.rx.line && m'.rx.handled == m.rx.handled
  {
    if step.OfLoop? && step.l.DrainByte? {
      ByteKeepsStuck(m.rx, Rx(m.ring[0], m.reg.urcs));
    }
  }

  lemma {:induction false} StuckStays(states: seq<M>, steps: seq<Step>, i: nat, j: nat)
    requires Engine.Run(states, steps) && i <= j < |states| && |states[i].rx.line| == LINE_LIMIT
    ensures states[j].rx.line == states[i].rx.line && states[j].rx.handled == states[i].rx.handled
    decreases j
  {
    if i < j {
      StuckStays(states, steps, i, j - 1);
      RunKeepsInv(states, steps, j - 1);
      RunStep(states, steps, j - 1);
      StepKeepsStuck(states[j - 1], steps[j - 1], states[j]);
    }
  }

  /** A command without prompt is about to be answered. */
  predicate EndsLines(m: M) {
    m.loop.EndReply? && m.rx.task.Some? && Task(m).req.promptBlock.None?
  }

  /** If received data end it, a line has just been completed. */
  predicate LineCompleted(m: M) {
    EndsLines(m) && ByData(m.loop.result) ==> m.rx.line == []
  }

  lemma ByteCompletesLine(s: RxState, x: Rx)
    requires RxInv(s) && s.task.Some? && s.task.value.req.promptBlock.None?
    ensures var (t, end) := ByteEffect(s, x.urcs, x.b); end.Some? ==> t.line == []
  {
  }

  lemma DrainKeepsCompleted(m: M, s: LoopStep)
    requires RxInv(m.rx) && Sane(m) && CanLoop(m, s) && s.DrainByte? && Honest(m, s) && LabelFits(m, s)
    ensures LineCompleted(DoLoop(m, s))
  {
    if m.rx.task.Some? && Task(m).req.promptBlock.None? {
      ByteCompletesLine(m.rx, Rx(m.ring[0], m.reg.urcs));
    }
  }

  lemma OtherStepKeepsCompleted(m: M, s: LoopStep)
    requires LineCompleted(m) && Sane(m) && CanLoop(m, s) && !s.DrainByte?
    ensures LineCompleted(DoLoop(m, s))
  {
  }

  lemma StepKeepsCompleted(m: M, step: Step, m': M)
    requires RxKept(m) && LineCompleted(m) && Follows(m, step, m')
    ensures LineCompleted(m')
  {
    if step.OfLoop? && step.l.DrainByte? {
      HonestFits(m, step.l);
      DrainKeepsCompleted(m, step.l);
    } else if step.OfLoop? {
      OtherStepKeepsCompleted(m, step.l);
    }
  }

  lemma {:induction false} RunKeepsCompleted(states: seq<M>, steps: seq<Step>, n: nat)
    requires Engine.Run(states, steps) && n < |states|
    ensures LineCompleted(states[n])
  {
    if n == 0 {
      RunStart(states, steps);
    } else {
      RunKeepsCompleted(states, steps, n - 1);
      RunKeepsInv(states, steps, n - 1);
      RunStep(states, steps, n - 1);
      StepKeepsCompleted(states[n - 1], steps[n - 1], states[n]);
    }
  }

  /**
   * Once 255 bytes wait without a line feed, the line buffer never changes again and no line is ever handed
   * on again: whatever is received, started, ended, timed out, registered or refused. From then on received
   * data never end a command without prompt: only its timeout or the hardware does.
   */
  lemma StuckOverRuns(states: seq<M>, steps: seq<Step>, i: nat, j: nat)
    requires Engine.Run(states, steps) && i <= j < |states| && |states[i].rx.line| == LINE_LIMIT
    ensures states[j].rx.line == states[i].rx.line && states[j].rx.handled == states[i].rx.handled
    ensures EndsLines(states[j]) ==> states[j].loop.result == Timeout || states[j].loop.result == HardwareError
  {
    StuckStays(states, steps, i, j);
    RunKeepsCompleted(states, steps, j);
  }

  // The task in flight.

  /** The same task, at most moved on from the prompt to its binary data. */
  predicate SameFlight(a: Flight, b: Flight) {
    b == a.(status := b.status) && (b.status == a.status || (a.status == Prompt && b.status == Binary))
  }

  lemma ByteKeepsFlight(s: RxState, x: Rx)
    requires Shape(s) && s.task.Some?
    ensures var t := ByteEffect(s, x.urcs, x.b).0; t.task.Some? && SameFlight(s.task.value, t.task.value)
  {
  }

  lemma StepKeepsFlight(m: M, step: Step, m': M)
    requires RxKept(m) && Follows(m, step, m') && m.rx.task.Some? && m'.rx.task.Some?
    ensures SameFlight(m.rx.task.value, m'.rx.task.value)
  {
    if step.OfLoop? && step.l.DrainByte? {
      ByteKeepsFlight(m.rx, Rx(m.ring[0], m.reg.urcs));
    }
  }

  /** Over every run, a step that leaves a task in flight changes nothing of it but Prompt to Binary. */
  lemma FlightOverRuns(states: seq<M>, steps: seq<Step>, n: nat)
    requires Engine.Run(states, steps) && n < |steps|
    requires states[n].rx.task.Some? && states[n + 1].rx.task.Some?
    ensures SameFlight(states[n].rx.task.value, states[n + 1].rx.task.value)
  {
    RunKeepsInv(states, steps, n);
    RunStep(states, steps, n);
    StepKeepsFlight(states[n], steps[n], states[n + 1]);
  }

  // The comparison loop's read of a task it has just nulled.

  /** The next byte drained makes the code read a task it has just nulled. */
  ghost predicate NulledReadNext(m: M) {
    m.loop.Drain? && m.ring != [] && ReadsNulledTask(m.rx, m.ring[0])
  }

  /**
   * Over every run, when the loop is about to drain a byte: that byte makes the code read a task it has just
   * nulled exactly when the command in flight has a recognisable prompt and nothing to receive, and the
   * bytes drained since it started, with this one, end with the first occurrence of the prompt.
   */
  lemma NulledReadOverRuns(states: seq<M>, steps: seq<Step>, n: nat)
    requires Engine.Run(states, steps) && n < |states| && states[n].loop.Drain? && states[n].ring != []
    ensures NulledReadNext(states[n]) <==>
            var (m, bytes) := (states[n], BytesOf(Fed(states, steps, n)) + [states[n].ring[0]]);
            m.rx.task.Some? && Task(m).req.promptBlock.Some? && Task(m).req.need == 0 &&
            Recognisable(Task(m).req.prompt) && FirstEnd(Task(m).req.prompt, bytes, |bytes|)
  {
    var m := states[n];
    var origin, fed := RunFollows(states, steps, n);
    RunKeepsInv(states, steps, n);
    if m.rx.task.Some? {
      if Task(m).req.promptBlock.Some? {
        NulledReadInStream(m.rx, origin, fed, m.ring[0]);
      }
    }
  }

  lemma NulledReadInStream(rx: RxState, origin: RxState, fed: seq<Rx>, b: byte)
    requires rx.task.Some? && FedSince(Drain, rx, origin, fed) && rx.task.value.req.promptBlock.Some?
    ensures var (req, bytes) := (rx.task.value.req, BytesOf(fed) + [b]);
            ReadsNulledTask(rx, b) <==>
            req.need == 0 && Recognisable(req.prompt) && FirstEnd(req.prompt, bytes, |bytes|)
  {
    var x := Rx(b, []);
    assert BytesOf(fed + [x]) == BytesOf(fed) + [b];
    ReadsNulledTaskIff(origin, fed, x);
    SameRead(rx, Feed(origin, fed), b);
  }

  lemma SameRead(a: RxState, b: RxState, x: byte)
    requires Blind(a) == Blind(b)
    ensures ReadsNulledTask(a, x) <==> ReadsNulledTask(b, x)
  {
    assert b == a.(trace := b.trace);
  }
}
