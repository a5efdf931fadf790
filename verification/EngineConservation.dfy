/** Whole-run conservation: no accepted request is lost, duplicated or reordered. */
module EngineConservation {
  import opened AtcTypes
  import opened Engine
  import opened EngineTasks

  /** The request an event disposes of. */
  function EndOf(e: Event): seq<SendReq> {
    match e
    case Completed(req, _, _) => [req]
    case TaskLost(req) => [req]
    case _ => []
  }

  /** The requests that ended, in the order they did. */
  function Ended(trace: seq<Event>): seq<SendReq> {
    if trace == [] then [] else Ended(trace[..|trace| - 1]) + EndOf(trace[|trace| - 1])
  }

  /** The request taken from the queue whose handler has not been called. */
  function Flying(loop: Loop, task: Option<Flight>): seq<SendReq> {
    if loop.EndCopy? || loop.EndGive? || loop.EndFree? then [] else Current(loop, task)
  }

  /** The requests that have not ended: in flight, then queued. */
  function Unended(loop: Loop, task: Option<Flight>, send: seq<SendReq>): seq<SendReq> {
    Flying(loop, task) + send
  }

  ghost predicate Conserved(m: M) {
    m.accepted == Ended(m.rx.trace) + Unended(m.loop, m.rx.task, m.send)
  }

  /** Requests are numbered in the order they were accepted. */
  predicate Numbered(reqs: seq<SendReq>, bound: nat) {
    && (forall i, j | 0 <= i < j < |reqs| :: reqs[i].ticket < reqs[j].ticket)
    && forall i | 0 <= i < |reqs| :: reqs[i].ticket < bound
  }

  predicate WithinBounds(m: M) {
    |m.send| <= 6 && |m.api| <= 5 && |m.ring| <= 255
  }

  predicate NoneLost(trace: seq<Event>) {
    forall i | 0 <= i < |trace| :: !trace[i].TaskLost?
  }

  ghost predicate ConservationInv(m: M) {
    Conserved(m) && Numbered(m.accepted, m.nextHandle) && WithinBounds(m)
  }

  lemma EndedAppend(trace: seq<Event>, e: Event)
    ensures Ended(trace + [e]) == Ended(trace) + EndOf(e)
  {
    assert (trace + [e])[..|trace|] == trace;
  }

  lemma {:induction false} CallsEndNothing(a: seq<Event>, b: seq<Event>)
    requires OnlyCalls(a, b)
    ensures Ended(b) == Ended(a)
  {
    if |b| == |a| {
      assert a == b;
    } else {
      var init := b[..|b| - 1];
      CallsEndNothing(a, init);
      assert b == init + [b[|b| - 1]];
      EndedAppend(init, b[|b| - 1]);
    }
  }

  /** The request whose end the step records. */
  function Ends(m: M, s: LoopStep): seq<SendReq>
    requires Sane(m) && CanLoop(m, s)
  {
    if s.Reply? then [Task(m).req] else if s == AllocTask(false) then [m.loop.req] else []
  }

  lemma LoopRecordsEnds(m: M, s: LoopStep)
    requires Sane(m) && CanLoop(m, s) && LabelFits(m, s)
    ensures Ended(NextRx(m, s).trace) == Ended(m.rx.trace) + Ends(m, s)
  {
    if s.DrainByte? {
      CallsEndNothing(m.rx.trace, s.rx.trace);
    } else {
      OtherStepRecordsEnds(m, s);
    }
  }

  /** Every other step adds at most one event. */
  lemma OtherStepRecordsEnds(m: M, s: LoopStep)
    requires Sane(m) && CanLoop(m, s) && !s.DrainByte?
    ensures Ended(NextRx(m, s).trace) == Ended(m.rx.trace) + Ends(m, s)
  {
    match s {
      case ServeMsg(_, _, value) => EndedAppend(m.rx.trace, ReplyOf(m.loop.msg, value));
      case AllocTask(hasMemory) => EndedAppend(m.rx.trace, TaskLost(m.loop.req));
      case Reply =>
        EndedAppend(m.rx.trace, Completed(Task(m).req, m.loop.result, m.rx.response[..m.rx.length]));
      case _ =>
    }
  }

  function NextSend(m: M, s: LoopStep): seq<SendReq>
    requires CanLoop(m, s)
  {
    if s.TakeSend? then m.send[1..] else m.send
  }

  lemma TakeMovesRequest(m: M)
    requires Sane(m) && CanLoop(m, TakeSend)
    ensures Unended(NextLoop(m, TakeSend), NextRx(m, TakeSend).task, m.send[1..]) ==
            Unended(m.loop, m.rx.task, m.send)
  {
    assert [m.send[0]] + m.send[1..] == m.send;
  }

  lemma AllocMovesRequest(m: M, s: LoopStep)
    requires Phases(m.loop, m.rx.task) && Sane(m) && CanLoop(m, s) && s.AllocTask?
    ensures Ends(m, s) + Flying(NextLoop(m, s), NextRx(m, s).task) == Flying(m.loop, m.rx.task)
  {
  }

  lemma ReplyMovesRequest(m: M)
    requires Sane(m) && CanLoop(m, Reply)
    ensures Ends(m, Reply) + Flying(NextLoop(m, Reply), NextRx(m, Reply).task) == Flying(m.loop, m.rx.task)
  {
  }

  lemma OtherStepMovesNothing(m: M, s: LoopStep)
    requires Phases(m.loop, m.rx.task) && Sane(m) && CanLoop(m, s) && LabelFits(m, s)
    requires !s.TakeSend? && !s.AllocTask? && !s.Reply?
    ensures Ends(m, s) == [] && Flying(NextLoop(m, s), NextRx(m, s).task) == Flying(m.loop, m.rx.task)
  {
  }

  /** A step moves a request from the queue into flight, or from flight to its end, or leaves all in place. */
  lemma LoopMovesRequests(m: M, s: LoopStep)
    requires Phases(m.loop, m.rx.task) && Sane(m) && CanLoop(m, s) && LabelFits(m, s)
    ensures Ends(m, s) + Unended(NextLoop(m, s), NextRx(m, s).task, NextSend(m, s)) ==
            Unended(m.loop, m.rx.task, m.send)
  {
    match s {
      case TakeSend => TakeMovesRequest(m);
      case AllocTask(_) => AllocMovesRequest(m, s);
      case Reply => ReplyMovesRequest(m);
      case _ => OtherStepMovesNothing(m, s);
    }
    Regroup(Ends(m, s), Flying(NextLoop(m, s), NextRx(m, s).task), m.send);
  }

  lemma Regroup<T>(a: seq<T>, b: seq<T>, c: seq<T>)
    ensures a + (b + c) == (a + b) + c
  {
  }

  lemma LoopKeepsConserved(m: M, s: LoopStep)
    requires Conserved(m) && Phases(m.loop, m.rx.task) && Sane(m) && CanLoop(m, s) && LabelFits(m, s)
    ensures Conserved(DoLoop(m, s))
  {
    LoopRecordsEnds(m, s);
    LoopMovesRequests(m, s);
    Regroup(Ended(m.rx.trace), Ends(m, s), Unended(NextLoop(m, s), NextRx(m, s).task, NextSend(m, s)));
  }

  lemma CallKeepsConservation(m: M, c: nat, s: CallStep)
    requires ConservationInv(m) && CanCall(m, c, s)
    ensures ConservationInv(DoCall(m, c, s))
  {
    if QueuesSend(m, c, s) {
      Regroup(Ended(m.rx.trace), Unended(m.loop, m.rx.task, m.send), [NewReq(m, c)]);
      Regroup(Flying(m.loop, m.rx.task), m.send, [NewReq(m, c)]);
    }
  }

  lemma StepKeepsConservation(m: M, step: Step, m': M)
    requires ConservationInv(m) && Inv(m) && Follows(m, step, m')
    ensures ConservationInv(m')
  {
    match step {
      case OfLoop(l) =>
        HonestFits(m, l);
        LoopKeepsConserved(m, l);
      case OfCaller(c, s) => CallKeepsConservation(m, c, s);
      case _ =>
    }
  }

  lemma StartConserves(m: M)
    requires Start(m)
    ensures ConservationInv(m)
  {
    assert Unended(m.loop, m.rx.task, m.send) == [];
  }

  lemma {:induction false} RunConserves(states: seq<M>, steps: seq<Step>, n: nat)
    requires Engine.Run(states, steps) && n < |states|
    ensures ConservationInv(states[n])
  {
    if n == 0 {
      RunStart(states, steps);
      StartConserves(states[0]);
    } else {
      RunConserves(states, steps, n - 1);
      RunKeepsInv(states, steps, n - 1);
      RunStep(states, steps, n - 1);
      StepKeepsConservation(states[n - 1], steps[n - 1], states[n]);
    }
  }

  predicate MemoryNeverFails(steps: seq<Step>) {
    forall i | 0 <= i < |steps| :: steps[i] != OfLoop(AllocTask(false))
  }

  lemma LoopLosesIff(m: M, s: LoopStep)
    requires Sane(m) && CanLoop(m, s) && LabelFits(m, s)
    ensures NoneLost(NextRx(m, s).trace) <==> NoneLost(m.rx.trace) && s != AllocTask(false)
  {
    var (before, after) := (m.rx.trace, NextRx(m, s).trace);
    assert before <= after && forall i | 0 <= i < |before| :: after[i] == before[i];
    if s == AllocTask(false) {
      assert after[|before|].TaskLost?;
    }
  }

  lemma StepLosesIff(m: M, step: Step, m': M)
    requires Inv(m) && Follows(m, step, m')
    ensures NoneLost(m'.rx.trace) <==> NoneLost(m.rx.trace) && step != OfLoop(AllocTask(false))
  {
    if step.OfLoop? {
      HonestFits(m, step.l);
      LoopLosesIff(m, step.l);
    }
  }

  lemma MemoryFailsIff(steps: seq<Step>, n: nat)
    requires 0 < n <= |steps|
    ensures MemoryNeverFails(steps[..n]) <==>
            MemoryNeverFails(steps[..n - 1]) && steps[n - 1] != OfLoop(AllocTask(false))
  {
    assert steps[..n] == steps[..n - 1] + [steps[n - 1]];
  }

  /** Over every run: a request has been lost exactly if the allocation of a task has failed. */
  lemma {:induction false} LostIffMemoryFailed(states: seq<M>, steps: seq<Step>, n: nat)
    requires Engine.Run(states, steps) && n < |states|
    ensures NoneLost(states[n].rx.trace) <==> MemoryNeverFails(steps[..n])
  {
    if n == 0 {
      RunStart(states, steps);
    } else {
      LostIffMemoryFailed(states, steps, n - 1);
      RunKeepsInv(states, steps, n - 1);
      RunStep(states, steps, n - 1);
      StepLosesIff(states[n - 1], steps[n - 1], states[n]);
      MemoryFailsIff(steps, n);
    }
  }

  /**
   * In every reachable state the accepted requests are, in order, those that ended, the one in flight if
   * any, and those still queued; no request ends twice; and every ended one was completed exactly unless
   * the allocation of a task failed. The queues and the ring stay within their sizes.
   */
  lemma Conservation(states: seq<M>, steps: seq<Step>, n: nat)
    requires Engine.Run(states, steps) && n < |states|
    ensures var m := states[n];
            m.accepted == Ended(m.rx.trace) + (Flying(m.loop, m.rx.task) + m.send) &&
            (forall i, j | 0 <= i < j < |Ended(m.rx.trace)| ::
               Ended(m.rx.trace)[i].ticket < Ended(m.rx.trace)[j].ticket) &&
            (MemoryNeverFails(steps[..n]) <==> NoneLost(m.rx.trace)) && WithinBounds(m)
  {
    RunConserves(states, steps, n);
    var (accepted, ended) := (states[n].accepted, Ended(states[n].rx.trace));
    assert forall i | 0 <= i < |ended| :: accepted[i] == ended[i];
    LostIffMemoryFailed(states, steps, n);
  }

  /** Nothing is left behind: once the queue and the engine are empty, every accepted request has ended. */
  lemma EmptyMeansAllEnded(states: seq<M>, steps: seq<Step>, n: nat)
    requires Engine.Run(states, steps) && n < |states|
    requires states[n].send == [] && states[n].rx.task.None? && !states[n].loop.SendAlloc?
    ensures Ended(states[n].rx.trace) == states[n].accepted
  {
    Conservation(states, steps, n);
  }
}
