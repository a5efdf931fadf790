/** What memory a run can leave behind: exactly the blocks of requests lost to a failed allocation. */
module EngineLeaks {
  import opened AtcTypes
  import opened Engine
  import opened EngineTasks
  import opened EngineConservation
  import opened EngineOwnership

  /** The blocks of the requests that were lost. */
  function LostHandles(trace: seq<Event>): set<nat> {
    if trace == [] then {} else
      var last := trace[|trace| - 1];
      LostHandles(trace[..|trace| - 1]) + (if last.TaskLost? then ReqHandles(last.req) else {})
  }

  function LeakedHandles(owner: map<nat, Owner>): set<nat> {
    set h | h in owner && owner[h].Leaked?
  }

  predicate LeaksAreLost(m: M) {
    LeakedHandles(m.owner) == LostHandles(m.rx.trace)
  }

  lemma LostAppend(trace: seq<Event>, e: Event)
    ensures LostHandles(trace + [e]) == LostHandles(trace) + (if e.TaskLost? then ReqHandles(e.req) else {})
  {
    assert (trace + [e])[..|trace|] == trace;
  }

  lemma {:induction false} CallsLoseNothing(a: seq<Event>, b: seq<Event>)
    requires OnlyCalls(a, b)
    ensures LostHandles(b) == LostHandles(a)
  {
    if |b| == |a| {
      assert a == b;
    } else {
      CallsLoseNothing(a, b[..|b| - 1]);
    }
  }

  lemma {:induction false} NoHandlesIffNoneLost(trace: seq<Event>)
    ensures LostHandles(trace) == {} <==> NoneLost(trace)
  {
    if trace != [] {
      var (init, last) := (trace[..|trace| - 1], trace[|trace| - 1]);
      NoHandlesIffNoneLost(init);
      assert last.TaskLost? ==> last.req.data in ReqHandles(last.req);
      assert forall i | 0 <= i < |init| :: trace[i] == init[i];
    }
  }

  lemma LoopRecordsLost(m: M, s: LoopStep)
    requires Sane(m) && CanLoop(m, s) && LabelFits(m, s)
    ensures LostHandles(NextRx(m, s).trace) ==
            LostHandles(m.rx.trace) + (if s == AllocTask(false) then ReqHandles(m.loop.req) else {})
  {
    match s {
      case ServeMsg(_, _, value) => LostAppend(m.rx.trace, ReplyOf(m.loop.msg, value));
      case AllocTask(hasMemory) => LostAppend(m.rx.trace, TaskLost(m.loop.req));
      case DrainByte(rx, _) => CallsLoseNothing(m.rx.trace, rx.trace);
      case Reply => LostAppend(m.rx.trace, Completed(Task(m).req, m.loop.result, m.rx.response[..m.rx.length]));
      case _ =>
    }
  }

  lemma LoopLeaksLost(m: M, s: LoopStep)
    requires Owned(m) && Phases(m.loop, m.rx.task) && Booked(m) && Sane(m) && CanLoop(m, s)
    ensures LeakedHandles(NextOwner(m, s)) ==
            LeakedHandles(m.owner) + (if s == AllocTask(false) then ReqHandles(m.loop.req) else {})
  {
    match s {
      case AllocTask(hasMemory) =>
        assert Sends(m)[0] == m.loop.req;
        assert ItemOwns(m.owner, m.loop.req.ticket, m.items[m.loop.req.ticket].handles);
      case FreeMsg =>
        assert Msgs(m)[0] == m.loop.msg;
        assert ItemOwns(m.owner, m.loop.msg.ticket, m.items[m.loop.msg.ticket].handles);
      case Finish =>
        assert Sends(m)[0] == Task(m).req;
        ReleasedHandles(m, s);
        assert ItemOwns(m.owner, Task(m).req.ticket, m.items[Task(m).req.ticket].handles);
      case _ =>
    }
  }

  lemma CallLeaksNothing(m: M, c: nat, s: CallStep)
    requires Owned(m) && CanCall(m, c, s)
    ensures LeakedHandles(CallOwner(m, c, s)) == LeakedHandles(m.owner)
  {
    if c in m.callers {
      assert CallerOwns(m.owner, c, Holds(m.callers[c]));
      if s == Enqueue(true) {
        QueueSplitsHeld(m, c);
      }
    }
  }

  lemma StepKeepsLeaks(m: M, step: Step, m': M)
    requires LeaksAreLost(m) && OwnershipInv(m) && Inv(m) && Follows(m, step, m')
    ensures LeaksAreLost(m')
  {
    match step {
      case OfLoop(l) =>
        HonestFits(m, l);
        LoopRecordsLost(m, l);
        LoopLeaksLost(m, l);
      case OfCaller(c, s) => CallLeaksNothing(m, c, s);
      case _ =>
    }
  }

  lemma RunStepKeepsLeaks(states: seq<M>, steps: seq<Step>, n: nat)
    requires Engine.Run(states, steps) && n < |steps| && LeaksAreLost(states[n])
    ensures LeaksAreLost(states[n + 1])
  {
    RunKeepsInv(states, steps, n);
    RunKeepsOwnership(states, steps, n);
    RunStep(states, steps, n);
    StepKeepsLeaks(states[n], steps[n], states[n + 1]);
  }

  lemma {:induction false} RunKeepsLeaks(states: seq<M>, steps: seq<Step>, n: nat)
    requires Engine.Run(states, steps) && n < |states|
    ensures LeaksAreLost(states[n])
  {
    if n == 0 {
      RunStart(states, steps);
    } else {
      RunKeepsLeaks(states, steps, n - 1);
      RunStepKeepsLeaks(states, steps, n - 1);
    }
  }

  /** Nothing in the queues or in execution, and no caller inside a call. */
  predicate Idle(m: M) {
    Sends(m) == [] && Msgs(m) == [] && forall c | c in m.callers :: m.callers[c].Finished?
  }

  lemma IdleOwnsOnlyLeaks(m: M)
    requires OwnershipInv(m) && Idle(m)
    ensures m.owner.Keys == LeakedHandles(m.owner)
  {
    assert m.items == map[];
    assert forall h | h in m.owner :: m.owner[h].Leaked?;
  }

  /**
   * Once the engine is idle, the blocks and semaphores still allocated are exactly the data and prompt
   * blocks of requests lost to a failed allocation: nothing at all exactly if no allocation of a task
   * has failed.
   */
  lemma IdleLeaksOnlyLost(states: seq<M>, steps: seq<Step>, n: nat)
    requires Engine.Run(states, steps) && n < |states| && Idle(states[n])
    ensures states[n].owner.Keys == LostHandles(states[n].rx.trace)
    ensures states[n].owner == map[] <==> MemoryNeverFails(steps[..n])
  {
    var m := states[n];
    RunKeepsOwnership(states, steps, n);
    RunKeepsLeaks(states, steps, n);
    IdleOwnsOnlyLeaks(m);
    NoHandlesIffNoneLost(m.rx.trace);
    LostIffMemoryFailed(states, steps, n);
    assert m.owner == map[] <==> m.owner.Keys == {};
  }
}
