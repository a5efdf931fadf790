/**
 * The loop's small steps refine the atomic receive machine: ending a command takes several steps, with
 * other threads in between, but amounts to one command end at the moment it begins.
 */
module EngineAtomic {
  import opened Bytes
  import opened AtcTypes
  import opened UrcSpec
  import opened ReceiveSpec
  import opened Ticks
  import opened Engine
  import opened EngineTasks

  /** The receive state once a command end under way is complete. */
  function Settled(loop: Loop, rx: RxState): RxState
    requires rx.length <= |rx.response|
  {
    if loop.EndReply? then Release(Notify(rx, loop.result))
    else if Ending(loop) then Release(rx)
    else rx
  }

  /** What a loop step does to the settled state, all at once. */
  ghost function Atomic(m: M, s: LoopStep): RxState
    requires Sane(m) && Shape(m.rx) && CanLoop(m, s)
  {
    match s
    case DrainByte(_, _) => ByteStep(m.rx, m.reg.urcs, m.ring[0])
    case AllocTask(hasMemory) =>
      if hasMemory then Begin(m.rx, m.loop.req, m.nextHandle, Tick(m.now))
      else m.rx.(trace := m.rx.trace + [TaskLost(m.loop.req)])
    case Transmit(ok) => if ok then m.rx else CommandEnd(m.rx, HardwareError)
    case CheckTask => Checked(m.rx, Tick(m.now))
    case ServeMsg(_, _, value) => m.rx.(trace := m.rx.trace + [ReplyOf(m.loop.msg, value)])
    case _ => Settled(m.loop, m.rx)
  }

  lemma DrainIsAtomic(m: M, s: LoopStep)
    requires Shape(m.rx) && Sane(m) && CanLoop(m, s) && Honest(m, s) && s.DrainByte? && LabelFits(m, s)
    ensures Shape(s.rx) && NextRx(m, s).length <= |NextRx(m, s).response|
    ensures Settled(NextLoop(m, s), NextRx(m, s)) == ByteStep(m.rx, m.reg.urcs, m.ring[0])
  {
  }

  lemma ReplyIsSettled(m: M)
    requires Sane(m) && CanLoop(m, Reply)
    ensures NextRx(m, Reply).length <= |NextRx(m, Reply).response|
    ensures Settled(NextLoop(m, Reply), NextRx(m, Reply)) == Settled(m.loop, m.rx)
  {
  }

  /** A command end under way is settled already. */
  lemma EndingIsSettled(m: M, s: LoopStep)
    requires Sane(m) && CanLoop(m, s) && Ending(m.loop)
    ensures NextRx(m, s).length <= |NextRx(m, s).response|
    ensures Settled(NextLoop(m, s), NextRx(m, s)) == Settled(m.loop, m.rx)
  {
    if s.Reply? {
      ReplyIsSettled(m);
    }
  }

  lemma StartIsAtomic(m: M, s: LoopStep)
    requires Shape(m.rx) && Phases(m.loop, m.rx.task) && Sane(m) && CanLoop(m, s)
    requires s.AllocTask? || s.Transmit? || s.CheckTask?
    ensures NextRx(m, s).length <= |NextRx(m, s).response|
    ensures Settled(NextLoop(m, s), NextRx(m, s)) == Atomic(m, s)
  {
  }

  lemma OtherIsAtomic(m: M, s: LoopStep)
    requires Shape(m.rx) && Phases(m.loop, m.rx.task) && Sane(m) && CanLoop(m, s) && !s.DrainByte?
    ensures NextRx(m, s).length <= |NextRx(m, s).response|
    ensures Settled(NextLoop(m, s), NextRx(m, s)) == Atomic(m, s)
  {
    if Ending(m.loop) {
      EndingIsSettled(m, s);
    } else if s.AllocTask? || s.Transmit? || s.CheckTask? {
      StartIsAtomic(m, s);
    }
  }

  lemma LoopIsAtomic(m: M, s: LoopStep)
    requires RxKept(m) && Sane(m) && CanLoop(m, s) && Honest(m, s)
    ensures Shape(m.rx) && NextRx(m, s).length <= |NextRx(m, s).response|
    ensures Settled(NextLoop(m, s), NextRx(m, s)) == Atomic(m, s)
  {
    if s.DrainByte? {
      HonestFits(m, s);
      DrainIsAtomic(m, s);
    } else {
      OtherIsAtomic(m, s);
    }
  }

  lemma StepIsAtomic(m: M, step: Step, m': M)
    requires RxKept(m) && Follows(m, step, m')
    ensures Shape(m.rx) && m'.rx.length <= |m'.rx.response|
    ensures Settled(m'.loop, m'.rx) == if step.OfLoop? then Atomic(m, step.l) else Settled(m.loop, m.rx)
  {
    if step.OfLoop? {
      LoopIsAtomic(m, step.l);
    }
  }

  /**
   * Over every run: each loop step does one atomic action of the receive machine, or nothing, to the
   * settled state; steps of the interrupt, of callers and of time do nothing to it.
   */
  lemma StepsAreAtomic(states: seq<M>, steps: seq<Step>, n: nat)
    requires Engine.Run(states, steps) && n < |steps|
    ensures var (m, m') := (states[n], states[n + 1]);
            Sane(m) && Enabled(m, steps[n]) && Shape(m.rx) && m'.rx.length <= |m'.rx.response| &&
            Settled(m'.loop, m'.rx) == if steps[n].OfLoop? then Atomic(m, steps[n].l) else Settled(m.loop, m.rx)
  {
    EngineTasks.RunKeepsInv(states, steps, n);
    RunStep(states, steps, n);
    StepIsAtomic(states[n], steps[n], states[n + 1]);
  }

  // An iteration of the loop alone.

  /** The loop is draining the ring, or ending a command on the way. */
  predicate Draining(loop: Loop) {
    loop.Drain? || (Ending(loop) && loop.back.ToDrain?)
  }

  /** The loop is past its check of the timeout, and does not sleep yet. */
  predicate BeforeSleep(loop: Loop) {
    loop.ComputeWait? || (Ending(loop) && loop.back.ToWait?)
  }

  predicate InIteration(loop: Loop) {
    Draining(loop) || loop.Check? || BeforeSleep(loop) || loop.Blocked?
  }

  /** The loop alone: its steps, and none that leaves its wait. */
  predicate Alone(states: seq<M>, steps: seq<Step>, i: nat, j: nat)
    requires i <= j <= |steps| < |states|
  {
    forall k | i <= k < j :: steps[k].OfLoop? && !states[k].loop.Blocked?
  }

  lemma SettledKeepsShape(loop: Loop, rx: RxState, reg: Registry)
    requires Parts(Ending(loop), rx, reg)
    ensures Shape(rx) && Shape(Settled(loop, rx))
  {
    if Ending(loop) {
      ReleaseKeepsInv(rx);
    }
  }

  /** What the rest of this iteration will make of the receive state if nobody interferes. */
  ghost function Final(loop: Loop, rx: RxState, ring: seq<byte>, urcs: seq<Urc>, tick: nat): RxState {
    if !Shape(rx) || !Shape(Settled(loop, rx)) then rx
    else if Draining(loop) then Checked(Feed(Settled(loop, rx), Stamped(ring, urcs)), tick)
    else if loop.Check? then Checked(rx, tick)
    else Settled(loop, rx)
  }

  lemma FirstByte(s: RxState, ring: seq<byte>, urcs: seq<Urc>)
    requires Shape(s) && ring != []
    ensures Feed(s, Stamped(ring, urcs)) == Feed(ByteStep(s, urcs, ring[0]), Stamped(ring[1..], urcs))
  {
    var x := Rx(ring[0], urcs);
    assert Stamped(ring, urcs) == [x] + Stamped(ring[1..], urcs);
    FeedConcat(s, [x], Stamped(ring[1..], urcs));
    assert [x][..0] == [];
    assert Feed(s, [x]) == ByteStep(Feed(s, []), urcs, ring[0]);
  }

  lemma DrainKeepsFinal(m: M, s: LoopStep)
    requires RxKept(m) && Sane(m) && CanLoop(m, s) && Honest(m, s) && s.DrainByte?
    requires Shape(Settled(m.loop, m.rx)) && Shape(NextRx(m, s)) && Shape(Settled(NextLoop(m, s), NextRx(m, s)))
    ensures InIteration(NextLoop(m, s))
    ensures Final(NextLoop(m, s), NextRx(m, s), m.ring[1..], m.reg.urcs, Tick(m.now)) ==
            Final(m.loop, m.rx, m.ring, m.reg.urcs, Tick(m.now))
  {
    LoopIsAtomic(m, s);
    FirstByte(m.rx, m.ring, m.reg.urcs);
  }

  lemma EndingKeepsFinal(m: M, s: LoopStep)
    requires Sane(m) && CanLoop(m, s) && Ending(m.loop) && InIteration(m.loop) && Shape(m.rx) && Shape(NextRx(m, s))
    ensures InIteration(NextLoop(m, s))
    ensures Final(NextLoop(m, s), NextRx(m, s), m.ring, m.reg.urcs, Tick(m.now)) ==
            Final(m.loop, m.rx, m.ring, m.reg.urcs, Tick(m.now))
  {
    EndingIsSettled(m, s);
  }

  lemma CheckKeepsFinal(m: M)
    requires RxKept(m) && Sane(m) && CanLoop(m, CheckTask)
    requires Shape(Settled(NextLoop(m, CheckTask), m.rx))
    ensures InIteration(NextLoop(m, CheckTask))
    ensures Final(NextLoop(m, CheckTask), m.rx, m.ring, m.reg.urcs, Tick(m.now)) ==
            Final(m.loop, m.rx, m.ring, m.reg.urcs, Tick(m.now))
  {
    StartIsAtomic(m, CheckTask);
  }

  lemma OtherKeepsFinal(m: M, s: LoopStep)
    requires RxKept(m) && Sane(m) && CanLoop(m, s) && Honest(m, s) && InIteration(m.loop) && !m.loop.Blocked?
    requires !s.DrainByte?
    requires Shape(Settled(m.loop, m.rx)) && Shape(NextRx(m, s)) && Shape(Settled(NextLoop(m, s), NextRx(m, s)))
    ensures InIteration(NextLoop(m, s))
    ensures Final(NextLoop(m, s), NextRx(m, s), m.ring, m.reg.urcs, Tick(m.now)) ==
            Final(m.loop, m.rx, m.ring, m.reg.urcs, Tick(m.now))
  {
    if Ending(m.loop) {
      EndingKeepsFinal(m, s);
    } else if s.CheckTask? {
      CheckKeepsFinal(m);
    } else {
      assert s.DrainDone? || s.StartWait?;
    }
  }

  lemma LoopKeepsFinal(m: M, s: LoopStep)
    requires RxKept(m) && Sane(m) && CanLoop(m, s) && Honest(m, s) && InIteration(m.loop) && !m.loop.Blocked?
    requires Parts(Ending(NextLoop(m, s)), NextRx(m, s), m.reg)
    ensures InIteration(NextLoop(m, s))
    ensures Final(NextLoop(m, s), NextRx(m, s), if s.DrainByte? then m.ring[1..] else m.ring, m.reg.urcs, Tick(m.now))
            == Final(m.loop, m.rx, m.ring, m.reg.urcs, Tick(m.now))
  {
    SettledKeepsShape(m.loop, m.rx, m.reg);
    SettledKeepsShape(NextLoop(m, s), NextRx(m, s), m.reg);
    if s.DrainByte? {
      DrainKeepsFinal(m, s);
    } else {
      OtherKeepsFinal(m, s);
    }
  }

  ghost function FinalOf(m: M): RxState {
    Final(m.loop, m.rx, m.ring, m.reg.urcs, Tick(m.now))
  }

  lemma StepKeepsFinal(m: M, s: LoopStep, m': M)
    requires RxKept(m) && RxKept(m') && Follows(m, OfLoop(s), m') && InIteration(m.loop) && !m.loop.Blocked?
    ensures InIteration(m'.loop) && FinalOf(m') == FinalOf(m)
  {
    LoopKeepsFinal(m, s);
  }

  lemma {:induction false} AloneReaches(states: seq<M>, steps: seq<Step>, i: nat, j: nat)
    requires Engine.Run(states, steps) && i <= j < |states| && Alone(states, steps, i, j)
    requires InIteration(states[i].loop) && states[j].loop.Blocked?
    ensures states[j].rx == FinalOf(states[i])
    decreases j - i
  {
    if i < j {
      EngineTasks.RunKeepsInv(states, steps, i);
      EngineTasks.RunKeepsInv(states, steps, i + 1);
      RunStep(states, steps, i);
      StepKeepsFinal(states[i], steps[i].l, states[i + 1]);
      AloneReaches(states, steps, i + 1, j);
    }
  }

  /**
   * If nobody interferes, the small steps of an iteration, from the drain to the wait, add up to what the
   * functions called one after the other compute: the fold over the ring, then the check of the timeout.
   */
  lemma LoneIteration(states: seq<M>, steps: seq<Step>, i: nat, j: nat)
    requires Engine.Run(states, steps) && i <= j < |states| && Alone(states, steps, i, j)
    requires states[i].loop.Drain? && states[j].loop.Blocked?
    ensures var m := states[i];
            Shape(m.rx) && states[j].rx == Checked(Feed(m.rx, Stamped(m.ring, m.reg.urcs)), Tick(m.now))
  {
    AloneReaches(states, steps, i, j);
    EngineTasks.RunKeepsInv(states, steps, i);
  }
}
