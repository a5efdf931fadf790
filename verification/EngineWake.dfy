/** Wake-ups: what the event loop can miss while it blocks, and what it cannot. */
module EngineWake {
  import opened Engine
  import opened EngineTasks

  /** The API queue was found empty in this iteration. */
  predicate PastApiPoll(loop: Loop) {
    !loop.ExternPoll? && !loop.ExternWork? && !loop.ExternGive? && !loop.ExternFree?
  }

  /** The send queue has been looked at in this iteration. */
  predicate PastSendPoll(loop: Loop) {
    PastApiPoll(loop) && !loop.SendPoll?
  }

  /** The ring was found empty in this iteration. */
  predicate PastDrain(loop: Loop) {
    loop.Check? || loop.ComputeWait? || loop.Blocked? || (Ending(loop) && loop.back.ToWait?)
  }

  /** Some caller is between its enqueue and its give. */
  predicate GiveComing(callers: map<nat, Caller>, ofSend: bool) {
    exists c :: c in callers && callers[c].Enqueued? && callers[c].op.Send? == ofSend
  }

  /** The interrupt has stored a byte and not returned. */
  predicate InterruptBusy(isr: Isr) {
    isr.Giving? || (isr.Writing? && isr.count > 0)
  }

  predicate ApiWakes(m: M) {
    PastApiPoll(m.loop) && m.api != [] ==> m.wake || GiveComing(m.callers, false)
  }

  predicate SendWakes(m: M) {
    PastSendPoll(m.loop) && m.send != [] ==> m.wake || GiveComing(m.callers, true) || m.busy
  }

  predicate RingWakes(m: M) {
    PastDrain(m.loop) && m.ring != [] ==> m.wake || InterruptBusy(m.isr) || m.stranded
  }

  predicate WakeInv(m: M) {
    ApiWakes(m) && SendWakes(m) && RingWakes(m) && (m.isr.Writing? ==> m.isr.count < |m.isr.data|)
  }

  lemma LoopKeepsSendWakes(m: M, s: LoopStep)
    requires SendWakes(m) && Sane(m) && CanLoop(m, s)
    ensures SendWakes(DoLoop(m, s))
  {
  }

  lemma LoopKeepsRingWakes(m: M, s: LoopStep)
    requires RingWakes(m) && Sane(m) && CanLoop(m, s)
    ensures RingWakes(DoLoop(m, s))
  {
  }

  lemma LoopKeepsWake(m: M, s: LoopStep)
    requires WakeInv(m) && Sane(m) && CanLoop(m, s)
    ensures WakeInv(DoLoop(m, s))
  {
    LoopKeepsSendWakes(m, s);
    LoopKeepsRingWakes(m, s);
  }

  /** A give leaves the semaphore given; before it, the caller that queued stays visible. */
  lemma CallKeepsWake(m: M, c: nat, s: CallStep)
    requires WakeInv(m) && CanCall(m, c, s)
    ensures WakeInv(DoCall(m, c, s))
  {
    var m' := DoCall(m, c, s);
    if s.WakeLoop? {
      assert m'.wake;
    } else {
      forall d | d in m.callers && m.callers[d].Enqueued?
        ensures d in m'.callers && m'.callers[d].Enqueued? && m'.callers[d].op == m.callers[d].op
      {
      }
      assert s == Enqueue(true) ==> m'.callers[c].Enqueued?;
    }
  }

  lemma IsrKeepsWake(m: M, s: IsrStep)
    requires WakeInv(m) && CanIsr(m, s)
    ensures WakeInv(DoIsr(m, s))
  {
  }

  lemma {:induction false} RunKeepsWake(states: seq<M>, steps: seq<Step>, n: nat)
    requires Engine.Run(states, steps) && n < |states|
    ensures WakeInv(states[n])
  {
    if n == 0 {
      RunStart(states, steps);
    } else {
      RunKeepsWake(states, steps, n - 1);
      RunStep(states, steps, n - 1);
      StepKeepsWake(states[n - 1], steps[n - 1], states[n]);
    }
  }

  lemma StepKeepsWake(m: M, step: Step, m': M)
    requires WakeInv(m) && Follows(m, step, m')
    ensures WakeInv(m')
  {
    match step {
      case OfLoop(l) => LoopKeepsWake(m, l);
      case OfIsr(i) => IsrKeepsWake(m, i);
      case OfCaller(c, s) => CallKeepsWake(m, c, s);
      case _ =>
    }
  }

  // Receive calls that fit the ring.

  predicate CallsUpTo(steps: seq<Step>, k: nat) {
    forall i | 0 <= i < |steps| && steps[i].OfIsr? && steps[i].i.IsrCall? :: |steps[i].i.data| <= k
  }

  /**
   * With no wake-up pending after the drain, the ring holds no more than the bytes of the call under way:
   * so a call of at most as many bytes as the ring has room for is never cut short then.
   */
  predicate RingFits(m: M) {
    && (m.isr.Writing? ==> m.isr.count < |m.isr.data| <= RING_ROOM)
    && (PastDrain(m.loop) && !m.wake ==>
          (m.isr.Quiet? ==> m.ring == []) && (m.isr.Writing? ==> |m.ring| <= m.isr.count))
  }

  lemma LoopKeepsFit(m: M, s: LoopStep)
    requires RingFits(m) && Sane(m) && CanLoop(m, s)
    ensures RingFits(DoLoop(m, s))
  {
  }

  lemma StepKeepsFit(m: M, step: Step, m': M)
    requires RingFits(m) && Follows(m, step, m')
    requires step.OfIsr? && step.i.IsrCall? ==> |step.i.data| <= RING_ROOM
    ensures RingFits(m')
  {
    if step.OfLoop? {
      LoopKeepsFit(m, step.l);
    }
  }

  lemma {:induction false} RunKeepsFit(states: seq<M>, steps: seq<Step>, n: nat)
    requires Engine.Run(states, steps) && n < |states| && CallsUpTo(steps, RING_ROOM)
    ensures RingFits(states[n])
  {
    if n == 0 {
      RunStart(states, steps);
    } else {
      RunKeepsFit(states, steps, n - 1);
      RunStep(states, steps, n - 1);
      StepKeepsFit(states[n - 1], steps[n - 1], states[n]);
    }
  }

  // One request at a time.

  /** At most k requests are in the engine at any moment, in execution or queued. */
  predicate HeldUpTo(states: seq<M>, k: nat) {
    forall i: nat | i < |states| :: HeldAt(states, k, i)
  }

  predicate HeldAt(states: seq<M>, k: nat, i: nat)
    requires i < |states|
  {
    |Sends(states[i])| <= k
  }

  predicate SendNoticed(m: M) {
    PastSendPoll(m.loop) && m.send != [] ==> m.wake || GiveComing(m.callers, true)
  }

  lemma LoopNoticesSend(m: M, s: LoopStep)
    requires SendNoticed(m) && |Sends(m)| <= 1 && Sane(m) && CanLoop(m, s)
    ensures SendNoticed(DoLoop(m, s))
  {
  }

  lemma CallNoticesSend(m: M, c: nat, s: CallStep)
    requires SendNoticed(m) && CanCall(m, c, s)
    ensures SendNoticed(DoCall(m, c, s))
  {
    var m' := DoCall(m, c, s);
    if !s.WakeLoop? {
      forall d | d in m.callers && m.callers[d].Enqueued?
        ensures d in m'.callers && m'.callers[d].Enqueued? && m'.callers[d].op == m.callers[d].op
      {
      }
      assert s == Enqueue(true) ==> m'.callers[c].Enqueued?;
    }
  }

  lemma StepNoticesSend(m: M, step: Step, m': M)
    requires SendNoticed(m) && |Sends(m)| <= 1 && Follows(m, step, m')
    ensures SendNoticed(m')
  {
    match step {
      case OfLoop(l) => LoopNoticesSend(m, l);
      case OfCaller(c, s) => CallNoticesSend(m, c, s);
      case _ =>
    }
  }

  lemma {:induction false} RunNoticesSend(states: seq<M>, steps: seq<Step>, n: nat)
    requires Engine.Run(states, steps) && n < |states| && HeldUpTo(states, 1)
    ensures SendNoticed(states[n])
  {
    if n == 0 {
      RunStart(states, steps);
    } else {
      RunNoticesSend(states, steps, n - 1);
      RunStep(states, steps, n - 1);
      assert HeldAt(states, 1, n - 1);
      StepNoticesSend(states[n - 1], steps[n - 1], states[n]);
    }
  }

  // What the two bookkeeping flags stand for.

  /** This iteration found a task in flight, or dequeued one. */
  ghost predicate FoundTask(steps: seq<Step>, n: nat)
    requires n <= |steps|
  {
    exists k :: 0 <= k < n && (steps[k] == OfLoop(SkipSend) || steps[k] == OfLoop(TakeSend)) &&
      forall j | k < j < n :: steps[j] != OfLoop(Wake) && steps[j] != OfLoop(TimeUp)
  }

  /** A receive call returned with part of its bytes stored, and the ring has not been found empty since. */
  ghost predicate CutShort(states: seq<M>, steps: seq<Step>, n: nat)
    requires n <= |steps| < |states|
  {
    exists k :: 0 <= k < n && steps[k] == OfIsr(IsrFull) && InterruptBusy(states[k].isr) &&
      forall j | k < j < n :: steps[j] != OfLoop(DrainDone)
  }

  lemma StepFlags(m: M, step: Step, m': M)
    requires Follows(m, step, m')
    ensures m'.busy <==> step == OfLoop(SkipSend) || step == OfLoop(TakeSend) ||
                         (m.busy && step != OfLoop(Wake) && step != OfLoop(TimeUp))
    ensures m'.stranded <==> (step == OfIsr(IsrFull) && InterruptBusy(m.isr)) ||
                             (m.stranded && step != OfLoop(DrainDone))
  {
  }

  lemma {:induction false} BusyIff(states: seq<M>, steps: seq<Step>, n: nat)
    requires Engine.Run(states, steps) && n < |states|
    ensures states[n].busy <==> FoundTask(steps, n)
  {
    if n == 0 {
      RunStart(states, steps);
    } else {
      BusyIff(states, steps, n - 1);
      RunStep(states, steps, n - 1);
      StepFlags(states[n - 1], steps[n - 1], states[n]);
      FoundTaskStep(steps, n);
    }
  }

  lemma FoundTaskStep(steps: seq<Step>, n: nat)
    requires 0 < n <= |steps|
    ensures var last := steps[n - 1];
            FoundTask(steps, n) <==>
            last == OfLoop(SkipSend) || last == OfLoop(TakeSend) ||
            (FoundTask(steps, n - 1) && last != OfLoop(Wake) && last != OfLoop(TimeUp))
  {
    var last := steps[n - 1];
    if last == OfLoop(SkipSend) || last == OfLoop(TakeSend) {
      assert FoundTask(steps, n);
    } else if FoundTask(steps, n) {
      var k :| 0 <= k < n && (steps[k] == OfLoop(SkipSend) || steps[k] == OfLoop(TakeSend)) &&
        forall j | k < j < n :: steps[j] != OfLoop(Wake) && steps[j] != OfLoop(TimeUp);
      assert k < n - 1 && steps[n - 1] == last;
    }
  }

  lemma {:induction false} StrandedIff(states: seq<M>, steps: seq<Step>, n: nat)
    requires Engine.Run(states, steps) && n < |states|
    ensures states[n].stranded <==> CutShort(states, steps, n)
  {
    if n == 0 {
      RunStart(states, steps);
    } else {
      StrandedIff(states, steps, n - 1);
      RunStep(states, steps, n - 1);
      StepFlags(states[n - 1], steps[n - 1], states[n]);
      CutShortStep(states, steps, n);
    }
  }

  lemma CutShortStep(states: seq<M>, steps: seq<Step>, n: nat)
    requires 0 < n <= |steps| < |states|
    ensures var last := steps[n - 1];
            CutShort(states, steps, n) <==>
            (last == OfIsr(IsrFull) && InterruptBusy(states[n - 1].isr)) ||
            (CutShort(states, steps, n - 1) && last != OfLoop(DrainDone))
  {
    var last := steps[n - 1];
    if CutShort(states, steps, n) && !(last == OfIsr(IsrFull) && InterruptBusy(states[n - 1].isr)) {
      var k :| 0 <= k < n && steps[k] == OfIsr(IsrFull) && InterruptBusy(states[k].isr) &&
        forall j | k < j < n :: steps[j] != OfLoop(DrainDone);
      assert k < n - 1 && steps[n - 1] == last;
    }
  }

  /**
   * While the loop blocks, work in the API queue implies that the wake semaphore is given or about to be.
   * The same for the send queue, unless this iteration found a task in flight or dequeued one; and without
   * exception if there is never more than one request in the engine. The same for the ring, unless a
   * receive call was cut short; and without exception if no call has more bytes than the ring has room for.
   */
  lemma NothingMissedWhileBlocked(states: seq<M>, steps: seq<Step>, n: nat)
    requires Engine.Run(states, steps) && n < |states| && states[n].loop.Blocked?
    ensures var m := states[n];
            (m.api != [] ==> m.wake || GiveComing(m.callers, false)) &&
            (m.send != [] ==> m.wake || GiveComing(m.callers, true) || FoundTask(steps, n)) &&
            (m.send != [] && HeldUpTo(states, 1) ==> m.wake || GiveComing(m.callers, true)) &&
            (m.ring != [] ==> m.wake || InterruptBusy(m.isr) || CutShort(states, steps, n)) &&
            (m.ring != [] && CallsUpTo(steps, RING_ROOM) ==> m.wake || InterruptBusy(m.isr))
  {
    RunKeepsWake(states, steps, n);
    BusyIff(states, steps, n);
    StrandedIff(states, steps, n);
    if HeldUpTo(states, 1) {
      RunNoticesSend(states, steps, n);
    }
    if CallsUpTo(steps, RING_ROOM) {
      RunKeepsFit(states, steps, n);
    }
  }
}
