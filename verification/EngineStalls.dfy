/** Two ways the event loop can block although there is work: exactly when they can happen, and that they last. */
module EngineStalls {
  import opened Bytes
  import opened AtcTypes
  import opened Ticks
  import opened Engine
  import opened EngineWake
  import opened EngineReach

  /** Neither the loop nor anyone else is about to do anything. */
  predicate Asleep(m: M) {
    m.loop.Blocked? && m.loop.wait == FOREVER && !m.wake && m.rx.task.None? && m.api == [] && m.isr.Quiet?
  }

  /** Requests wait in the send queue, and the loop sleeps without limit. */
  predicate SendStalled(m: M) {
    Asleep(m) && m.send != [] && m.ring == [] && m.callers == map[]
  }

  /** Received bytes wait in the ring, and the loop sleeps without limit. */
  predicate RingStalled(m: M) {
    Asleep(m) && m.ring != [] && m.send == [] && m.callers == map[]
  }

  /** From there the engine does nothing at all, however much time passes. */
  lemma StalledStays(m: M, step: Step, m': M)
    requires SendStalled(m) || RingStalled(m)
    requires Follows(m, step, m') && (step.OfLoop? || step.Elapse?)
    ensures step.Elapse? && m' == m.(now := m'.now) && (SendStalled(m) ==> SendStalled(m')) &&
            (RingStalled(m) ==> RingStalled(m'))
  {
  }

  // A second request queued behind one that ends at once.

  const COMMAND: Op := Send(false, false, None, None, 0, 0)

  lemma TwoAreQueued(limits: Limits) returns (m: M)
    requires limits.requests >= 2
    ensures Reach(m, limits) && m.rx.task.None? && m.loop.Blocked? && m.wake && m.isr.Quiet?
    ensures m.api == [] && m.ring == [] && m.callers == map[] && |m.send| == 2 && m.send[0].sem.None?
  {
    var m0 := IdleIsReachable(limits);
    var m1, first := SendIsQueued(m0, 0, COMMAND, limits);
    var m2, second := SendIsQueued(m1, 1, COMMAND, limits);
    var m3 := CallerGives(m2, 0, limits);
    m := CallerGives(m3, 1, limits);
    assert m.callers == map[];
  }

  /** The queues and callers of the two states agree. */
  predicate SameOutside(a: M, b: M) {
    a.api == b.api && a.send == b.send && a.ring == b.ring && a.isr == b.isr && a.callers == b.callers
  }

  lemma TakenIsRefused(m: M, limits: Limits) returns (m': M)
    requires Reach(m, limits) && m.loop.SendAlloc?
    ensures Reach(m', limits) && SameOutside(m, m') && m'.rx.task.Some? && m'.wake == m.wake
    ensures m'.loop == EndReply(HardwareError, ToDrain) && Task(m').req == m.loop.req
  {
    ReachStep(m, OfLoop(AllocTask(true)), limits);
    var m1 := Do(m, OfLoop(AllocTask(true)));
    ReachStep(m1, OfLoop(Transmit(false)), limits);
    m' := Do(m1, OfLoop(Transmit(false)));
  }

  lemma AsyncTaskEnds(m: M, limits: Limits) returns (m': M)
    requires Reach(m, limits) && m.loop.EndReply? && m.loop.back.ToDrain? && m.rx.task.Some? && Task(m).req.sem.None?
    ensures Reach(m', limits) && SameOutside(m, m') && m'.rx.task.None? && m'.loop.Drain? && m'.wake == m.wake
  {
    ReachStep(m, OfLoop(Reply), limits);
    var m1 := Do(m, OfLoop(Reply));
    ReachStep(m1, OfLoop(Finish), limits);
    m' := Do(m1, OfLoop(Finish));
  }

  /**
   * A task that ends within the iteration that took it leaves the loop free to block for ever with the
   * next request still queued: here the hardware refuses the first of two commands.
   */
  lemma SendStallIsReachable(limits: Limits)
    requires limits.requests >= 2
    ensures exists m :: Reach(m, limits) && SendStalled(m)
  {
    var m0 := TwoAreQueued(limits);
    var m1 := FirstIsTaken(m0, limits);
    var m2 := TakenIsRefused(m1, limits);
    var m3 := AsyncTaskEnds(m2, limits);
    var m4 := DrainedSleeps(m3, limits);
    assert SendStalled(m4);
  }

  // A receive call that does not fit.

  lemma {:induction false} BytesAreStored(m: M, data: seq<byte>, n: nat, limits: Limits) returns (m': M)
    requires Reach(m, limits) && m.isr == Writing(data, 0) && m.ring == [] && n < |data| && n <= RING_ROOM
    ensures Reach(m', limits) && m' == m.(isr := Writing(data, n), ring := data[..n])
  {
    if n == 0 {
      m' := m;
    } else {
      var m1 := BytesAreStored(m, data, n - 1, limits);
      ReachStep(m1, OfIsr(IsrByte), limits);
      m' := Do(m1, OfIsr(IsrByte));
      assert data[..n - 1] + [data[n - 1]] == data[..n];
    }
  }

  /** A receive call of more bytes than the empty ring has room for returns without waking the loop. */
  lemma RingStallIsReachable(data: seq<byte>, limits: Limits)
    requires RING_ROOM < |data| <= limits.bytes
    ensures exists m :: Reach(m, limits) && RingStalled(m) && m.ring == data[..255]
  {
    var m0 := IdleIsReachable(limits);
    ReachStep(m0, OfIsr(IsrCall(data)), limits);
    var m1 := Do(m0, OfIsr(IsrCall(data)));
    var m2 := BytesAreStored(m1, data, RING_ROOM, limits);
    ReachStep(m2, OfIsr(IsrFull), limits);
    var m3 := Do(m2, OfIsr(IsrFull));
    assert RingStalled(m3) && m3.ring == data[..RING_ROOM];
  }

  // Exactly when.

  /** The loop blocks with received bytes in the ring, and no wake-up is given or on its way. */
  predicate RingMissed(m: M) {
    m.loop.Blocked? && m.ring != [] && !m.wake && !InterruptBusy(m.isr)
  }

  /** The loop blocks, idle, with a request in the send queue, and no wake-up is given or on its way. */
  predicate SendMissed(m: M) {
    m.loop.Blocked? && m.rx.task.None? && m.send != [] && !m.wake && !GiveComing(m.callers, true)
  }

  lemma ReachedMissesNothing(m: M, limits: Limits)
    requires Reach(m, limits)
    ensures limits.bytes <= RING_ROOM ==> !RingMissed(m)
    ensures limits.requests <= 1 ==> !SendMissed(m)
  {
    var states: seq<M>, steps: seq<Step> :|
      Engine.Run(states, steps) && Within(states, steps, limits) && states[|steps|] == m;
    if limits.requests <= 1 {
      forall i: nat | i < |states| ensures HeldAt(states, 1, i) {
        assert HeldAt(states, limits.requests, i);
      }
    }
    if m.loop.Blocked? {
      NothingMissedWhileBlocked(states, steps, |steps|);
    }
  }

  /** With receive calls of at most this many bytes, received bytes can be missed if and only if it is over 255. */
  lemma RingIsMissedIff(limits: Limits)
    ensures (exists m :: Reach(m, limits) && RingMissed(m)) <==> limits.bytes > 255
  {
    if limits.bytes > RING_ROOM {
      RingStallIsReachable(Zeros(limits.bytes), limits);
    } else {
      forall m | Reach(m, limits) ensures !RingMissed(m) {
        ReachedMissesNothing(m, limits);
      }
    }
  }

  /** With at most this many requests in the engine, a queued one can be missed if and only if it is over 1. */
  lemma SendIsMissedIff(limits: Limits)
    ensures (exists m :: Reach(m, limits) && SendMissed(m)) <==> limits.requests > 1
  {
    if limits.requests > 1 {
      SendStallIsReachable(limits);
    } else {
      forall m | Reach(m, limits) ensures !SendMissed(m) {
        ReachedMissesNothing(m, limits);
      }
    }
  }
}
