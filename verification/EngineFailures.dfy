/** The other failures of the code do happen: for each a run that reaches it, in the simplest use of the engine. */
module EngineFailures {
  import opened Bytes
  import opened AtcTypes
  import opened ReceiveSpec
  import opened LineTheory
  import opened Ticks
  import opened Engine
  import opened EngineTasks
  import opened EngineReceive
  import opened EngineReach

  // One byte received at a time.

  /** The interrupt has begun to store the only byte of its call, and stores it. */
  lemma ByteIsStored(m: M, b: byte, limits: Limits) returns (m': M)
    requires Reach(m, limits) && m.isr.Quiet? && m.ring == [] && limits.bytes >= 1
    ensures Reach(m', limits) && m' == m.(ring := [b], isr := Giving)
  {
    ReachStep(m, OfIsr(IsrCall([b])), limits);
    var m1 := Do(m, OfIsr(IsrCall([b])));
    ReachStep(m1, OfIsr(IsrByte), limits);
    m' := Do(m1, OfIsr(IsrByte));
  }

  lemma ByteArrives(m: M, b: byte, limits: Limits) returns (m': M)
    requires Reach(m, limits) && m.isr.Quiet? && m.ring == [] && limits.bytes >= 1
    ensures Reach(m', limits) && m' == m.(ring := [b], wake := true)
  {
    var m1 := ByteIsStored(m, b, limits);
    ReachStep(m1, OfIsr(IsrGive), limits);
    m' := Do(m1, OfIsr(IsrGive));
  }

  // A full line buffer.

  /** Nothing is going on, and n bytes wait for a line feed. */
  predicate IdleWithLine(m: M, n: nat) {
    m.loop == Blocked(FOREVER, m.now) && !m.wake && m.isr.Quiet? && m.api == [] && m.send == [] && m.ring == [] &&
    m.rx.task.None? && |m.rx.line| == n
  }

  lemma ByteIsLined(m: M, b: byte, limits: Limits) returns (m': M)
    requires Reach(m, limits) && m.loop.Drain? && m.ring == [b] && m.rx.task.None? && b != LF
    requires Shape(m.rx) && |m.rx.line| < LINE_LIMIT
    ensures Reach(m', limits) && m' == m.(ring := [], rx := m'.rx)
    ensures m'.rx.task.None? && |m'.rx.line| == |m.rx.line| + 1
  {
    var (rx, end) := ByteEffect(m.rx, m.reg.urcs, b);
    ReachStep(m, OfLoop(DrainByte(rx, end)), limits);
    m' := Do(m, OfLoop(DrainByte(rx, end)));
  }

  lemma ReachedIsSane(m: M, limits: Limits)
    requires Reach(m, limits)
    ensures Inv(m)
  {
    var states: seq<M>, steps: seq<Step> :|
      Engine.Run(states, steps) && Within(states, steps, limits) && states[|steps|] == m;
    EngineTasks.RunKeepsInv(states, steps, |steps|);
  }

  lemma {:induction false} LineFills(n: nat, limits: Limits) returns (m: M)
    requires n <= LINE_LIMIT && limits.bytes >= 1
    ensures Reach(m, limits) && IdleWithLine(m, n)
  {
    if n == 0 {
      m := IdleIsReachable(limits);
    } else {
      var m0 := LineFills(n - 1, limits);
      var m1 := ByteArrives(m0, 65, limits);
      var m2 := WokenDrains(m1, limits);
      ReachedIsSane(m2, limits);
      var m3 := ByteIsLined(m2, 65, limits);
      m := DrainedSleeps(m3, limits);
    }
  }

  /** 255 bytes without a line feed, received one at a time, stop line handling. */
  lemma StuckIsReachable(limits: Limits)
    requires limits.bytes >= 1
    ensures exists m :: Reach(m, limits) && |m.rx.line| == 255
  {
    var m := LineFills(LINE_LIMIT, limits);
  }

  // A prompt with nothing to receive.

  lemma RequestIsSent(m: M, limits: Limits) returns (m': M)
    requires Reach(m, limits) && m.loop.SendAlloc?
    ensures Reach(m', limits) && m'.loop.Drain? && m'.ring == m.ring && m'.isr == m.isr && m'.now == m.now
    ensures m'.rx == Begin(m.rx, m.loop.req, m.nextHandle, Tick(m.now))
    ensures forall t | t in m.items && m.items[t].op.Send? :: t in m'.items && m'.items[t].op == m.items[t].op
  {
    ReachStep(m, OfLoop(AllocTask(true)), limits);
    var m1 := Do(m, OfLoop(AllocTask(true)));
    ReachStep(m1, OfLoop(Transmit(true)), limits);
    m' := Do(m1, OfLoop(Transmit(true)));
  }

  const PROMPTED: Op := Send(false, false, None, Some([62]), 0, 1000)

  /** A command with the prompt > and nothing to receive: the > makes the code read a task it has just nulled. */
  lemma NulledReadIsReachable(limits: Limits)
    requires limits.bytes >= 1 && limits.requests >= 1
    ensures exists m :: Reach(m, limits) && NulledReadNext(m)
  {
    var m0, req := RequestIsTaken(0, PROMPTED, limits);
    var m1 := RequestIsSent(m0, limits);
    var m2 := ByteIsStored(m1, 62, limits);
    assert m2.rx.window == [] && req.prompt == [62];
    assert NulledReadNext(m2);
  }

  // No memory for a synchronous sender's task.

  const SYNCHRONOUS: Op := Send(true, true, None, None, 0, 1000)

  /** The sender waits, and its request is among the lost ones. */
  predicate LostWaiting(m: M, c: nat) {
    c in m.callers && m.callers[c].Awaiting? && m.rx.trace != [] &&
    m.rx.trace[|m.rx.trace| - 1].TaskLost? && m.rx.trace[|m.rx.trace| - 1].req.ticket == m.callers[c].ticket
  }

  lemma LostCallerIsReachable(limits: Limits, c: nat)
    requires limits.requests >= 1
    ensures exists m :: Reach(m, limits) && LostWaiting(m, c)
  {
    var m0, req := RequestIsTaken(c, SYNCHRONOUS, limits);
    ReachStep(m0, OfLoop(AllocTask(false)), limits);
    var m1 := Do(m0, OfLoop(AllocTask(false)));
    assert LostWaiting(m1, c);
  }

  // A response length that is not one.

  const BUFFERED: Op := Send(true, true, Some(8), None, 0, 1000)

  lemma RequestIsRefused(m: M, limits: Limits) returns (m': M)
    requires Reach(m, limits) && m.loop.SendAlloc? && m.rx == INITIAL
    ensures Reach(m', limits) && m'.loop == EndReply(HardwareError, ToDrain)
    ensures m'.rx.task.Some? && Task(m').req == m.loop.req && m'.rx.length == 0
    ensures m'.callers == m.callers && m'.cells == m.cells
  {
    ReachStep(m, OfLoop(AllocTask(true)), limits);
    var m1 := Do(m, OfLoop(AllocTask(true)));
    ReachStep(m1, OfLoop(Transmit(false)), limits);
    m' := Do(m1, OfLoop(Transmit(false)));
  }

  /** A synchronous request that ends without response: the caller can take its semaphore. */
  lemma SenderIsAnswered(m: M, c: nat, limits: Limits) returns (m': M)
    requires Reach(m, limits) && m.loop.EndReply? && m.rx.task.Some? && m.rx.length == 0
    requires Task(m).req.sem.Some? && Task(m).req.who == c && c in m.cells
    ensures Reach(m', limits) && m'.callers == m.callers && Task(m).req.sem.value in m'.given
    ensures m'.cells == m.cells[c := WithResult(m.cells[c], Task(m).req, m.loop.result)]
  {
    ReachStep(m, OfLoop(Reply), limits);
    var m1 := Do(m, OfLoop(Reply));
    ReachStep(m1, OfLoop(Copy), limits);
    var m2 := Do(m1, OfLoop(Copy));
    ReachStep(m2, OfLoop(Give), limits);
    m' := Do(m2, OfLoop(Give));
  }

  /** The sender is past its take; nothing was copied, but its length is not 0. */
  predicate WrongLength(m: M, c: nat) {
    c in m.callers && m.callers[c].Taken? && c in m.cells && m.cells[c].copied == [] && m.cells[c].length == 8
  }

  /** A command that the hardware refuses leaves the size of the buffer as the length of its response. */
  lemma WrongLengthIsReachable(limits: Limits, c: nat)
    requires limits.requests >= 1
    ensures exists m :: Reach(m, limits) && WrongLength(m, c)
  {
    var m0, req := RequestIsTaken(c, BUFFERED, limits);
    var m1 := RequestIsRefused(m0, limits);
    var m2 := SenderIsAnswered(m1, c, limits);
    ReachStep(m2, OfCaller(c, Take), limits);
    var m3 := Do(m2, OfCaller(c, Take));
    assert WrongLength(m3, c);
  }

  // A request without a timeout.

  const UNTIMED: Op := Send(false, false, None, None, 0, 0)

  /** The loop comes to its check this much later. */
  lemma CheckComes(m: M, ms: nat, limits: Limits) returns (m': M)
    requires Reach(m, limits) && m.loop.Drain? && m.ring == []
    ensures Reach(m', limits) && m' == m.(loop := Check, now := m.now + ms, stranded := false)
  {
    ReachStep(m, OfLoop(DrainDone), limits);
    var m1 := Do(m, OfLoop(DrainDone));
    ReachStep(m1, Elapse(ms), limits);
    m' := Do(m1, Elapse(ms));
  }

  /** The command in flight was sent without a timeout, and is being ended by its timeout. */
  predicate UntimedTimesOut(m: M) {
    m.loop == EndReply(Timeout, ToWait) && m.rx.task.Some? && Task(m).req.ticket in m.items &&
    m.items[Task(m).req.ticket].op.Send? && m.items[Task(m).req.ticket].op.timeout == 0
  }

  /** It does time out, at a check 2^32 - 1 ms after it was sent. */
  lemma UntimedTimeoutIsReachable(limits: Limits)
    requires limits.requests >= 1
    ensures exists m :: Reach(m, limits) && UntimedTimesOut(m)
  {
    var m0, req := RequestIsTaken(0, UNTIMED, limits);
    var m1 := RequestIsSent(m0, limits);
    var m2 := CheckComes(m1, FOREVER, limits);
    ReachStep(m2, OfLoop(CheckTask), limits);
    var m3 := Do(m2, OfLoop(CheckTask));
    assert TimedOut(Tick(FOREVER), Tick(0), FOREVER);
    assert UntimedTimesOut(m3);
  }
}
