/** Timeouts over whole runs, in true time: never early, exact at every check, and the sleep lands on the deadline. */
module EngineTime {
  import opened Bytes
  import opened AtcTypes
  import opened ReceiveSpec
  import opened Ticks
  import opened Engine
  import opened EngineTasks
  import opened EngineRequests

  /** The true time since the task in flight was sent. */
  function Age(m: M): int {
    m.now - m.startedAt
  }

  /** The stored tick is that of the true start. */
  predicate Stamped(m: M) {
    m.rx.task.Some? ==> m.startedAt <= m.now && Task(m).timestamp == Tick(m.startedAt)
  }

  /** A task is being ended as timed out only once its time was up. */
  predicate TimeoutIsDue(m: M) {
    m.loop.EndReply? && m.loop.result == Timeout && m.rx.task.Some? ==> Age(m) >= Task(m).req.timeout
  }

  /** While the loop waits, it waits as long as it computed for the task still in flight. */
  predicate SleepIsRight(m: M) {
    m.loop.Blocked? ==>
      m.loop.since <= m.now &&
      (m.rx.task.None? ==> m.loop.wait == FOREVER) &&
      (m.rx.task.Some? ==>
         m.startedAt <= m.loop.since &&
         m.loop.wait == WaitMs(Tick(m.loop.since), Tick(m.startedAt), Task(m).req.timeout))
  }

  predicate TimeInv(m: M) {
    Stamped(m) && TimeoutIsDue(m) && SleepIsRight(m)
  }

  predicate EndedByData(end: Option<AtcResult>) {
    end.Some? ==> end.value == Success || end.value == Error
  }

  /** Received bytes end a command with success or error only. */
  lemma ByteEndsByData(rx: RxState, urcs: seq<Urc>, b: byte)
    requires Shape(rx)
    ensures EndedByData(ByteEffect(rx, urcs, b).1)
  {
  }

  predicate LabelInTime(s: LoopStep) {
    s.DrainByte? ==> EndedByData(s.end)
  }

  lemma HonestInTime(m: M, s: LoopStep)
    requires Honest(m, s)
    ensures LabelInTime(s)
  {
    if s.DrainByte? {
      ByteEndsByData(m.rx, m.reg.urcs, m.ring[0]);
    }
  }

  lemma LoopKeepsTime(m: M, s: LoopStep)
    requires TimeInv(m) && Sane(m) && CanLoop(m, s) && LabelFits(m, s) && LabelInTime(s)
    ensures TimeInv(DoLoop(m, s))
  {
    if s.CheckTask? && m.rx.task.Some? {
      TimeoutExact(m.startedAt, m.now, Task(m).req.timeout);
    }
  }

  lemma StepKeepsTime(m: M, step: Step, m': M)
    requires TimeInv(m) && Inv(m) && Follows(m, step, m')
    ensures TimeInv(m')
  {
    if step.OfLoop? {
      HonestFits(m, step.l);
      HonestInTime(m, step.l);
      LoopKeepsTime(m, step.l);
    }
  }

  lemma {:induction false} RunKeepsTime(states: seq<M>, steps: seq<Step>, n: nat)
    requires Engine.Run(states, steps) && n < |states|
    ensures TimeInv(states[n])
  {
    if n == 0 {
      RunStart(states, steps);
    } else {
      RunKeepsTime(states, steps, n - 1);
      RunKeepsInv(states, steps, n - 1);
      RunStep(states, steps, n - 1);
      StepKeepsTime(states[n - 1], steps[n - 1], states[n]);
    }
  }

  /**
   * A check ends the task in flight exactly when its age, modulo 2^32, has reached the timeout. Below 2^32
   * ms that is the true condition.
   */
  lemma CheckIsExact(states: seq<M>, steps: seq<Step>, n: nat)
    requires Engine.Run(states, steps) && n < |steps| && steps[n] == OfLoop(CheckTask) && states[n].rx.task.Some?
    ensures var (m, timeout) := (states[n], Task(states[n]).req.timeout);
            Age(m) >= 0 &&
            (states[n + 1].loop == EndReply(Timeout, ToWait) <==> Age(m) % UINT32_RANGE >= timeout) &&
            (Age(m) < UINT32_RANGE ==> (states[n + 1].loop == EndReply(Timeout, ToWait) <==> Age(m) >= timeout))
  {
    RunKeepsTime(states, steps, n);
    RunStep(states, steps, n);
    TimeoutExact(states[n].startedAt, states[n].now, Task(states[n]).req.timeout);
  }

  /** No task is reported as timed out before its time was up. */
  lemma NeverEarly(states: seq<M>, steps: seq<Step>, n: nat)
    requires Engine.Run(states, steps) && n < |steps| && steps[n] == OfLoop(Reply)
    requires states[n].loop.EndReply? && states[n].loop.result == Timeout && states[n].rx.task.Some?
    ensures Age(states[n]) >= Task(states[n]).req.timeout
  {
    RunKeepsTime(states, steps, n);
  }

  /**
   * The sleep computed for a task of any age is its timeout less its age modulo 2^32, or 0. Below 2^32 ms
   * that lasts exactly until the deadline, or not at all once it has passed.
   */
  lemma SleepEndsAtDeadline(states: seq<M>, steps: seq<Step>, n: nat)
    requires Engine.Run(states, steps) && n < |steps| && steps[n] == OfLoop(StartWait) && states[n].rx.task.Some?
    ensures var (m, m', timeout) := (states[n], states[n + 1], Task(states[n]).req.timeout);
            Age(m) >= 0 && m'.loop.Blocked? && m'.loop.since == m.now &&
            m'.loop.wait == (if Age(m) % UINT32_RANGE < timeout then timeout - Age(m) % UINT32_RANGE else 0) &&
            (Age(m) < UINT32_RANGE ==>
               (Age(m) < timeout ==> m'.loop.since + m'.loop.wait == m.startedAt + timeout) &&
               (m'.loop.wait == 0 <==> Age(m) >= timeout))
  {
    RunKeepsTime(states, steps, n);
    RunStep(states, steps, n);
    SleepExact(states[n].startedAt, states[n].now, Task(states[n]).req.timeout);
  }

  /** The clock never ends the wait of a task in flight before its deadline, nor that of an idle loop at all. */
  lemma ClockWakesAtDeadline(states: seq<M>, steps: seq<Step>, n: nat)
    requires Engine.Run(states, steps) && n < |steps| && steps[n] == OfLoop(TimeUp)
    ensures states[n].rx.task.Some? && Age(states[n]) >= Task(states[n]).req.timeout
  {
    var m := states[n];
    RunKeepsTime(states, steps, n);
    RunStep(states, steps, n);
    if m.rx.task.Some? {
      SleepExact(m.startedAt, m.loop.since, Task(m).req.timeout);
    }
  }

  // The same from the caller's own call, in the time since its command was sent.

  /** The true time at which the latest task started. */
  function SentAt(states: seq<M>, steps: seq<Step>, n: nat): nat
    requires n <= |steps| < |states|
  {
    if n == 0 then 0 else if steps[n - 1] == OfLoop(AllocTask(true)) then states[n - 1].now
    else SentAt(states, steps, n - 1)
  }

  lemma StartStays(m: M, step: Step, m': M)
    requires Follows(m, step, m')
    ensures m'.startedAt == if step == OfLoop(AllocTask(true)) then m.now else m.startedAt
  {
  }

  lemma {:induction false} StartIsTrue(states: seq<M>, steps: seq<Step>, n: nat)
    requires Engine.Run(states, steps) && n < |states| && states[n].rx.task.Some?
    ensures states[n].startedAt == SentAt(states, steps, n)
  {
    if n == 0 {
      RunStart(states, steps);
      assert false;
    }
    RunStep(states, steps, n - 1);
    RunKeepsInv(states, steps, n - 1);
    StartStays(states[n - 1], steps[n - 1], states[n]);
    if steps[n - 1] != OfLoop(AllocTask(true)) {
      TaskWasThere(states[n - 1], steps[n - 1], states[n]);
      StartIsTrue(states, steps, n - 1);
    }
  }

  lemma TaskWasThere(m: M, step: Step, m': M)
    requires Inv(m) && Follows(m, step, m') && m'.rx.task.Some? && step != OfLoop(AllocTask(true))
    ensures m.rx.task.Some?
  {
    if step.OfLoop? {
      HonestFits(m, step.l);
    }
  }

  /** What a check must find to end a command for which its caller asked this timeout. */
  predicate TimeIsUp(age: int, timeout: nat) {
    if timeout > 0 then age % 0x1_0000_0000 >= timeout else age % 0x1_0000_0000 == 0xFFFF_FFFF
  }

  /** The wait its caller asked for, 0 standing for 2^32 - 1 ms. */
  function Asked(timeout: nat): nat {
    if timeout > 0 then timeout else 0xFFFF_FFFF
  }

  /**
   * From the call to the check, over every run: some caller began the command in flight with a timeout, and
   * the check ends it exactly if its age, modulo 2^32, has reached that; never early; and if no timeout was
   * asked for, exactly 2^32 - 1 ms after it was sent, modulo 2^32.
   */
  lemma CheckIsAsAsked(states: seq<M>, steps: seq<Step>, n: nat) returns (k: nat, op: Op)
    requires Engine.Run(states, steps) && n < |steps| && steps[n] == OfLoop(CheckTask) && states[n].rx.task.Some?
    ensures k < n && steps[k] == OfCaller(Task(states[n]).req.who, Begins(op)) && op.Send?
    ensures var age := states[n].now - SentAt(states, steps, n);
            (states[n + 1].loop == EndReply(Timeout, ToWait) <==> TimeIsUp(age, op.timeout)) &&
            (states[n + 1].loop == EndReply(Timeout, ToWait) ==> age >= Asked(op.timeout))
  {
    k, op := FlightWasAsked(states, steps, n);
    StartIsTrue(states, steps, n);
    CheckIsExact(states, steps, n);
    RunKeepsTime(states, steps, n);
    TimeoutExact(states[n].startedAt, states[n].now, Task(states[n]).req.timeout);
  }

  /** And the sleep computed before its time is up ends at the time asked for after it was sent. */
  lemma SleepIsAsAsked(states: seq<M>, steps: seq<Step>, n: nat) returns (k: nat, op: Op)
    requires Engine.Run(states, steps) && n < |steps| && steps[n] == OfLoop(StartWait) && states[n].rx.task.Some?
    ensures k < n && steps[k] == OfCaller(Task(states[n]).req.who, Begins(op)) && op.Send?
    ensures var (sent, m, m') := (SentAt(states, steps, n), states[n], states[n + 1]);
            m'.loop.Blocked? && m'.loop.since == m.now >= sent &&
            (m.now < sent + Asked(op.timeout) ==> m'.loop.since + m'.loop.wait == sent + Asked(op.timeout))
  {
    k, op := FlightWasAsked(states, steps, n);
    StartIsTrue(states, steps, n);
    SleepEndsAtDeadline(states, steps, n);
  }

  /** No handler is called with a timeout before the time asked for has passed since the command was sent. */
  lemma NeverEarlyAsAsked(states: seq<M>, steps: seq<Step>, n: nat) returns (k: nat, op: Op)
    requires Engine.Run(states, steps) && n < |steps| && steps[n] == OfLoop(Reply)
    requires states[n].loop.EndReply? && states[n].loop.result == Timeout && states[n].rx.task.Some?
    ensures k < n && steps[k] == OfCaller(Task(states[n]).req.who, Begins(op)) && op.Send?
    ensures states[n].now >= SentAt(states, steps, n) + Asked(op.timeout)
  {
    k, op := FlightWasAsked(states, steps, n);
    StartIsTrue(states, steps, n);
    NeverEarly(states, steps, n);
  }

  // Every end has its cause.

  predicate CausesEnd(s: LoopStep, result: AtcResult) {
    (result == Timeout <==> s == CheckTask) && (result == HardwareError <==> s == Transmit(false)) &&
    (result == Success || result == Error <==> s.DrainByte?)
  }

  lemma LoopEndHasCause(m: M, s: LoopStep)
    requires Sane(m) && CanLoop(m, s) && LabelInTime(s) && !m.loop.EndReply? && NextLoop(m, s).EndReply?
    ensures CausesEnd(s, NextLoop(m, s).result)
  {
  }

  lemma StepEndHasCause(m: M, step: Step, m': M)
    requires Follows(m, step, m') && !m.loop.EndReply? && m'.loop.EndReply?
    ensures step.OfLoop? && CausesEnd(step.l, m'.loop.result)
  {
    if step.OfLoop? {
      HonestInTime(m, step.l);
      LoopEndHasCause(m, step.l);
    }
  }

  /**
   * The four ways a command comes to its end: a timeout by a check, a hardware error by a refused
   * transmission, success or error by a drained byte, and no other.
   */
  lemma EveryEndHasItsCause(states: seq<M>, steps: seq<Step>, n: nat)
    requires Engine.Run(states, steps) && n < |steps|
    requires !states[n].loop.EndReply? && states[n + 1].loop.EndReply?
    ensures steps[n].OfLoop? && CausesEnd(steps[n].l, states[n + 1].loop.result)
  {
    RunStep(states, steps, n);
    StepEndHasCause(states[n], steps[n], states[n + 1]);
  }
}
