/** Runs put together step by step, to show that a state can be reached. */
module EngineReach {
  import opened AtcTypes
  import opened UrcSpec
  import opened ReceiveSpec
  import opened Ticks
  import opened Engine
  import opened EngineTasks
  import opened EngineWake

  /** How the engine is used: the size of receive calls, and the number of requests in it. */
  datatype Limits = Limits(bytes: nat, requests: nat)

  ghost predicate Within(states: seq<M>, steps: seq<Step>, limits: Limits) {
    CallsUpTo(steps, limits.bytes) && HeldUpTo(states, limits.requests)
  }

  /** Some run within the limits leads here. */
  ghost predicate Reach(m: M, limits: Limits) {
    exists states: seq<M>, steps: seq<Step> ::
      Engine.Run(states, steps) && Within(states, steps, limits) && states[|steps|] == m
  }

  /** The step and the state it leads to are within the limits. */
  predicate Keeps(step: Step, m': M, limits: Limits) {
    (step.OfIsr? && step.i.IsrCall? ==> |step.i.data| <= limits.bytes) && |Sends(m')| <= limits.requests
  }

  lemma WithinAppend(states: seq<M>, steps: seq<Step>, step: Step, m': M, limits: Limits)
    requires Within(states, steps, limits) && Keeps(step, m', limits)
    ensures Within(states + [m'], steps + [step], limits)
  {
    forall i: nat | i < |states + [m']| ensures HeldAt(states + [m'], limits.requests, i) {
      assert i < |states| ==> HeldAt(states, limits.requests, i);
    }
  }

  lemma ReachStep(m: M, step: Step, limits: Limits)
    requires Reach(m, limits) && Can(m, step)
    ensures Sane(m) && |Sends(m)| <= limits.requests
    ensures Keeps(step, Do(m, step), limits) ==> Reach(Do(m, step), limits)
  {
    var states: seq<M>, steps: seq<Step> :|
      Engine.Run(states, steps) && Within(states, steps, limits) && states[|steps|] == m;
    RunExtends(states, steps, step);
    assert HeldAt(states, limits.requests, |steps|);
    if Keeps(step, Do(m, step), limits) {
      WithinAppend(states, steps, step, Do(m, step), limits);
      assert (states + [Do(m, step)])[|steps + [step]|] == Do(m, step);
    }
  }

  // A first iteration with nothing to do.

  const FIRST: M := M(false, [], [], [], INITIAL, EMPTY_REGISTRY, ExternPoll, Quiet, 0, 0, map[], map[], map[], {},
                      map[], 0, [], false, false)

  lemma FirstIsReachable(limits: Limits)
    ensures Reach(FIRST, limits) && Start(FIRST)
  {
    var (states, steps: seq<Step>) := ([FIRST], []);
    assert Engine.Run(states, steps) && Within(states, steps, limits) && states[|steps|] == FIRST;
  }

  /** Only the loop has moved. */
  predicate OnlyLoop(m: M, m': M) {
    m' == m.(loop := m'.loop, wake := m'.wake, busy := m'.busy, stranded := m'.stranded)
  }

  lemma DrainedIsChecked(m: M, limits: Limits) returns (m': M)
    requires Reach(m, limits) && m.loop.Drain? && m.ring == [] && m.rx.task.None?
    ensures Reach(m', limits) && OnlyLoop(m, m') && m'.wake == m.wake && m'.loop == ComputeWait
  {
    ReachStep(m, OfLoop(DrainDone), limits);
    var m1 := Do(m, OfLoop(DrainDone));
    ReachStep(m1, OfLoop(CheckTask), limits);
    m' := Do(m1, OfLoop(CheckTask));
  }

  lemma DrainedSleeps(m: M, limits: Limits) returns (m': M)
    requires Reach(m, limits) && m.loop.Drain? && m.ring == [] && m.rx.task.None?
    ensures Reach(m', limits) && OnlyLoop(m, m') && m'.wake == m.wake && m'.loop == Blocked(FOREVER, m.now)
  {
    var m1 := DrainedIsChecked(m, limits);
    ReachStep(m1, OfLoop(StartWait), limits);
    m' := Do(m1, OfLoop(StartWait));
  }

  lemma IdleIsReachable(limits: Limits) returns (m: M)
    ensures Reach(m, limits) && OnlyLoop(FIRST, m) && !m.wake && m.loop == Blocked(FOREVER, 0)
  {
    FirstIsReachable(limits);
    ReachStep(FIRST, OfLoop(NoMsg), limits);
    var m1 := Do(FIRST, OfLoop(NoMsg));
    ReachStep(m1, OfLoop(NoSend), limits);
    var m2 := Do(m1, OfLoop(NoSend));
    m := DrainedSleeps(m2, limits);
  }

  /** Woken with an empty API queue, the loop comes to the send queue. */
  lemma WokenPolls(m: M, limits: Limits) returns (m': M)
    requires Reach(m, limits) && m.loop.Blocked? && m.wake && m.api == []
    ensures Reach(m', limits) && OnlyLoop(m, m') && !m'.wake && m'.loop.SendPoll?
  {
    ReachStep(m, OfLoop(Wake), limits);
    var m1 := Do(m, OfLoop(Wake));
    ReachStep(m1, OfLoop(NoMsg), limits);
    m' := Do(m1, OfLoop(NoMsg));
  }

  /** Nothing to send: it comes to the ring. */
  lemma WokenDrains(m: M, limits: Limits) returns (m': M)
    requires Reach(m, limits) && m.loop.Blocked? && m.wake && m.api == [] && m.send == [] && m.rx.task.None?
    ensures Reach(m', limits) && OnlyLoop(m, m') && !m'.wake && m'.loop.Drain?
  {
    var m1 := WokenPolls(m, limits);
    ReachStep(m1, OfLoop(NoSend), limits);
    m' := Do(m1, OfLoop(NoSend));
  }

  // Requests.

  /** The loop, the interrupt and the receive side have not moved, nor has the clock. */
  predicate OnlyCallers(m: M, m': M) {
    m' == m.(callers := m'.callers, cells := m'.cells, owner := m'.owner, items := m'.items,
             nextHandle := m'.nextHandle, send := m'.send, api := m'.api, accepted := m'.accepted)
  }

  /** A caller has begun its call and acquired the first k of the handles it needs. */
  lemma {:induction false} CallIsPrepared(m: M, c: nat, op: Op, k: nat, limits: Limits)
    returns (m': M, held: seq<nat>)
    requires Reach(m, limits) && c !in m.callers && Accepts(op) && k <= Needs(op)
    ensures Reach(m', limits) && OnlyCallers(m, m') && m'.send == m.send && m'.api == m.api && m'.items == m.items
    ensures |held| == k
    ensures m'.callers == m.callers[c := Preparing(op, held)] && m'.cells == m.cells[c := FreshCells(op)]
    decreases k
  {
    if k == 0 {
      held := [];
      ReachStep(m, OfCaller(c, Begins(op)), limits);
      m' := Do(m, OfCaller(c, Begins(op)));
    } else {
      var m1, h := CallIsPrepared(m, c, op, k - 1, limits);
      ReachStep(m1, OfCaller(c, Acquire(true)), limits);
      m', held := Do(m1, OfCaller(c, Acquire(true))), h + [m1.nextHandle];
    }
  }

  lemma SendIsQueued(m: M, c: nat, op: Op, limits: Limits) returns (m': M, req: SendReq)
    requires Reach(m, limits) && c !in m.callers && op.Send? && Accepts(op)
    requires |m.send| < SEND_QUEUE_SIZE && |Sends(m)| < limits.requests
    ensures Reach(m', limits) && OnlyCallers(m, m') && m'.send == m.send + [req] && m'.api == m.api
    ensures ReqMatches(req, op) && req.who == c
    ensures m'.callers == m.callers[c := Enqueued(op, req.ticket, req.sem)]
    ensures m'.cells == m.cells[c := FreshCells(op)]
    ensures m'.items == m.items[req.ticket := ReqItem(req, op)]
  {
    var m1, held := CallIsPrepared(m, c, op, Needs(op), limits);
    ReachStep(m1, OfCaller(c, Enqueue(true)), limits);
    m', req := Do(m1, OfCaller(c, Enqueue(true))), NewReq(m1, c);
  }

  lemma MsgIsQueued(m: M, c: nat, op: Op, limits: Limits) returns (m': M)
    requires Reach(m, limits) && c !in m.callers && !op.Send? && Accepts(op) && |m.api| < 5
    ensures Reach(m', limits) && OnlyCallers(m, m') && m'.send == m.send && |m'.api| == |m.api| + 1
    ensures m'.callers.Keys == m.callers.Keys + {c}
  {
    var m1, held := CallIsPrepared(m, c, op, Needs(op), limits);
    ReachStep(m1, OfCaller(c, Enqueue(true)), limits);
    m' := Do(m1, OfCaller(c, Enqueue(true)));
  }

  /** So many messages can be in the API queue at once. */
  lemma {:induction false} ApiQueueFills(n: nat, op: Op, limits: Limits) returns (m: M)
    requires n <= 5 && !op.Send? && Accepts(op)
    ensures Reach(m, limits) && |m.api| == n && m.loop.Blocked? && forall c | c in m.callers :: c < n
  {
    if n == 0 {
      m := IdleIsReachable(limits);
    } else {
      var less := ApiQueueFills(n - 1, op, limits);
      m := MsgIsQueued(less, n - 1, op, limits);
      assert forall c | c in m.callers :: c in m.callers.Keys;
    }
  }

  /** So many commands can be in the send queue at once. */
  lemma {:induction false} QueueFills(n: nat, op: Op, limits: Limits) returns (m: M)
    requires n <= 6 <= limits.requests && op.Send? && Accepts(op)
    ensures Reach(m, limits) && |m.send| == n && m.loop.Blocked? && m.rx.task.None?
    ensures forall c | c in m.callers :: c < n
  {
    if n == 0 {
      m := IdleIsReachable(limits);
    } else {
      var less := QueueFills(n - 1, op, limits);
      var req;
      m, req := SendIsQueued(less, n - 1, op, limits);
    }
  }

  /** The caller wakes the loop; an asynchronous one returns. */
  lemma CallerGives(m: M, c: nat, limits: Limits) returns (m': M)
    requires Reach(m, limits) && c in m.callers && m.callers[c].Enqueued?
    ensures Reach(m', limits)
    ensures var k := m.callers[c];
            m' == m.(wake := true,
                     callers := if k.waitOn.Some? then m.callers[c := Awaiting(k.op, k.ticket, k.waitOn.value)]
                                else m.callers - {c})
  {
    ReachStep(m, OfCaller(c, WakeLoop), limits);
    m' := Do(m, OfCaller(c, WakeLoop));
  }

  lemma FirstIsTaken(m: M, limits: Limits) returns (m': M)
    requires Reach(m, limits) && m.rx.task.None? && m.loop.Blocked? && m.wake && m.api == [] && m.send != []
    ensures Reach(m', limits) && OnlyLoop(m.(send := m.send[1..]), m') && !m'.wake && m'.loop == SendAlloc(m.send[0])
  {
    var m1 := WokenPolls(m, limits);
    ReachStep(m1, OfLoop(TakeSend), limits);
    m' := Do(m1, OfLoop(TakeSend));
  }

  /** An idle engine takes up a request that a caller has just queued. */
  lemma RequestIsTaken(c: nat, op: Op, limits: Limits) returns (m: M, req: SendReq)
    requires op.Send? && Accepts(op) && limits.requests >= 1
    ensures Reach(m, limits) && m.loop == SendAlloc(req) && ReqMatches(req, op) && m.rx == INITIAL
    ensures m.ring == [] && m.isr.Quiet? && m.now == 0 && m.items == map[req.ticket := ReqItem(req, op)]
    ensures req.who == c && m.cells == map[c := FreshCells(op)]
    ensures req.sem.Some? ==> m.callers == map[c := Awaiting(op, req.ticket, req.sem.value)]
  {
    var m0 := IdleIsReachable(limits);
    var m1, req1 := SendIsQueued(m0, c, op, limits);
    var m2 := CallerGives(m1, c, limits);
    m := FirstIsTaken(m2, limits);
    req := req1;
  }
}
