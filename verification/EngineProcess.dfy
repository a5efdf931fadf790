/**
 * The machine and the loop in place do the same: an iteration that nobody interferes with, from the API
 * queue to the wait, makes of every state what the methods called one after the other make of it.
 */
module EngineProcess {
  import opened AtcTypes
  import opened UrcSpec
  import opened ReceiveSpec
  import opened Ticks
  import opened Engine
  import opened EngineTasks
  import opened EngineAtomic
  import opened ApiHandlers
  import P = Process

  /** From i to j of a run only the loop takes steps, none of which leaves its wait. */
  ghost predicate LoopRun(states: seq<M>, steps: seq<Step>, i: nat, j: nat) {
    Engine.Run(states, steps) && i <= j < |states| && Alone(states, steps, i, j)
  }

  lemma NextOf(states: seq<M>, steps: seq<Step>, i: nat, j: nat) returns (m: M, s: LoopStep)
    requires LoopRun(states, steps, i, j) && i < j
    ensures m == states[i] && steps[i] == OfLoop(s) && LoopRun(states, steps, i + 1, j)
    ensures Inv(m) && Sane(m) && CanLoop(m, s) && Honest(m, s) && states[i + 1] == DoLoop(m, s)
  {
    m, s := states[i], steps[i].l;
    RunStep(states, steps, i);
    EngineTasks.RunKeepsInv(states, steps, i);
  }

  /** Ring, registry, clock and API queue are the same. */
  predicate SameRest(a: M, b: M) {
    a.ring == b.ring && a.reg == b.reg && a.now == b.now && a.api == b.api
  }

  // From the send queue to the drain.

  /** A command that ends on the way to the drain is settled once the loop is there. */
  lemma {:induction false} EndingSettles(states: seq<M>, steps: seq<Step>, i: nat, j: nat) returns (d: nat)
    requires LoopRun(states, steps, i, j) && states[j].loop.Blocked?
    requires Ending(states[i].loop) && states[i].loop.back.ToDrain? && states[i].rx.length <= |states[i].rx.response|
    ensures i < d < j && states[d].loop.Drain? && LoopRun(states, steps, d, j)
    ensures states[d].rx == Settled(states[i].loop, states[i].rx) && states[d].send == states[i].send
    ensures SameRest(states[i], states[d])
    decreases j - i
  {
    var m, s := NextOf(states, steps, i, j);
    EndingIsSettled(m, s);
    EndingStep(m, s);
    if s.Finish? {
      d := i + 1;
    } else {
      d := EndingSettles(states, steps, i + 1, j);
    }
  }

  lemma EndingStep(m: M, s: LoopStep)
    requires Sane(m) && CanLoop(m, s) && Ending(m.loop)
    ensures var m' := DoLoop(m, s); m'.send == m.send && SameRest(m, m')
    ensures if s.Finish? then NextLoop(m, s) == AfterBack(m.loop.back)
            else Ending(NextLoop(m, s)) && NextLoop(m, s).back == m.loop.back
  {
  }

  /** What the loop finds in the send queue, and what becomes of it. */
  ghost predicate SentTo(m: M, m': M, hasMemory: bool, transmitted: bool) {
    SameRest(m, m') &&
    if m.rx.task.Some? || m.send == [] then m'.rx == m.rx && m'.send == m.send
    else m'.send == m.send[1..] &&
         StartsAs(m.rx, m.send[0], hasMemory, m.nextHandle, m.now % 0x1_0000_0000, transmitted, m'.rx)
  }

  lemma PollStep(m: M, s: LoopStep)
    requires Sane(m) && CanLoop(m, s) && m.loop.SendPoll?
    ensures var m' := DoLoop(m, s);
            SameRest(m, m') && m'.rx == m.rx && m'.nextHandle == m.nextHandle &&
            if m.rx.task.Some? || m.send == [] then m'.loop.Drain? && m'.send == m.send
            else m'.loop == SendAlloc(m.send[0]) && m'.send == m.send[1..]
  {
  }

  lemma AllocStep(m: M, s: LoopStep)
    requires Sane(m) && CanLoop(m, s) && m.loop.SendAlloc?
    ensures s.AllocTask?
    ensures var m' := DoLoop(m, s);
            SameRest(m, m') && m'.send == m.send &&
            if s.hasMemory then m'.loop.SendData? && m'.rx == Begin(m.rx, m.loop.req, m.nextHandle, Tick(m.now))
            else m'.loop.Drain? && m'.rx == m.rx.(trace := m.rx.trace + [TaskLost(m.loop.req)])
  {
  }

  lemma TransmitStep(m: M, s: LoopStep)
    requires Sane(m) && CanLoop(m, s) && m.loop.SendData?
    ensures s.Transmit?
    ensures var m' := DoLoop(m, s);
            SameRest(m, m') && m'.send == m.send && m'.rx == m.rx &&
            m'.loop == if s.ok then Drain else EndReply(HardwareError, ToDrain)
  {
  }

  lemma BegunIs(s: RxState, req: SendReq, block: nat, now: nat, transmitted: bool)
    requires Shape(s)
    ensures var t := Begin(s, req, block, now);
            StartsAs(s, req, true, block, now, transmitted,
                     if transmitted then t else Release(Notify(t, HardwareError)))
  {
    StartedIs(s, req, true, block, now, transmitted);
  }

  /** The request taken from the queue. */
  lemma LoneStart(states: seq<M>, steps: seq<Step>, i: nat, j: nat)
    returns (d: nat, hasMemory: bool, transmitted: bool)
    requires LoopRun(states, steps, i, j) && states[i].loop.SendAlloc? && states[j].loop.Blocked?
    ensures i < d < j && states[d].loop.Drain? && LoopRun(states, steps, d, j)
    ensures states[d].send == states[i].send && SameRest(states[i], states[d])
    ensures var m := states[i];
            StartsAs(m.rx, m.loop.req, hasMemory, m.nextHandle, Tick(m.now), transmitted, states[d].rx)
  {
    var m1, s1 := NextOf(states, steps, i, j);
    AllocStep(m1, s1);
    hasMemory, transmitted := s1.hasMemory, false;
    if hasMemory {
      var m2, s2 := NextOf(states, steps, i + 1, j);
      TransmitStep(m2, s2);
      transmitted := s2.ok;
      BegunIs(m1.rx, m1.loop.req, m1.nextHandle, Tick(m1.now), transmitted);
      if transmitted {
        d := i + 2;
      } else {
        d := EndingSettles(states, steps, i + 2, j);
      }
    } else {
      d := i + 1;
    }
  }

  /**
   * From the send queue to the drain, left alone: nothing with a task in flight or an empty queue; else the
   * oldest request is lost without memory, ended with a hardware error if refused, or is the task in flight.
   */
  lemma LoneSend(states: seq<M>, steps: seq<Step>, i: nat, j: nat)
    returns (d: nat, hasMemory: bool, transmitted: bool)
    requires LoopRun(states, steps, i, j) && states[i].loop.SendPoll? && states[j].loop.Blocked?
    ensures i < d < j && states[d].loop.Drain? && LoopRun(states, steps, d, j)
    ensures SentTo(states[i], states[d], hasMemory, transmitted)
  {
    var m, s := NextOf(states, steps, i, j);
    PollStep(m, s);
    if states[i + 1].loop.Drain? {
      d, hasMemory, transmitted := i + 1, false, false;
    } else {
      d, hasMemory, transmitted := LoneStart(states, steps, i + 1, j);
    }
  }

  // From the drain to the wait.

  lemma IterationStep(m: M, s: LoopStep)
    requires Sane(m) && CanLoop(m, s) && LabelFits(m, s) && InIteration(m.loop) && !m.loop.Blocked?
    ensures var m' := DoLoop(m, s);
            InIteration(m'.loop) && m'.send == m.send && m'.reg == m.reg && m'.now == m.now && m'.api == m.api &&
            (m'.loop.Blocked? ==> m'.loop.wait == P.SleepOf(m'.rx, Tick(m.now)))
  {
  }

  lemma {:induction false} IterationKeeps(states: seq<M>, steps: seq<Step>, i: nat, j: nat)
    requires LoopRun(states, steps, i, j) && InIteration(states[i].loop) && states[j].loop.Blocked?
    requires states[i].loop.Blocked? ==> states[i].loop.wait == P.SleepOf(states[i].rx, Tick(states[i].now))
    ensures states[j].send == states[i].send && states[j].reg == states[i].reg && states[j].api == states[i].api
    ensures states[j].now == states[i].now && states[j].loop.wait == P.SleepOf(states[j].rx, Tick(states[j].now))
    decreases j - i
  {
    if i < j {
      var m, s := NextOf(states, steps, i, j);
      HonestFits(m, s);
      IterationStep(m, s);
      IterationKeeps(states, steps, i + 1, j);
    }
  }

  /** The environment such an iteration has met. */
  function Met(m: M, memory: seq<bool>, hasMemory: bool, transmitted: bool): P.Environment {
    P.Environment(memory, hasMemory, m.nextHandle, Tick(m.now), transmitted, Tick(m.now), Tick(m.now))
  }

  /**
   * From the send queue to the wait, left alone, the machine does what one iteration in place does.
   */
  lemma LoneRest(states: seq<M>, steps: seq<Step>, i: nat, j: nat) returns (env: P.Environment)
    requires LoopRun(states, steps, i, j) && states[i].loop.SendPoll? && states[j].loop.Blocked?
    ensures env == Met(states[i], [], env.hasMemory, env.transmitted)
    ensures var (m, m') := (states[i], states[j]);
            P.Gives(m.rx, m.send, m.ring, m.reg.urcs, env, m'.rx, m'.send, m'.loop.wait) &&
            m'.reg == m.reg && m'.api == m.api && m'.now == m.now
  {
    var d, hasMemory, transmitted := LoneSend(states, steps, i, j);
    env := Met(states[i], [], hasMemory, transmitted);
    EngineTasks.RunKeepsInv(states, steps, i);
    SentIsAfterSend(states[i], states[d], env);
    LoneIteration(states, steps, d, j);
    IterationKeeps(states, steps, d, j);
  }

  lemma SentIsAfterSend(m: M, m': M, env: P.Environment)
    requires Shape(m.rx) && env == Met(m, [], env.hasMemory, env.transmitted)
    requires SentTo(m, m', env.hasMemory, env.transmitted)
    ensures m'.rx == P.AfterSend(m.rx, m.send, env) && m'.send == P.SendQueueAfter(m.rx, m.send) && Shape(m'.rx)
  {
    if m.rx.task.None? && m.send != [] {
      StartsAsOnly(m.rx, m.send[0], env.hasMemory, m.nextHandle, Tick(m.now), env.transmitted, m'.rx);
    }
    P.SendKeepsShape(m.rx, m.send, env);
  }

  // The API queue.

  /** The answers to these messages, as events. */
  function Answers(msgs: seq<ApiMsg>, replies: seq<(nat, int)>): (events: seq<Event>)
    requires |replies| == |msgs| && AllUrc(msgs)
    ensures |events| == |msgs|
  {
    seq(|msgs|, i requires 0 <= i < |msgs| => ReplyOf(msgs[i], replies[i].1))
  }

  function SetOf(xs: seq<nat>): set<nat> {
    set x | x in xs
  }

  lemma SetOfMore(xs: seq<nat>, x: nat)
    ensures SetOf(xs + [x]) == SetOf(xs) + {x}
  {
  }

  /** What serving these messages in place gives, and what the machine has then done. */
  ghost predicate ServedTo(m: M, m': M, msgs: seq<ApiMsg>, memory: seq<bool>) {
    |memory| == |msgs| && AllUrc(msgs) &&
    var served := ServingAll(ApiHandlers.Served(m.reg, [], [], []), msgs, memory);
    |served.replies| == |msgs| && m'.reg == served.reg &&
    m'.rx == m.rx.(trace := m.rx.trace + Answers(msgs, served.replies)) &&
    m'.given == m.given + SetOf(served.given) && m'.owner == m.owner - SetOf(served.freed) &&
    m'.send == m.send && m'.ring == m.ring && m'.now == m.now && m'.nextHandle == m.nextHandle
  }

  /** One message, from its dequeue to its release. */
  ghost predicate MsgServed(m: M, m': M, msg: ApiMsg, hasMemory: bool) {
    !msg.op.Send? &&
    var req := RequestOf(msg, hasMemory);
    CanServe(m.reg, req) && m'.reg == Serve(m.reg, req) &&
    m'.rx == m.rx.(trace := m.rx.trace + [ReplyOf(msg, Answer(m.reg, req))]) &&
    m'.given == m.given + {msg.sem} && m'.owner == m.owner - {msg.block} &&
    m'.send == m.send && m'.ring == m.ring && m'.now == m.now && m'.nextHandle == m.nextHandle
  }

  lemma TakeStep(m: M, s: LoopStep)
    requires Sane(m) && CanLoop(m, s) && m.loop.ExternPoll? && m.api != []
    ensures DoLoop(m, s) == m.(loop := ExternWork(m.api[0]), api := m.api[1..])
  {
  }

  lemma ServeStep(m: M, s: LoopStep)
    requires Sane(m) && CanLoop(m, s) && Honest(m, s) && m.loop.ExternWork? && !m.loop.msg.op.Send?
    ensures s.ServeMsg?
    ensures var (m', req) := (DoLoop(m, s), RequestOf(m.loop.msg, s.hasMemory));
            CanServe(m.reg, req) && m'.loop == ExternGive(m.loop.msg) &&
            m' == m.(loop := m'.loop, reg := Serve(m.reg, req), cells := m'.cells,
                     rx := m.rx.(trace := m.rx.trace + [ReplyOf(m.loop.msg, Answer(m.reg, req))]))
  {
  }

  lemma GiveStep(m: M, s: LoopStep)
    requires Sane(m) && CanLoop(m, s) && m.loop.ExternGive?
    ensures var m' := DoLoop(m, s);
            m' == m.(loop := ExternFree(m.loop.msg), given := m.given + {m.loop.msg.sem}, items := m'.items)
  {
  }

  lemma FreeStep(m: M, s: LoopStep)
    requires Sane(m) && CanLoop(m, s) && m.loop.ExternFree?
    ensures var m' := DoLoop(m, s);
            m' == m.(loop := ExternPoll, owner := m.owner - {m.loop.msg.block}, items := m'.items)
  {
  }

  lemma FirstMsgIsUrc(m: M)
    requires Inv(m) && m.loop.ExternPoll? && m.api != []
    ensures !m.api[0].op.Send?
  {
    assert Msgs(m)[0] == m.api[0];
  }

  lemma LoneMsg(states: seq<M>, steps: seq<Step>, i: nat, j: nat) returns (hasMemory: bool)
    requires LoopRun(states, steps, i, j) && states[i].loop.ExternPoll? && states[i].api != []
    requires states[j].loop.Blocked?
    ensures i + 4 <= j && LoopRun(states, steps, i + 4, j) && states[i + 4].loop.ExternPoll?
    ensures states[i + 4].api == states[i].api[1..]
    ensures MsgServed(states[i], states[i + 4], states[i].api[0], hasMemory)
  {
    var m0, s0 := NextOf(states, steps, i, j);
    FirstMsgIsUrc(m0);
    TakeStep(m0, s0);
    var m1, s1 := NextOf(states, steps, i + 1, j);
    ServeStep(m1, s1);
    hasMemory := s1.hasMemory;
    var m2, s2 := NextOf(states, steps, i + 2, j);
    GiveStep(m2, s2);
    var m3, s3 := NextOf(states, steps, i + 3, j);
    FreeStep(m3, s3);
  }

  lemma AnswersMore(msgs: seq<ApiMsg>, replies: seq<(nat, int)>, msg: ApiMsg, reply: (nat, int))
    requires |replies| == |msgs| && AllUrc(msgs) && !msg.op.Send?
    ensures AllUrc(msgs + [msg])
    ensures Answers(msgs + [msg], replies + [reply]) == Answers(msgs, replies) + [ReplyOf(msg, reply.1)]
  {
  }

  lemma ServingMore(s: Served, msgs: seq<ApiMsg>, memory: seq<bool>, msg: ApiMsg, hasMemory: bool)
    requires |memory| == |msgs| && AllUrc(msgs) && !msg.op.Send?
    ensures AllUrc(msgs + [msg])
    ensures ServingAll(s, msgs + [msg], memory + [hasMemory]) == Serving(ServingAll(s, msgs, memory), msg, hasMemory)
  {
    assert (msgs + [msg])[..|msgs|] == msgs;
    SameMemory(s, msgs, memory, memory + [hasMemory]);
  }

  lemma ServedMore(m: M, m1: M, m2: M, msgs: seq<ApiMsg>, memory: seq<bool>, msg: ApiMsg, hasMemory: bool)
    requires ServedTo(m, m1, msgs, memory) && MsgServed(m1, m2, msg, hasMemory)
    ensures ServedTo(m, m2, msgs + [msg], memory + [hasMemory])
  {
    var start := ApiHandlers.Served(m.reg, [], [], []);
    var before := ServingAll(start, msgs, memory);
    ServingMore(start, msgs, memory, msg, hasMemory);
    AnswersMore(msgs, before.replies, msg, (msg.ticket, Answer(m1.reg, RequestOf(msg, hasMemory))));
    SetOfMore(before.given, msg.sem);
    SetOfMore(before.freed, msg.block);
    Minus(m.owner, SetOf(before.freed), msg.block);
  }

  lemma Minus(owner: map<nat, Owner>, freed: set<nat>, block: nat)
    ensures (owner - freed) - {block} == owner - (freed + {block})
  {
  }

  /** Only the first results matter. */
  lemma {:induction false} SameMemory(s: Served, msgs: seq<ApiMsg>, a: seq<bool>, b: seq<bool>)
    requires |msgs| <= |a| <= |b| && a == b[..|a|] && AllUrc(msgs)
    ensures ServingAll(s, msgs, a) == ServingAll(s, msgs, b)
  {
    if msgs != [] {
      SameMemory(s, msgs[..|msgs| - 1], a, b);
    }
  }

  /** The first n messages. */
  lemma {:induction false} LoneMsgs(states: seq<M>, steps: seq<Step>, i: nat, j: nat, n: nat)
    returns (p: nat, memory: seq<bool>)
    requires LoopRun(states, steps, i, j) && states[i].loop.ExternPoll? && states[j].loop.Blocked?
    requires n <= |states[i].api|
    ensures i <= p <= j && LoopRun(states, steps, p, j) && states[p].loop.ExternPoll?
    ensures states[p].api == states[i].api[n..] && ServedTo(states[i], states[p], states[i].api[..n], memory)
  {
    if n == 0 {
      p, memory := i, [];
      NoneServed(states[i]);
    } else {
      var q, less := LoneMsgs(states, steps, i, j, n - 1);
      var hasMemory := LoneMsg(states, steps, q, j);
      var api := states[i].api;
      ServedMore(states[i], states[q], states[q + 4], api[..n - 1], less, api[n - 1], hasMemory);
      assert api[..n] == api[..n - 1] + [api[n - 1]];
      p, memory := q + 4, less + [hasMemory];
    }
  }

  lemma NoneServed(m: M)
    ensures ServedTo(m, m, m.api[..0], [])
  {
    assert m.rx.trace + [] == m.rx.trace;
  }

  /**
   * From the start of an iteration to the send queue, left alone: the machine has done to registry,
   * semaphores and memory what draining the API queue in place does, and recorded the same answers.
   */
  lemma LoneApi(states: seq<M>, steps: seq<Step>, i: nat, j: nat) returns (p: nat, memory: seq<bool>)
    requires LoopRun(states, steps, i, j) && states[i].loop.ExternPoll? && states[j].loop.Blocked?
    ensures i < p < j && LoopRun(states, steps, p, j) && states[p].loop.SendPoll? && states[p].api == []
    ensures ServedTo(states[i], states[p], states[i].api, memory)
  {
    var q;
    q, memory := LoneMsgs(states, steps, i, j, |states[i].api|);
    assert states[i].api[..|states[i].api|] == states[i].api;
    var m, s := NextOf(states, steps, q, j);
    EmptyStep(m, s);
    p := q + 1;
    ServedStays(states[i], m, states[p], states[i].api, memory);
  }

  /**
   * A whole iteration left alone, from the poll of the API queue to the wait: the queue has been served as
   * in place, and with the registry that left, send queue, ring, timeout check and sleep are as in place.
   */
  lemma LoneProcess(states: seq<M>, steps: seq<Step>, i: nat, j: nat)
    returns (p: nat, memory: seq<bool>, env: P.Environment)
    requires LoopRun(states, steps, i, j) && states[i].loop.ExternPoll? && states[j].loop.Blocked?
    ensures i < p < j && ServedTo(states[i], states[p], states[i].api, memory)
    ensures env == Met(states[i], [], env.hasMemory, env.transmitted)
    ensures var (m, m') := (states[i], states[j]);
            P.Gives(states[p].rx, m.send, m.ring, states[p].reg.urcs, env, m'.rx, m'.send, m'.loop.wait) &&
            m'.reg == states[p].reg && m'.api == [] && m'.now == m.now
  {
    p, memory := LoneApi(states, steps, i, j);
    env := LoneRest(states, steps, p, j);
  }

  lemma EmptyStep(m: M, s: LoopStep)
    requires Sane(m) && CanLoop(m, s) && m.loop.ExternPoll? && m.api == []
    ensures DoLoop(m, s) == m.(loop := SendPoll)
  {
  }

  lemma ServedStays(m: M, a: M, b: M, msgs: seq<ApiMsg>, memory: seq<bool>)
    requires ServedTo(m, a, msgs, memory) && b == a.(loop := b.loop)
    ensures ServedTo(m, b, msgs, memory)
  {
  }
}
