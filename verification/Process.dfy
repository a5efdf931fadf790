/** One iteration of the event loop without interference (ATCortex.c). */
module Process {
  import opened Bytes
  import opened AtcTypes
  import opened UrcSpec
  import opened UrcRegistries
  import opened ReceiveSpec
  import opened LineTheory
  import opened Ticks
  import opened Contexts
  import opened Engine
  import opened ApiHandlers

  /** What the iteration meets: allocation results, the new task's block, ticks, the hardware's answer. */
  datatype Environment = Environment(
    memory: seq<bool>, hasMemory: bool, block: nat, sendTick: nat, transmitted: bool, checkTick: nat, waitTick: nat)

  /** send_msg_handle as a function: nothing happens while a task is in flight or the queue is empty. */
  function AfterSend(s: RxState, queue: seq<SendReq>, env: Environment): RxState
    requires Shape(s)
  {
    if s.task.None? && queue != [] then Started(s, queue[0], env.hasMemory, env.block, env.sendTick, env.transmitted)
    else s
  }

  /** The rest of the iteration, with this registry: start a task, drain the ring, check for a timeout. */
  ghost function AfterIteration(s: RxState, queue: seq<SendReq>, ring: seq<byte>, urcs: seq<Urc>,
                                env: Environment): RxState
    requires Shape(s) && Shape(AfterSend(s, queue, env))
  {
    Checked(Feed(AfterSend(s, queue, env), Stamped(ring, urcs)), env.checkTick)
  }

  function SendQueueAfter(s: RxState, queue: seq<SendReq>): seq<SendReq> {
    if s.task.None? && queue != [] then queue[1..] else queue
  }

  /** How long the loop may sleep. */
  function SleepOf(s: RxState, tick: nat): nat {
    if s.task.None? then FOREVER else WaitMs(tick, s.task.value.timestamp, s.task.value.req.timeout)
  }

  // Data before time: what has been received counts even if the time is up.

  /** The iteration has a task in flight: the ring is drained first, and only what that leaves is checked. */
  lemma DataComeFirst(s: RxState, queue: seq<SendReq>, ring: seq<byte>, urcs: seq<Urc>, env: Environment)
    requires Shape(s) && s.task.Some? && Shape(AfterSend(s, queue, env))
    ensures var (t, u) := (Feed(s, Stamped(ring, urcs)), AfterIteration(s, queue, ring, urcs, env));
            (t.task.None? ==> u == t) && (t.task.Some? ==> t.length <= |t.response| && ChecksAs(t, env.checkTick, u))
  {
    CheckedIs(Feed(s, Stamped(ring, urcs)), env.checkTick);
  }

  /** Every command ended between the two traces was ended by data. */
  predicate OnlyByData(a: seq<Event>, b: seq<Event>) {
    a <= b && forall i | |a| <= i < |b| && b[i].Completed? :: b[i].result == Success || b[i].result == Error
  }

  lemma ByteEndsByData(s: RxState, x: Rx)
    requires Shape(s)
    ensures OnlyByData(s.trace, ByteStep(s, x.urcs, x.b).trace)
  {
    CallsAreEvents(x.urcs, s.line + [x.b]);
  }

  lemma {:induction false} CallsAreEvents(urcs: seq<Urc>, line: seq<byte>)
    ensures forall i | 0 <= i < |Calls(urcs, line)| :: Calls(urcs, line)[i].UrcCall?
  {
    if urcs != [] {
      CallsAreEvents(urcs[..|urcs| - 1], line);
    }
  }

  lemma {:induction false} FeedEndsByData(s: RxState, input: seq<Rx>)
    requires Shape(s)
    ensures OnlyByData(s.trace, Feed(s, input).trace)
  {
    if input != [] {
      var init, last := input[..|input| - 1], input[|input| - 1];
      FeedEndsByData(s, init);
      ByteEndsByData(Feed(s, init), last);
    }
  }

  /** t is what s has become after these lines, none of them final. */
  predicate StillRunning(s: RxState, t: RxState, lines: seq<Line>) {
    s.task.Some? && t.task == s.task && t.trace == s.trace + UrcTrace(lines) && t.length <= |t.response| &&
    t.response[..t.length] == Response(lines)
  }

  /** u ends the command with its timeout and the lines so far exactly if its ticks have reached that. */
  predicate TimeDecides(s: RxState, lines: seq<Line>, now: nat, u: RxState)
    requires s.task.Some?
  {
    var task := s.task.value;
    if (now - task.timestamp) % 0x1_0000_0000 >= task.req.timeout then
      u.task.None? && u.trace == s.trace + UrcTrace(lines) + [Completed(task.req, Timeout, Response(lines))]
    else
      u.task == s.task && u.trace == s.trace + UrcTrace(lines)
  }

  lemma RunningIsChecked(s: RxState, t: RxState, lines: seq<Line>, now: nat, u: RxState)
    requires StillRunning(s, t, lines) && ChecksAs(t, now, u)
    ensures TimeDecides(s, lines, now, u)
  {
  }

  lemma NoFinalStillRunning(s: RxState, input: seq<Rx>)
    requires FreshLineTask(s) && NoFinal(Handed(s.line, input))
    ensures StillRunning(s, Feed(s, input), Handed(s.line, input))
  {
    LineTaskRunning(s, input);
    HeldResponse(Feed(s, input), Handed(s.line, input));
  }

  /**
   * For a command without prompt that has collected nothing yet, whatever the time: if a final line is among
   * those the ring completes, it ends, and not by its timeout; if none is, time decides.
   */
  lemma FinalLineBeatsTimeout(s: RxState, queue: seq<SendReq>, ring: seq<byte>, urcs: seq<Urc>, env: Environment)
    requires FreshLineTask(s) && Shape(AfterSend(s, queue, env))
    ensures var (u, lines) := (AfterIteration(s, queue, ring, urcs, env), Handed(s.line, Stamped(ring, urcs)));
            if NoFinal(lines) then TimeDecides(s, lines, env.checkTick, u)
            else u.task.None? && OnlyByData(s.trace, u.trace)
  {
    var input := Stamped(ring, urcs);
    DataComeFirst(s, queue, ring, urcs, env);
    if NoFinal(Handed(s.line, input)) {
      NoFinalStillRunning(s, input);
      RunningIsChecked(s, Feed(s, input), Handed(s.line, input), env.checkTick,
                       AfterIteration(s, queue, ring, urcs, env));
    } else {
      LineTaskEndsIff(s, input);
      FeedEndsByData(s, input);
    }
  }

  /** What the rest of an iteration makes of these, and how long the loop then sleeps. */
  ghost predicate Gives(s: RxState, queue: seq<SendReq>, ring: seq<byte>, urcs: seq<Urc>, env: Environment,
                        s': RxState, queue': seq<SendReq>, wait: nat) {
    Shape(s) && Shape(AfterSend(s, queue, env)) && s' == AfterIteration(s, queue, ring, urcs, env) &&
    queue' == SendQueueAfter(s, queue) && wait == SleepOf(s', env.waitTick)
  }

  lemma SendKeepsShape(s: RxState, queue: seq<SendReq>, env: Environment)
    requires Shape(s)
    ensures Shape(AfterSend(s, queue, env))
  {
  }

  /** send_msg_handle, then recv_data_handle. */
  method SendAndDrain(context: Context, env: Environment)
    requires context.Ready()
    modifies context, context.lineBuffer, context.response, context.byteStack, context.byteStack.items, context.current
    modifies context.ring`readIndex, context.ring`queue
    ensures context.Ready() && context.ring.queue == [] && context.urcs.state == old(context.urcs.state)
    ensures context.current == null || context.current == old(context.current) || fresh(context.current)
    ensures Shape(AfterSend(old(context.rx), old(context.sendQueue), env))
    ensures context.rx == Feed(AfterSend(old(context.rx), old(context.sendQueue), env),
                               Stamped(old(context.ring.queue), old(context.urcs.state).urcs))
    ensures context.sendQueue == SendQueueAfter(old(context.rx), old(context.sendQueue))
  {
    SendKeepsShape(context.rx, context.sendQueue, env);
    context.SendApart(env.hasMemory, env.block, env.sendTick, env.transmitted);
    context.RecvDataHandle();
  }

  /** check_send_timeout, then the sleep. */
  method CheckAndWait(context: Context, env: Environment) returns (wait: nat)
    requires context.Ready()
    modifies context, context.response, context.byteStack, context.current
    ensures context.Ready() && context.OthersSame() && context.sendQueue == old(context.sendQueue)
    ensures context.rx == Checked(old(context.rx), env.checkTick) && wait == SleepOf(context.rx, env.waitTick)
  {
    context.CheckApart(env.checkTick);
    wait := context.WaitTime(env.waitTick);
  }

  /** send_msg_handle, recv_data_handle and check_send_timeout in this order, then the sleep. */
  method Iterate(context: Context, env: Environment) returns (wait: nat)
    requires context.Ready()
    modifies context, context.lineBuffer, context.response, context.byteStack, context.byteStack.items, context.current
    modifies context.ring`readIndex, context.ring`queue
    ensures context.Ready() && context.ring.queue == [] && context.urcs.state == old(context.urcs.state)
    ensures context.current == null || context.current == old(context.current) || fresh(context.current)
    ensures Gives(old(context.rx), old(context.sendQueue), old(context.ring.queue), old(context.urcs.state).urcs, env,
                  context.rx, context.sendQueue, wait)
  {
    SendAndDrain(context, env);
    wait := CheckAndWait(context, env);
  }

  predicate NulFreePrefixes(urcs: seq<Urc>) {
    forall i | 0 <= i < |urcs| :: NUL !in urcs[i].prefix
  }

  /** Every message passed the checks of its entry point. */
  predicate AllAccepted(msgs: seq<ApiMsg>) {
    forall i | 0 <= i < |msgs| :: Accepts(msgs[i].op)
  }

  lemma {:induction false} PrefixesStayNulFree(s: Served, msgs: seq<ApiMsg>, memory: seq<bool>)
    requires |msgs| <= |memory| && AllUrc(msgs) && AllAccepted(msgs) && NulFreePrefixes(s.reg.urcs)
    ensures NulFreePrefixes(ServingAll(s, msgs, memory).reg.urcs)
  {
    if msgs != [] {
      var n := |msgs| - 1;
      PrefixesStayNulFree(s, msgs[..n], memory);
    }
  }

  /** The messages can be served from here. */
  ghost predicate CanServeAll(s: Served, msgs: seq<ApiMsg>, memory: seq<bool>) {
    |msgs| <= |memory| && AllUrc(msgs) && AllAccepted(msgs) && Servable(s, msgs, memory)
  }

  /** extern_msg_handle, as far as the registry and the queue are concerned. */
  method ServeRegistry(registry: UrcRegistry, api: ApiQueue, memory: seq<bool>)
    requires registry.Valid() && NulFreePrefixes(registry.state.urcs)
    requires CanServeAll(api.Value(registry.state), api.queue, memory)
    modifies api, registry, registry.list, ApiQueue.Nodes(registry)
    ensures registry.Valid() && NulFreePrefixes(registry.state.urcs) && api.queue == []
    ensures fresh(ApiQueue.Nodes(registry) - old(ApiQueue.Nodes(registry)))
    ensures api.Value(registry.state) == ServingAll(old(api.Value(registry.state)), old(api.queue), memory)
  {
    PrefixesStayNulFree(api.Value(registry.state), api.queue, memory);
    api.ExternMsgHandle(registry, memory);
  }

  /** Serving the API leaves the receive side and the ring alone. */
  method ServeApart(context: Context, api: ApiQueue, memory: seq<bool>)
    requires context.Valid() && context.RingApart() && context.ring.Valid()
    requires context.urcs.Valid() && NulFreePrefixes(context.urcs.state.urcs)
    requires CanServeAll(api.Value(context.urcs.state), api.queue, memory)
    modifies api, context.urcs, context.urcs.list, ApiQueue.Nodes(context.urcs)
    ensures context.Valid() && context.RingApart() && context.ring.Valid()
    ensures context.urcs.Valid() && NulFreePrefixes(context.urcs.state.urcs) && api.queue == []
    ensures unchanged(context) && unchanged(context.ring)
    ensures fresh(ApiQueue.Nodes(context.urcs) - old(ApiQueue.Nodes(context.urcs)))
    ensures api.Value(context.urcs.state) == ServingAll(old(api.Value(context.urcs.state)), old(api.queue), memory)
  {
    ServeRegistry(context.urcs, api, memory);
  }

  /** extern_msg_handle: everything is in order for the rest of the iteration. */
  method ServeApi(context: Context, api: ApiQueue, memory: seq<bool>)
    requires context.Ready() && CanServeAll(api.Value(context.urcs.state), api.queue, memory)
    modifies api, context.urcs, context.urcs.list, ApiQueue.Nodes(context.urcs)
    ensures context.Ready() && unchanged(context) && unchanged(context.ring) && api.queue == []
    ensures fresh(ApiQueue.Nodes(context.urcs) - old(ApiQueue.Nodes(context.urcs)))
    ensures api.Value(context.urcs.state) == ServingAll(old(api.Value(context.urcs.state)), old(api.queue), memory)
  {
    ServeApart(context, api, memory);
  }

  /** The rest of the iteration leaves the API queue and the registry alone. */
  method IterateApart(context: Context, api: ApiQueue, env: Environment) returns (wait: nat)
    requires context.Ready()
    modifies context, context.lineBuffer, context.response, context.byteStack, context.byteStack.items, context.current
    modifies context.ring`readIndex, context.ring`queue
    ensures context.Ready() && context.ring.queue == [] && context.ring.buffer == old(context.ring.buffer)
    ensures context.current == null || context.current == old(context.current) || fresh(context.current)
    ensures Gives(old(context.rx), old(context.sendQueue), old(context.ring.queue), old(context.urcs.state).urcs, env,
                  context.rx, context.sendQueue, wait)
    ensures unchanged(api) && unchanged(context.urcs.list) && context.urcs.state == old(context.urcs.state)
  {
    wait := Iterate(context, env);
  }

  /** atc_process, one iteration: the API queue first, so that its changes are in force for the bytes drained. */
  method ProcessOnce(context: Context, api: ApiQueue, env: Environment) returns (wait: nat)
    requires context.Ready() && CanServeAll(api.Value(context.urcs.state), api.queue, env.memory)
    modifies context, context.lineBuffer, context.response, context.byteStack, context.byteStack.items, context.current
    modifies context.ring`readIndex, context.ring`queue
    modifies api, context.urcs, context.urcs.list, ApiQueue.Nodes(context.urcs)
    ensures context.Ready() && context.ring.queue == [] && api.queue == []
    ensures context.current == null || context.current == old(context.current) || fresh(context.current)
    ensures fresh(ApiQueue.Nodes(context.urcs) - old(ApiQueue.Nodes(context.urcs)))
    ensures context.ring.buffer == old(context.ring.buffer)
    ensures api.Value(context.urcs.state) ==
            ServingAll(old(api.Value(context.urcs.state)), old(api.queue), env.memory)
    ensures Gives(old(context.rx), old(context.sendQueue), old(context.ring.queue), context.urcs.state.urcs, env,
                  context.rx, context.sendQueue, wait)
  {
    ServeApi(context, api, env.memory);
    wait := IterateApart(context, api, env);
  }

  // The loop: any number of iterations.

  /** What arrives while the loop sleeps, and what the iteration after that meets. */
  datatype Round = Round(data: seq<byte>, sends: seq<SendReq>, msgs: seq<ApiMsg>, env: Environment)

  /** What an iteration leaves to the next: the receive state, the send queue, the registry and what was served. */
  datatype LoopState = LoopState(rx: RxState, queue: seq<SendReq>, served: Served)

  /** A receive call stores what the ring has room for. */
  function Accepted(data: seq<byte>, room: nat): seq<byte> {
    data[..if |data| <= room then |data| else room]
  }

  ghost predicate CanRound(s: LoopState, round: Round) {
    Shape(s.rx) && CanServeAll(s.served, round.msgs, round.env.memory)
  }

  ghost function AfterRound(s: LoopState, round: Round, room: nat): (t: LoopState)
    requires CanRound(s, round)
    ensures Shape(t.rx)
  {
    var (queue, served) := (s.queue + round.sends, ServingAll(s.served, round.msgs, round.env.memory));
    SendKeepsShape(s.rx, queue, round.env);
    LoopState(AfterIteration(s.rx, queue, Accepted(round.data, room), served.reg.urcs, round.env),
              SendQueueAfter(s.rx, queue), served)
  }

  /** The rounds can be gone through one after the other. */
  ghost predicate CanRounds(s: LoopState, rounds: seq<Round>, room: nat)
    decreases |rounds|
  {
    rounds != [] ==> CanRound(s, rounds[0]) && CanRounds(AfterRound(s, rounds[0], room), rounds[1..], room)
  }

  ghost function AfterRounds(s: LoopState, rounds: seq<Round>, room: nat): LoopState
    requires CanRounds(s, rounds, room)
    decreases |rounds|
  {
    if rounds == [] then s else AfterRounds(AfterRound(s, rounds[0], room), rounds[1..], room)
  }

  ghost function StateOf(context: Context, api: ApiQueue): LoopState
    reads context, context.urcs, api
  {
    LoopState(context.rx, context.sendQueue, api.Value(context.urcs.state))
  }

  /** The interrupt's part. */
  method ReceiveBetween(context: Context, data: seq<byte>)
    requires context.Ready() && context.ring.queue == []
    modifies context`wake, context.ring`writeIndex, context.ring`queue, context.ring.buffer
    ensures context.Ready() && context.ring.buffer == old(context.ring.buffer)
    ensures context.ring.queue == Accepted(data, context.ring.buffer.Length - 1)
    ensures unchanged(context`rx, context`sendQueue, context`current)
  {
    var count := context.ReceiveData(data);
    assert [] + data[..count] == data[..count];
  }

  /** The callers' part. */
  method QueueBetween(context: Context, api: ApiQueue, sends: seq<SendReq>, msgs: seq<ApiMsg>)
    requires context.Ready() && api.queue == []
    modifies context`sendQueue, api`queue
    ensures context.Ready() && unchanged(context.ring, context.urcs, context`rx, context`current)
    ensures context.sendQueue == old(context.sendQueue) + sends && api.queue == msgs
  {
    context.sendQueue := context.sendQueue + sends;
    api.queue := msgs;
  }

  /** What other threads and the interrupt do while the loop sleeps. */
  method Arrive(context: Context, api: ApiQueue, round: Round)
    requires context.Ready() && context.ring.queue == [] && api.queue == []
    modifies context`sendQueue, context`wake, context.ring`writeIndex, context.ring`queue, context.ring.buffer
    modifies api`queue
    ensures context.Ready() && context.ring.buffer == old(context.ring.buffer)
    ensures context.ring.queue == Accepted(round.data, context.ring.buffer.Length - 1) && api.queue == round.msgs
    ensures StateOf(context, api) == old(StateOf(context, api)).(queue := old(context.sendQueue) + round.sends)
    ensures context.current == old(context.current) && context.urcs.list.nodes == old(context.urcs.list.nodes)
  {
    ReceiveBetween(context, round.data);
    QueueBetween(context, api, round.sends, round.msgs);
  }

  /** The iteration leads from s to t, with these messages in the API queue and these bytes in the ring. */
  ghost predicate Leads(s: LoopState, msgs: seq<ApiMsg>, ring: seq<byte>, env: Environment, t: LoopState, wait: nat)
  {
    CanServeAll(s.served, msgs, env.memory) && t.served == ServingAll(s.served, msgs, env.memory) &&
    Gives(s.rx, s.queue, ring, t.served.reg.urcs, env, t.rx, t.queue, wait)
  }

  lemma RoundLeads(s: LoopState, round: Round, room: nat, t: LoopState, wait: nat)
    requires CanRound(s, round)
    requires Leads(s.(queue := s.queue + round.sends), round.msgs, Accepted(round.data, room), round.env, t, wait)
    ensures t == AfterRound(s, round, room)
  {
  }

  /** The task in flight, as a set. */
  ghost function TaskOf(context: Context): set<object>
    reads context
  {
    if context.current == null then {} else {context.current}
  }

  /** The objects the loop works on. */
  ghost predicate Owns(repr: set<object>, context: Context, api: ApiQueue)
    reads context, context.ring, context.byteStack, context.urcs, context.urcs.list
  {
    {context, context.lineBuffer, context.response, context.byteStack, context.byteStack.items} <= repr &&
    {context.ring, api, context.urcs, context.urcs.list} <= repr &&
    (context.ring.buffer == null || context.ring.buffer in repr) &&
    TaskOf(context) <= repr && ApiQueue.Nodes(context.urcs) <= repr
  }

  /** An iteration, with its objects in one set. */
  method ProcessOwned(context: Context, api: ApiQueue, env: Environment,
                      ghost repr: set<object>, ghost s: LoopState, ghost msgs: seq<ApiMsg>, ghost ring: seq<byte>)
    returns (wait: nat, ghost repr': set<object>, ghost t: LoopState)
    requires context.Ready() && Owns(repr, context, api)
    requires s == StateOf(context, api) && msgs == api.queue && ring == context.ring.queue
    requires CanServeAll(s.served, msgs, env.memory)
    modifies repr
    ensures context.Ready() && context.ring.queue == [] && api.queue == [] && Owns(repr', context, api)
    ensures fresh(repr' - repr) && context.ring.buffer == old(context.ring.buffer)
    ensures t == StateOf(context, api) && Leads(s, msgs, ring, env, t, wait)
  {
    wait := ProcessOnce(context, api, env);
    repr' := repr + ApiQueue.Nodes(context.urcs) + TaskOf(context);
    t := StateOf(context, api);
  }

  /** The loop sleeps in this state, with nothing left in the ring and in the API queue. */
  ghost predicate AtRest(context: Context, api: ApiQueue, repr: set<object>, s: LoopState, room: nat)
    reads context, context.lineBuffer, context.response, context.byteStack, context.byteStack.items, context.current
    reads context.ring, context.ring.buffer, context.urcs, context.urcs.list, context.urcs.list.nodes, api
  {
    context.Ready() && context.ring.queue == [] && api.queue == [] && Owns(repr, context, api) &&
    s == StateOf(context, api) && room == context.ring.buffer.Length - 1
  }

  /** A sleep and the iteration after it. */
  method PassRound(context: Context, api: ApiQueue, round: Round,
                   ghost repr: set<object>, ghost s: LoopState, ghost room: nat)
    returns (wait: nat, ghost repr': set<object>, ghost t: LoopState)
    requires AtRest(context, api, repr, s, room) && CanRound(s, round)
    modifies repr
    ensures AtRest(context, api, repr', t, room) && fresh(repr' - repr)
    ensures Leads(s.(queue := s.queue + round.sends), round.msgs, Accepted(round.data, room), round.env, t, wait)
  {
    Arrive(context, api, round);
    wait, repr', t := ProcessOwned(context, api, round.env, repr, s.(queue := s.queue + round.sends), round.msgs,
                                   Accepted(round.data, room));
  }

  /** s is what the first rounds lead to, and the others can follow. */
  ghost predicate OnCourse(s: LoopState, rest: seq<Round>, start: LoopState, rounds: seq<Round>, room: nat) {
    CanRounds(start, rounds, room) && CanRounds(s, rest, room) &&
    AfterRounds(s, rest, room) == AfterRounds(start, rounds, room)
  }

  lemma NextRoundCan(s: LoopState, start: LoopState, rounds: seq<Round>, n: nat, room: nat)
    requires n < |rounds| && OnCourse(s, rounds[n..], start, rounds, room)
    ensures CanRound(s, rounds[n])
  {
    assert rounds[n..][0] == rounds[n];
  }

  lemma StaysOnCourse(s: LoopState, start: LoopState, rounds: seq<Round>, n: nat, room: nat, t: LoopState, wait: nat)
    requires n < |rounds| && OnCourse(s, rounds[n..], start, rounds, room)
    requires var round := rounds[n];
             Leads(s.(queue := s.queue + round.sends), round.msgs, Accepted(round.data, room), round.env, t, wait)
    ensures OnCourse(t, rounds[n + 1..], start, rounds, room)
  {
    assert rounds[n..][0] == rounds[n] && rounds[n..][1..] == rounds[n + 1..];
    RoundLeads(s, rounds[n], room, t, wait);
  }

  /**
   * atc_process over any number of iterations, with whatever arrives between them: the endless loop, as far
   * as it has come. `repr` holds the objects it works on, `start` what it starts from.
   */
  method ProcessRounds(context: Context, api: ApiQueue, rounds: seq<Round>,
                       ghost repr: set<object>, ghost start: LoopState, ghost room: nat)
    requires AtRest(context, api, repr, start, room) && CanRounds(start, rounds, room)
    modifies repr
    ensures context.Ready() && StateOf(context, api) == AfterRounds(start, rounds, room)
  {
    ghost var (s, own) := (start, repr);
    for n := 0 to |rounds|
      invariant AtRest(context, api, own, s, room) && fresh(own - repr)
      invariant OnCourse(s, rounds[n..], start, rounds, room)
    {
      var wait;
      ghost var t;
      NextRoundCan(s, start, rounds, n, room);
      ghost var before := own;
      wait, own, t := PassRound(context, api, rounds[n], own, s, room);
      assert own - repr <= (own - before) + (before - repr);
      StaysOnCourse(s, start, rounds, n, room, t, wait);
      s := t;
    }
  }
}
