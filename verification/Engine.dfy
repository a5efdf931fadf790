/**
 * The event loop, the receive interrupt and the API callers as one transition system: every program
 * counter is explicit and every interleaving of the steps is a run.
 */
module Engine {
  import opened Bytes
  import opened AtcTypes
  import opened UrcSpec
  import opened ReceiveSpec
  import opened Ticks

  const SEND_QUEUE_SIZE: nat := 6
  const API_QUEUE_SIZE: nat := 5
  /** The ring of 256 cells keeps one free. */
  const RING_ROOM: nat := 255

  // API callers.

  datatype Op =
    | Send(sync: bool, wantsResult: bool, capacity: Option<nat>, prompt: Option<seq<byte>>, need: nat, timeout: nat)
    | Register(prefix: seq<byte>, handler: nat)
    | Unregister(id: int)

  /** Arguments an entry point lets through to the queue. */
  predicate Accepts(op: Op) {
    match op
    case Send(_, _, _, prompt, _, timeout) => timeout <= FOREVER && (prompt.Some? ==> prompt.value != [])
    case Register(prefix, _) => 1 <= |prefix| < 32 && NUL !in prefix
    case Unregister(id) => id > 0
  }

  /** How many blocks and semaphores a call allocates before it queues its request. */
  function Needs(op: Op): nat {
    match op
    case Send(sync, _, _, prompt, _, _) => 1 + (if sync then 1 else 0) + (if prompt.Some? then 1 else 0)
    case _ => 2
  }

  predicate IsSync(op: Op) {
    !op.Send? || op.sync
  }

  /**
   * Where a caller is: allocating, between its enqueue and its give, blocked on its semaphore, past its
   * take, or back from a synchronous call. `held` lists the handles acquired so far, in order.
   */
  datatype Caller =
    | Preparing(op: Op, held: seq<nat>)
    | Enqueued(op: Op, ticket: nat, waitOn: Option<nat>)
    | Awaiting(op: Op, ticket: nat, sem: nat)
    | Taken(op: Op, ticket: nat, sem: nat)
    | Finished(op: Op, ticket: nat)

  /** The caller's own variables the event loop writes through pointers. */
  datatype Cells = Cells(result: Option<AtcResult>, copied: seq<byte>, length: nat, number: int)

  function FreshCells(op: Op): Cells {
    Cells(None, [], if op.Send? && op.capacity.Some? then op.capacity.value else 0, -1)
  }

  datatype ApiMsg = ApiMsg(ticket: nat, who: nat, op: Op, block: nat, sem: nat)

  // The event loop.

  /** Where a task's end returns to: the receive phase or the wait. */
  datatype Back = ToDrain | ToWait

  datatype Loop =
    | ExternPoll | ExternWork(msg: ApiMsg) | ExternGive(msg: ApiMsg) | ExternFree(msg: ApiMsg)
    | SendPoll | SendAlloc(req: SendReq) | SendData
    | Drain | Check | ComputeWait | Blocked(wait: nat, since: nat)
    | EndReply(result: AtcResult, back: Back) | EndCopy(back: Back) | EndGive(back: Back) | EndFree(back: Back)

  datatype Isr = Quiet | Writing(data: seq<byte>, count: nat) | Giving

  // Bookkeeping.

  /** Who must release a live handle: a caller, the request with a ticket, or nobody any more. */
  datatype Owner = Of(caller: nat) | InItem(ticket: nat) | Leaked

  /** A request the engine has accepted and not yet disposed of. */
  datatype Item = Item(who: nat, op: Op, sem: Option<nat>, handles: set<nat>, answered: bool)

  datatype M = M(
    wake: bool, api: seq<ApiMsg>, send: seq<SendReq>, ring: seq<byte>,
    rx: RxState, reg: Registry, loop: Loop, isr: Isr,
    now: nat, startedAt: nat,
    callers: map<nat, Caller>, cells: map<nat, Cells>,
    owner: map<nat, Owner>, given: set<nat>, items: map<nat, Item>, nextHandle: nat,
    accepted: seq<SendReq>, busy: bool, stranded: bool)

  ghost predicate Start(m: M) {
    && !m.wake && m.api == [] && m.send == [] && m.ring == []
    && m.rx == INITIAL && m.reg == EMPTY_REGISTRY && m.loop == ExternPoll && m.isr == Quiet
    && m.callers == map[] && m.cells == map[] && m.owner == map[] && m.given == {} && m.items == map[]
    && m.accepted == [] && !m.busy && !m.stranded
  }

  /** A step's label says what happened: outcomes of the environment and what a computation produced. */
  datatype LoopStep =
    | TakeMsg | NoMsg | ServeMsg(hasMemory: bool, reg: Registry, value: int) | GiveMsg | FreeMsg
    | SkipSend | NoSend | TakeSend | AllocTask(hasMemory: bool) | Transmit(ok: bool)
    | DrainByte(rx: RxState, end: Option<AtcResult>) | DrainDone | CheckTask | StartWait | Wake | TimeUp
    | Reply | Copy | Give | Finish

  datatype IsrStep = IsrCall(data: seq<byte>) | IsrByte | IsrFull | IsrGive

  datatype CallStep = Begins(op: Op) | Acquire(ok: bool) | Enqueue(ok: bool) | WakeLoop | Take | Delete

  datatype Step = OfLoop(l: LoopStep) | OfIsr(i: IsrStep) | OfCaller(c: nat, s: CallStep) | Elapse(ms: nat)

  // Loop steps.

  function CellsOf(m: M, c: nat): Cells {
    if c in m.cells then m.cells[c] else Cells(None, [], 0, -1)
  }

  function WithResult(cells: Cells, req: SendReq, result: AtcResult): Cells {
    if req.wantsResult then cells.(result := Some(result)) else cells
  }

  /** At most the caller's buffer is filled; an empty response changes nothing, not even the length. */
  function WithResponse(cells: Cells, req: SendReq, response: seq<byte>): Cells {
    if response != [] && req.capacity.Some? then
      var n := if |response| < cells.length then |response| else cells.length;
      cells.(copied := response[..n], length := n)
    else cells
  }

  function Task(m: M): Flight
    requires m.rx.task.Some?
  {
    m.rx.task.value
  }

  function RequestOf(msg: ApiMsg, hasMemory: bool): Request
    requires !msg.op.Send?
  {
    if msg.op.Register? then Request.Register(msg.op.prefix, msg.op.handler, hasMemory)
    else Request.Unregister(msg.op.id)
  }

  /** The answer to an API message, as an event. */
  function ReplyOf(msg: ApiMsg, value: int): Event {
    if msg.op.Register? then Registered(msg.ticket, msg.op.prefix, msg.op.handler, value)
    else Unregistered(msg.ticket, if msg.op.Unregister? then msg.op.id else 0, value)
  }

  /** The registry request has this outcome. */
  ghost predicate Served(reg: Registry, req: Request, reg': Registry, value: int) {
    CanServe(reg, req) && reg' == Serve(reg, req) && value == Answer(reg, req)
  }

  /** The received byte has this effect. */
  ghost predicate Received(rx: RxState, urcs: seq<Urc>, b: byte, rx': RxState, end: Option<AtcResult>) {
    Shape(rx) && (rx', end) == ByteEffect(rx, urcs, b)
  }

  /** The outcome in the label is the one the functions of the receive side and the registry compute. */
  ghost predicate Honest(m: M, s: LoopStep) {
    match s
    case ServeMsg(hasMemory, reg, value) =>
      m.loop.ExternWork? && !m.loop.msg.op.Send? && Served(m.reg, RequestOf(m.loop.msg, hasMemory), reg, value)
    case DrainByte(rx, end) => m.ring != [] && Received(m.rx, m.reg.urcs, m.ring[0], rx, end)
    case _ => true
  }

  /** The loop is at this step. */
  predicate CanLoop(m: M, s: LoopStep) {
    match s
    case TakeMsg => m.loop.ExternPoll? && m.api != []
    case NoMsg => m.loop.ExternPoll? && m.api == []
    case ServeMsg(_, _, _) => m.loop.ExternWork?
    case GiveMsg => m.loop.ExternGive?
    case FreeMsg => m.loop.ExternFree?
    case SkipSend => m.loop.SendPoll? && m.rx.task.Some?
    case NoSend => m.loop.SendPoll? && m.rx.task.None? && m.send == []
    case TakeSend => m.loop.SendPoll? && m.rx.task.None? && m.send != []
    case AllocTask(_) => m.loop.SendAlloc?
    case Transmit(_) => m.loop.SendData?
    case DrainByte(_, _) => m.loop.Drain? && m.ring != []
    case DrainDone => m.loop.Drain? && m.ring == []
    case CheckTask => m.loop.Check?
    case StartWait => m.loop.ComputeWait?
    case Wake => m.loop.Blocked? && m.wake
    case TimeUp => m.loop.Blocked? && m.loop.wait != FOREVER && m.now >= m.loop.since + m.loop.wait
    case Reply => m.loop.EndReply?
    case Copy => m.loop.EndCopy?
    case Give => m.loop.EndGive?
    case Finish => m.loop.EndFree?
  }

  /** What the data of a state must allow for its steps to make sense; it always holds, see RunExtends. */
  predicate Sane(m: M) {
    && m.rx.length <= |m.rx.response|
    && (m.loop.SendData? || m.loop.EndReply? || m.loop.EndCopy? || m.loop.EndGive? || m.loop.EndFree? ==>
          m.rx.task.Some?)
    && (m.loop.EndCopy? || m.loop.EndGive? ==> Task(m).req.sem.Some?)
    && (m.loop.EndCopy? || m.loop.EndGive? || m.loop.EndFree? ==> Task(m).req.ticket in m.items)
    && (m.loop.ExternGive? || m.loop.ExternFree? ==> m.loop.msg.ticket in m.items)
    && (m.loop.SendAlloc? ==> m.loop.req.ticket in m.items)
  }

  function AfterBack(back: Back): Loop {
    if back.ToDrain? then Drain else ComputeWait
  }

  /** The loop's program counter after the step. */
  function NextLoop(m: M, s: LoopStep): Loop
    requires Sane(m) && CanLoop(m, s)
  {
    match s
    case TakeMsg => ExternWork(m.api[0])
    case NoMsg => SendPoll
    case ServeMsg(_, _, _) => ExternGive(m.loop.msg)
    case GiveMsg => ExternFree(m.loop.msg)
    case FreeMsg => ExternPoll
    case SkipSend => Drain
    case NoSend => Drain
    case TakeSend => SendAlloc(m.send[0])
    case AllocTask(hasMemory) => if hasMemory then SendData else Drain
    case Transmit(ok) => if ok then Drain else EndReply(HardwareError, ToDrain)
    // With no task in flight a command's end only clears the buffers.
    case DrainByte(rx, end) => if end.Some? && rx.task.Some? then EndReply(end.value, ToDrain) else Drain
    case DrainDone => Check
    case CheckTask =>
      if m.rx.task.Some? && TimedOut(Tick(m.now), Task(m).timestamp, Task(m).req.timeout)
      then EndReply(Timeout, ToWait) else ComputeWait
    case StartWait =>
      Blocked(if m.rx.task.Some? then WaitMs(Tick(m.now), Task(m).timestamp, Task(m).req.timeout) else FOREVER,
              m.now)
    case Wake => ExternPoll
    case TimeUp => ExternPoll
    case Reply => if Task(m).req.sem.Some? then EndCopy(m.loop.back) else EndFree(m.loop.back)
    case Copy => EndGive(m.loop.back)
    case Give => EndFree(m.loop.back)
    case Finish => AfterBack(m.loop.back)
  }

  function NextRx(m: M, s: LoopStep): RxState
    requires Sane(m) && CanLoop(m, s)
  {
    match s
    case ServeMsg(_, _, value) => m.rx.(trace := m.rx.trace + [ReplyOf(m.loop.msg, value)])
    case AllocTask(hasMemory) =>
      if hasMemory then Begin(m.rx, m.loop.req, m.nextHandle, Tick(m.now))
      else m.rx.(trace := m.rx.trace + [TaskLost(m.loop.req)])
    case DrainByte(rx, end) => if end.Some? && rx.task.None? then Release(rx) else rx
    case Reply => Notify(m.rx, m.loop.result)
    case Finish => Release(m.rx)
    case _ => m.rx
  }

  /** The event loop writes a caller's variables in these three steps only. */
  function NextCells(m: M, s: LoopStep): map<nat, Cells>
    requires Sane(m) && CanLoop(m, s)
  {
    match s
    case ServeMsg(_, _, value) => m.cells[m.loop.msg.who := CellsOf(m, m.loop.msg.who).(number := value)]
    case Reply =>
      var req := Task(m).req;
      if req.sem.Some? then m.cells[req.who := WithResult(CellsOf(m, req.who), req, m.loop.result)] else m.cells
    case Copy =>
      var req := Task(m).req;
      m.cells[req.who := WithResponse(CellsOf(m, req.who), req, m.rx.response[..m.rx.length])]
    case _ => m.cells
  }

  function NextGiven(m: M, s: LoopStep): set<nat>
    requires Sane(m) && CanLoop(m, s)
  {
    match s
    case GiveMsg => m.given + {m.loop.msg.sem}
    case Give => m.given + {Task(m).req.sem.value}
    case _ => m.given
  }

  function NextItems(m: M, s: LoopStep): map<nat, Item>
    requires Sane(m) && CanLoop(m, s)
  {
    match s
    case GiveMsg => m.items[m.loop.msg.ticket := m.items[m.loop.msg.ticket].(answered := true)]
    case FreeMsg => m.items - {m.loop.msg.ticket}
    case AllocTask(hasMemory) =>
      var t := m.loop.req.ticket;
      if hasMemory then m.items[t := m.items[t].(handles := m.items[t].handles + {m.nextHandle})]
      else m.items - {t}
    case Give => m.items[Task(m).req.ticket := m.items[Task(m).req.ticket].(answered := true)]
    case Finish => m.items - {Task(m).req.ticket}
    case _ => m.items
  }

  /** Frees: a served message, and a finished task's blocks. A request that found no memory is leaked. */
  function NextOwner(m: M, s: LoopStep): map<nat, Owner>
    requires Sane(m) && CanLoop(m, s)
  {
    match s
    case FreeMsg => m.owner - {m.loop.msg.block}
    case AllocTask(hasMemory) =>
      if hasMemory then m.owner[m.nextHandle := InItem(m.loop.req.ticket)]
      else
        var handles := m.items[m.loop.req.ticket].handles;
        map h | h in m.owner :: if h in handles then Leaked else m.owner[h]
    case Finish => m.owner - (set h | h in Blocks(Task(m)))
    case _ => m.owner
  }

  function DoLoop(m: M, s: LoopStep): M
    requires Sane(m) && CanLoop(m, s)
  {
    m.(loop := NextLoop(m, s), rx := NextRx(m, s),
       cells := NextCells(m, s), given := NextGiven(m, s), items := NextItems(m, s), owner := NextOwner(m, s),
       reg := if s.ServeMsg? then s.reg else m.reg,
       api := if s.TakeMsg? then m.api[1..] else m.api,
       send := if s.TakeSend? then m.send[1..] else m.send,
       ring := if s.DrainByte? then m.ring[1..] else m.ring,
       wake := m.wake && !s.Wake?,
       busy := if s.SkipSend? || s.TakeSend? then true else m.busy && !s.Wake? && !s.TimeUp?,
       stranded := m.stranded && !s.DrainDone?,
       startedAt := if s.AllocTask? && s.hasMemory then m.now else m.startedAt,
       nextHandle := if s.AllocTask? && s.hasMemory then m.nextHandle + 1 else m.nextHandle)
  }

  // Interrupt steps.

  predicate CanIsr(m: M, s: IsrStep) {
    match s
    case IsrCall(data) => m.isr.Quiet? && data != []
    case IsrByte => m.isr.Writing? && m.isr.count < |m.isr.data| && |m.ring| < RING_ROOM
    case IsrFull => m.isr.Writing? && |m.ring| >= RING_ROOM
    case IsrGive => m.isr.Giving?
  }

  /** A call that stored only part of its bytes returns without waking the loop. */
  function DoIsr(m: M, s: IsrStep): M
    requires CanIsr(m, s)
  {
    m.(isr := match s
              case IsrCall(data) => Writing(data, 0)
              case IsrByte =>
                if m.isr.count + 1 == |m.isr.data| then Giving else Writing(m.isr.data, m.isr.count + 1)
              case _ => Quiet,
       ring := if s.IsrByte? then m.ring + [m.isr.data[m.isr.count]] else m.ring,
       stranded := m.stranded || (s.IsrFull? && m.isr.count > 0),
       wake := m.wake || s.IsrGive?)
  }

  // Caller steps.

  predicate CanCall(m: M, c: nat, s: CallStep) {
    match s
    case Begins(op) => (c !in m.callers || m.callers[c].Finished?) && Accepts(op)
    case Acquire(_) => c in m.callers && m.callers[c].Preparing? && |m.callers[c].held| < Needs(m.callers[c].op)
    case Enqueue(ok) =>
      c in m.callers && m.callers[c].Preparing? && |m.callers[c].held| == Needs(m.callers[c].op) &&
      (ok ==> if m.callers[c].op.Send? then |m.send| < SEND_QUEUE_SIZE else |m.api| < API_QUEUE_SIZE)
    case WakeLoop => c in m.callers && m.callers[c].Enqueued?
    case Take => c in m.callers && m.callers[c].Awaiting? && m.callers[c].sem in m.given
    case Delete => c in m.callers && m.callers[c].Taken?
  }

  /** The request a prepared send call queues. */
  function MakeReq(ticket: nat, c: nat, op: Op, held: seq<nat>): SendReq
    requires op.Send? && |held| == Needs(op)
  {
    SendReq(ticket, c, if op.sync then Some(held[1]) else None, op.wantsResult, op.capacity, held[0],
            if op.prompt.Some? then Some(held[|held| - 1]) else None,
            if op.prompt.Some? then op.prompt.value else [], op.need, StoredTimeout(op.timeout))
  }

  function ReqHandles(req: SendReq): set<nat> {
    {req.data} + (if req.promptBlock.Some? then {req.promptBlock.value} else {})
  }

  function ReqItem(req: SendReq, op: Op): Item {
    Item(req.who, op, req.sem, ReqHandles(req), false)
  }

  function MsgItem(msg: ApiMsg): Item {
    Item(msg.who, msg.op, Some(msg.sem), {msg.block}, false)
  }

  /** The handles of the request pass from the caller to the request. */
  function HandOver(owner: map<nat, Owner>, handles: set<nat>, ticket: nat): map<nat, Owner> {
    map h | h in owner :: if h in handles then InItem(ticket) else owner[h]
  }

  /** What the call would queue as ticket number `ticket`. */
  function MakeMsg(ticket: nat, c: nat, op: Op, held: seq<nat>): ApiMsg
    requires !op.Send? && |held| == Needs(op)
  {
    ApiMsg(ticket, c, op, held[0], held[1])
  }

  predicate Queues(m: M, c: nat, s: CallStep) {
    s == Enqueue(true) && CanCall(m, c, s)
  }

  predicate QueuesSend(m: M, c: nat, s: CallStep) {
    Queues(m, c, s) && m.callers[c].op.Send?
  }

  predicate QueuesMsg(m: M, c: nat, s: CallStep) {
    Queues(m, c, s) && !m.callers[c].op.Send?
  }

  function NewReq(m: M, c: nat): SendReq
    requires QueuesSend(m, c, Enqueue(true))
  {
    MakeReq(m.nextHandle, c, m.callers[c].op, m.callers[c].held)
  }

  function NewMsg(m: M, c: nat): ApiMsg
    requires QueuesMsg(m, c, Enqueue(true))
  {
    MakeMsg(m.nextHandle, c, m.callers[c].op, m.callers[c].held)
  }

  function NewItem(m: M, c: nat): Item
    requires Queues(m, c, Enqueue(true))
  {
    if m.callers[c].op.Send? then ReqItem(NewReq(m, c), m.callers[c].op) else MsgItem(NewMsg(m, c))
  }

  function NextCallers(m: M, c: nat, s: CallStep): map<nat, Caller>
    requires CanCall(m, c, s)
  {
    match s
    case Begins(op) => m.callers[c := Preparing(op, [])]
    case Acquire(ok) =>
      if ok then m.callers[c := Preparing(m.callers[c].op, m.callers[c].held + [m.nextHandle])]
      else m.callers - {c}
    case Enqueue(ok) =>
      if ok then m.callers[c := Enqueued(m.callers[c].op, m.nextHandle, NewItem(m, c).sem)] else m.callers - {c}
    case WakeLoop =>
      var k := m.callers[c];
      if k.waitOn.Some? then m.callers[c := Awaiting(k.op, k.ticket, k.waitOn.value)] else m.callers - {c}
    case Take => m.callers[c := Taken(m.callers[c].op, m.callers[c].ticket, m.callers[c].sem)]
    case Delete => m.callers[c := Finished(m.callers[c].op, m.callers[c].ticket)]
  }

  /** A failed allocation or enqueue releases everything the call acquired. */
  function CallOwner(m: M, c: nat, s: CallStep): map<nat, Owner>
    requires CanCall(m, c, s)
  {
    match s
    case Acquire(ok) =>
      if ok then m.owner[m.nextHandle := Of(c)] else m.owner - (set h | h in m.callers[c].held)
    case Enqueue(ok) =>
      if ok then HandOver(m.owner, NewItem(m, c).handles, m.nextHandle)
      else m.owner - (set h | h in m.callers[c].held)
    case Delete => m.owner - {m.callers[c].sem}
    case _ => m.owner
  }

  function DoCall(m: M, c: nat, s: CallStep): M
    requires CanCall(m, c, s)
  {
    m.(callers := NextCallers(m, c, s), owner := CallOwner(m, c, s),
       cells := if s.Begins? then m.cells[c := FreshCells(s.op)] else m.cells,
       send := if QueuesSend(m, c, s) then m.send + [NewReq(m, c)] else m.send,
       accepted := if QueuesSend(m, c, s) then m.accepted + [NewReq(m, c)] else m.accepted,
       api := if QueuesMsg(m, c, s) then m.api + [NewMsg(m, c)] else m.api,
       items := if Queues(m, c, s) then m.items[m.nextHandle := NewItem(m, c)] else m.items,
       nextHandle := if s == Acquire(true) || Queues(m, c, s) then m.nextHandle + 1 else m.nextHandle,
       wake := m.wake || s.WakeLoop?,
       given := if s.Take? then m.given - {m.callers[c].sem} else m.given)
  }

  // All steps, and runs.

  /** The step's program counters and guards allow it. */
  predicate Enabled(m: M, step: Step) {
    match step
    case OfLoop(l) => CanLoop(m, l)
    case OfIsr(i) => CanIsr(m, i)
    case OfCaller(c, s) => CanCall(m, c, s)
    case Elapse(_) => true
  }

  function Do(m: M, step: Step): M
    requires Sane(m) && Enabled(m, step)
  {
    match step
    case OfLoop(l) => DoLoop(m, l)
    case OfIsr(i) => DoIsr(m, i)
    case OfCaller(c, s) => DoCall(m, c, s)
    case Elapse(ms) => m.(now := m.now + ms)
  }

  ghost predicate Can(m: M, step: Step) {
    Enabled(m, step) && (step.OfLoop? ==> Honest(m, step.l))
  }

  ghost predicate Follows(m: M, step: Step, m': M) {
    Sane(m) && Can(m, step) && m' == Do(m, step)
  }

  /** State i is a start, or follows from the state before by step i - 1. */
  ghost predicate Link(states: seq<M>, steps: seq<Step>, i: nat)
    requires i < |states| == |steps| + 1
  {
    if i == 0 then Start(states[0]) else Follows(states[i - 1], steps[i - 1], states[i])
  }

  ghost predicate Run(states: seq<M>, steps: seq<Step>) {
    |states| == |steps| + 1 && forall i: nat | i < |states| :: Link(states, steps, i)
  }

  lemma RunStart(states: seq<M>, steps: seq<Step>)
    requires Run(states, steps)
    ensures Start(states[0])
  {
    assert Link(states, steps, 0);
  }

  /** The i-th step of a run. */
  lemma RunStep(states: seq<M>, steps: seq<Step>, i: nat)
    requires Run(states, steps) && i < |steps|
    ensures Follows(states[i], steps[i], states[i + 1])
  {
    assert Link(states, steps, i + 1);
  }
}
