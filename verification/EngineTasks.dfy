/** What every reachable state keeps about its requests and its receive state, and that runs are never cut short. */
module EngineTasks {
  import opened Bytes
  import opened AtcTypes
  import opened UrcSpec
  import opened ReceiveSpec
  import opened LineTheory
  import opened Ticks
  import opened Engine

  // The receive side.

  /** The task's end has begun: its handler is about to be, or has been, called. */
  predicate Ending(loop: Loop) {
    loop.EndReply? || loop.EndCopy? || loop.EndGive? || loop.EndFree?
  }

  /** What a command's last byte leaves until the task is released. */
  ghost predicate EndInv(s: RxState) {
    Shape(s) && LF !in s.line && s.task.Some? && (NUL !in BytesOf(s.routed) ==> NUL !in s.line)
  }

  /** The receive side fits the loop's position. */
  predicate Phases(loop: Loop, task: Option<Flight>) {
    && (loop.SendAlloc? ==> task.None?)
    && (loop.SendData? || Ending(loop) ==> task.Some?)
    && (loop.EndCopy? || loop.EndGive? ==> task.Some? && task.value.req.sem.Some?)
  }

  /** The receive state and the registry keep their own invariants. */
  ghost predicate Parts(ending: bool, rx: RxState, reg: Registry) {
    (if ending then EndInv(rx) else RxInv(rx)) && Assembled(rx) && UrcSpec.Reachable(reg)
  }

  ghost predicate RxKept(m: M) {
    Phases(m.loop, m.rx.task) && Parts(Ending(m.loop), m.rx, m.reg)
  }

  /** A byte changes at most the status of the task. */
  predicate SameTask(a: Option<Flight>, b: Option<Flight>) {
    a.Some? == b.Some? && (a.Some? ==> b.value == a.value.(status := b.value.status))
  }

  /** Only URC calls were added. */
  predicate OnlyCalls(a: seq<Event>, b: seq<Event>) {
    a <= b && forall i | |a| <= i < |b| :: b[i].UrcCall?
  }

  /** What the label of a drained byte can do to the rest of the machine. */
  predicate LabelFits(m: M, s: LoopStep) {
    s.DrainByte? ==> SameTask(m.rx.task, s.rx.task) && OnlyCalls(m.rx.trace, s.rx.trace)
  }

  lemma ByteEffectKeeps(s: RxState, urcs: seq<Urc>, b: byte)
    requires RxInv(s) && Assembled(s)
    ensures var (t, end) := ByteEffect(s, urcs, b);
            Assembled(t) && (end.None? ==> RxInv(t)) && t.task.Some? == s.task.Some? &&
            (end.Some? && s.task.Some? ==> EndInv(t)) && (end.Some? && s.task.None? ==> RxInv(Release(t)))
  {
    if s.task.None? || s.task.value.status == LineRecv {
      LineByteKeepsInv(s, urcs, b);
      LineByteKeepsAssembled(s, urcs, b);
      ReleaseKeepsInv(LineByte(s, urcs, b).0);
    } else if s.task.value.status == Prompt {
      PromptByteKeepsInv(s, b);
    } else {
      BinaryByteKeepsInv(s, b);
    }
  }

  lemma {:induction false} CallsAreCalls(urcs: seq<Urc>, line: seq<byte>)
    ensures OnlyCalls([], Calls(urcs, line))
  {
    if urcs != [] {
      CallsAreCalls(urcs[..|urcs| - 1], line);
    }
  }

  lemma ByteEffectAddsCalls(s: RxState, urcs: seq<Urc>, b: byte)
    requires Shape(s)
    ensures var t := ByteEffect(s, urcs, b).0; SameTask(s.task, t.task) && OnlyCalls(s.trace, t.trace)
  {
    CallsAreCalls(urcs, s.line + [b]);
  }

  lemma DrainKeepsParts(rx: RxState, reg: Registry, b: byte, rx': RxState, end: Option<AtcResult>)
    requires Parts(false, rx, reg) && Received(rx, reg.urcs, b, rx', end)
    ensures SameTask(rx.task, rx'.task) && OnlyCalls(rx.trace, rx'.trace)
    ensures end.None? ==> Parts(false, rx', reg)
    ensures end.Some? && rx.task.Some? ==> Parts(true, rx', reg)
    ensures end.Some? && rx.task.None? ==> Parts(false, Release(rx'), reg)
  {
    ByteEffectKeeps(rx, reg.urcs, b);
    ByteEffectAddsCalls(rx, reg.urcs, b);
  }

  /** Adding to the history changes nothing else. */
  lemma TraceIsFree(ending: bool, rx: RxState, reg: Registry, trace: seq<Event>)
    requires Parts(ending, rx, reg)
    ensures Parts(ending, rx.(trace := trace), reg)
  {
  }

  lemma ReleaseKeepsParts(rx: RxState, reg: Registry)
    requires Parts(true, rx, reg)
    ensures Parts(false, Release(rx), reg)
  {
    ReleaseKeepsInv(rx);
  }

  lemma BeginKeepsParts(rx: RxState, reg: Registry, req: SendReq, block: nat, timestamp: nat)
    requires Parts(false, rx, reg) && rx.task.None?
    ensures Parts(false, Begin(rx, req, block, timestamp), reg)
  {
    BeginKeepsInv(rx, req, block, timestamp);
  }

  lemma RunningMayEnd(rx: RxState, reg: Registry)
    requires Parts(false, rx, reg) && rx.task.Some?
    ensures Parts(true, rx, reg)
  {
  }

  lemma ServeKeepsParts(rx: RxState, reg: Registry, req: Request, reg': Registry, value: int)
    requires Parts(false, rx, reg) && Served(reg, req, reg', value)
    ensures Parts(false, rx, reg')
  {
    ServeKeepsReachable(reg, req);
  }

  lemma DrainKeeps(m: M, s: LoopStep)
    requires RxKept(m) && Sane(m) && CanLoop(m, s) && Honest(m, s) && s.DrainByte?
    ensures Parts(Ending(NextLoop(m, s)), NextRx(m, s), m.reg) && LabelFits(m, s)
  {
    DrainKeepsParts(m.rx, m.reg, m.ring[0], s.rx, s.end);
  }

  lemma HonestFits(m: M, s: LoopStep)
    requires RxKept(m) && Sane(m) && CanLoop(m, s) && Honest(m, s)
    ensures LabelFits(m, s)
  {
    if s.DrainByte? {
      DrainKeeps(m, s);
    }
  }

  lemma LoopKeepsPhases(m: M, s: LoopStep)
    requires Phases(m.loop, m.rx.task) && Sane(m) && CanLoop(m, s) && LabelFits(m, s)
    ensures Phases(NextLoop(m, s), NextRx(m, s).task)
  {
  }

  lemma AllocKeepsParts(m: M, s: LoopStep)
    requires RxKept(m) && Sane(m) && CanLoop(m, s) && s.AllocTask?
    ensures Parts(Ending(NextLoop(m, s)), NextRx(m, s), m.reg)
  {
    if s.hasMemory {
      BeginKeepsParts(m.rx, m.reg, m.loop.req, m.nextHandle, Tick(m.now));
    } else {
      TraceIsFree(false, m.rx, m.reg, m.rx.trace + [TaskLost(m.loop.req)]);
    }
  }

  lemma MsgKeepsParts(m: M, s: LoopStep)
    requires RxKept(m) && Sane(m) && CanLoop(m, s) && Honest(m, s) && s.ServeMsg?
    ensures Parts(Ending(NextLoop(m, s)), NextRx(m, s), s.reg)
  {
    ServeKeepsParts(m.rx, m.reg, RequestOf(m.loop.msg, s.hasMemory), s.reg, s.value);
    TraceIsFree(false, m.rx, s.reg, NextRx(m, s).trace);
  }

  /** The other steps leave the receive state alone, and at most begin to end the task in flight. */
  lemma OtherStepKeepsParts(m: M, s: LoopStep)
    requires RxKept(m) && Sane(m) && CanLoop(m, s)
    requires !s.DrainByte? && !s.Finish? && !s.Reply? && !s.AllocTask? && !s.ServeMsg?
    ensures Parts(Ending(NextLoop(m, s)), NextRx(m, s), m.reg)
  {
    if s.CheckTask? || s.Transmit? {
      if m.rx.task.Some? {
        RunningMayEnd(m.rx, m.reg);
      }
    }
  }

  lemma RxStepKeepsParts(m: M, s: LoopStep)
    requires RxKept(m) && Sane(m) && CanLoop(m, s) && Honest(m, s) && (s.DrainByte? || s.Finish? || s.Reply?)
    ensures Parts(Ending(NextLoop(m, s)), NextRx(m, s), m.reg)
  {
    if s.DrainByte? {
      DrainKeeps(m, s);
    } else if s.Finish? {
      ReleaseKeepsParts(m.rx, m.reg);
    } else {
      TraceIsFree(true, m.rx, m.reg, Notify(m.rx, m.loop.result).trace);
    }
  }

  lemma LoopKeepsParts(m: M, s: LoopStep)
    requires RxKept(m) && Sane(m) && CanLoop(m, s) && Honest(m, s)
    ensures Parts(Ending(NextLoop(m, s)), NextRx(m, s), if s.ServeMsg? then s.reg else m.reg)
  {
    if s.DrainByte? || s.Finish? || s.Reply? {
      RxStepKeepsParts(m, s);
    } else if s.AllocTask? {
      AllocKeepsParts(m, s);
    } else if s.ServeMsg? {
      MsgKeepsParts(m, s);
    } else {
      OtherStepKeepsParts(m, s);
    }
  }

  lemma StepKeepsRx(m: M, step: Step)
    requires RxKept(m) && Sane(m) && Can(m, step)
    ensures RxKept(Do(m, step))
  {
    if step.OfLoop? {
      HonestFits(m, step.l);
      LoopKeepsPhases(m, step.l);
      LoopKeepsParts(m, step.l);
    }
  }

  // Requests: the ones in execution and the queues, against the book of accepted requests.

  /** The request taken from the queue and not yet released. */
  function Current(loop: Loop, task: Option<Flight>): seq<SendReq> {
    if loop.SendAlloc? then [loop.req] else if task.Some? then [task.value.req] else []
  }

  /** The API message taken from the queue and not yet released. */
  function CurrentMsg(loop: Loop): seq<ApiMsg> {
    if loop.ExternWork? || loop.ExternGive? || loop.ExternFree? then [loop.msg] else []
  }

  /** All send requests the engine holds, oldest first. */
  function Sends(m: M): seq<SendReq> {
    Current(m.loop, m.rx.task) + m.send
  }

  function Msgs(m: M): seq<ApiMsg> {
    CurrentMsg(m.loop) + m.api
  }

  /** The request is what its caller asked for; a timeout of 0 asks for none, which is stored as 2^32 - 1. */
  predicate ReqMatches(req: SendReq, op: Op) {
    op.Send? && req.sem.Some? == op.sync && req.wantsResult == op.wantsResult && req.capacity == op.capacity &&
    req.promptBlock.Some? == op.prompt.Some? && (op.prompt.Some? ==> req.prompt == op.prompt.value) &&
    req.need == op.need && req.timeout == (if op.timeout > 0 then op.timeout else 0xFFFF_FFFF)
  }

  predicate ReqLinked(items: map<nat, Item>, bound: nat, req: SendReq, block: set<nat>, answered: bool) {
    req.ticket in items && req.ticket < bound &&
    var item := items[req.ticket];
    ReqMatches(req, item.op) && item == Item(req.who, item.op, req.sem, ReqHandles(req) + block, answered)
  }

  predicate MsgLinked(items: map<nat, Item>, bound: nat, msg: ApiMsg, answered: bool) {
    msg.ticket in items && msg.ticket < bound && !msg.op.Send? &&
    items[msg.ticket] == MsgItem(msg).(answered := answered)
  }

  /**
   * Every request is booked as it was made. The oldest may be in execution: then it owns its block too,
   * and is answered once its caller was woken.
   */
  predicate SendsLinked(items: map<nat, Item>, bound: nat, sends: seq<SendReq>, block: set<nat>, answered: bool) {
    && (forall i, j | 0 <= i < j < |sends| :: sends[i].ticket < sends[j].ticket)
    && forall i | 0 <= i < |sends| ::
         ReqLinked(items, bound, sends[i], if i == 0 then block else {}, i == 0 && answered)
  }

  predicate MsgsLinked(items: map<nat, Item>, bound: nat, msgs: seq<ApiMsg>, answered: bool) {
    && (forall i, j | 0 <= i < j < |msgs| :: msgs[i].ticket < msgs[j].ticket)
    && forall i | 0 <= i < |msgs| :: MsgLinked(items, bound, msgs[i], i == 0 && answered)
  }

  /** The block of the task in flight. */
  function TaskBlock(task: Option<Flight>): set<nat> {
    if task.Some? then {task.value.block} else {}
  }

  /** The request in execution has given its caller's semaphore. */
  predicate TaskAnswered(loop: Loop, task: Option<Flight>) {
    loop.EndFree? && task.Some? && task.value.req.sem.Some?
  }

  predicate SendsBooked(m: M) {
    SendsLinked(m.items, m.nextHandle, Sends(m), TaskBlock(m.rx.task), TaskAnswered(m.loop, m.rx.task))
  }

  predicate MsgsBooked(m: M) {
    MsgsLinked(m.items, m.nextHandle, Msgs(m), m.loop.ExternFree?)
  }

  predicate Booked(m: M) {
    SendsBooked(m) && MsgsBooked(m) && forall t | t in m.items :: t < m.nextHandle
  }

  ghost predicate Inv(m: M) {
    RxKept(m) && Booked(m)
  }

  lemma CurrentReqIsBooked(m: M)
    requires SendsBooked(m) && m.rx.task.Some? && !m.loop.SendAlloc?
    ensures var (req, items) := (Task(m).req, m.items);
            req.ticket in items && ReqMatches(req, items[req.ticket].op) &&
            items[req.ticket].who == req.who && items[req.ticket].sem == req.sem &&
            items[req.ticket].answered == TaskAnswered(m.loop, m.rx.task)
  {
    assert Sends(m)[0] == Task(m).req;
  }

  // What the steps do to the two lines of requests.

  /** The bookings of send requests stay. */
  predicate KeepsSends(a: map<nat, Item>, b: map<nat, Item>) {
    forall t | t in a && a[t].op.Send? :: t in b && b[t] == a[t]
  }

  predicate KeepsMsgs(a: map<nat, Item>, b: map<nat, Item>) {
    forall t | t in a && !a[t].op.Send? :: t in b && b[t] == a[t]
  }

  lemma SendsStay(a: map<nat, Item>, b: map<nat, Item>, n: nat, n': nat, sends: seq<SendReq>, block: set<nat>,
                  answered: bool)
    requires SendsLinked(a, n, sends, block, answered) && n <= n' && KeepsSends(a, b)
    ensures SendsLinked(b, n', sends, block, answered)
  {
  }

  lemma MsgsStay(a: map<nat, Item>, b: map<nat, Item>, n: nat, n': nat, msgs: seq<ApiMsg>, answered: bool)
    requires MsgsLinked(a, n, msgs, answered) && n <= n' && KeepsMsgs(a, b)
    ensures MsgsLinked(b, n', msgs, answered)
  {
  }

  lemma SendJoins(items: map<nat, Item>, n: nat, sends: seq<SendReq>, block: set<nat>, answered: bool,
                  req: SendReq, op: Op)
    requires SendsLinked(items, n, sends, block, answered) && (sends == [] ==> block == {} && !answered)
    requires req.ticket == n && ReqMatches(req, op)
    ensures SendsLinked(items[n := ReqItem(req, op)], n + 1, sends + [req], block, answered)
  {
  }

  lemma MsgJoins(items: map<nat, Item>, n: nat, msgs: seq<ApiMsg>, answered: bool, msg: ApiMsg)
    requires MsgsLinked(items, n, msgs, answered) && (msgs == [] ==> !answered)
    requires msg.ticket == n && !msg.op.Send?
    ensures MsgsLinked(items[n := MsgItem(msg)], n + 1, msgs + [msg], answered)
  {
  }

  lemma SendLeaves(items: map<nat, Item>, n: nat, sends: seq<SendReq>, block: set<nat>, answered: bool)
    requires SendsLinked(items, n, sends, block, answered) && sends != []
    ensures SendsLinked(items - {sends[0].ticket}, n, sends[1..], {}, false)
  {
  }

  lemma MsgLeaves(items: map<nat, Item>, n: nat, msgs: seq<ApiMsg>, answered: bool)
    requires MsgsLinked(items, n, msgs, answered) && msgs != []
    ensures MsgsLinked(items - {msgs[0].ticket}, n, msgs[1..], false)
  {
  }

  /** The booking of the oldest request changes with it. */
  lemma SendAdvances(items: map<nat, Item>, n: nat, n': nat, sends: seq<SendReq>, block: set<nat>, answered: bool,
                     item: Item, block': set<nat>, answered': bool)
    requires SendsLinked(items, n, sends, block, answered) && sends != [] && n <= n'
    requires item == items[sends[0].ticket].(handles := ReqHandles(sends[0]) + block', answered := answered')
    ensures SendsLinked(items[sends[0].ticket := item], n', sends, block', answered')
  {
  }

  lemma MsgAdvances(items: map<nat, Item>, n: nat, msgs: seq<ApiMsg>, answered: bool, answered': bool)
    requires MsgsLinked(items, n, msgs, answered) && msgs != []
    ensures var t := msgs[0].ticket;
            MsgsLinked(items[t := items[t].(answered := answered')], n, msgs, answered')
  {
  }

  // The steps.

  /** The steps that change the booking of the request in execution. */
  predicate ForTask(s: LoopStep) {
    s.AllocTask? || s.Give? || s.Finish?
  }

  lemma AllocKeepsSends(m: M, s: LoopStep)
    requires Phases(m.loop, m.rx.task) && SendsBooked(m) && Sane(m) && CanLoop(m, s) && s.AllocTask?
    ensures SendsBooked(DoLoop(m, s))
  {
    var m' := DoLoop(m, s);
    var (items, n, req) := (m.items, m.nextHandle, m.loop.req);
    assert Sends(m)[0] == req;
    if s.hasMemory {
      assert Sends(m') == Sends(m);
      SendAdvances(items, n, n + 1, Sends(m), {}, false, m'.items[req.ticket], {n}, false);
    } else {
      assert Sends(m') == Sends(m)[1..];
      SendLeaves(items, n, Sends(m), {}, false);
    }
  }

  lemma EndKeepsSends(m: M, s: LoopStep)
    requires Phases(m.loop, m.rx.task) && SendsBooked(m) && Sane(m) && CanLoop(m, s) && (s.Give? || s.Finish?)
    ensures SendsBooked(DoLoop(m, s))
  {
    var m' := DoLoop(m, s);
    var (items, n, req, block) := (m.items, m.nextHandle, Task(m).req, TaskBlock(m.rx.task));
    assert Sends(m)[0] == req;
    if s.Give? {
      assert Sends(m') == Sends(m);
      SendAdvances(items, n, n, Sends(m), block, false, m'.items[req.ticket], block, true);
    } else {
      assert Sends(m') == Sends(m)[1..];
      SendLeaves(items, n, Sends(m), block, TaskAnswered(m.loop, m.rx.task));
    }
  }

  lemma MsgStepKeepsSends(m: M, s: LoopStep)
    requires Phases(m.loop, m.rx.task) && SendsBooked(m) && MsgsBooked(m) && Sane(m) && CanLoop(m, s)
    requires s.GiveMsg? || s.FreeMsg?
    ensures SendsBooked(DoLoop(m, s))
  {
    assert m.loop.msg == Msgs(m)[0];
    SendsStay(m.items, NextItems(m, s), m.nextHandle, m.nextHandle, Sends(m), TaskBlock(m.rx.task), false);
  }

  /** The other steps leave the requests and their bookings alone. */
  lemma OtherStepKeepsSends(m: M, s: LoopStep)
    requires Phases(m.loop, m.rx.task) && Sane(m) && CanLoop(m, s) && LabelFits(m, s)
    requires !ForTask(s) && !s.GiveMsg? && !s.FreeMsg?
    ensures var m' := DoLoop(m, s);
            Sends(m') == Sends(m) && m'.items == m.items && m'.nextHandle == m.nextHandle &&
            TaskBlock(m'.rx.task) == TaskBlock(m.rx.task) &&
            TaskAnswered(m'.loop, m'.rx.task) == TaskAnswered(m.loop, m.rx.task)
  {
  }

  lemma LoopKeepsSends(m: M, s: LoopStep)
    requires Phases(m.loop, m.rx.task) && SendsBooked(m) && MsgsBooked(m)
    requires Sane(m) && CanLoop(m, s) && LabelFits(m, s)
    ensures SendsBooked(DoLoop(m, s))
  {
    if s.AllocTask? {
      AllocKeepsSends(m, s);
    } else if s.Give? || s.Finish? {
      EndKeepsSends(m, s);
    } else if s.GiveMsg? || s.FreeMsg? {
      MsgStepKeepsSends(m, s);
    } else {
      OtherStepKeepsSends(m, s);
    }
  }

  lemma MsgStepKeepsMsgs(m: M, s: LoopStep)
    requires MsgsBooked(m) && Sane(m) && CanLoop(m, s) && (s.GiveMsg? || s.FreeMsg?)
    ensures MsgsBooked(DoLoop(m, s))
  {
    var m' := DoLoop(m, s);
    if s.GiveMsg? {
      assert Msgs(m') == Msgs(m);
      MsgAdvances(m.items, m.nextHandle, Msgs(m), false, true);
    } else {
      assert Msgs(m') == Msgs(m)[1..];
      MsgLeaves(m.items, m.nextHandle, Msgs(m), true);
    }
  }

  lemma TaskStepKeepsMsgs(m: M, s: LoopStep)
    requires Phases(m.loop, m.rx.task) && Booked(m) && Sane(m) && CanLoop(m, s) && ForTask(s)
    ensures MsgsBooked(DoLoop(m, s))
  {
    var m' := DoLoop(m, s);
    assert Sends(m)[0] == if s.AllocTask? then m.loop.req else Task(m).req;
    assert Msgs(m') == Msgs(m);
    MsgsStay(m.items, m'.items, m.nextHandle, m'.nextHandle, Msgs(m), false);
  }

  lemma OtherStepKeepsMsgs(m: M, s: LoopStep)
    requires Sane(m) && CanLoop(m, s) && !ForTask(s) && !s.GiveMsg? && !s.FreeMsg?
    ensures var m' := DoLoop(m, s);
            Msgs(m') == Msgs(m) && m'.items == m.items && m'.nextHandle == m.nextHandle &&
            m'.loop.ExternFree? == m.loop.ExternFree?
  {
  }

  lemma LoopKeepsMsgs(m: M, s: LoopStep)
    requires Phases(m.loop, m.rx.task) && Booked(m) && Sane(m) && CanLoop(m, s)
    ensures MsgsBooked(DoLoop(m, s))
  {
    if s.GiveMsg? || s.FreeMsg? {
      MsgStepKeepsMsgs(m, s);
    } else if ForTask(s) {
      TaskStepKeepsMsgs(m, s);
    } else {
      OtherStepKeepsMsgs(m, s);
    }
  }

  lemma SendCallKeepsBooked(m: M, c: nat)
    requires Phases(m.loop, m.rx.task) && Booked(m) && QueuesSend(m, c, Enqueue(true))
    ensures Booked(DoCall(m, c, Enqueue(true)))
  {
    var m' := DoCall(m, c, Enqueue(true));
    var (n, req) := (m.nextHandle, NewReq(m, c));
    assert Sends(m') == Sends(m) + [req];
    SendJoins(m.items, n, Sends(m), TaskBlock(m.rx.task), TaskAnswered(m.loop, m.rx.task), req, m.callers[c].op);
    MsgsStay(m.items, m'.items, n, n + 1, Msgs(m), m.loop.ExternFree?);
  }

  lemma MsgCallKeepsBooked(m: M, c: nat)
    requires Phases(m.loop, m.rx.task) && Booked(m) && QueuesMsg(m, c, Enqueue(true))
    ensures Booked(DoCall(m, c, Enqueue(true)))
  {
    var m' := DoCall(m, c, Enqueue(true));
    var (n, msg) := (m.nextHandle, NewMsg(m, c));
    assert Msgs(m') == Msgs(m) + [msg];
    MsgJoins(m.items, n, Msgs(m), m.loop.ExternFree?, msg);
    SendsStay(m.items, m'.items, n, n + 1, Sends(m), TaskBlock(m.rx.task), TaskAnswered(m.loop, m.rx.task));
  }

  lemma CallKeepsBooked(m: M, c: nat, s: CallStep)
    requires Phases(m.loop, m.rx.task) && Booked(m) && CanCall(m, c, s)
    ensures Booked(DoCall(m, c, s))
  {
    if QueuesSend(m, c, s) {
      SendCallKeepsBooked(m, c);
    } else if QueuesMsg(m, c, s) {
      MsgCallKeepsBooked(m, c);
    } else {
      var n' := DoCall(m, c, s).nextHandle;
      SendsStay(m.items, m.items, m.nextHandle, n', Sends(m), TaskBlock(m.rx.task), TaskAnswered(m.loop, m.rx.task));
      MsgsStay(m.items, m.items, m.nextHandle, n', Msgs(m), m.loop.ExternFree?);
    }
  }

  lemma StepKeepsInv(m: M, step: Step, m': M)
    requires Inv(m) && Follows(m, step, m')
    ensures Inv(m')
  {
    StepKeepsRx(m, step);
    match step {
      case OfLoop(l) =>
        HonestFits(m, l);
        LoopKeepsSends(m, l);
        LoopKeepsMsgs(m, l);
      case OfCaller(c, s) => CallKeepsBooked(m, c, s);
      case _ =>
    }
  }

  // Runs.

  lemma InvImpliesSane(m: M)
    requires Inv(m)
    ensures Sane(m)
  {
    assert m.loop.SendAlloc? ==> Sends(m)[0] == m.loop.req;
    assert Ending(m.loop) ==> Sends(m)[0] == Task(m).req;
    assert m.loop.ExternGive? || m.loop.ExternFree? ==> Msgs(m) != [] && Msgs(m)[0] == m.loop.msg;
  }

  lemma StartInv(m: M)
    requires Start(m)
    ensures Inv(m)
  {
    EmptyIsReachable();
    assert Zeros(RESPONSE_MAX)[..0] == [];
  }

  lemma {:induction false} RunKeepsInv(states: seq<M>, steps: seq<Step>, n: nat)
    requires Engine.Run(states, steps) && n < |states|
    ensures Inv(states[n])
  {
    if n == 0 {
      RunStart(states, steps);
      StartInv(states[0]);
    } else {
      RunKeepsInv(states, steps, n - 1);
      RunStep(states, steps, n - 1);
      StepKeepsInv(states[n - 1], steps[n - 1], states[n]);
    }
  }

  /**
   * In every reachable state, while no command is being ended: the byte stack is in use only in prompt
   * matching, where nothing is collected; binary reception has collected less than it needs, in bounds;
   * otherwise there is room for a terminator, and without NULs received it sits exactly at the recorded
   * length; and the lines handed on are those of the bytes given to the assembler. URC IDs are distinct.
   */
  lemma ReceiveInvariant(states: seq<M>, steps: seq<Step>, n: nat)
    requires Engine.Run(states, steps) && n < |states|
    ensures var m := states[n];
            !Ending(m.loop) ==>
              && (m.rx.window != [] ==> m.rx.task.Some? && m.rx.task.value.status == Prompt)
              && (m.rx.task.Some? && m.rx.task.value.status == Prompt ==> m.rx.length == 0)
              && (InBinary(m.rx) ==> m.rx.length < m.rx.task.value.req.need && m.rx.length <= RESPONSE_MAX)
              && (!InBinary(m.rx) ==> m.rx.length < RESPONSE_MAX)
              && (!InBinary(m.rx) && NUL !in BytesOf(m.rx.routed) ==> CLen(m.rx.response) == m.rx.length)
    ensures states[n].rx.handled == Texts(Handed([], states[n].rx.routed)) && DistinctIds(states[n].reg.urcs)
  {
    var m := states[n];
    RunKeepsInv(states, steps, n);
    ReachableInv(m.reg);
    if !Ending(m.loop) && !InBinary(m.rx) && NUL !in BytesOf(m.rx.routed) {
      TerminatedAtLength(m.rx);
    }
  }

  lemma RunAppend(states: seq<M>, steps: seq<Step>, step: Step, m': M)
    requires Engine.Run(states, steps) && Follows(states[|steps|], step, m')
    ensures Engine.Run(states + [m'], steps + [step])
  {
    var (states', steps') := (states + [m'], steps + [step]);
    forall i: nat | i < |states'| ensures Link(states', steps', i) {
      if i < |states| {
        assert Link(states, steps, i);
        assert i > 0 ==> steps'[i - 1] == steps[i - 1] && states'[i - 1] == states[i - 1];
      }
    }
  }

  /** Any step the program counters allow can be taken: the side condition of runs excludes nothing. */
  lemma RunExtends(states: seq<M>, steps: seq<Step>, step: Step)
    requires Engine.Run(states, steps) && Can(states[|steps|], step)
    ensures Sane(states[|steps|])
    ensures Engine.Run(states + [Do(states[|steps|], step)], steps + [step])
  {
    RunKeepsInv(states, steps, |steps|);
    InvImpliesSane(states[|steps|]);
    RunAppend(states, steps, step, Do(states[|steps|], step));
  }

  // The loop can always move on.

  /** It waits, and neither the semaphore nor the clock ends the wait. */
  predicate SleepsOn(m: M) {
    m.loop.Blocked? && !m.wake && (m.loop.wait == FOREVER || m.now < m.loop.since + m.loop.wait)
  }

  /** It searches for a free ID where there is none. */
  ghost predicate SearchesInVain(m: M) {
    m.loop.ExternWork? && m.loop.msg.op.Register? && |Ids(m.reg.urcs)| >= INT_MAX
  }

  /** The step the loop takes if memory is found and the hardware accepts. */
  ghost function UsualStep(m: M): LoopStep
    requires Shape(m.rx)
    requires m.loop.ExternWork? ==> !m.loop.msg.op.Send? && CanServe(m.reg, RequestOf(m.loop.msg, true))
  {
    match m.loop
    case ExternPoll => if m.api == [] then NoMsg else TakeMsg
    case ExternWork(msg) =>
      var req := RequestOf(msg, true);
      ServeMsg(true, Serve(m.reg, req), Answer(m.reg, req))
    case ExternGive(_) => GiveMsg
    case ExternFree(_) => FreeMsg
    case SendPoll => if m.rx.task.Some? then SkipSend else if m.send == [] then NoSend else TakeSend
    case SendAlloc(_) => AllocTask(true)
    case SendData => Transmit(true)
    case Drain =>
      if m.ring == [] then DrainDone
      else
        var (rx, end) := ByteEffect(m.rx, m.reg.urcs, m.ring[0]);
        DrainByte(rx, end)
    case Check => CheckTask
    case ComputeWait => StartWait
    case Blocked(_, _) => if m.wake then Wake else TimeUp
    case EndReply(_, _) => Reply
    case EndCopy(_) => Copy
    case EndGive(_) => Give
    case EndFree(_) => Finish
  }

  lemma UsualStepCan(m: M)
    requires Shape(m.rx) && !SleepsOn(m)
    requires m.loop.ExternWork? ==> !m.loop.msg.op.Send? && CanServe(m.reg, RequestOf(m.loop.msg, true))
    ensures Can(m, OfLoop(UsualStep(m)))
  {
  }

  lemma ServesUnlessInVain(m: M)
    requires Inv(m) && m.loop.ExternWork?
    ensures !m.loop.msg.op.Send?
    ensures !SearchesInVain(m) ==> CanServe(m.reg, RequestOf(m.loop.msg, true))
  {
    assert Msgs(m)[0] == m.loop.msg;
    ReachableInv(m.reg);
  }

  /**
   * In every reachable state the loop has a step to take, unless it waits and neither a wake-up nor its
   * deadline is there yet, or it is asked for an ID when none is free.
   */
  lemma LoopMovesIff(states: seq<M>, steps: seq<Step>, n: nat)
    requires Engine.Run(states, steps) && n < |states|
    ensures (exists s :: Can(states[n], OfLoop(s))) <==> !SleepsOn(states[n]) && !SearchesInVain(states[n])
  {
    var m := states[n];
    RunKeepsInv(states, steps, n);
    if m.loop.ExternWork? {
      ServesUnlessInVain(m);
    }
    if !SleepsOn(m) && !SearchesInVain(m) {
      UsualStepCan(m);
    }
  }
}
