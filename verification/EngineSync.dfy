/**
 * The synchronous handshake: a caller that gets past its semaphore sees the outcome of its own request,
 * and the event loop writes a caller's variables only while that caller waits.
 */
module EngineSync {
  import opened Bytes
  import opened AtcTypes
  import opened ReceiveSpec
  import opened Engine
  import opened EngineTasks
  import opened EngineOwnership

  /** The semaphore a caller waits on, or is about to. */
  function SemOf(k: Caller): Option<nat> {
    match k
    case Enqueued(_, _, waitOn) => waitOn
    case Awaiting(_, _, sem) => Some(sem)
    case _ => None
  }

  /** The caller has queued request t and has not been let past its take. */
  predicate WaitsFor(k: Caller, op: Op, t: nat, sem: nat) {
    k == Enqueued(op, t, Some(sem)) || k == Awaiting(op, t, sem)
  }

  predicate Waiting(item: Item) {
    item.sem.Some? && !item.answered
  }

  /**
   * A sender's variables after its command ended: the result if it wants it, and as much of the response as
   * fits its buffer, with that length; an empty response leaves the length as it was.
   */
  predicate Shows(cells: Cells, op: Op, result: AtcResult, response: seq<byte>)
    requires op.Send?
  {
    && cells.result == (if op.wantsResult then Some(result) else None)
    && (op.capacity.None? ==> cells.copied == [] && cells.length == 0)
    && (op.capacity.Some? ==>
          CopiedFrom(cells, response, op.capacity.value) &&
          cells.length == if response == [] then op.capacity.value else |cells.copied|)
    && cells.number == -1
  }

  /** The copied response is the longest part that fits. */
  predicate CopiedFrom(cells: Cells, response: seq<byte>, room: nat) {
    cells.copied == response[..if |response| < room then |response| else room]
  }

  /** Result first, then response, into fresh variables: that is what the sender is shown. */
  lemma WrittenIsShown(op: Op, req: SendReq, result: AtcResult, response: seq<byte>)
    requires ReqMatches(req, op)
    ensures Shows(WithResponse(WithResult(FreshCells(op), req, result), req, response), op, result, response)
  {
  }

  /** The event is the end of request t, and the caller's variables say so. */
  predicate Reports(e: Event, cells: Cells, op: Op, t: nat) {
    match e
    case Completed(req, result, response) =>
      op.Send? && req.ticket == t && ReqMatches(req, op) && Shows(cells, op, result, response)
    case Registered(ticket, prefix, handler, id) =>
      op == Register(prefix, handler) && ticket == t && cells == Cells(None, [], 0, id)
    case Unregistered(ticket, id, status) =>
      op == Unregister(id) && ticket == t && cells == Cells(None, [], 0, status)
    case _ => false
  }

  ghost predicate Outcome(trace: seq<Event>, cells: Cells, op: Op, t: nat) {
    exists i :: 0 <= i < |trace| && Reports(trace[i], cells, op, t)
  }

  ghost predicate Lost(trace: seq<Event>, t: nat) {
    exists i :: 0 <= i < |trace| && trace[i].TaskLost? && trace[i].req.ticket == t
  }

  /** Of the request that is being answered, only the result has been written. */
  ghost predicate HalfReported(rx: RxState, cells: Cells, op: Op, req: SendReq)
    requires rx.length <= |rx.response|
  {
    exists i :: 0 <= i < |rx.trace| && rx.trace[i].Completed? && rx.trace[i].req == req &&
      rx.trace[i].response == rx.response[..rx.length] && cells == WithResult(FreshCells(op), req, rx.trace[i].result)
  }

  /** The request whose caller's variables are being written. */
  function InHand(loop: Loop, task: Option<Flight>): Option<nat> {
    if loop.ExternGive? then Some(loop.msg.ticket)
    else if (loop.EndCopy? || loop.EndGive?) && task.Some? then Some(task.value.req.ticket)
    else None
  }

  /** A request to be answered has its caller waiting, with untouched variables unless it is in hand. */
  predicate ItemAwaited(callers: map<nat, Caller>, cells: map<nat, Cells>, given: set<nat>, hand: Option<nat>,
                        t: nat, item: Item) {
    Waiting(item) ==>
      item.who in callers && WaitsFor(callers[item.who], item.op, t, item.sem.value) &&
      item.sem.value !in given && item.who in cells &&
      (hand != Some(t) ==> cells[item.who] == FreshCells(item.op))
  }

  predicate ItemsAwaited(callers: map<nat, Caller>, cells: map<nat, Cells>, given: set<nat>, items: map<nat, Item>,
                         hand: Option<nat>) {
    forall t | t in items :: ItemAwaited(callers, cells, given, hand, t, items[t])
  }

  /** What a waiting caller waits for: an answer to come, one already given, or none ever. */
  ghost predicate Awaited(c: nat, op: Op, t: nat, sem: nat, cells: Cells, given: set<nat>, items: map<nat, Item>,
                          trace: seq<Event>) {
    || (t in items && Waiting(items[t]) && items[t].who == c && items[t].op == op && items[t].sem == Some(sem))
    || (sem in given && Outcome(trace, cells, op, t))
    || (sem !in given && Lost(trace, t))
  }

  ghost predicate CallerServed(c: nat, k: Caller, cells: Cells, given: set<nat>, items: map<nat, Item>,
                               trace: seq<Event>) {
    match k
    case Preparing(op, _) => cells == FreshCells(op)
    case Enqueued(op, t, waitOn) =>
      waitOn.Some? == IsSync(op) && (waitOn.Some? ==> Awaited(c, op, t, waitOn.value, cells, given, items, trace))
    case Awaiting(op, t, sem) => Awaited(c, op, t, sem, cells, given, items, trace)
    case Taken(op, t, _) => Outcome(trace, cells, op, t)
    case Finished(op, t) => Outcome(trace, cells, op, t)
  }

  ghost predicate CallersServed(callers: map<nat, Caller>, cells: map<nat, Cells>, given: set<nat>,
                                items: map<nat, Item>, trace: seq<Event>) {
    forall c | c in callers :: c in cells && CallerServed(c, callers[c], cells[c], given, items, trace)
  }

  /** A given semaphore belongs to a caller that has yet to take it. */
  predicate GivenAwaited(callers: map<nat, Caller>, given: set<nat>) {
    forall s | s in given :: exists c :: c in callers && SemOf(callers[c]) == Some(s)
  }

  /** No two callers hold the same handle. */
  predicate Exclusive(callers: map<nat, Caller>) {
    forall c, d | c in callers && d in callers && c != d :: Holds(callers[c]) !! Holds(callers[d])
  }

  ghost predicate Handshake(callers: map<nat, Caller>, cells: map<nat, Cells>, given: set<nat>,
                            items: map<nat, Item>, trace: seq<Event>, hand: Option<nat>) {
    ItemsAwaited(callers, cells, given, items, hand) && CallersServed(callers, cells, given, items, trace) &&
    GivenAwaited(callers, given)
  }

  lemma OwnedIsExclusive(m: M)
    requires Owned(m)
    ensures Exclusive(m.callers)
  {
    forall c, d | c in m.callers && d in m.callers && c != d ensures Holds(m.callers[c]) !! Holds(m.callers[d]) {
      assert CallerOwns(m.owner, c, Holds(m.callers[c])) && CallerOwns(m.owner, d, Holds(m.callers[d]));
    }
  }

  // What the event loop does to the handshake.

  lemma OutcomeStays(trace: seq<Event>, trace': seq<Event>, cells: Cells, op: Op, t: nat)
    requires trace <= trace'
    ensures Outcome(trace, cells, op, t) ==> Outcome(trace', cells, op, t)
    ensures Lost(trace, t) ==> Lost(trace', t)
  {
  }

  lemma HistoryGrows(callers: map<nat, Caller>, cells: map<nat, Cells>, given: set<nat>, items: map<nat, Item>,
                     trace: seq<Event>, trace': seq<Event>, hand: Option<nat>)
    requires Handshake(callers, cells, given, items, trace, hand) && trace <= trace'
    ensures Handshake(callers, cells, given, items, trace', hand)
  {
    forall c | c in callers ensures CallerServed(c, callers[c], cells[c], given, items, trace') {
      if !callers[c].Preparing? {
        OutcomeStays(trace, trace', cells[c], callers[c].op, callers[c].ticket);
      }
    }
  }

  lemma MemoryChanges(callers: map<nat, Caller>, cells: map<nat, Cells>, given: set<nat>, items: map<nat, Item>,
                      trace: seq<Event>, hand: Option<nat>, t: nat, handles: set<nat>)
    requires Handshake(callers, cells, given, items, trace, hand) && t in items
    ensures Handshake(callers, cells, given, items[t := items[t].(handles := handles)], trace, hand)
  {
  }

  /** The variables of a waiting caller may be written. */
  lemma CellsWritten(callers: map<nat, Caller>, cells: map<nat, Cells>, given: set<nat>, items: map<nat, Item>,
                     trace: seq<Event>, hand: Option<nat>, t: nat, written: Cells)
    requires Handshake(callers, cells, given, items, trace, hand) && (hand.None? || hand == Some(t))
    requires t in items && Waiting(items[t])
    ensures Handshake(callers, cells[items[t].who := written], given, items, trace, Some(t))
  {
    var who := items[t].who;
    assert ItemAwaited(callers, cells, given, hand, t, items[t]);
    forall u | u in items
      ensures ItemAwaited(callers, cells[who := written], given, Some(t), u, items[u])
    {
      assert ItemAwaited(callers, cells, given, hand, u, items[u]);
    }
  }

  /** Once its variables hold the outcome, the caller may be let past. */
  lemma SemGiven(callers: map<nat, Caller>, cells: map<nat, Cells>, given: set<nat>, items: map<nat, Item>,
                 trace: seq<Event>, hand: Option<nat>, t: nat)
    requires Handshake(callers, cells, given, items, trace, hand) && Exclusive(callers)
    requires hand == Some(t) && t in items && Waiting(items[t])
    requires items[t].who in cells && Outcome(trace, cells[items[t].who], items[t].op, t)
    ensures Handshake(callers, cells, given + {items[t].sem.value}, items[t := items[t].(answered := true)],
                      trace, None)
  {
    var (who, sem) := (items[t].who, items[t].sem.value);
    assert ItemAwaited(callers, cells, given, hand, t, items[t]);
    assert sem in Holds(callers[who]);
    forall u | u in items && u != t
      ensures ItemAwaited(callers, cells, given + {sem}, None, u, items[u])
    {
      assert ItemAwaited(callers, cells, given, hand, u, items[u]);
      if Waiting(items[u]) {
        assert items[u].sem.value in Holds(callers[items[u].who]);
      }
    }
    forall c | c in callers && c != who && SemOf(callers[c]).Some? ensures SemOf(callers[c]) != Some(sem) {
      assert SemOf(callers[c]).value in Holds(callers[c]);
    }
  }

  lemma SettledLeaves(callers: map<nat, Caller>, cells: map<nat, Cells>, given: set<nat>, items: map<nat, Item>,
                      trace: seq<Event>, hand: Option<nat>, t: nat)
    requires Handshake(callers, cells, given, items, trace, hand)
    requires t in items && !Waiting(items[t])
    ensures Handshake(callers, cells, given, items - {t}, trace, hand)
  {
  }

  lemma RequestLost(callers: map<nat, Caller>, cells: map<nat, Cells>, given: set<nat>, items: map<nat, Item>,
                    trace: seq<Event>, req: SendReq)
    requires Handshake(callers, cells, given, items, trace, None) && req.ticket in items
    ensures Handshake(callers, cells, given, items - {req.ticket}, trace + [TaskLost(req)], None)
  {
    var (t, trace') := (req.ticket, trace + [TaskLost(req)]);
    assert trace'[|trace|] == TaskLost(req);
    HistoryGrows(callers, cells, given, items, trace, trace', None);
    assert ItemAwaited(callers, cells, given, None, t, items[t]);
  }

  // What callers do to the handshake.

  lemma CallBegins(callers: map<nat, Caller>, cells: map<nat, Cells>, given: set<nat>, items: map<nat, Item>,
                   trace: seq<Event>, hand: Option<nat>, c: nat, op: Op)
    requires Handshake(callers, cells, given, items, trace, hand) && (c !in callers || callers[c].Finished?)
    ensures Handshake(callers[c := Preparing(op, [])], cells[c := FreshCells(op)], given, items, trace, hand)
  {
    var (callers', cells') := (callers[c := Preparing(op, [])], cells[c := FreshCells(op)]);
    forall u | u in items ensures ItemAwaited(callers', cells', given, hand, u, items[u]) {
      assert ItemAwaited(callers, cells, given, hand, u, items[u]);
    }
    assert forall d | d in callers && SemOf(callers[d]).Some? :: SemOf(callers'[d]) == SemOf(callers[d]);
  }

  /** A caller moves on, still waiting if it was. */
  lemma CallMoves(callers: map<nat, Caller>, cells: map<nat, Cells>, given: set<nat>, items: map<nat, Item>,
                  trace: seq<Event>, hand: Option<nat>, c: nat, k: Caller)
    requires Handshake(callers, cells, given, items, trace, hand) && c in callers
    requires SemOf(k) == SemOf(callers[c]) && CallerServed(c, k, cells[c], given, items, trace)
    requires SemOf(k).Some? ==> k.op == callers[c].op && k.ticket == callers[c].ticket
    ensures Handshake(callers[c := k], cells, given, items, trace, hand)
  {
    forall u | u in items ensures ItemAwaited(callers[c := k], cells, given, hand, u, items[u]) {
      assert ItemAwaited(callers, cells, given, hand, u, items[u]);
    }
    assert forall d | d in callers :: SemOf(callers[c := k][d]) == SemOf(callers[d]);
  }

  lemma CallLeaves(callers: map<nat, Caller>, cells: map<nat, Cells>, given: set<nat>, items: map<nat, Item>,
                   trace: seq<Event>, hand: Option<nat>, c: nat)
    requires Handshake(callers, cells, given, items, trace, hand) && c in callers && SemOf(callers[c]).None?
    ensures Handshake(callers - {c}, cells, given, items, trace, hand)
  {
    forall u | u in items ensures ItemAwaited(callers - {c}, cells, given, hand, u, items[u]) {
      assert ItemAwaited(callers, cells, given, hand, u, items[u]);
    }
  }

  lemma CallQueues(callers: map<nat, Caller>, cells: map<nat, Cells>, given: set<nat>, items: map<nat, Item>,
                   trace: seq<Event>, hand: Option<nat>, c: nat, n: nat, item: Item)
    requires Handshake(callers, cells, given, items, trace, hand) && Exclusive(callers)
    requires c in callers && callers[c].Preparing? && n !in items
    requires item.who == c && item.op == callers[c].op && !item.answered && item.sem.Some? == IsSync(item.op)
    requires item.sem.Some? ==> item.sem.value in Holds(callers[c])
    ensures Handshake(callers[c := Enqueued(item.op, n, item.sem)], cells, given, items[n := item], trace, hand)
  {
    var callers' := callers[c := Enqueued(item.op, n, item.sem)];
    forall d | d in callers && d != c && SemOf(callers[d]).Some? ensures SemOf(callers[d]) != item.sem {
      assert SemOf(callers[d]).value in Holds(callers[d]);
    }
    forall u | u in items ensures ItemAwaited(callers', cells, given, hand, u, items[u]) {
      assert ItemAwaited(callers, cells, given, hand, u, items[u]);
    }
    assert CallerServed(c, callers[c], cells[c], given, items, trace);
  }

  lemma CallTakes(callers: map<nat, Caller>, cells: map<nat, Cells>, given: set<nat>, items: map<nat, Item>,
                  trace: seq<Event>, hand: Option<nat>, c: nat)
    requires Handshake(callers, cells, given, items, trace, hand) && Exclusive(callers)
    requires c in callers && callers[c].Awaiting? && callers[c].sem in given
    ensures var k := callers[c];
            Handshake(callers[c := Taken(k.op, k.ticket, k.sem)], cells, given - {k.sem}, items, trace, hand)
  {
    var (k, sem) := (callers[c], callers[c].sem);
    var (callers', given') := (callers[c := Taken(k.op, k.ticket, sem)], given - {sem});
    assert CallerServed(c, k, cells[c], given, items, trace);
    assert sem in Holds(k);
    assert k.ticket in items ==> ItemAwaited(callers, cells, given, hand, k.ticket, items[k.ticket]);
    forall d | d in callers && d != c && SemOf(callers[d]).Some? ensures SemOf(callers[d]) != Some(sem) {
      assert SemOf(callers[d]).value in Holds(callers[d]);
    }
    forall u | u in items ensures ItemAwaited(callers', cells, given', hand, u, items[u]) {
      assert ItemAwaited(callers, cells, given, hand, u, items[u]);
    }
    forall d | d in callers && d != c
      ensures CallerServed(d, callers'[d], cells[d], given', items, trace)
    {
      assert CallerServed(d, callers[d], cells[d], given, items, trace);
    }
  }

  // The steps of the machine.

  /** What has been written for the message in hand. */
  ghost predicate MsgReported(m: M) {
    m.loop.ExternGive? ==> Outcome(m.rx.trace, CellsOf(m, m.loop.msg.who), m.loop.msg.op, m.loop.msg.ticket)
  }

  /** What has been written for the request in hand. */
  ghost predicate ReqReported(m: M)
    requires m.rx.length <= |m.rx.response|
  {
    m.rx.task.Some? && Task(m).req.ticket in m.items ==>
      var (req, op) := (Task(m).req, m.items[Task(m).req.ticket].op);
      (m.loop.EndCopy? ==> HalfReported(m.rx, CellsOf(m, req.who), op, req)) &&
      (m.loop.EndGive? ==> Outcome(m.rx.trace, CellsOf(m, req.who), op, req.ticket))
  }

  ghost predicate InStep(m: M) {
    Handshake(m.callers, m.cells, m.given, m.items, m.rx.trace, InHand(m.loop, m.rx.task))
  }

  ghost predicate SyncInv(m: M) {
    m.rx.length <= |m.rx.response| && InStep(m) && MsgReported(m) && ReqReported(m)
  }

  lemma CurrentMsgIsBooked(m: M)
    requires MsgsBooked(m) && (m.loop.ExternWork? || m.loop.ExternGive? || m.loop.ExternFree?)
    ensures m.loop.msg.ticket in m.items && !m.loop.msg.op.Send? &&
            m.items[m.loop.msg.ticket] == MsgItem(m.loop.msg).(answered := m.loop.ExternFree?)
  {
    assert Msgs(m)[0] == m.loop.msg;
  }

  lemma ServeKeepsSync(m: M, s: LoopStep)
    requires SyncInv(m) && MsgsBooked(m) && Sane(m) && CanLoop(m, s) && s.ServeMsg?
    ensures SyncInv(DoLoop(m, s))
  {
    var (m', msg) := (DoLoop(m, s), m.loop.msg);
    CurrentMsgIsBooked(m);
    assert ItemAwaited(m.callers, m.cells, m.given, None, msg.ticket, m.items[msg.ticket]);
    CellsWritten(m.callers, m.cells, m.given, m.items, m.rx.trace, None, msg.ticket, m'.cells[msg.who]);
    HistoryGrows(m.callers, m'.cells, m.given, m.items, m.rx.trace, m'.rx.trace, Some(msg.ticket));
    assert Reports(m'.rx.trace[|m.rx.trace|], m'.cells[msg.who], msg.op, msg.ticket);
  }

  lemma GiveMsgKeepsSync(m: M)
    requires SyncInv(m) && MsgsBooked(m) && Exclusive(m.callers) && Sane(m) && CanLoop(m, GiveMsg)
    ensures SyncInv(DoLoop(m, GiveMsg))
  {
    var msg := m.loop.msg;
    CurrentMsgIsBooked(m);
    assert ItemAwaited(m.callers, m.cells, m.given, Some(msg.ticket), msg.ticket, m.items[msg.ticket]);
    SemGiven(m.callers, m.cells, m.given, m.items, m.rx.trace, Some(msg.ticket), msg.ticket);
  }

  lemma FreeMsgKeepsSync(m: M)
    requires SyncInv(m) && MsgsBooked(m) && Sane(m) && CanLoop(m, FreeMsg)
    ensures SyncInv(DoLoop(m, FreeMsg))
  {
    CurrentMsgIsBooked(m);
    SettledLeaves(m.callers, m.cells, m.given, m.items, m.rx.trace, None, m.loop.msg.ticket);
  }

  lemma AllocKeepsSync(m: M, s: LoopStep)
    requires SyncInv(m) && Phases(m.loop, m.rx.task) && Sane(m) && CanLoop(m, s) && s.AllocTask?
    ensures SyncInv(DoLoop(m, s))
  {
    var req := m.loop.req;
    if s.hasMemory {
      MemoryChanges(m.callers, m.cells, m.given, m.items, m.rx.trace, None, req.ticket,
                    m.items[req.ticket].handles + {m.nextHandle});
    } else {
      RequestLost(m.callers, m.cells, m.given, m.items, m.rx.trace, req);
    }
  }

  lemma DrainKeepsSync(m: M, s: LoopStep)
    requires SyncInv(m) && Sane(m) && CanLoop(m, s) && s.DrainByte? && LabelFits(m, s)
    requires NextRx(m, s).length <= |NextRx(m, s).response|
    ensures SyncInv(DoLoop(m, s))
  {
    HistoryGrows(m.callers, m.cells, m.given, m.items, m.rx.trace, s.rx.trace, None);
  }

  lemma ReplyKeepsSync(m: M)
    requires SyncInv(m) && SendsBooked(m) && Sane(m) && CanLoop(m, Reply)
    ensures SyncInv(DoLoop(m, Reply))
  {
    var (m', req) := (DoLoop(m, Reply), Task(m).req);
    CurrentReqIsBooked(m);
    HistoryGrows(m.callers, m.cells, m.given, m.items, m.rx.trace, m'.rx.trace, None);
    if req.sem.Some? {
      assert ItemAwaited(m.callers, m.cells, m.given, None, req.ticket, m.items[req.ticket]);
      CellsWritten(m.callers, m.cells, m.given, m.items, m'.rx.trace, None, req.ticket, m'.cells[req.who]);
      assert m'.rx.trace[|m.rx.trace|] == Completed(req, m.loop.result, m.rx.response[..m.rx.length]);
    }
  }

  lemma CopyKeepsSync(m: M)
    requires SyncInv(m) && SendsBooked(m) && Sane(m) && CanLoop(m, Copy)
    ensures SyncInv(DoLoop(m, Copy))
  {
    var (m', req) := (DoLoop(m, Copy), Task(m).req);
    CurrentReqIsBooked(m);
    var op := m.items[req.ticket].op;
    assert ItemAwaited(m.callers, m.cells, m.given, Some(req.ticket), req.ticket, m.items[req.ticket]);
    CellsWritten(m.callers, m.cells, m.given, m.items, m.rx.trace, Some(req.ticket), req.ticket, m'.cells[req.who]);
    var i :| 0 <= i < |m.rx.trace| && m.rx.trace[i].Completed? && m.rx.trace[i].req == req &&
             m.rx.trace[i].response == m.rx.response[..m.rx.length] &&
             CellsOf(m, req.who) == WithResult(FreshCells(op), req, m.rx.trace[i].result);
    WrittenIsShown(op, req, m.rx.trace[i].result, m.rx.trace[i].response);
    assert Reports(m'.rx.trace[i], m'.cells[req.who], op, req.ticket);
  }

  lemma GiveKeepsSync(m: M)
    requires SyncInv(m) && SendsBooked(m) && Exclusive(m.callers) && Sane(m) && CanLoop(m, Give)
    ensures SyncInv(DoLoop(m, Give))
  {
    var t := Task(m).req.ticket;
    CurrentReqIsBooked(m);
    assert ItemAwaited(m.callers, m.cells, m.given, Some(t), t, m.items[t]);
    SemGiven(m.callers, m.cells, m.given, m.items, m.rx.trace, Some(t), t);
  }

  lemma FinishKeepsSync(m: M)
    requires SyncInv(m) && SendsBooked(m) && Sane(m) && CanLoop(m, Finish)
    ensures SyncInv(DoLoop(m, Finish))
  {
    CurrentReqIsBooked(m);
    SettledLeaves(m.callers, m.cells, m.given, m.items, m.rx.trace, None, Task(m).req.ticket);
  }

  lemma OtherStepKeepsSync(m: M, s: LoopStep)
    requires SyncInv(m) && Phases(m.loop, m.rx.task) && Sane(m) && CanLoop(m, s)
    requires !s.ServeMsg? && !s.GiveMsg? && !s.FreeMsg? && !ForTask(s) && !s.DrainByte? && !s.Reply? && !s.Copy?
    ensures SyncInv(DoLoop(m, s))
  {
  }

  lemma MsgStepKeepsSync(m: M, s: LoopStep)
    requires SyncInv(m) && MsgsBooked(m) && Exclusive(m.callers) && Sane(m) && CanLoop(m, s)
    requires s.ServeMsg? || s.GiveMsg? || s.FreeMsg?
    ensures SyncInv(DoLoop(m, s))
  {
    match s {
      case ServeMsg(_, _, _) => ServeKeepsSync(m, s);
      case GiveMsg => GiveMsgKeepsSync(m);
      case FreeMsg => FreeMsgKeepsSync(m);
    }
  }

  lemma EndStepKeepsSync(m: M, s: LoopStep)
    requires SyncInv(m) && SendsBooked(m) && Exclusive(m.callers) && Sane(m) && CanLoop(m, s)
    requires s.Reply? || s.Copy? || s.Give? || s.Finish?
    ensures SyncInv(DoLoop(m, s))
  {
    match s {
      case Reply => ReplyKeepsSync(m);
      case Copy => CopyKeepsSync(m);
      case Give => GiveKeepsSync(m);
      case Finish => FinishKeepsSync(m);
    }
  }

  lemma LoopKeepsSync(m: M, s: LoopStep)
    requires SyncInv(m) && Phases(m.loop, m.rx.task) && Booked(m) && Exclusive(m.callers)
    requires Sane(m) && CanLoop(m, s) && LabelFits(m, s) && NextRx(m, s).length <= |NextRx(m, s).response|
    ensures SyncInv(DoLoop(m, s))
  {
    if s.ServeMsg? || s.GiveMsg? || s.FreeMsg? {
      MsgStepKeepsSync(m, s);
    } else if s.Reply? || s.Copy? || s.Give? || s.Finish? {
      EndStepKeepsSync(m, s);
    } else if s.AllocTask? {
      AllocKeepsSync(m, s);
    } else if s.DrainByte? {
      DrainKeepsSync(m, s);
    } else {
      OtherStepKeepsSync(m, s);
    }
  }

  lemma CallKeepsInStep(m: M, c: nat, s: CallStep)
    requires InStep(m) && Exclusive(m.callers) && m.nextHandle !in m.items && CanCall(m, c, s)
    ensures InStep(DoCall(m, c, s))
  {
    var (callers, cells, given, items) := (m.callers, m.cells, m.given, m.items);
    var (trace, hand) := (m.rx.trace, InHand(m.loop, m.rx.task));
    assert c in callers ==> CallerServed(c, callers[c], cells[c], given, items, trace);
    if s.Begins? {
      CallBegins(callers, cells, given, items, trace, hand, c, s.op);
    } else if s == Enqueue(true) {
      CallQueues(callers, cells, given, items, trace, hand, c, m.nextHandle, NewItem(m, c));
    } else if s.Take? {
      CallTakes(callers, cells, given, items, trace, hand, c);
    } else if c in NextCallers(m, c, s) {
      CallMoves(callers, cells, given, items, trace, hand, c, NextCallers(m, c, s)[c]);
    } else {
      CallLeaves(callers, cells, given, items, trace, hand, c);
    }
  }

  /** No caller touches the variables of a waiting caller, or the booking of its request. */
  lemma CallSparesWaiting(m: M, c: nat, s: CallStep, t: nat)
    requires CanCall(m, c, s) && t in m.items && t < m.nextHandle && Waiting(m.items[t])
    requires ItemAwaited(m.callers, m.cells, m.given, InHand(m.loop, m.rx.task), t, m.items[t])
    ensures var m' := DoCall(m, c, s);
            t in m'.items && m'.items[t] == m.items[t] && CellsOf(m', m.items[t].who) == CellsOf(m, m.items[t].who)
  {
  }

  lemma CallKeepsMsgReported(m: M, c: nat, s: CallStep)
    requires InStep(m) && MsgReported(m) && Booked(m) && CanCall(m, c, s)
    ensures MsgReported(DoCall(m, c, s))
  {
    if m.loop.ExternGive? {
      CurrentMsgIsBooked(m);
      CallSparesWaiting(m, c, s, m.loop.msg.ticket);
    }
  }

  lemma CallKeepsReqReported(m: M, c: nat, s: CallStep)
    requires SyncInv(m) && Phases(m.loop, m.rx.task) && Booked(m) && CanCall(m, c, s)
    ensures ReqReported(DoCall(m, c, s))
  {
    if m.loop.EndCopy? || m.loop.EndGive? {
      CurrentReqIsBooked(m);
      CallSparesWaiting(m, c, s, Task(m).req.ticket);
    }
  }

  lemma CallKeepsSync(m: M, c: nat, s: CallStep)
    requires SyncInv(m) && Exclusive(m.callers) && Phases(m.loop, m.rx.task) && Booked(m) && CanCall(m, c, s)
    ensures SyncInv(DoCall(m, c, s))
  {
    CallKeepsInStep(m, c, s);
    CallKeepsMsgReported(m, c, s);
    CallKeepsReqReported(m, c, s);
  }

  lemma LoopStepKeepsSync(m: M, s: LoopStep)
    requires SyncInv(m) && Exclusive(m.callers) && Inv(m) && Sane(m) && CanLoop(m, s) && Honest(m, s)
    requires NextRx(m, s).length <= |NextRx(m, s).response|
    ensures SyncInv(DoLoop(m, s))
  {
    HonestFits(m, s);
    LoopKeepsSync(m, s);
  }

  /** The interrupt and the clock have no part in it. */
  lemma QuietStepKeepsSync(m: M, step: Step)
    requires SyncInv(m) && Sane(m) && Enabled(m, step) && (step.OfIsr? || step.Elapse?)
    ensures SyncInv(Do(m, step))
  {
  }

  lemma StepKeepsSync(m: M, step: Step, m': M)
    requires SyncInv(m) && OwnershipInv(m) && Inv(m) && Inv(m') && Follows(m, step, m')
    ensures SyncInv(m')
  {
    OwnedIsExclusive(m);
    InvImpliesSane(m');
    match step {
      case OfLoop(l) => LoopStepKeepsSync(m, l);
      case OfCaller(c, s) => CallKeepsSync(m, c, s);
      case _ => QuietStepKeepsSync(m, step);
    }
  }

  lemma StartSync(m: M)
    requires Start(m)
    ensures SyncInv(m)
  {
  }

  lemma RunStepKeepsSync(states: seq<M>, steps: seq<Step>, n: nat)
    requires Engine.Run(states, steps) && n < |steps| && SyncInv(states[n])
    ensures SyncInv(states[n + 1])
  {
    RunKeepsInv(states, steps, n);
    RunKeepsInv(states, steps, n + 1);
    RunKeepsOwnership(states, steps, n);
    RunStep(states, steps, n);
    StepKeepsSync(states[n], steps[n], states[n + 1]);
  }

  lemma {:induction false} RunKeepsSync(states: seq<M>, steps: seq<Step>, n: nat)
    requires Engine.Run(states, steps) && n < |states|
    ensures SyncInv(states[n])
  {
    if n == 0 {
      RunStart(states, steps);
      StartSync(states[0]);
    } else {
      RunKeepsSync(states, steps, n - 1);
      RunStepKeepsSync(states, steps, n - 1);
    }
  }

  // What callers can rely on.

  /** A caller that got past its take finds the outcome of its own request in its variables. */
  lemma CallerSeesItsOutcome(states: seq<M>, steps: seq<Step>, n: nat, c: nat)
    requires Engine.Run(states, steps) && n < |states|
    requires c in states[n].callers && (states[n].callers[c].Taken? || states[n].callers[c].Finished?)
    ensures var (m, k) := (states[n], states[n].callers[c]);
            c in m.cells && Outcome(m.rx.trace, m.cells[c], k.op, k.ticket)
  {
    RunKeepsSync(states, steps, n);
  }

  /** The request with this ticket is in execution or in a queue. */
  predicate InEngine(m: M, t: nat) {
    t in SendTickets(Sends(m)) || t in MsgTickets(Msgs(m))
  }

  /** The three reasons a caller may wait for. */
  ghost predicate HasReason(m: M, c: nat, k: Caller)
    requires k.Awaiting?
  {
    || (InEngine(m, k.ticket) && k.sem !in m.given)
    || (k.sem in m.given && Outcome(m.rx.trace, CellsOf(m, c), k.op, k.ticket))
    || (Lost(m.rx.trace, k.ticket) && k.sem !in m.given)
  }

  lemma WaitingHasReason(m: M, c: nat)
    requires InStep(m) && m.items.Keys == SendTickets(Sends(m)) + MsgTickets(Msgs(m))
    requires c in m.callers && m.callers[c].Awaiting?
    ensures HasReason(m, c, m.callers[c])
  {
    var k := m.callers[c];
    assert CallerServed(c, k, m.cells[c], m.given, m.items, m.rx.trace);
    if k.ticket in m.items {
      assert k.ticket in m.items.Keys;
      assert ItemAwaited(m.callers, m.cells, m.given, InHand(m.loop, m.rx.task), k.ticket, m.items[k.ticket]);
    }
  }

  /**
   * Why a synchronous caller waits, in every reachable state: its request is still in the engine, or it was
   * answered and the caller can take its semaphore now, or it was lost. Never for no reason.
   */
  lemma WaitsForAReason(states: seq<M>, steps: seq<Step>, n: nat, c: nat)
    requires Engine.Run(states, steps) && n < |states|
    requires c in states[n].callers && states[n].callers[c].Awaiting?
    ensures HasReason(states[n], c, states[n].callers[c])
  {
    RunKeepsInv(states, steps, n);
    RunKeepsOwnership(states, steps, n);
    RunKeepsSync(states, steps, n);
    BookedIsHeld(states[n]);
    WaitingHasReason(states[n], c);
  }

  /** The caller whose variables the step writes. */
  function Writes(m: M, s: LoopStep): Option<nat>
    requires Sane(m) && CanLoop(m, s)
  {
    match s
    case ServeMsg(_, _, _) => Some(m.loop.msg.who)
    case Reply => if Task(m).req.sem.Some? then Some(Task(m).req.who) else None
    case Copy => Some(Task(m).req.who)
    case _ => None
  }

  /** The caller whose variables step n of a run writes. */
  function WritesAt(states: seq<M>, steps: seq<Step>, n: nat): Option<nat>
    requires n < |steps| < |states|
  {
    if steps[n].OfLoop? && Sane(states[n]) && CanLoop(states[n], steps[n].l) then Writes(states[n], steps[n].l)
    else None
  }

  lemma WrittenIsWaiting(m: M, s: LoopStep, c: nat)
    requires InStep(m) && Phases(m.loop, m.rx.task) && Booked(m) && Sane(m) && CanLoop(m, s)
    requires Writes(m, s) == Some(c)
    ensures c in m.callers && SemOf(m.callers[c]).Some? && SemOf(m.callers[c]).value !in m.given
  {
    if s.ServeMsg? {
      CurrentMsgIsBooked(m);
      assert ItemAwaited(m.callers, m.cells, m.given, None, m.loop.msg.ticket, m.items[m.loop.msg.ticket]);
    } else {
      CurrentReqIsBooked(m);
      assert ItemAwaited(m.callers, m.cells, m.given, InHand(m.loop, m.rx.task), Task(m).req.ticket,
                         m.items[Task(m).req.ticket]);
    }
  }

  lemma OthersAreSpared(m: M, s: LoopStep, c: nat)
    requires Sane(m) && CanLoop(m, s) && Writes(m, s) != Some(c) && c in m.cells
    ensures c in NextCells(m, s) && NextCells(m, s)[c] == m.cells[c]
  {
  }

  /**
   * The event loop writes the variables of no caller but the one whose request it is answering, and only
   * while that caller still waits on a semaphore that has not been given.
   */
  lemma WritesOnlyWaiting(states: seq<M>, steps: seq<Step>, n: nat, c: nat)
    requires Engine.Run(states, steps) && n < |steps| && steps[n].OfLoop?
    ensures WritesAt(states, steps, n) == Some(c) ==>
            c in states[n].callers && SemOf(states[n].callers[c]).Some? &&
            SemOf(states[n].callers[c]).value !in states[n].given
    ensures WritesAt(states, steps, n) != Some(c) && c in states[n].cells ==>
            c in states[n + 1].cells && states[n + 1].cells[c] == states[n].cells[c]
  {
    var (m, s) := (states[n], steps[n].l);
    RunStep(states, steps, n);
    if Writes(m, s) == Some(c) {
      RunKeepsInv(states, steps, n);
      RunKeepsSync(states, steps, n);
      WrittenIsWaiting(m, s, c);
    } else if c in m.cells {
      OthersAreSpared(m, s, c);
    }
  }

  /** The semaphores the loop gives have not been deleted. */
  lemma GivesLiveSemaphores(states: seq<M>, steps: seq<Step>, n: nat)
    requires Engine.Run(states, steps) && n < |states|
    ensures var m := states[n];
            (m.loop.ExternGive? ==> m.loop.msg.sem in m.owner) &&
            (m.loop.EndGive? && m.rx.task.Some? && Task(m).req.sem.Some? ==> Task(m).req.sem.value in m.owner)
  {
    var m := states[n];
    RunKeepsInv(states, steps, n);
    RunKeepsSync(states, steps, n);
    RunKeepsOwnership(states, steps, n);
    if m.loop.ExternGive? {
      CurrentMsgIsBooked(m);
      AwaitedSemIsLive(m, m.loop.msg.ticket);
    } else if m.loop.EndGive? {
      CurrentReqIsBooked(m);
      AwaitedSemIsLive(m, Task(m).req.ticket);
    }
  }

  lemma AwaitedSemIsLive(m: M, t: nat)
    requires Owned(m) && InStep(m) && t in m.items && Waiting(m.items[t])
    ensures m.items[t].sem.value in m.owner
  {
    var (who, sem) := (m.items[t].who, m.items[t].sem.value);
    assert ItemAwaited(m.callers, m.cells, m.given, InHand(m.loop, m.rx.task), t, m.items[t]);
    assert sem in Holds(m.callers[who]) && CallerOwns(m.owner, who, Holds(m.callers[who]));
  }

  /** The length says how much was copied only if there was a response at all, or no room for any. */
  lemma CopiedExactly(cells: Cells, op: Op, result: AtcResult, response: seq<byte>)
    requires op.Send? && op.capacity.Some? && Shows(cells, op, result, response)
    ensures cells.length == |cells.copied| <==> response != [] || op.capacity == Some(0)
  {
  }

  // A lost request.

  /** The caller of the lost request waits, for a semaphore nobody will give. */
  predicate Stranded(callers: map<nat, Caller>, given: set<nat>, items: map<nat, Item>, bound: nat, req: SendReq) {
    req.sem.Some? ==>
      req.who in callers && SemOf(callers[req.who]) == req.sem && callers[req.who].ticket == req.ticket &&
      req.sem.value !in given && req.ticket !in items && req.ticket < bound
  }

  predicate AllStranded(m: M) {
    forall i | 0 <= i < |m.rx.trace| && m.rx.trace[i].TaskLost? ::
      Stranded(m.callers, m.given, m.items, m.nextHandle, m.rx.trace[i].req)
  }

  /** The loop gives semaphores of requests it still holds only. */
  lemma LoopGivesAnothers(m: M, s: LoopStep, req: SendReq)
    requires InStep(m) && Phases(m.loop, m.rx.task) && Booked(m) && Exclusive(m.callers)
    requires Sane(m) && CanLoop(m, s) && req.sem.Some? && Stranded(m.callers, m.given, m.items, m.nextHandle, req)
    ensures req.sem.value !in NextGiven(m, s)
  {
    if s.GiveMsg? {
      CurrentMsgIsBooked(m);
      GivenIsAnothers(m, m.loop.msg.ticket, req);
    } else if s.Give? {
      CurrentReqIsBooked(m);
      GivenIsAnothers(m, Task(m).req.ticket, req);
    }
  }

  lemma LoopBooksNothing(m: M, s: LoopStep)
    requires Sane(m) && CanLoop(m, s)
    ensures forall t | t in NextItems(m, s) :: t in m.items
  {
  }

  lemma LoopSparesStranded(m: M, s: LoopStep, req: SendReq)
    requires InStep(m) && Phases(m.loop, m.rx.task) && Booked(m) && Exclusive(m.callers)
    requires Sane(m) && CanLoop(m, s) && Stranded(m.callers, m.given, m.items, m.nextHandle, req)
    ensures var m' := DoLoop(m, s); Stranded(m'.callers, m'.given, m'.items, m'.nextHandle, req)
  {
    if req.sem.Some? {
      LoopGivesAnothers(m, s, req);
      LoopBooksNothing(m, s);
    }
  }

  lemma GivenIsAnothers(m: M, t: nat, req: SendReq)
    requires InStep(m) && Exclusive(m.callers) && t in m.items && Waiting(m.items[t])
    requires req.sem.Some? && Stranded(m.callers, m.given, m.items, m.nextHandle, req)
    ensures m.items[t].sem != req.sem
  {
    assert ItemAwaited(m.callers, m.cells, m.given, InHand(m.loop, m.rx.task), t, m.items[t]);
    assert req.sem.value in Holds(m.callers[req.who]);
    assert m.items[t].sem.value in Holds(m.callers[m.items[t].who]);
  }

  lemma LossStrands(m: M)
    requires SyncInv(m) && Booked(m) && Sane(m) && CanLoop(m, AllocTask(false))
    ensures var m' := DoLoop(m, AllocTask(false)); Stranded(m'.callers, m'.given, m'.items, m'.nextHandle, m.loop.req)
  {
    var req := m.loop.req;
    assert Sends(m)[0] == req;
    assert ItemAwaited(m.callers, m.cells, m.given, None, req.ticket, m.items[req.ticket]);
  }

  lemma LoopKeepsStranded(m: M, s: LoopStep)
    requires AllStranded(m) && SyncInv(m) && Phases(m.loop, m.rx.task) && Booked(m) && Exclusive(m.callers)
    requires Sane(m) && CanLoop(m, s) && LabelFits(m, s)
    ensures AllStranded(DoLoop(m, s))
  {
    var m' := DoLoop(m, s);
    if s == AllocTask(false) {
      LossStrands(m);
    }
    forall i | 0 <= i < |m'.rx.trace| && m'.rx.trace[i].TaskLost?
      ensures Stranded(m'.callers, m'.given, m'.items, m'.nextHandle, m'.rx.trace[i].req)
    {
      if i < |m.rx.trace| {
        assert m'.rx.trace[i] == m.rx.trace[i];
        LoopSparesStranded(m, s, m.rx.trace[i].req);
      }
    }
  }

  lemma CallKeepsStranded(m: M, c: nat, s: CallStep)
    requires AllStranded(m) && Exclusive(m.callers) && CanCall(m, c, s)
    ensures AllStranded(DoCall(m, c, s))
  {
    forall i | 0 <= i < |m.rx.trace| && m.rx.trace[i].TaskLost?
      ensures var m' := DoCall(m, c, s);
              Stranded(m'.callers, m'.given, m'.items, m'.nextHandle, m.rx.trace[i].req)
    {
      assert Stranded(m.callers, m.given, m.items, m.nextHandle, m.rx.trace[i].req);
    }
  }

  lemma StepKeepsStranded(m: M, step: Step, m': M)
    requires AllStranded(m) && SyncInv(m) && OwnershipInv(m) && Inv(m) && Follows(m, step, m')
    ensures AllStranded(m')
  {
    OwnedIsExclusive(m);
    match step {
      case OfLoop(l) =>
        HonestFits(m, l);
        LoopKeepsStranded(m, l);
      case OfCaller(c, s) => CallKeepsStranded(m, c, s);
      case _ =>
    }
  }

  /**
   * A synchronous caller whose request was lost to a failed allocation waits in every later state: the
   * semaphore it waits on is never given.
   */
  lemma {:induction false} LostCallerWaitsForever(states: seq<M>, steps: seq<Step>, n: nat)
    requires Engine.Run(states, steps) && n < |states|
    ensures AllStranded(states[n])
  {
    if n == 0 {
      RunStart(states, steps);
    } else {
      LostCallerWaitsForever(states, steps, n - 1);
      RunKeepsInv(states, steps, n - 1);
      RunKeepsSync(states, steps, n - 1);
      RunKeepsOwnership(states, steps, n - 1);
      RunStep(states, steps, n - 1);
      StepKeepsStranded(states[n - 1], steps[n - 1], states[n]);
    }
  }
}
