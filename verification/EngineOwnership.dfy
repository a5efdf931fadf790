/** Memory over whole runs: every live handle has one owner, and is released once, by that owner. */
module EngineOwnership {
  import opened AtcTypes
  import opened Engine
  import opened EngineTasks

  /** What a caller has to release, now or later. */
  function Holds(k: Caller): set<nat> {
    match k
    case Preparing(_, held) => set h | h in held
    case Enqueued(_, _, waitOn) => if waitOn.Some? then {waitOn.value} else {}
    case Awaiting(_, _, sem) => {sem}
    case Taken(_, _, sem) => {sem}
    case Finished(_, _) => {}
  }

  predicate NoRepeat(s: seq<nat>) {
    forall i, j | 0 <= i < j < |s| :: s[i] != s[j]
  }

  predicate WellHeld(k: Caller) {
    k.Preparing? ==> NoRepeat(k.held) && |k.held| <= Needs(k.op)
  }

  predicate CallerOwns(owner: map<nat, Owner>, c: nat, handles: set<nat>) {
    forall h | h in handles :: h in owner && owner[h] == Of(c)
  }

  /** Every caller is the owner of everything it holds. */
  predicate CallersOwn(owner: map<nat, Owner>, callers: map<nat, Caller>) {
    forall c | c in callers :: WellHeld(callers[c]) && CallerOwns(owner, c, Holds(callers[c]))
  }

  predicate ItemOwns(owner: map<nat, Owner>, t: nat, handles: set<nat>) {
    forall h | h in handles :: h in owner && owner[h] == InItem(t)
  }

  predicate ItemsOwn(owner: map<nat, Owner>, items: map<nat, Item>) {
    forall t | t in items :: ItemOwns(owner, t, items[t].handles)
  }

  /** Whoever is said to own a handle holds it. */
  predicate OwnerHolds(owner: Owner, h: nat, callers: map<nat, Caller>, items: map<nat, Item>) {
    match owner
    case Of(c) => c in callers && h in Holds(callers[c])
    case InItem(t) => t in items && h in items[t].handles
    case Leaked => true
  }

  predicate OwnersHold(owner: map<nat, Owner>, callers: map<nat, Caller>, items: map<nat, Item>, bound: nat) {
    forall h | h in owner :: h < bound && OwnerHolds(owner[h], h, callers, items)
  }

  predicate Consistent(owner: map<nat, Owner>, callers: map<nat, Caller>, items: map<nat, Item>, bound: nat) {
    CallersOwn(owner, callers) && ItemsOwn(owner, items) && OwnersHold(owner, callers, items, bound)
  }

  /** The blocks of a request are different ones. */
  predicate Separate(req: SendReq) {
    req.promptBlock != Some(req.data)
  }

  /** A task's block is none of its request's. */
  predicate TaskSeparate(task: Option<Flight>) {
    task.Some? ==> task.value.block !in ReqHandles(task.value.req)
  }

  predicate AllSeparate(sends: seq<SendReq>) {
    forall i | 0 <= i < |sends| :: Separate(sends[i])
  }

  predicate Owned(m: M) {
    Consistent(m.owner, m.callers, m.items, m.nextHandle)
  }

  /** Besides, nothing is booked but the requests in execution and in the queues. */
  predicate OwnershipInv(m: M) {
    Owned(m) && AllSeparate(Sends(m)) && TaskSeparate(m.rx.task) && |m.items| == |Sends(m)| + |Msgs(m)|
  }

  /** What the step passes to free or to semaphore deletion, in order. */
  function Frees(m: M, step: Step): seq<nat>
    requires Sane(m) && Enabled(m, step)
  {
    match step
    case OfLoop(l) =>
      if l.FreeMsg? then [m.loop.msg.block] else if l.Finish? then Blocks(Task(m)) else []
    case OfCaller(c, s) =>
      if s == Acquire(false) || s == Enqueue(false) then m.callers[c].held
      else if s.Delete? then [m.callers[c].sem]
      else []
    case _ => []
  }

  lemma BlocksOfTask(f: Flight)
    ensures (set h | h in Blocks(f)) == ReqHandles(f.req) + {f.block}
    ensures Separate(f.req) && f.block !in ReqHandles(f.req) ==> NoRepeat(Blocks(f))
  {
  }

  // Items: a booking goes with all its handles, leaks them, changes without touching memory, or gets one more.

  lemma ItemLeaves(owner: map<nat, Owner>, callers: map<nat, Caller>, items: map<nat, Item>, n: nat, t: nat)
    requires Consistent(owner, callers, items, n) && t in items
    ensures Consistent(owner - items[t].handles, callers, items - {t}, n)
  {
  }

  lemma ItemLeaks(owner: map<nat, Owner>, callers: map<nat, Caller>, items: map<nat, Item>, n: nat, t: nat)
    requires Consistent(owner, callers, items, n) && t in items
    ensures Consistent(map h | h in owner :: if h in items[t].handles then Leaked else owner[h],
                       callers, items - {t}, n)
  {
  }

  lemma ItemChanges(owner: map<nat, Owner>, callers: map<nat, Caller>, items: map<nat, Item>, n: nat, t: nat,
                    item: Item)
    requires Consistent(owner, callers, items, n) && t in items && item.handles == items[t].handles
    ensures Consistent(owner, callers, items[t := item], n)
  {
  }

  lemma ItemGrows(owner: map<nat, Owner>, callers: map<nat, Caller>, items: map<nat, Item>, n: nat, t: nat,
                  item: Item)
    requires Consistent(owner, callers, items, n) && t in items && item.handles == items[t].handles + {n}
    ensures Consistent(owner[n := InItem(t)], callers, items[t := item], n + 1)
  {
  }

  // Callers: one gets a handle, releases all it has, moves on with the same, leaves, or hands some over.

  lemma CallerGains(owner: map<nat, Owner>, callers: map<nat, Caller>, items: map<nat, Item>, n: nat, c: nat,
                    k: Caller)
    requires Consistent(owner, callers, items, n) && c in callers
    requires Holds(k) == Holds(callers[c]) + {n} && WellHeld(k)
    ensures Consistent(owner[n := Of(c)], callers[c := k], items, n + 1)
  {
  }

  lemma CallerMoves(owner: map<nat, Owner>, callers: map<nat, Caller>, items: map<nat, Item>, n: nat, c: nat,
                    k: Caller)
    requires Consistent(owner, callers, items, n) && WellHeld(k)
    requires Holds(k) == if c in callers then Holds(callers[c]) else {}
    ensures Consistent(owner, callers[c := k], items, n)
  {
  }

  lemma CallerLeaves(owner: map<nat, Owner>, callers: map<nat, Caller>, items: map<nat, Item>, n: nat, c: nat)
    requires Consistent(owner, callers, items, n) && c in callers
    ensures Consistent(owner - Holds(callers[c]), callers - {c}, items, n)
  {
  }

  lemma CallerHandsOver(owner: map<nat, Owner>, callers: map<nat, Caller>, items: map<nat, Item>, n: nat, c: nat,
                        k: Caller, item: Item)
    requires Consistent(owner, callers, items, n) && n !in items && c in callers
    requires Holds(callers[c]) == Holds(k) + item.handles && Holds(k) !! item.handles && WellHeld(k)
    ensures Consistent(HandOver(owner, item.handles, n), callers[c := k], items[n := item], n + 1)
  {
  }

  /** What is booked for the request or message being released is exactly what is freed. */
  lemma ReleasedHandles(m: M, s: LoopStep)
    requires Phases(m.loop, m.rx.task) && Booked(m) && Sane(m) && CanLoop(m, s)
    ensures s.FreeMsg? ==> m.items[m.loop.msg.ticket].handles == {m.loop.msg.block}
    ensures s.Finish? ==> m.items[Task(m).req.ticket].handles == set h | h in Blocks(Task(m))
  {
    if s.FreeMsg? {
      assert Msgs(m)[0] == m.loop.msg;
    } else if s.Finish? {
      assert Sends(m)[0] == Task(m).req;
      BlocksOfTask(Task(m));
    }
  }

  lemma AllocKeepsOwned(m: M, s: LoopStep)
    requires Owned(m) && Sane(m) && CanLoop(m, s) && s.AllocTask?
    ensures Owned(DoLoop(m, s))
  {
    var t := m.loop.req.ticket;
    if s.hasMemory {
      ItemGrows(m.owner, m.callers, m.items, m.nextHandle, t, NextItems(m, s)[t]);
    } else {
      ItemLeaks(m.owner, m.callers, m.items, m.nextHandle, t);
    }
  }

  lemma GiveKeepsOwned(m: M, s: LoopStep)
    requires Owned(m) && Sane(m) && CanLoop(m, s) && (s.GiveMsg? || s.Give?)
    ensures Owned(DoLoop(m, s))
  {
    var t := if s.Give? then Task(m).req.ticket else m.loop.msg.ticket;
    ItemChanges(m.owner, m.callers, m.items, m.nextHandle, t, NextItems(m, s)[t]);
  }

  lemma FinishKeepsOwned(m: M)
    requires Owned(m) && Phases(m.loop, m.rx.task) && Booked(m) && Sane(m) && CanLoop(m, Finish)
    ensures Consistent(NextOwner(m, Finish), m.callers, NextItems(m, Finish), m.nextHandle)
  {
    ReleasedHandles(m, Finish);
    ItemLeaves(m.owner, m.callers, m.items, m.nextHandle, Task(m).req.ticket);
  }

  lemma FreeMsgKeepsOwned(m: M)
    requires Owned(m) && Phases(m.loop, m.rx.task) && Booked(m) && Sane(m) && CanLoop(m, FreeMsg)
    ensures Consistent(NextOwner(m, FreeMsg), m.callers, NextItems(m, FreeMsg), m.nextHandle)
  {
    ReleasedHandles(m, FreeMsg);
    ItemLeaves(m.owner, m.callers, m.items, m.nextHandle, m.loop.msg.ticket);
  }

  lemma LoopKeepsOwned(m: M, s: LoopStep)
    requires Owned(m) && Phases(m.loop, m.rx.task) && Booked(m) && Sane(m) && CanLoop(m, s)
    ensures Owned(DoLoop(m, s))
  {
    if s.AllocTask? {
      AllocKeepsOwned(m, s);
    } else if s.GiveMsg? || s.Give? {
      GiveKeepsOwned(m, s);
    } else if s.Finish? {
      FinishKeepsOwned(m);
    } else if s.FreeMsg? {
      FreeMsgKeepsOwned(m);
    }
  }

  lemma QueueSplitsHeld(m: M, c: nat)
    requires CanCall(m, c, Enqueue(true)) && NoRepeat(m.callers[c].held)
    ensures var (k, item) := (NextCallers(m, c, Enqueue(true))[c], NewItem(m, c));
            Holds(m.callers[c]) == Holds(k) + item.handles && Holds(k) !! item.handles && WellHeld(k)
  {
  }

  lemma DeleteKeepsOwned(m: M, c: nat)
    requires Owned(m) && CanCall(m, c, Delete)
    ensures Owned(DoCall(m, c, Delete))
  {
    var (owner, callers, items, n) := (m.owner, m.callers, m.items, m.nextHandle);
    CallerLeaves(owner, callers, items, n, c);
    CallerMoves(owner - Holds(callers[c]), callers - {c}, items, n, c, NextCallers(m, c, Delete)[c]);
    assert (callers - {c})[c := NextCallers(m, c, Delete)[c]] == NextCallers(m, c, Delete);
  }

  lemma CallKeepsOwned(m: M, c: nat, s: CallStep)
    requires Owned(m) && m.nextHandle !in m.items && CanCall(m, c, s)
    ensures Owned(DoCall(m, c, s))
  {
    var (owner, callers, items, n) := (m.owner, m.callers, m.items, m.nextHandle);
    if s == Acquire(false) || s == Enqueue(false) {
      CallerLeaves(owner, callers, items, n, c);
    } else if s == Enqueue(true) {
      QueueSplitsHeld(m, c);
      CallerHandsOver(owner, callers, items, n, c, NextCallers(m, c, s)[c], NewItem(m, c));
    } else if s == Acquire(true) {
      CallerGains(owner, callers, items, n, c, NextCallers(m, c, s)[c]);
    } else if s.Delete? {
      DeleteKeepsOwned(m, c);
    } else if s.WakeLoop? && callers[c].waitOn.None? {
      CallerLeaves(owner, callers, items, n, c);
      assert owner - {} == owner;
    } else {
      CallerMoves(owner, callers, items, n, c, NextCallers(m, c, s)[c]);
    }
  }

  // Requests are made of different blocks, and booked once.

  lemma HandlesAreOld(m: M)
    requires Owned(m) && Booked(m)
    ensures forall i | 0 <= i < |Sends(m)| :: m.nextHandle !in ReqHandles(Sends(m)[i])
  {
    forall i | 0 <= i < |Sends(m)| ensures m.nextHandle !in ReqHandles(Sends(m)[i]) {
      var req := Sends(m)[i];
      assert ReqLinked(m.items, m.nextHandle, req, if i == 0 then TaskBlock(m.rx.task) else {},
                       i == 0 && TaskAnswered(m.loop, m.rx.task));
      assert ItemOwns(m.owner, req.ticket, m.items[req.ticket].handles);
    }
  }

  lemma LoopKeepsSeparate(m: M, s: LoopStep)
    requires OwnershipInv(m) && Phases(m.loop, m.rx.task) && Booked(m)
    requires Sane(m) && CanLoop(m, s) && LabelFits(m, s)
    ensures TaskSeparate(NextRx(m, s).task)
  {
    if s.AllocTask? {
      HandlesAreOld(m);
      assert Sends(m)[0] == m.loop.req;
    }
  }

  /** A step takes at most the oldest request away. */
  lemma LoopShortensSends(m: M, s: LoopStep)
    requires Phases(m.loop, m.rx.task) && Sane(m) && CanLoop(m, s) && LabelFits(m, s)
    ensures var m' := DoLoop(m, s);
            if s.Finish? || s == AllocTask(false) then Sends(m) != [] && Sends(m') == Sends(m)[1..]
            else Sends(m') == Sends(m)
  {
  }

  lemma LoopShortensMsgs(m: M, s: LoopStep)
    requires Sane(m) && CanLoop(m, s)
    ensures var m' := DoLoop(m, s);
            if s.FreeMsg? then Msgs(m) != [] && Msgs(m') == Msgs(m)[1..] else Msgs(m') == Msgs(m)
  {
  }

  lemma LoopCountsItems(m: M, s: LoopStep)
    requires Sane(m) && CanLoop(m, s)
    ensures |NextItems(m, s)| == if s.Finish? || s == AllocTask(false) || s.FreeMsg? then |m.items| - 1 else |m.items|
  {
    var items' := NextItems(m, s);
    match s {
      case FreeMsg => assert items'.Keys == m.items.Keys - {m.loop.msg.ticket};
      case AllocTask(_) => assert !s.hasMemory ==> items'.Keys == m.items.Keys - {m.loop.req.ticket};
      case Finish => assert items'.Keys == m.items.Keys - {Task(m).req.ticket};
      case _ =>
    }
  }

  lemma LoopKeepsOwnership(m: M, s: LoopStep)
    requires OwnershipInv(m) && Phases(m.loop, m.rx.task) && Booked(m)
    requires Sane(m) && CanLoop(m, s) && LabelFits(m, s)
    ensures OwnershipInv(DoLoop(m, s))
  {
    LoopKeepsOwned(m, s);
    LoopKeepsSeparate(m, s);
    LoopShortensSends(m, s);
    LoopShortensMsgs(m, s);
    LoopCountsItems(m, s);
  }

  lemma NewReqIsSeparate(m: M, c: nat)
    requires QueuesSend(m, c, Enqueue(true)) && NoRepeat(m.callers[c].held)
    ensures Separate(NewReq(m, c))
  {
  }

  /** A queued request is the youngest. */
  lemma CallExtends(m: M, c: nat, s: CallStep)
    requires CanCall(m, c, s)
    ensures Sends(DoCall(m, c, s)) == if QueuesSend(m, c, s) then Sends(m) + [NewReq(m, c)] else Sends(m)
    ensures Msgs(DoCall(m, c, s)) == if QueuesMsg(m, c, s) then Msgs(m) + [NewMsg(m, c)] else Msgs(m)
  {
  }

  lemma CallCountsItems(m: M, c: nat, s: CallStep)
    requires CanCall(m, c, s) && m.nextHandle !in m.items
    ensures |DoCall(m, c, s).items| == if Queues(m, c, s) then |m.items| + 1 else |m.items|
  {
  }

  lemma CallKeepsSeparate(m: M, c: nat, s: CallStep)
    requires AllSeparate(Sends(m)) && CanCall(m, c, s) && (c in m.callers ==> WellHeld(m.callers[c]))
    ensures AllSeparate(Sends(DoCall(m, c, s)))
  {
    CallExtends(m, c, s);
    if QueuesSend(m, c, s) {
      NewReqIsSeparate(m, c);
    }
  }

  lemma CallKeepsOwnership(m: M, c: nat, s: CallStep)
    requires OwnershipInv(m) && Booked(m) && CanCall(m, c, s)
    ensures OwnershipInv(DoCall(m, c, s))
  {
    CallKeepsOwned(m, c, s);
    CallKeepsSeparate(m, c, s);
    CallCountsItems(m, c, s);
    CallExtends(m, c, s);
  }

  lemma StepKeepsOwnership(m: M, step: Step, m': M)
    requires OwnershipInv(m) && Inv(m) && Follows(m, step, m')
    ensures OwnershipInv(m')
  {
    match step {
      case OfLoop(l) =>
        HonestFits(m, l);
        LoopKeepsOwnership(m, l);
      case OfCaller(c, s) => CallKeepsOwnership(m, c, s);
      case _ =>
    }
  }

  lemma StartOwnership(m: M)
    requires Start(m)
    ensures OwnershipInv(m)
  {
    assert Sends(m) == [] && Msgs(m) == [];
  }

  lemma RunStepKeepsOwnership(states: seq<M>, steps: seq<Step>, n: nat)
    requires Engine.Run(states, steps) && n < |steps| && OwnershipInv(states[n])
    ensures OwnershipInv(states[n + 1])
  {
    RunKeepsInv(states, steps, n);
    RunStep(states, steps, n);
    StepKeepsOwnership(states[n], steps[n], states[n + 1]);
  }

  lemma {:induction false} RunKeepsOwnership(states: seq<M>, steps: seq<Step>, n: nat)
    requires Engine.Run(states, steps) && n < |states|
    ensures OwnershipInv(states[n])
  {
    if n == 0 {
      RunStart(states, steps);
      StartOwnership(states[0]);
    } else {
      RunKeepsOwnership(states, steps, n - 1);
      RunStepKeepsOwnership(states, steps, n - 1);
    }
  }

  // What is booked is in execution or in a queue.

  function SendTickets(sends: seq<SendReq>): set<nat> {
    set i | 0 <= i < |sends| :: sends[i].ticket
  }

  function MsgTickets(msgs: seq<ApiMsg>): set<nat> {
    set i | 0 <= i < |msgs| :: msgs[i].ticket
  }

  lemma {:induction false} CountSends(sends: seq<SendReq>)
    requires forall i, j | 0 <= i < j < |sends| :: sends[i].ticket < sends[j].ticket
    ensures |SendTickets(sends)| == |sends|
  {
    if sends != [] {
      var (init, last) := (sends[..|sends| - 1], sends[|sends| - 1]);
      CountSends(init);
      assert SendTickets(sends) == SendTickets(init) + {last.ticket};
    }
  }

  lemma {:induction false} CountMsgs(msgs: seq<ApiMsg>)
    requires forall i, j | 0 <= i < j < |msgs| :: msgs[i].ticket < msgs[j].ticket
    ensures |MsgTickets(msgs)| == |msgs|
  {
    if msgs != [] {
      var (init, last) := (msgs[..|msgs| - 1], msgs[|msgs| - 1]);
      CountMsgs(init);
      assert MsgTickets(msgs) == MsgTickets(init) + {last.ticket};
    }
  }

  lemma SameSize(a: set<nat>, b: set<nat>)
    requires a <= b && |a| == |b|
    ensures a == b
  {
    assert b == a + (b - a);
  }

  lemma LinkedAreBooked(items: map<nat, Item>, n: nat, sends: seq<SendReq>, msgs: seq<ApiMsg>, block: set<nat>,
                        reqAnswered: bool, msgAnswered: bool)
    requires SendsLinked(items, n, sends, block, reqAnswered) && MsgsLinked(items, n, msgs, msgAnswered)
    ensures SendTickets(sends) + MsgTickets(msgs) <= items.Keys && SendTickets(sends) !! MsgTickets(msgs)
  {
    forall t | t in SendTickets(sends) ensures t in items && items[t].op.Send? {
      var i :| 0 <= i < |sends| && sends[i].ticket == t;
      assert ReqLinked(items, n, sends[i], if i == 0 then block else {}, i == 0 && reqAnswered);
    }
    forall t | t in MsgTickets(msgs) ensures t in items && !items[t].op.Send? {
      var i :| 0 <= i < |msgs| && msgs[i].ticket == t;
      assert MsgLinked(items, n, msgs[i], i == 0 && msgAnswered);
    }
  }

  lemma BookedIsHeld(m: M)
    requires Booked(m) && |m.items| == |Sends(m)| + |Msgs(m)|
    ensures m.items.Keys == SendTickets(Sends(m)) + MsgTickets(Msgs(m))
  {
    var (sends, msgs) := (SendTickets(Sends(m)), MsgTickets(Msgs(m)));
    CountSends(Sends(m));
    CountMsgs(Msgs(m));
    LinkedAreBooked(m.items, m.nextHandle, Sends(m), Msgs(m), TaskBlock(m.rx.task),
                    TaskAnswered(m.loop, m.rx.task), m.loop.ExternFree?);
    SameSize(sends + msgs, m.items.Keys);
  }

  // Releases.

  lemma LoopReleases(m: M, s: LoopStep)
    requires OwnershipInv(m) && Phases(m.loop, m.rx.task) && Booked(m) && Sane(m) && CanLoop(m, s)
    ensures var (frees, owner') := (Frees(m, OfLoop(s)), NextOwner(m, s));
            NoRepeat(frees) && (forall h | h in frees :: h in m.owner) &&
            (forall h | h in m.owner :: h in frees <==> h !in owner')
  {
    if s.FreeMsg? {
      ReleasedHandles(m, s);
      assert ItemOwns(m.owner, m.loop.msg.ticket, m.items[m.loop.msg.ticket].handles);
    } else if s.Finish? {
      assert Sends(m)[0] == Task(m).req;
      ReleasedHandles(m, s);
      BlocksOfTask(Task(m));
      assert ItemOwns(m.owner, Task(m).req.ticket, m.items[Task(m).req.ticket].handles);
    }
  }

  lemma CallReleases(m: M, c: nat, s: CallStep)
    requires OwnershipInv(m) && Sane(m) && CanCall(m, c, s)
    ensures var (frees, owner') := (Frees(m, OfCaller(c, s)), CallOwner(m, c, s));
            NoRepeat(frees) && (forall h | h in frees :: h in m.owner) &&
            (forall h | h in m.owner :: h in frees <==> h !in owner')
  {
    if s == Acquire(false) || s == Enqueue(false) || s.Delete? {
      assert CallerOwns(m.owner, c, Holds(m.callers[c]));
      assert forall h | h in Frees(m, OfCaller(c, s)) :: h in Holds(m.callers[c]);
    }
  }

  /** A step releases live handles only, each once, and afterwards exactly those are gone. */
  lemma StepReleases(m: M, step: Step, m': M)
    requires OwnershipInv(m) && Inv(m) && Follows(m, step, m')
    ensures var frees := Frees(m, step);
            NoRepeat(frees) && (forall h | h in frees :: h in m.owner) &&
            (forall h | h in m.owner :: h in frees <==> h !in m'.owner)
  {
    match step {
      case OfLoop(l) => LoopReleases(m, l);
      case OfCaller(c, s) => CallReleases(m, c, s);
      case _ =>
    }
  }

  lemma LoopReusesNothing(m: M, s: LoopStep, h: nat)
    requires Sane(m) && CanLoop(m, s) && h < m.nextHandle && h !in m.owner
    ensures h < DoLoop(m, s).nextHandle && h !in NextOwner(m, s)
  {
  }

  lemma StepReusesNothing(m: M, step: Step, m': M, h: nat)
    requires OwnershipInv(m) && Follows(m, step, m') && h < m.nextHandle && h !in m.owner
    ensures h < m'.nextHandle && h !in m'.owner
  {
    if step.OfLoop? {
      LoopReusesNothing(m, step.l, h);
    }
  }

  lemma {:induction false} DeadStaysDead(states: seq<M>, steps: seq<Step>, i: nat, j: nat, h: nat)
    requires Engine.Run(states, steps) && i <= j < |states|
    requires h < states[i].nextHandle && h !in states[i].owner
    ensures h !in states[j].owner && h < states[j].nextHandle
  {
    if i < j {
      DeadStaysDead(states, steps, i, j - 1, h);
      RunKeepsOwnership(states, steps, j - 1);
      RunStep(states, steps, j - 1);
      StepReusesNothing(states[j - 1], steps[j - 1], states[j], h);
    }
  }

  /** What step i of a run releases. */
  function FreedAt(states: seq<M>, steps: seq<Step>, i: nat): seq<nat>
    requires i < |steps| < |states|
  {
    if Sane(states[i]) && Enabled(states[i], steps[i]) then Frees(states[i], steps[i]) else []
  }

  /**
   * Over a whole run every block and semaphore is released at most once: what a step releases is live,
   * is released once by that step, and by no later one.
   */
  lemma ReleasedOnce(states: seq<M>, steps: seq<Step>, i: nat, j: nat, h: nat)
    requires Engine.Run(states, steps) && i < j < |steps| && h in FreedAt(states, steps, i)
    ensures h in states[i].owner && NoRepeat(FreedAt(states, steps, i)) && h !in FreedAt(states, steps, j)
  {
    RunKeepsInv(states, steps, i);
    RunKeepsOwnership(states, steps, i);
    RunStep(states, steps, i);
    StepReleases(states[i], steps[i], states[i + 1]);
    assert h < states[i].nextHandle;
    DeadStaysDead(states, steps, i + 1, j, h);
    RunKeepsInv(states, steps, j);
    RunKeepsOwnership(states, steps, j);
    RunStep(states, steps, j);
    StepReleases(states[j], steps[j], states[j + 1]);
  }

  /**
   * The blocks of every request, message and task the loop holds are live. This says nothing of the task it
   * no longer holds: for the read of a nulled task see ReceiveSpec.ReadsNulledTask.
   */
  lemma HeldMemoryIsLive(states: seq<M>, steps: seq<Step>, n: nat)
    requires Engine.Run(states, steps) && n < |states|
    ensures var m := states[n];
            (forall i, h | 0 <= i < |Sends(m)| && h in ReqHandles(Sends(m)[i]) :: h in m.owner) &&
            (forall i | 0 <= i < |Msgs(m)| :: Msgs(m)[i].block in m.owner) &&
            (m.rx.task.Some? ==> m.rx.task.value.block in m.owner)
  {
    var m := states[n];
    RunKeepsInv(states, steps, n);
    RunKeepsOwnership(states, steps, n);
    forall i | 0 <= i < |Sends(m)|
      ensures forall h | h in ReqHandles(Sends(m)[i]) + (if i == 0 then TaskBlock(m.rx.task) else {}) :: h in m.owner
    {
      assert ItemOwns(m.owner, Sends(m)[i].ticket, m.items[Sends(m)[i].ticket].handles);
    }
    forall i | 0 <= i < |Msgs(m)| ensures Msgs(m)[i].block in m.owner {
      assert ItemOwns(m.owner, Msgs(m)[i].ticket, m.items[Msgs(m)[i].ticket].handles);
    }
    if m.rx.task.Some? && !m.loop.SendAlloc? {
      assert Sends(m)[0] == Task(m).req;
    }
  }
}
