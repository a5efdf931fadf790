/** What a registrant can rely on: the number it was given names its handler until that is unregistered. */
module EngineUrcs {
  import opened Bytes
  import opened AtcTypes
  import opened SinglyLinkedLists
  import opened UrcSpec
  import opened Engine
  import opened EngineTasks
  import opened EngineSync

  /** The step serves an unregistration of this ID. */
  predicate Unregisters(m: M, step: Step, id: int) {
    step.OfLoop? && step.l.ServeMsg? && m.loop.ExternWork? && m.loop.msg.op == Op.Unregister(id)
  }

  /** The entry is listed at n, or was unregistered between k and n. */
  ghost predicate KeptSince(states: seq<M>, steps: seq<Step>, k: nat, n: nat, u: Urc)
    requires k <= n <= |steps| < |states|
  {
    u in states[n].reg.urcs || exists i :: k <= i < n && Unregisters(states[i], steps[i], u.id)
  }

  lemma ServeKeepsEntry(reg: Registry, req: Request, u: Urc)
    requires CanServe(reg, req) && u in reg.urcs && req != Request.Unregister(u.id)
    ensures u in Serve(reg, req).urcs
  {
    if req.Unregister? {
      var k := Position(reg.urcs, req.id);
      if k < |reg.urcs| {
        var i :| 0 <= i < |reg.urcs| && reg.urcs[i] == u;
        assert WithoutAt(reg.urcs, k)[if i < k then i else i - 1] == u;
      }
    }
  }

  lemma StepKeepsEntry(m: M, step: Step, m': M, u: Urc)
    requires Follows(m, step, m') && u in m.reg.urcs && !Unregisters(m, step, u.id)
    ensures u in m'.reg.urcs
  {
    if step.OfLoop? && step.l.ServeMsg? {
      ServeKeepsEntry(m.reg, RequestOf(m.loop.msg, step.l.hasMemory), u);
    }
  }

  /** A listed entry stays listed until an unregistration of its ID is served. */
  lemma {:induction false} EntryIsKept(states: seq<M>, steps: seq<Step>, k: nat, n: nat, u: Urc)
    requires Engine.Run(states, steps) && k <= n < |states| && u in states[k].reg.urcs
    ensures KeptSince(states, steps, k, n, u)
    decreases n
  {
    if k < n {
      EntryIsKept(states, steps, k, n - 1, u);
      RunStep(states, steps, n - 1);
      if u in states[n - 1].reg.urcs && !Unregisters(states[n - 1], steps[n - 1], u.id) {
        StepKeepsEntry(states[n - 1], steps[n - 1], states[n], u);
      }
    }
  }

  // Where an answer to an API call comes from.

  predicate IsAnswer(e: Event) {
    e.Registered? || e.Unregistered?
  }

  /** The step serves the message with this ticket, and answers it with this event. */
  predicate ServesWith(m: M, step: Step, e: Event) {
    step.OfLoop? && step.l.ServeMsg? && m.loop.ExternWork? && e == ReplyOf(m.loop.msg, step.l.value)
  }

  lemma LoopAnswers(m: M, s: LoopStep, i: nat)
    requires Sane(m) && CanLoop(m, s) && LabelFits(m, s)
    requires i < |NextRx(m, s).trace| && IsAnswer(NextRx(m, s).trace[i])
    ensures (i < |m.rx.trace| && m.rx.trace[i] == NextRx(m, s).trace[i]) ||
            ServesWith(m, OfLoop(s), NextRx(m, s).trace[i])
  {
  }

  lemma StepAnswers(m: M, step: Step, m': M, i: nat)
    requires Inv(m) && Follows(m, step, m') && i < |m'.rx.trace| && IsAnswer(m'.rx.trace[i])
    ensures (i < |m.rx.trace| && m.rx.trace[i] == m'.rx.trace[i]) || ServesWith(m, step, m'.rx.trace[i])
  {
    if step.OfLoop? {
      HonestFits(m, step.l);
      LoopAnswers(m, step.l, i);
    }
  }

  lemma {:induction false} AnswerWasServed(states: seq<M>, steps: seq<Step>, n: nat, i: nat) returns (k: nat)
    requires Engine.Run(states, steps) && n < |states| && i < |states[n].rx.trace| && IsAnswer(states[n].rx.trace[i])
    ensures k < n && ServesWith(states[k], steps[k], states[n].rx.trace[i])
    decreases n
  {
    if n == 0 {
      RunStart(states, steps);
      assert false;
    }
    RunStep(states, steps, n - 1);
    EngineTasks.RunKeepsInv(states, steps, n - 1);
    StepAnswers(states[n - 1], steps[n - 1], states[n], i);
    if i < |states[n - 1].rx.trace| && states[n - 1].rx.trace[i] == states[n].rx.trace[i] {
      k := AnswerWasServed(states, steps, n - 1, i);
    } else {
      k := n - 1;
    }
  }

  /** The step serves this caller's message, and its number is the answer. */
  predicate Serves(m: M, step: Step, op: Op, t: nat, number: int) {
    step.OfLoop? && step.l.ServeMsg? && m.loop.ExternWork? && m.loop.msg.ticket == t && m.loop.msg.op == op &&
    step.l.value == number
  }

  lemma CallerWasServed(states: seq<M>, steps: seq<Step>, n: nat, c: nat) returns (k: nat)
    requires Engine.Run(states, steps) && n < |states|
    requires c in states[n].callers && (states[n].callers[c].Taken? || states[n].callers[c].Finished?)
    requires !states[n].callers[c].op.Send?
    ensures k < n && c in states[n].cells
    ensures Serves(states[k], steps[k], states[n].callers[c].op, states[n].callers[c].ticket, states[n].cells[c].number)
  {
    var (m, op, t) := (states[n], states[n].callers[c].op, states[n].callers[c].ticket);
    CallerSeesItsOutcome(states, steps, n, c);
    var i :| 0 <= i < |m.rx.trace| && Reports(m.rx.trace[i], m.cells[c], op, t);
    k := AnswerWasServed(states, steps, n, i);
    RunStep(states, steps, k);
    EngineTasks.RunKeepsInv(states, steps, k);
    CurrentMsgIsUrc(states[k]);
  }

  lemma CurrentMsgIsUrc(m: M)
    requires Inv(m) && m.loop.ExternWork?
    ensures !m.loop.msg.op.Send? && IsId(m.reg.nextId) && DistinctIds(m.reg.urcs)
  {
    assert Msgs(m)[0] == m.loop.msg;
    ReachableInv(m.reg);
  }

  /** What a registration does and is answered with. */
  ghost predicate RegistersAs(m: M, s: LoopStep, m': M, prefix: seq<byte>, handler: nat, number: int)
    requires s.ServeMsg?
  {
    if s.hasMemory then
      1 <= number <= 0x7FFF_FFFF && number !in Ids(m.reg.urcs) &&
      m'.reg.urcs == m.reg.urcs + [Urc(number, prefix, handler)]
    else
      number == -1 && m'.reg.urcs == m.reg.urcs
  }

  lemma ServingRegisters(m: M, s: LoopStep)
    requires Sane(m) && CanLoop(m, s) && Honest(m, s) && s.ServeMsg? && m.loop.msg.op.Register?
    ensures RegistersAs(m, s, DoLoop(m, s), m.loop.msg.op.prefix, m.loop.msg.op.handler, s.value)
  {
  }

  /**
   * A registrant that is past its take, now or later: the loop served its registration at some step k. It
   * sees -1 exactly if the entry found no memory, and then nothing was listed; otherwise it sees a number
   * between 1 and INT_MAX that was not in use, under which its prefix and handler were listed behind the
   * others, and still are, unless an unregistration of that number has been served since.
   */
  lemma RegistrantIsListed(states: seq<M>, steps: seq<Step>, n: nat, c: nat) returns (k: nat)
    requires Engine.Run(states, steps) && n < |states|
    requires c in states[n].callers && (states[n].callers[c].Taken? || states[n].callers[c].Finished?)
    requires states[n].callers[c].op.Register?
    ensures k < n && c in states[n].cells
    ensures var (op, t, number) := (states[n].callers[c].op, states[n].callers[c].ticket, states[n].cells[c].number);
            Serves(states[k], steps[k], op, t, number) &&
            RegistersAs(states[k], steps[k].l, states[k + 1], op.prefix, op.handler, number) &&
            (number == -1 <==> !steps[k].l.hasMemory) &&
            (number != -1 ==> KeptSince(states, steps, k + 1, n, Urc(number, op.prefix, op.handler)))
  {
    var (m, op) := (states[n], states[n].callers[c].op);
    k := CallerWasServed(states, steps, n, c);
    RunStep(states, steps, k);
    ServingRegisters(states[k], steps[k].l);
    if m.cells[c].number != -1 {
      var u := Urc(m.cells[c].number, op.prefix, op.handler);
      assert states[k + 1].reg.urcs[|states[k].reg.urcs|] == u;
      EntryIsKept(states, steps, k + 1, n, u);
    }
  }

  lemma ServingUnregisters(m: M, s: LoopStep)
    requires Sane(m) && CanLoop(m, s) && Honest(m, s) && s.ServeMsg? && m.loop.msg.op.Unregister?
    requires DistinctIds(m.reg.urcs)
    ensures s.value == 0 || s.value == -1
    ensures s.value == 0 <==> m.loop.msg.op.id in Ids(m.reg.urcs)
    ensures s.reg.urcs == Others(m.reg.urcs, m.loop.msg.op.id)
  {
    WithoutPositionIsOthers(m.reg.urcs, m.loop.msg.op.id);
  }

  /**
   * A caller that unregistered and is past its take: the loop served that at some step k. It sees 0 exactly
   * if its number was listed then, -1 otherwise, and exactly the entry with that number is gone.
   */
  lemma UnregistrantIsHeard(states: seq<M>, steps: seq<Step>, n: nat, c: nat) returns (k: nat)
    requires Engine.Run(states, steps) && n < |states|
    requires c in states[n].callers && (states[n].callers[c].Taken? || states[n].callers[c].Finished?)
    requires states[n].callers[c].op.Unregister?
    ensures k < n && c in states[n].cells
    ensures var (op, t, number) := (states[n].callers[c].op, states[n].callers[c].ticket, states[n].cells[c].number);
            Serves(states[k], steps[k], op, t, number) && (number == 0 || number == -1) &&
            (number == 0 <==> op.id in Ids(states[k].reg.urcs)) &&
            states[k + 1].reg.urcs == Others(states[k].reg.urcs, op.id)
  {
    k := CallerWasServed(states, steps, n, c);
    RunStep(states, steps, k);
    EngineTasks.RunKeepsInv(states, steps, k);
    CurrentMsgIsUrc(states[k]);
    ServingUnregisters(states[k], steps[k].l);
  }
}
