/** Where requests come from: every booked request is one its caller began, with arguments the entry points accept. */
module EngineRequests {
  import opened Bytes
  import opened AtcTypes
  import opened Engine
  import opened EngineTasks

  /** Only calls with accepted arguments are under way or booked. */
  predicate AllAccepted(m: M) {
    (forall c | c in m.callers :: Accepts(m.callers[c].op)) && (forall t | t in m.items :: Accepts(m.items[t].op))
  }

  /** A booking is never given to another caller or another operation. */
  lemma LoopKeepsBookings(m: M, s: LoopStep)
    requires Sane(m) && CanLoop(m, s)
    ensures forall t | t in NextItems(m, s) ::
              t in m.items && NextItems(m, s)[t].op == m.items[t].op && NextItems(m, s)[t].who == m.items[t].who
  {
  }

  lemma CallKeepsBookings(m: M, c: nat, s: CallStep)
    requires CanCall(m, c, s)
    ensures forall t | t in DoCall(m, c, s).items ::
              (t in m.items && DoCall(m, c, s).items[t] == m.items[t]) ||
              (Queues(m, c, s) && t == m.nextHandle && DoCall(m, c, s).items[t].op == m.callers[c].op &&
               DoCall(m, c, s).items[t].who == c)
  {
  }

  lemma CallKeepsOps(m: M, c: nat, s: CallStep)
    requires CanCall(m, c, s)
    ensures forall d | d in NextCallers(m, c, s) ::
              if d == c && s.Begins? then NextCallers(m, c, s)[d].op == s.op
              else d in m.callers && NextCallers(m, c, s)[d].op == m.callers[d].op
  {
  }

  lemma StepKeepsAccepted(m: M, step: Step, m': M)
    requires AllAccepted(m) && Follows(m, step, m')
    ensures AllAccepted(m')
  {
    match step {
      case OfLoop(l) => LoopKeepsBookings(m, l);
      case OfCaller(c, s) =>
        CallKeepsBookings(m, c, s);
        CallKeepsOps(m, c, s);
      case _ =>
    }
  }

  lemma {:induction false} RunKeepsAccepted(states: seq<M>, steps: seq<Step>, n: nat)
    requires Engine.Run(states, steps) && n < |states|
    ensures AllAccepted(states[n])
  {
    if n == 0 {
      RunStart(states, steps);
    } else {
      RunKeepsAccepted(states, steps, n - 1);
      RunStep(states, steps, n - 1);
      StepKeepsAccepted(states[n - 1], steps[n - 1], states[n]);
    }
  }

  /** A caller inside a call has begun it, with this operation. */
  lemma {:induction false} CallerBegan(states: seq<M>, steps: seq<Step>, n: nat, c: nat) returns (k: nat)
    requires Engine.Run(states, steps) && n < |states| && c in states[n].callers
    ensures k < n && steps[k] == OfCaller(c, Begins(states[n].callers[c].op))
    decreases n
  {
    if n == 0 {
      RunStart(states, steps);
      assert false;
    }
    RunStep(states, steps, n - 1);
    var (m, step) := (states[n - 1], steps[n - 1]);
    if step.OfCaller? {
      CallKeepsOps(m, step.c, step.s);
    }
    if step.OfCaller? && step.c == c && step.s.Begins? {
      k := n - 1;
    } else {
      k := CallerBegan(states, steps, n - 1, c);
    }
  }

  lemma StepBooks(m: M, step: Step, m': M, t: nat)
    requires Follows(m, step, m') && t in m'.items
    ensures (t in m.items && m'.items[t].op == m.items[t].op && m'.items[t].who == m.items[t].who) ||
            (m'.items[t].who in m.callers && m.callers[m'.items[t].who].op == m'.items[t].op)
  {
    match step {
      case OfLoop(l) => LoopKeepsBookings(m, l);
      case OfCaller(c, s) => CallKeepsBookings(m, c, s);
      case _ =>
    }
  }

  /** Over every run: a booked request is one that its caller began, with these arguments, and they were accepted. */
  lemma {:induction false} RequestWasMade(states: seq<M>, steps: seq<Step>, n: nat, t: nat) returns (k: nat)
    requires Engine.Run(states, steps) && n < |states| && t in states[n].items
    ensures k < n && steps[k] == OfCaller(states[n].items[t].who, Begins(states[n].items[t].op))
    ensures Accepts(states[n].items[t].op)
    decreases n
  {
    RunKeepsAccepted(states, steps, n);
    if n == 0 {
      RunStart(states, steps);
      assert false;
    }
    RunStep(states, steps, n - 1);
    var (m, item) := (states[n - 1], states[n].items[t]);
    StepBooks(m, steps[n - 1], states[n], t);
    if t in m.items && m.items[t].op == item.op && m.items[t].who == item.who {
      k := RequestWasMade(states, steps, n - 1, t);
    } else {
      k := CallerBegan(states, steps, n - 1, item.who);
    }
  }

  /** The command in flight, and the call that asked for it. */
  lemma FlightWasAsked(states: seq<M>, steps: seq<Step>, n: nat) returns (k: nat, op: Op)
    requires Engine.Run(states, steps) && n < |states| && states[n].rx.task.Some?
    ensures k < n && steps[k] == OfCaller(Task(states[n]).req.who, Begins(op))
    ensures Accepts(op) && Legal(op) && ReqMatches(Task(states[n]).req, op)
  {
    EngineTasks.RunKeepsInv(states, steps, n);
    CurrentReqIsBooked(states[n]);
    var t := Task(states[n]).req.ticket;
    op := states[n].items[t].op;
    k := RequestWasMade(states, steps, n, t);
    LegalIff(op);
  }

  /**
   * What the entry points let through: a 32-bit timeout and a prompt, if any, that is not empty; a prefix of 1
   * to 31 bytes, none of them NUL; a positive number.
   */
  predicate Legal(op: Op) {
    match op
    case Send(_, _, _, prompt, _, timeout) => timeout < 0x1_0000_0000 && prompt != Some([])
    case Register(prefix, _) => 1 <= |prefix| <= 31 && NUL !in prefix
    case Unregister(id) => id >= 1
  }

  /** Every legal call can begin while its caller is in no other, and no illegal one can. */
  lemma CallsBeginIff(m: M, c: nat, op: Op)
    ensures CanCall(m, c, Begins(op)) <==> (c in m.callers ==> m.callers[c].Finished?) && Legal(op)
  {
  }

  /** Over every run: all requests in the engine, and all callers in it, are legal. */
  lemma OnlyLegalCalls(states: seq<M>, steps: seq<Step>, n: nat)
    requires Engine.Run(states, steps) && n < |states|
    ensures var m := states[n];
            (forall c | c in m.callers :: Legal(m.callers[c].op)) && (forall t | t in m.items :: Legal(m.items[t].op))
  {
    RunKeepsAccepted(states, steps, n);
    forall c | c in states[n].callers ensures Legal(states[n].callers[c].op) {
      LegalIff(states[n].callers[c].op);
    }
    forall t | t in states[n].items ensures Legal(states[n].items[t].op) {
      LegalIff(states[n].items[t].op);
    }
  }

  lemma LegalIff(op: Op)
    ensures Accepts(op) <==> Legal(op)
  {
  }

  // The prefixes that can be listed.

  predicate Listable(urcs: seq<Urc>) {
    forall i | 0 <= i < |urcs| :: 1 <= |urcs[i].prefix| <= 31 && NUL !in urcs[i].prefix
  }

  lemma ServeKeepsListable(m: M, s: LoopStep)
    requires Listable(m.reg.urcs) && AllAccepted(m) && MsgsBooked(m)
    requires Sane(m) && CanLoop(m, s) && Honest(m, s) && s.ServeMsg?
    ensures Listable(s.reg.urcs)
  {
    assert Msgs(m)[0] == m.loop.msg;
    assert m.items[m.loop.msg.ticket].op == m.loop.msg.op;
  }

  lemma StepKeepsListable(m: M, step: Step, m': M)
    requires Listable(m.reg.urcs) && AllAccepted(m) && MsgsBooked(m) && Follows(m, step, m')
    ensures Listable(m'.reg.urcs)
  {
    if step.OfLoop? && step.l.ServeMsg? {
      ServeKeepsListable(m, step.l);
    }
  }

  /** Every prefix listed fits its 32 bytes with the terminator, is not empty and has no NUL. */
  lemma {:induction false} PrefixesFit(states: seq<M>, steps: seq<Step>, n: nat)
    requires Engine.Run(states, steps) && n < |states|
    ensures Listable(states[n].reg.urcs)
  {
    if n == 0 {
      RunStart(states, steps);
    } else {
      PrefixesFit(states, steps, n - 1);
      RunStep(states, steps, n - 1);
      EngineTasks.RunKeepsInv(states, steps, n - 1);
      RunKeepsAccepted(states, steps, n - 1);
      StepKeepsListable(states[n - 1], steps[n - 1], states[n]);
    }
  }
}
