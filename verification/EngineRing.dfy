/** The ring of the machine is the ring that every interleaving of its loads and stores amounts to. */
module EngineRing {
  import opened Bytes
  import opened Engine
  import RI = RingInterleaving

  /** What a step of the machine does with the ring. */
  function RingOpOf(m: M, step: Step): RI.RingOp
    requires Enabled(m, step)
  {
    match step
    case OfIsr(IsrByte) => RI.Put(m.isr.data[m.isr.count])
    case OfIsr(IsrFull) => RI.Refuse
    case OfLoop(DrainByte(_, _)) => RI.Get(m.ring[0])
    case OfLoop(DrainDone) => RI.FindEmpty
    case _ => RI.Nothing
  }

  /**
   * Every step of the machine does with its ring exactly one of the operations that interleaved loads and
   * stores of a ring of 256 cells do, or none.
   */
  lemma MachineRingSteps(m: M, step: Step, m': M)
    requires Follows(m, step, m')
    ensures RI.RingStep(RingOpOf(m, step), m.ring, m'.ring, RING_ROOM)
  {
  }

  /** And it leaves none out: whatever such an operation can do to the ring, the interrupt and the loop can do. */
  lemma MachineRingAllows(m: M, op: RI.RingOp, after: seq<byte>)
    requires RI.RingStep(op, m.ring, after, RING_ROOM)
    ensures m.isr.Writing? && m.isr.count < |m.isr.data| && op == RI.Put(m.isr.data[m.isr.count]) ==>
              CanIsr(m, IsrByte) && DoIsr(m, IsrByte).ring == after
    ensures m.isr.Writing? && op.Refuse? ==> CanIsr(m, IsrFull) && DoIsr(m, IsrFull).ring == after
    ensures m.loop.Drain? && op.Get? ==>
              forall rx, end :: CanLoop(m, DrainByte(rx, end)) && m.ring[0] == op.b && m.ring[1..] == after
    ensures m.loop.Drain? && op.FindEmpty? ==> CanLoop(m, DrainDone) && m.ring == after
  {
  }

  /**
   * Seen through its operations, an interleaving of loads and stores on 256 cells is a path of the machine's
   * ring: the same guards, the same contents.
   */
  lemma InterleavingsAreMachineSteps(states: seq<RI.State>, steps: seq<RI.Step>, n: nat, m: M)
    requires RI.Run(states, steps) && n < |steps| && |states[n].cells| == RING_ROOM + 1
    requires RI.Indices(states[n]) && RI.Queue(states[n]) == m.ring
    ensures RI.Indices(states[n + 1]) && RI.Can(states[n], steps[n])
    ensures var (op, after) := (RI.OpOf(states[n], steps[n]), RI.Queue(states[n + 1]));
            RI.RingStep(op, m.ring, after, RING_ROOM) &&
            (m.isr.Writing? && m.isr.count < |m.isr.data| && op == RI.Put(m.isr.data[m.isr.count]) ==>
               CanIsr(m, IsrByte) && DoIsr(m, IsrByte).ring == after) &&
            (m.isr.Writing? && op.Refuse? ==> CanIsr(m, IsrFull) && DoIsr(m, IsrFull).ring == after)
  {
    RI.EveryInterleavingIsAtomic(states, steps, n);
    MachineRingAllows(m, RI.OpOf(states[n], steps[n]), RI.Queue(states[n + 1]));
  }
}
