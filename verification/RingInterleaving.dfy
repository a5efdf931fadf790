/**
 * One producer inside ring_buffer_write and one consumer inside ring_buffer_read, interleaved at the
 * granularity of single loads and stores, under sequential consistency.
 */
module RingInterleaving {
  import opened Bytes
  import opened RingBuffers

  /** Where the producer is; `next` and `slot` are its registers. */
  datatype Producer =
    | Outside
    | GotNext(data: byte, next: nat)
    | HasRoom(data: byte, next: nat)
    | HasSlot(data: byte, next: nat, slot: nat)
    | CellWritten(data: byte, next: nat)

  /**
   * Where the consumer is. The two volatile loads of the emptiness test may happen in either order;
   * `empty` records whether the ring was empty when the write index was loaded.
   */
  datatype Consumer =
    | Away
    | GotRead(x: nat)
    | GotWrite(y: nat, empty: bool)
    | GotBoth(x: nat, y: nat, empty: bool)
    | NotEmpty
    | AtSlot(slot: nat)
    | GotByte(b: byte)
    | GotNewRead(b: byte, next: nat)

  datatype State = State(cells: seq<byte>, r: nat, w: nat, p: Producer, c: Consumer,
                         published: seq<byte>, consumed: seq<byte>)

  datatype Step =
    | LoadNextWrite(data: byte) | TestFull | LoadWriteSlot | StoreCell | StoreWriteIndex
    | LoadReadIndex | LoadWriteIndex | TestEmpty | LoadReadSlot | LoadCell | LoadReadAgain | StoreReadIndex

  function Queue(s: State): seq<byte>
    requires s.r < |s.cells| && s.w < |s.cells|
  {
    Stored(s.cells, s.r, s.w)
  }

  predicate Can(s: State, step: Step) {
    match step
    case LoadNextWrite(_) => s.p.Outside?
    case TestFull => s.p.GotNext?
    case LoadWriteSlot => s.p.HasRoom?
    case StoreCell => s.p.HasSlot? && s.p.slot < |s.cells|
    case StoreWriteIndex => s.p.CellWritten?
    case LoadReadIndex => s.c.Away? || s.c.GotWrite?
    case LoadWriteIndex => s.c.Away? || s.c.GotRead?
    case TestEmpty => s.c.GotBoth?
    case LoadReadSlot => s.c.NotEmpty?
    case LoadCell => s.c.AtSlot? && s.c.slot < |s.cells|
    case LoadReadAgain => s.c.GotByte?
    case StoreReadIndex => s.c.GotNewRead?
  }

  function Do(s: State, step: Step): State
    requires s.r < |s.cells| && s.w < |s.cells| && Can(s, step)
  {
    match step
    case LoadNextWrite(data) => s.(p := GotNext(data, NextIndex(s.w, |s.cells|)))
    case TestFull => if s.p.next == s.r then s.(p := Outside) else s.(p := HasRoom(s.p.data, s.p.next))
    case LoadWriteSlot => s.(p := HasSlot(s.p.data, s.p.next, s.w))
    case StoreCell => s.(cells := s.cells[s.p.slot := s.p.data], p := CellWritten(s.p.data, s.p.next))
    case StoreWriteIndex => s.(w := s.p.next, p := Outside, published := s.published + [s.p.data])
    case LoadReadIndex =>
      s.(c := if s.c.Away? then GotRead(s.r) else GotBoth(s.r, s.c.y, s.c.empty))
    case LoadWriteIndex =>
      s.(c := if s.c.Away? then GotWrite(s.w, Queue(s) == []) else GotBoth(s.c.x, s.w, Queue(s) == []))
    case TestEmpty => if s.c.x == s.c.y then s.(c := Away) else s.(c := NotEmpty)
    case LoadReadSlot => s.(c := AtSlot(s.r))
    case LoadCell => s.(c := GotByte(s.cells[s.c.slot]))
    case LoadReadAgain => s.(c := GotNewRead(s.c.b, NextIndex(s.r, |s.cells|)))
    case StoreReadIndex => s.(r := s.c.next, c := Away, consumed := s.consumed + [s.c.b])
  }

  ghost predicate Start(s: State) {
    2 <= |s.cells| && s.r == s.w == 0 && s.p == Outside && s.c == Away && s.published == s.consumed == []
  }

  ghost predicate Indices(s: State) {
    2 <= |s.cells| && s.r < |s.cells| && s.w < |s.cells|
  }

  ghost predicate ProducerInv(s: State)
    requires Indices(s)
  {
    match s.p
    case Outside => true
    case GotNext(_, next) => next == NextIndex(s.w, |s.cells|)
    case HasRoom(_, next) => next == NextIndex(s.w, |s.cells|) && next != s.r
    case HasSlot(_, next, slot) => next == NextIndex(s.w, |s.cells|) && next != s.r && slot == s.w
    case CellWritten(data, next) => next == NextIndex(s.w, |s.cells|) && next != s.r && s.cells[s.w] == data
  }

  ghost predicate ConsumerInv(s: State)
    requires Indices(s)
  {
    match s.c
    case Away => true
    case GotRead(x) => x == s.r
    case GotWrite(y, empty) => (empty <==> y == s.r) && (!empty ==> s.r != s.w)
    case GotBoth(x, y, empty) => x == s.r && (empty <==> x == y) && (!empty ==> s.r != s.w)
    case NotEmpty => s.r != s.w
    case AtSlot(slot) => slot == s.r && s.r != s.w
    case GotByte(b) => s.r != s.w && b == s.cells[s.r]
    case GotNewRead(b, next) => s.r != s.w && b == s.cells[s.r] && next == NextIndex(s.r, |s.cells|)
  }

  ghost predicate Inv(s: State) {
    Indices(s) && ProducerInv(s) && ConsumerInv(s) && s.published == s.consumed + Queue(s)
  }

  lemma StoreCellKeepsInv(s: State)
    requires Inv(s) && Can(s, StoreCell)
    ensures Inv(Do(s, StoreCell))
  {
    StoreAndAdvance(s.cells, s.r, s.w, s.p.data);
  }

  lemma StoreWriteIndexKeepsInv(s: State)
    requires Inv(s) && Can(s, StoreWriteIndex)
    ensures Inv(Do(s, StoreWriteIndex))
  {
    StoreAndAdvance(s.cells, s.r, s.w, s.p.data);
    assert s.cells == s.cells[s.w := s.p.data];
    var t := Do(s, StoreWriteIndex);
    assert t.published == t.consumed + Queue(t);
  }

  lemma StoreReadIndexKeepsInv(s: State)
    requires Inv(s) && Can(s, StoreReadIndex)
    ensures Inv(Do(s, StoreReadIndex))
  {
    LoadAndAdvance(s.cells, s.r, s.w);
    var t := Do(s, StoreReadIndex);
    assert t.published == t.consumed + Queue(t);
  }

  lemma LoadKeepsInv(s: State, step: Step)
    requires Inv(s) && Can(s, step)
    requires !step.StoreCell? && !step.StoreWriteIndex? && !step.StoreReadIndex?
    ensures Inv(Do(s, step))
  {
    var t := Do(s, step);
    assert t.cells == s.cells && t.r == s.r && t.w == s.w;
    assert Queue(s) == [] <==> s.r == s.w;
    assert ProducerInv(t);
    assert ConsumerInv(t);
  }

  lemma StepKeepsInv(s: State, step: Step)
    requires Inv(s) && Can(s, step)
    ensures Inv(Do(s, step))
  {
    if step.StoreCell? {
      StoreCellKeepsInv(s);
    } else if step.StoreWriteIndex? {
      StoreWriteIndexKeepsInv(s);
    } else if step.StoreReadIndex? {
      StoreReadIndexKeepsInv(s);
    } else {
      LoadKeepsInv(s, step);
    }
  }

  /** s is a state some interleaving can reach: it ends a run of enabled steps from a start state. */
  ghost predicate Run(states: seq<State>, steps: seq<Step>) {
    |states| == |steps| + 1 && Start(states[0]) &&
    forall i {:trigger steps[i]} | 0 <= i < |steps| ::
      Indices(states[i]) && Can(states[i], steps[i]) && states[i + 1] == Do(states[i], steps[i])
  }

  lemma {:induction false} RunKeepsInv(states: seq<State>, steps: seq<Step>, n: nat)
    requires Run(states, steps) && n < |states|
    ensures Inv(states[n])
  {
    if n > 0 {
      RunKeepsInv(states, steps, n - 1);
      assert Can(states[n - 1], steps[n - 1]);
      StepKeepsInv(states[n - 1], steps[n - 1]);
    }
  }

  /** Any step the program counters allow can be taken: the side conditions on indices exclude nothing. */
  lemma RunIsNeverCut(states: seq<State>, steps: seq<Step>)
    requires Run(states, steps)
    ensures var s := states[|steps|];
            Indices(s) && (s.p.HasSlot? ==> Can(s, StoreCell)) && (s.c.AtSlot? ==> Can(s, LoadCell))
  {
    RunKeepsInv(states, steps, |steps|);
  }

  /**
   * FIFO refinement over every interleaving: what the consumer took, followed by what the ring holds,
   * is what the producer published, in order, and one cell always stays free.
   */
  lemma FifoUnderEveryInterleaving(states: seq<State>, steps: seq<Step>, n: nat)
    requires Run(states, steps) && n < |states|
    ensures Indices(states[n])
    ensures states[n].published == states[n].consumed + Queue(states[n])
    ensures |Queue(states[n])| <= |states[n].cells| - 1
  {
    RunKeepsInv(states, steps, n);
  }

  /** No store hits a cell that holds an unread byte, and the cell loaded is the oldest unread byte. */
  lemma NoUnreadCellOverwritten(states: seq<State>, steps: seq<Step>, n: nat)
    requires Run(states, steps) && n < |steps|
    ensures Indices(states[n]) && Indices(states[n + 1])
    ensures steps[n].StoreCell? ==> Queue(states[n + 1]) == Queue(states[n])
    ensures steps[n].StoreReadIndex? ==>
              Queue(states[n]) != [] && states[n].c.b == Queue(states[n])[0] &&
              Queue(states[n + 1]) == Queue(states[n])[1..]
    ensures steps[n].StoreWriteIndex? ==> Queue(states[n + 1]) == Queue(states[n]) + [states[n].p.data]
    ensures !steps[n].StoreReadIndex? && !steps[n].StoreWriteIndex? ==> Queue(states[n + 1]) == Queue(states[n])
  {
    RunKeepsInv(states, steps, n);
    RunKeepsInv(states, steps, n + 1);
    var s := states[n];
    assert Can(s, steps[n]) && states[n + 1] == Do(s, steps[n]);
    if steps[n].StoreCell? || steps[n].StoreWriteIndex? {
      StoreAndAdvance(s.cells, s.r, s.w, s.p.data);
      assert steps[n].StoreWriteIndex? ==> s.cells == s.cells[s.w := s.p.data];
    } else if steps[n].StoreReadIndex? {
      LoadAndAdvance(s.cells, s.r, s.w);
    }
  }

  /**
   * The two refusals are exact: the producer gives up exactly when the ring is full at its test, and
   * the consumer reports empty exactly when the ring was empty as it loaded the write index.
   */
  lemma VerdictsAreExact(states: seq<State>, steps: seq<Step>, n: nat)
    requires Run(states, steps) && n < |steps|
    ensures Indices(states[n])
    ensures steps[n].TestFull? ==>
              (states[n + 1].p.Outside? <==> |Queue(states[n])| == |states[n].cells| - 1)
    ensures steps[n].TestEmpty? ==> (states[n + 1].c.Away? <==> states[n].c.empty)
  {
    RunKeepsInv(states, steps, n);
    assert Can(states[n], steps[n]) && states[n + 1] == Do(states[n], steps[n]);
  }

  // The ring as a single value, one operation at a time.

  datatype RingOp = Put(b: byte) | Refuse | Get(b: byte) | FindEmpty | Nothing

  /** The operation leads from one content to the other, in a ring that holds so many bytes. */
  predicate RingStep(op: RingOp, before: seq<byte>, after: seq<byte>, room: nat) {
    match op
    case Put(b) => |before| < room && after == before + [b]
    case Refuse => |before| >= room && after == before
    case Get(b) => before != [] && b == before[0] && after == before[1..]
    case FindEmpty => before == [] && after == before
    case Nothing => after == before
  }

  /** The operation that takes effect with this load or store. */
  function OpOf(s: State, step: Step): RingOp
    requires s.r < |s.cells| && s.w < |s.cells| && Can(s, step)
  {
    match step
    case TestFull => if s.p.next == s.r then Refuse else Nothing
    case StoreWriteIndex => Put(s.p.data)
    case LoadWriteIndex => if Queue(s) == [] then FindEmpty else Nothing
    case StoreReadIndex => Get(s.c.b)
    case _ => Nothing
  }

  /** A write call returns with this step; what it returns is whether it stored its byte. */
  predicate WriteReturns(s: State, t: State) {
    !s.p.Outside? && t.p.Outside?
  }

  predicate ReadReturns(s: State, t: State) {
    !s.c.Away? && t.c.Away?
  }

  /**
   * Linearisation: over every interleaving each load or store does one operation of the ring as a value, or
   * nothing. A write call returns exactly with its Put or its Refuse. A read call returns with its Get, or
   * after it has loaded the write index of an empty ring; `empty` says that it has.
   */
  lemma EveryInterleavingIsAtomic(states: seq<State>, steps: seq<Step>, n: nat)
    requires Run(states, steps) && n < |steps|
    ensures var (s, t) := (states[n], states[n + 1]);
            Indices(s) && Indices(t) && Can(s, steps[n]) && t == Do(s, steps[n]) &&
            RingStep(OpOf(s, steps[n]), Queue(s), Queue(t), |s.cells| - 1) &&
            (WriteReturns(s, t) <==> OpOf(s, steps[n]).Put? || OpOf(s, steps[n]).Refuse?) &&
            (ReadReturns(s, t) <==> OpOf(s, steps[n]).Get? || (steps[n].TestEmpty? && s.c.empty)) &&
            (steps[n].LoadWriteIndex? ==> (t.c.empty <==> OpOf(s, steps[n]).FindEmpty?))
  {
    RunKeepsInv(states, steps, n);
    assert Can(states[n], steps[n]) && states[n + 1] == Do(states[n], steps[n]);
    NoUnreadCellOverwritten(states, steps, n);
    VerdictsAreExact(states, steps, n);
    FifoUnderEveryInterleaving(states, steps, n + 1);
  }
}
