/** The receive state machine as values: what one received byte, one task start and one task end do. */
module ReceiveSpec {
  import opened Bytes
  import opened AtcTypes
  import opened ByteStacks
  import opened Ticks
  import opened UrcSpec

  const LINE_MAX: nat := 256
  const RESPONSE_MAX: nat := 512
  const STACK_DEPTH: nat := 20

  const OK_MARKER: seq<byte> := [79, 75]
  const ERROR_MARKER: seq<byte> := [69, 82, 82, 79, 82]

  /** A received byte together with the URC registry in force when it is handled. */
  datatype Rx = Rx(b: byte, urcs: seq<Urc>)

  function BytesOf(input: seq<Rx>): (s: seq<byte>)
    ensures |s| == |input| && forall i :: 0 <= i < |s| ==> s[i] == input[i].b
  {
    seq(|input|, i requires 0 <= i < |input| => input[i].b)
  }

  /**
   * The receive side of the context. `line` is the used part of the line buffer, `response` the whole
   * response buffer, `window` the byte stack from bottom to top. `routed` (every byte given to the line
   * assembler), `handled` (every line it handed on), `trace` and `freed` are history.
   */
  datatype RxState = RxState(
    line: seq<byte>, response: seq<byte>, length: nat, window: seq<byte>, task: Option<Flight>,
    trace: seq<Event>, routed: seq<Rx>, handled: seq<seq<byte>>, freed: seq<nat>)

  const INITIAL: RxState := RxState([], Zeros(RESPONSE_MAX), 0, [], None, [], [], [], [])

  /** Buffer shape: enough for every operation to stay in bounds. */
  ghost predicate Shape(s: RxState) {
    && |s.line| < LINE_MAX
    && |s.response| == RESPONSE_MAX && s.length <= RESPONSE_MAX
    && |s.window| <= STACK_DEPTH
    && (!InBinary(s) ==> s.length < RESPONSE_MAX && ZeroFrom(s.response, s.length))
  }

  predicate InBinary(s: RxState) {
    s.task.Some? && s.task.value.status == Binary
  }

  function ClearResponse(s: RxState): RxState {
    s.(response := Zeros(RESPONSE_MAX), length := 0)
  }

  /** A line is kept whole, if it leaves room, or not at all. */
  function PushResponse(s: RxState, line: seq<byte>): (t: RxState)
    requires Shape(s) && !InBinary(s)
    ensures Shape(t)
  {
    if s.length + |line| < RESPONSE_MAX then
      StrCatTail(s.response, s.length, line);
      s.(response := StrCat(s.response, line), length := s.length + |line|)
    else s
  }

  /** The handler invocation at a task's end: the handler is given the response collected so far. */
  function Notify(s: RxState, result: AtcResult): RxState
    requires s.length <= |s.response|
  {
    if s.task.Some? then
      s.(trace := s.trace + [Completed(s.task.value.req, result, s.response[..s.length])])
    else s
  }

  /** After the handler: the task's blocks are freed, the response and the stack cleared. */
  function Release(s: RxState): RxState {
    ClearResponse(s).(
      freed := s.freed + (if s.task.Some? then Blocks(s.task.value) else []),
      task := None,
      window := [])
  }

  function CommandEnd(s: RxState, result: AtcResult): RxState
    requires Shape(s)
  {
    Release(Notify(s, result))
  }

  /** The result a final line carries. */
  function FinalResult(line: seq<byte>): Option<AtcResult> {
    if OK_MARKER <= line then Some(Success)
    else if ERROR_MARKER <= line then Some(Error)
    else None
  }

  // One byte: what it changes, and the result with which it ends the command, if it does.

  function NormalLine(s: RxState, line: seq<byte>): (r: (RxState, Option<AtcResult>))
    requires Shape(s) && !InBinary(s)
    ensures Shape(r.0)
  {
    (PushResponse(s, line), FinalResult(line))
  }

  function LineEffect(s: RxState, urcs: seq<Urc>, line: seq<byte>): (r: (RxState, Option<AtcResult>))
    requires Shape(s) && !InBinary(s)
    ensures Shape(r.0)
  {
    if |line| <= 2 then (s, None)
    else if IsUrcLine(urcs, line) then (s.(trace := s.trace + Calls(urcs, line)), None)
    else NormalLine(s, line)
  }

  /** The byte is stored if there is room; once 255 bytes wait without a line feed it is dropped. */
  function StoreByte(s: RxState, urcs: seq<Urc>, b: byte): (t: RxState)
    requires Shape(s)
    ensures Shape(t)
  {
    s.(routed := s.routed + [Rx(b, urcs)], line := if |s.line| < LINE_MAX - 1 then s.line + [b] else s.line)
  }

  /** The buffered line is handed on and the buffer emptied. */
  function FinishLine(s: RxState, urcs: seq<Urc>): (r: (RxState, Option<AtcResult>))
    requires Shape(s) && !InBinary(s)
    ensures Shape(r.0)
  {
    LineEffect(s.(line := [], handled := s.handled + [s.line]), urcs, s.line)
  }

  /** The line assembler. */
  function LineByte(s: RxState, urcs: seq<Urc>, b: byte): (r: (RxState, Option<AtcResult>))
    requires Shape(s) && !InBinary(s)
    ensures Shape(r.0)
  {
    var t := StoreByte(s, urcs, b);
    if |s.line| < LINE_MAX - 1 && b == LF then FinishLine(t, urcs) else (t, None)
  }

  /** The prompt is matched when it is NUL-free, not empty and the newest bytes on the stack. */
  ghost predicate Matches(window: seq<byte>, prompt: seq<byte>) {
    prompt != [] && NUL !in prompt && IsSuffix(prompt, window)
  }

  ghost function PromptByte(s: RxState, b: byte): (r: (RxState, Option<AtcResult>))
    requires Shape(s) && s.task.Some?
    ensures Shape(r.0)
  {
    var task := s.task.value;
    var window := Pushed(s.window, STACK_DEPTH, b);
    if Matches(window, task.req.prompt) then
      if task.req.need != 0 then
        (ClearResponse(s).(window := [], task := Some(task.(status := Binary))), None)
      else
        (s.(window := []), Some(Success))
    else
      (s.(window := window), None)
  }

  /**
   * The byte makes the comparison loop read the task it has just nulled: after a match with nothing to
   * receive the task is released, and the loop's guard looks at its prompt length once more.
   */
  ghost predicate ReadsNulledTask(s: RxState, b: byte) {
    s.task.Some? && s.task.value.status == Prompt && s.task.value.req.need == 0 &&
    Matches(Pushed(s.window, STACK_DEPTH, b), s.task.value.req.prompt)
  }

  function BinaryByte(s: RxState, b: byte): (r: (RxState, Option<AtcResult>))
    requires Shape(s) && InBinary(s)
    ensures Shape(r.0)
  {
    if s.length < RESPONSE_MAX then
      var s1 := s.(response := s.response[s.length := b], length := s.length + 1);
      (s1, if s1.length >= s.task.value.req.need then Some(Success) else None)
    else
      (s, None)
  }

  /** Routing by the current task's status. */
  ghost function ByteEffect(s: RxState, urcs: seq<Urc>, b: byte): (r: (RxState, Option<AtcResult>))
    requires Shape(s)
    ensures Shape(r.0)
  {
    if s.task.None? || s.task.value.status == LineRecv then LineByte(s, urcs, b)
    else if s.task.value.status == Prompt then PromptByte(s, b)
    else BinaryByte(s, b)
  }

  /** Ends the command if the effect says so. */
  function Settle(effect: (RxState, Option<AtcResult>)): (t: RxState)
    requires Shape(effect.0)
  {
    if effect.1.Some? then CommandEnd(effect.0, effect.1.value) else effect.0
  }

  ghost function ByteStep(s: RxState, urcs: seq<Urc>, b: byte): (t: RxState)
    requires Shape(s)
    ensures Shape(t)
  {
    Settle(ByteEffect(s, urcs, b))
  }

  /** send_msg_handle once a request is dequeued and memory was found. */
  function Begin(s: RxState, req: SendReq, block: nat, timestamp: nat): RxState {
    ClearResponse(s).(task := Some(Flight(req, InitialStatus(req), timestamp, block)))
  }

  // Streams.

  ghost function Feed(s: RxState, input: seq<Rx>): (t: RxState)
    requires Shape(s)
    ensures Shape(t)
  {
    if input == [] then s else
      var last := input[|input| - 1];
      ByteStep(Feed(s, input[..|input| - 1]), last.urcs, last.b)
  }

  /** Draining is a fold: how a stream is cut into chunks does not matter. */
  lemma {:induction false} FeedConcat(s: RxState, a: seq<Rx>, b: seq<Rx>)
    requires Shape(s)
    ensures Feed(s, a + b) == Feed(Feed(s, a), b)
  {
    if b == [] {
      assert a + b == a;
    } else {
      var init := b[..|b| - 1];
      assert (a + b)[..|a + b| - 1] == a + init;
      FeedConcat(s, a, init);
    }
  }

  /** The bytes of a drain, all met by the same registry. */
  function Stamped(bytes: seq<byte>, urcs: seq<Urc>): (input: seq<Rx>)
    ensures |input| == |bytes| && forall i :: 0 <= i < |bytes| ==> input[i] == Rx(bytes[i], urcs)
  {
    seq(|bytes|, i requires 0 <= i < |bytes| => Rx(bytes[i], urcs))
  }

  lemma StampedAppend(bytes: seq<byte>, b: byte, urcs: seq<Urc>)
    ensures Stamped(bytes + [b], urcs) == Stamped(bytes, urcs) + [Rx(b, urcs)]
    ensures Stamped(bytes + [b], urcs)[..|bytes|] == Stamped(bytes, urcs)
  {
  }

  lemma StampedConcat(a: seq<byte>, b: seq<byte>, urcs: seq<Urc>)
    ensures Stamped(a + b, urcs) == Stamped(a, urcs) + Stamped(b, urcs)
  {
  }

  /** send_msg_handle once a request was dequeued. */
  function Started(s: RxState, req: SendReq, hasMemory: bool, block: nat, now: nat, transmitted: bool): RxState
    requires Shape(s)
  {
    if !hasMemory then s.(trace := s.trace + [TaskLost(req)])
    else
      var t := Begin(s, req, block, now);
      if transmitted then t else CommandEnd(t, HardwareError)
  }

  /** What is left when a request found no memory, was refused by the hardware, or is on its way. */
  predicate StartsAs(s: RxState, req: SendReq, hasMemory: bool, block: nat, now: nat, transmitted: bool, t: RxState) {
    t.line == s.line && t.routed == s.routed && t.handled == s.handled &&
    if !hasMemory then
      t == s.(trace := s.trace + [TaskLost(req)])
    else
      t.length == 0 && t.response == Zeros(RESPONSE_MAX) &&
      if transmitted then
        t.task == Some(Flight(req, if req.promptBlock.Some? then Prompt else LineRecv, now, block)) &&
        t.trace == s.trace && t.freed == s.freed && t.window == s.window
      else
        t.task.None? && t.window == [] && t.trace == s.trace + [Completed(req, HardwareError, [])] &&
        t.freed == s.freed + ([req.data] + (if req.promptBlock.Some? then [req.promptBlock.value] else []) + [block])
  }

  lemma StartedIs(s: RxState, req: SendReq, hasMemory: bool, block: nat, now: nat, transmitted: bool)
    requires Shape(s)
    ensures StartsAs(s, req, hasMemory, block, now, transmitted, Started(s, req, hasMemory, block, now, transmitted))
  {
    var t := Begin(s, req, block, now);
    assert t.response[..t.length] == [];
  }

  /** No other state is described. */
  lemma StartsAsOnly(s: RxState, req: SendReq, hasMemory: bool, block: nat, now: nat, transmitted: bool, t: RxState)
    requires Shape(s) && StartsAs(s, req, hasMemory, block, now, transmitted, t)
    ensures t == Started(s, req, hasMemory, block, now, transmitted)
  {
    StartedIs(s, req, hasMemory, block, now, transmitted);
  }

  /** check_send_timeout. */
  function Checked(s: RxState, now: nat): RxState
    requires Shape(s)
  {
    if s.task.Some? && TimedOut(now, s.task.value.timestamp, s.task.value.req.timeout) then CommandEnd(s, Timeout)
    else s
  }

  /**
   * A task in flight whose ticks have reached its timeout ends with it, told what it has collected, and its
   * blocks are released; otherwise nothing happens.
   */
  predicate ChecksAs(s: RxState, now: nat, t: RxState)
    requires s.length <= |s.response|
  {
    if s.task.Some? && (now - s.task.value.timestamp) % 0x1_0000_0000 >= s.task.value.req.timeout then
      t.task.None? && t.length == 0 && t.response == Zeros(RESPONSE_MAX) && t.window == [] && t.line == s.line &&
      t.trace == s.trace + [Completed(s.task.value.req, Timeout, s.response[..s.length])] &&
      t.freed == s.freed + Blocks(s.task.value)
    else t == s
  }

  lemma CheckedIs(s: RxState, now: nat)
    requires Shape(s)
    ensures ChecksAs(s, now, Checked(s, now))
  {
  }

  function Joined(chunks: seq<seq<byte>>): seq<byte> {
    if chunks == [] then [] else Joined(chunks[..|chunks| - 1]) + chunks[|chunks| - 1]
  }

  /** Chunks received and drained one after the other. */
  ghost function DrainEach(s: RxState, chunks: seq<seq<byte>>, urcs: seq<Urc>): (t: RxState)
    requires Shape(s)
    ensures Shape(t)
  {
    if chunks == [] then s else
      Feed(DrainEach(s, chunks[..|chunks| - 1], urcs), Stamped(chunks[|chunks| - 1], urcs))
  }

  /** How a stream is cut into fully accepted and drained receive calls does not matter. */
  lemma {:induction false} ChunksDoNotMatter(s: RxState, chunks: seq<seq<byte>>, urcs: seq<Urc>)
    requires Shape(s)
    ensures DrainEach(s, chunks, urcs) == Feed(s, Stamped(Joined(chunks), urcs))
  {
    if chunks != [] {
      var init, last := chunks[..|chunks| - 1], chunks[|chunks| - 1];
      ChunksDoNotMatter(s, init, urcs);
      StampedConcat(Joined(init), last, urcs);
      FeedConcat(s, Stamped(Joined(init), urcs), Stamped(last, urcs));
    }
  }

  // The receive invariant.

  ghost predicate RxInv(s: RxState) {
    && Shape(s)
    && LF !in s.line
    && (s.window != [] ==> s.task.Some? && s.task.value.status == Prompt)
    && (s.task.Some? && s.task.value.status == Prompt ==> s.length == 0)
    && (InBinary(s) ==> s.length < s.task.value.req.need)
    && ZeroFrom(s.response, s.length)
    && (s.task.Some? && s.task.value.status != LineRecv ==> s.task.value.req.promptBlock.Some?)
    && (NUL !in BytesOf(s.routed) ==> NUL !in s.line)
    && (NUL !in BytesOf(s.routed) && !InBinary(s) ==> NUL !in s.response[..s.length])
  }

  /** Without NULs the response is terminated exactly at its recorded length, outside binary reception. */
  lemma TerminatedAtLength(s: RxState)
    requires RxInv(s) && NUL !in BytesOf(s.routed) && !InBinary(s)
    ensures s.length < RESPONSE_MAX && CLen(s.response) == s.length
  {
    CLenUnique(s.response, s.length);
  }

  lemma ReleaseKeepsInv(s: RxState)
    requires Shape(s) && LF !in s.line && (NUL !in BytesOf(s.routed) ==> NUL !in s.line)
    ensures RxInv(Release(s))
  {
  }

  lemma BeginKeepsInv(s: RxState, req: SendReq, block: nat, timestamp: nat)
    requires RxInv(s) && s.task.None?
    ensures RxInv(Begin(s, req, block, timestamp))
  {
  }

  lemma PushResponseKeepsInv(s: RxState, line: seq<byte>)
    requires RxInv(s) && !InBinary(s) && (s.task.None? || s.task.value.status == LineRecv)
    requires NUL !in BytesOf(s.routed) ==> NUL !in line
    ensures RxInv(PushResponse(s, line))
  {
    if s.length + |line| < RESPONSE_MAX {
      StrCatTail(s.response, s.length, line);
      if NUL !in BytesOf(s.routed) {
        StrCatExact(s.response, s.length, line);
      }
    }
  }

  lemma LineByteKeepsInv(s: RxState, urcs: seq<Urc>, b: byte)
    requires RxInv(s) && (s.task.None? || s.task.value.status == LineRecv)
    ensures RxInv(LineByte(s, urcs, b).0)
  {
    var line := s.line + [b];
    var routed := s.routed + [Rx(b, urcs)];
    assert BytesOf(routed) == BytesOf(s.routed) + [b];
    if |s.line| < LINE_MAX - 1 && b == LF {
      var s0 := s.(routed := routed, line := [], handled := s.handled + [line]);
      assert RxInv(s0);
      PushResponseKeepsInv(s0, line);
    }
  }

  lemma PromptByteKeepsInv(s: RxState, b: byte)
    requires RxInv(s) && s.task.Some? && s.task.value.status == Prompt
    ensures RxInv(PromptByte(s, b).0)
  {
  }

  /** In binary reception a byte either leaves more to come or ends the command. */
  lemma BinaryByteKeepsInv(s: RxState, b: byte)
    requires RxInv(s) && InBinary(s)
    ensures BinaryByte(s, b).1.None? ==> RxInv(BinaryByte(s, b).0)
  {
  }

  lemma ByteStepKeepsInv(s: RxState, urcs: seq<Urc>, b: byte)
    requires RxInv(s)
    ensures RxInv(ByteStep(s, urcs, b))
  {
    var (s1, end) := ByteEffect(s, urcs, b);
    if s.task.None? || s.task.value.status == LineRecv {
      LineByteKeepsInv(s, urcs, b);
    } else if s.task.value.status == Prompt {
      PromptByteKeepsInv(s, b);
    } else {
      BinaryByteKeepsInv(s, b);
    }
    if end.Some? {
      ReleaseKeepsInv(Notify(s1, end.value));
    }
  }

  /** While a task lasts its status changes at most from Prompt to Binary, and its request never. */
  lemma StatusOnlyMovesToBinary(s: RxState, urcs: seq<Urc>, b: byte)
    requires Shape(s)
    ensures var t := ByteStep(s, urcs, b);
            t.task.Some? ==> s.task.Some? && t.task.value.req == s.task.value.req &&
                             t.task.value.block == s.task.value.block &&
                             t.task.value.timestamp == s.task.value.timestamp &&
                             (t.task.value.status == s.task.value.status ||
                              (s.task.value.status == Prompt && t.task.value.status == Binary))
  {
  }
}
