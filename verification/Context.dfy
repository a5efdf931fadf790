/** The context and the functions that change it in place (recv_data_handle.c, send_msg_handle.c, ATCortex.c). */
module Contexts {
  import opened Bytes
  import opened AtcTypes
  import opened ByteStacks
  import opened RingBuffers
  import opened UrcSpec
  import opened UrcRegistries
  import opened ReceiveSpec
  import LineTheory
  import opened Ticks

  /** The heap copy of the request in flight. */
  class SendTask {
    const req: SendReq
    const block: nat
    var status: Status
    var timestamp: nat
    var data: Option<nat>
    var prompt: Option<nat>

    constructor (req: SendReq, block: nat)
      ensures this.req == req && this.block == block
      ensures status == InitialStatus(req) && timestamp == 0
      ensures data == Some(req.data) && prompt == req.promptBlock
    {
      this.req, this.block := req, block;
      status, timestamp := InitialStatus(req), 0;
      data, prompt := Some(req.data), req.promptBlock;
    }

    ghost predicate Holding()
      reads this
    {
      data == Some(req.data) && prompt == req.promptBlock
    }

    ghost function Value(): Flight
      reads this
    {
      Flight(req, status, timestamp, block)
    }
  }

  /** strlen, looking at no more than the first n bytes. */
  method StringLength(a: array<byte>, n: nat) returns (k: nat)
    requires n <= a.Length
    ensures k == CLen(a[..n])
  {
    k := 0;
    while k < n && a[k] != NUL
      invariant k <= n && forall i | 0 <= i < k :: a[i] != NUL
    {
      k := k + 1;
    }
    CLenUnique(a[..n], k);
  }

  /** strncat on arrays: src up to its first NUL (at most n bytes) goes behind dest's terminator. */
  method AppendString(dest: array<byte>, src: array<byte>, n: nat)
    requires dest != src && n <= src.Length
    requires CLen(dest[..]) + CLen(src[..n]) < dest.Length
    modifies dest
    ensures dest[..] == StrCat(old(dest[..]), src[..n])
  {
    ghost var was, source := dest[..], src[..n];
    assert dest[..dest.Length] == was;
    var end := StringLength(dest, dest.Length);
    var count := StringLength(src, n);
    forall i | end <= i < end + count {
      dest[i] := src[i - end];
    }
    dest[end + count] := NUL;
    forall i | 0 <= i < dest.Length ensures dest[i] == StrCat(was, source)[i] {
      StrCatAt(was, source, i);
    }
    assert dest[..] == StrCat(was, source) && src[..n] == source;
  }

  lemma MatchesIffPeeks(window: seq<byte>, prompt: seq<byte>)
    ensures Matches(window, prompt) <==>
            prompt != [] && forall k | 0 <= k < |prompt| ::
              Peek(window, k) != NUL && Peek(window, k) == prompt[|prompt| - 1 - k]
  {
    if Matches(window, prompt) {
      forall k | 0 <= k < |prompt|
        ensures Peek(window, k) != NUL && Peek(window, k) == prompt[|prompt| - 1 - k]
      {
        assert window[|window| - |prompt|..][|prompt| - 1 - k] == prompt[|prompt| - 1 - k];
        assert prompt[|prompt| - 1 - k] in prompt;
      }
    } else if prompt != [] && forall k | 0 <= k < |prompt| ::
        Peek(window, k) != NUL && Peek(window, k) == prompt[|prompt| - 1 - k] {
      assert Peek(window, |prompt| - 1) != NUL;
      forall i | 0 <= i < |prompt| ensures prompt[i] == window[|window| - |prompt| + i] != NUL {
        assert Peek(window, |prompt| - 1 - i) == prompt[i];
      }
      assert window[|window| - |prompt|..] == prompt;
    }
  }

  /** One more byte of a drain. */
  lemma FeedOneMore(s: RxState, all: seq<byte>, n: nat, urcs: seq<Urc>)
    requires Shape(s) && n < |all|
    ensures Feed(s, Stamped(all[..n + 1], urcs)) == ByteStep(Feed(s, Stamped(all[..n], urcs)), urcs, all[n])
    ensures all[n..][1..] == all[n + 1..] && all[n..][0] == all[n]
  {
    assert all[..n + 1] == all[..n] + [all[n]];
    StampedAppend(all[..n], all[n], urcs);
  }

  /** Handling a line neither reads nor changes the line buffer. */
  lemma LineFieldIsFree(s: RxState, urcs: seq<Urc>, line: seq<byte>)
    requires Shape(s) && !InBinary(s)
    ensures Settle(LineEffect(s.(line := []), urcs, line)) == Settle(LineEffect(s, urcs, line)).(line := [])
  {
  }

  class Context {
    const ring: RingBuffer
    const urcs: UrcRegistry
    const byteStack: ByteStack
    const lineBuffer: array<byte>
    var lineIndex: nat
    const response: array<byte>
    var responseLength: nat
    var current: SendTask?
    var sendQueue: seq<SendReq>
    var wake: bool
    /** The abstract receive state, history included. */
    ghost var rx: RxState

    ghost predicate Valid()
      reads this, lineBuffer, response, byteStack, byteStack.items, current
    {
      Fields() && Shape(rx)
    }

    /** The fields are what the abstract receive state says. */
    ghost predicate Fields()
      reads this, lineBuffer, response, byteStack, byteStack.items, current
    {
      && lineBuffer.Length == LINE_MAX && response.Length == RESPONSE_MAX
      && lineBuffer != response && byteStack.items != lineBuffer && byteStack.items != response
      && byteStack.items.Length == STACK_DEPTH && byteStack.Valid()
      && lineIndex < LINE_MAX && rx.line == lineBuffer[..lineIndex]
      && rx.response == response[..] && rx.length == responseLength
      && rx.window == byteStack.Contents()
      && (current == null <==> rx.task.None?)
      && (current != null ==> current.Holding() && rx.task.value == current.Value())
    }

    /** Nothing but the receive side has changed. */
    twostate predicate OnlyReceived()
      reads this
    {
      sendQueue == old(sendQueue) && wake == old(wake) && (current == old(current) || current == null)
    }

    ghost predicate Registered()
      reads urcs, urcs.list, urcs.list.nodes
    {
      urcs.Valid() && forall u | u in urcs.state.urcs :: NUL !in u.prefix
    }

    /** The initialised context: empty buffers, an empty registry, nothing queued. */
    constructor ()
      ensures Ready() && rx == INITIAL && sendQueue == [] && current == null
      ensures ring.queue == [] && ring.buffer.Length == 256 && urcs.state == EMPTY_REGISTRY
    {
      ring := new RingBuffer();
      urcs := new UrcRegistry();
      byteStack := new ByteStack(STACK_DEPTH);
      lineBuffer := new byte[LINE_MAX];
      response := new byte[RESPONSE_MAX](_ => NUL);
      lineIndex, responseLength, current, sendQueue, wake := 0, 0, null, [], false;
      rx := INITIAL;
      new;
      assert response[..] == Zeros(RESPONSE_MAX);
      InitRing();
    }

    /** Gives the ring a buffer of its own. */
    method InitRing()
      requires Valid() && Registered() && ring.Valid()
      modifies ring
      ensures Ready() && ring.queue == [] && ring.buffer.Length == 256
    {
      var rxData := new byte[256];
      var _ := ring.Init(rxData);
    }

    method ClearResponseBuffer()
      requires Fields()
      modifies this`responseLength, this`rx, response
      ensures Fields() && rx == ClearResponse(old(rx))
    {
      forall i | 0 <= i < response.Length {
        response[i] := NUL;
      }
      responseLength := 0;
      rx := ClearResponse(rx);
      assert response[..] == Zeros(RESPONSE_MAX);
    }

    method PushToResponseBuffer(length: nat)
      requires Valid() && length < LINE_MAX && !InBinary(rx)
      modifies this`responseLength, this`rx, response
      ensures Valid() && rx == PushResponse(old(rx), lineBuffer[..length])
    {
      ghost var next := PushResponse(rx, lineBuffer[..length]);
      if responseLength + length < RESPONSE_MAX {
        StrCatTail(response[..], responseLength, lineBuffer[..length]);
        AppendString(response, lineBuffer, length);
        responseLength := responseLength + length;
      }
      rx := next;
    }

    /** Frees the task in flight: its data, its prompt, itself. */
    method FreeTask(task: SendTask) returns (ghost blocks: seq<nat>)
      requires task.Holding()
      modifies task
      ensures blocks == Blocks(old(task.Value()))
    {
      blocks := [];
      if task.data.Some? {
        blocks := blocks + [task.data.value];
        task.data := None;
      }
      if task.prompt.Some? {
        blocks := blocks + [task.prompt.value];
        task.prompt := None;
      }
      blocks := blocks + [task.block];
    }

    method CommandEndHandle(result: AtcResult)
      requires Valid()
      modifies this`current, this`responseLength, this`rx, response, byteStack, current
      ensures Valid() && current == null && rx == CommandEnd(old(rx), result)
    {
      ghost var blocks := [];
      rx := Notify(rx, result);
      if current != null {
        blocks := FreeTask(current);
        current := null;
      }
      rx := rx.(task := None, freed := rx.freed + blocks);
      rx := rx.(window := []);
      byteStack.Clear();
      ClearResponseBuffer();
    }

    /** A line that is no URC: collect it and look for the end markers, OK before ERROR. */
    method NormalLineHandle(length: nat)
      requires Valid() && length < LINE_MAX && !InBinary(rx)
      modifies this`current, this`responseLength, this`rx, response, byteStack, current
      ensures Valid() && rx == Settle(NormalLine(old(rx), old(lineBuffer[..length])))
      ensures LineTheory.EndsAsItSays(old(rx), old(lineBuffer[..length]), rx)
      ensures current == old(current) || current == null
    {
      LineTheory.NormalLineEndsAsItSays(rx, lineBuffer[..length]);
      PushToResponseBuffer(length);
      StrNCmpIsPrefix(lineBuffer[..length], OK_MARKER);
      StrNCmpIsPrefix(lineBuffer[..length], ERROR_MARKER);
      if length >= |OK_MARKER| && StrNCmpEqual(lineBuffer[..length], OK_MARKER) {
        CommandEndHandle(Success);
      } else if length >= |ERROR_MARKER| && StrNCmpEqual(lineBuffer[..length], ERROR_MARKER) {
        CommandEndHandle(Error);
      }
    }

    /** Calls the matching URC handlers. */
    method UrcLineHandle(length: nat) returns (isUrc: bool)
      requires Valid() && length < LINE_MAX && Registered()
      modifies this`rx
      ensures Valid() && isUrc == IsUrcLine(urcs.state.urcs, lineBuffer[..length])
      ensures rx == old(rx).(trace := old(rx).trace + Calls(urcs.state.urcs, lineBuffer[..length]))
    {
      ghost var calls;
      isUrc, calls := urcs.Dispatch(lineBuffer[..length]);
      rx := rx.(trace := rx.trace + calls);
    }

    method LineHandle(length: nat)
      requires Valid() && length < LINE_MAX && !InBinary(rx) && Registered()
      modifies this`current, this`responseLength, this`rx, response, byteStack, current
      ensures Valid()
      ensures rx == Settle(LineEffect(old(rx), old(urcs.state).urcs, old(lineBuffer[..length])))
      ensures current == old(current) || current == null
    {
      if length <= 2 {
        return;
      }
      ghost var before := rx;
      CallsIffUrcLine(urcs.state.urcs, lineBuffer[..length]);
      var isUrc := UrcLineHandle(length);
      if !isUrc {
        assert rx == before;
        NormalLineHandle(length);
      }
    }

    /** Stores a byte in the line buffer, if there is room. */
    method StoreLineByte(b: byte) returns (stored: bool)
      requires Valid()
      modifies this`rx, this`lineIndex, lineBuffer
      ensures Valid() && stored == (old(lineIndex) < LINE_MAX - 1)
      ensures rx == StoreByte(old(rx), urcs.state.urcs, b)
    {
      rx := StoreByte(rx, urcs.state.urcs, b);
      if lineIndex >= LINE_MAX - 1 {
        return false;
      }
      lineBuffer[lineIndex] := b;
      lineIndex := lineIndex + 1;
      assert lineBuffer[..lineIndex] == old(lineBuffer[..lineIndex]) + [b];
      return true;
    }

    /** Terminates the buffered line. */
    method TerminateLine()
      requires Valid()
      modifies this`rx, lineBuffer
      ensures Valid() && lineBuffer[..lineIndex] == rx.line
      ensures rx == old(rx).(handled := old(rx).handled + [old(rx).line])
    {
      lineBuffer[lineIndex] := NUL;
      rx := rx.(handled := rx.handled + [rx.line]);
    }

    method EmptyLine()
      requires Valid()
      modifies this`rx, this`lineIndex
      ensures Valid() && rx == old(rx).(line := [])
    {
      lineIndex := 0;
      rx := rx.(line := []);
    }

    /** Terminates the buffered line, hands it on and empties the buffer. */
    method HandOnLine()
      requires Valid() && !InBinary(rx) && Registered()
      modifies this, lineBuffer, response, byteStack, current
      ensures Valid() && OnlyReceived()
      ensures rx == Settle(FinishLine(old(rx), old(urcs.state).urcs))
    {
      TerminateLine();
      LineFieldIsFree(rx, urcs.state.urcs, rx.line);
      LineHandle(lineIndex);
      EmptyLine();
    }

    method ByteLineHandle(b: byte)
      requires Valid() && !InBinary(rx) && Registered()
      modifies this, lineBuffer, response, byteStack, byteStack.items, current
      ensures Valid() && OnlyReceived() && rx == Settle(LineByte(old(rx), old(urcs.state).urcs, b))
    {
      var stored := StoreLineByte(b);
      if stored && b == LF {
        HandOnLine();
      }
    }

    /** Compares the stack with the prompt from the newest byte down. */
    method PromptOnTop() returns (matched: bool)
      requires byteStack.Valid() && current != null
      ensures matched == Matches(byteStack.Contents(), current.req.prompt)
    {
      var prompt := current.req.prompt;
      MatchesIffPeeks(byteStack.Contents(), prompt);
      var i := 0;
      while i < |prompt|
        invariant i <= |prompt| && (prompt != [] ==> i < |prompt|)
        invariant forall k | 0 <= k < i ::
          Peek(byteStack.Contents(), k) != NUL && Peek(byteStack.Contents(), k) == prompt[|prompt| - 1 - k]
      {
        var top := byteStack.PeekAt(i);
        if top == NUL || top != prompt[|prompt| - 1 - i] {
          return false;
        }
        if i == |prompt| - 1 {
          return true;
        }
        i := i + 1;
      }
      return false;
    }

    /** The guard of the comparison loop, as far as it concerns the task: it is read, nulled or not. */
    method GuardReadsNulled() returns (nulled: bool)
      ensures nulled == (current == null)
    {
      nulled := current == null;
    }

    /**
     * On a match with nothing to receive the command ends, and the loop goes round to its guard once more:
     * `nulledRead` reports that the guard then reads the task that has just been nulled. What the code does
     * after such a read is undefined; here the comparison stops.
     */
    method BytePromptHandle(b: byte) returns (nulledRead: bool)
      requires Valid() && current != null && current.status == Prompt
      modifies this, response, byteStack, byteStack.items, current
      ensures Valid() && OnlyReceived() && rx == Settle(PromptByte(old(rx), b))
      ensures nulledRead == ReadsNulledTask(old(rx), b)
    {
      byteStack.PushOverwrite(b);
      rx := rx.(window := Pushed(rx.window, STACK_DEPTH, b));
      nulledRead := false;
      var matched := PromptOnTop();
      if matched {
        byteStack.Clear();
        rx := rx.(window := []);
        if current.req.need != 0 {
          ClearResponseBuffer();
          current.status := Binary;
          rx := rx.(task := Some(current.Value()));
        } else {
          CommandEndHandle(Success);
        }
        nulledRead := GuardReadsNulled();
      }
    }

    method ByteBinaryHandle(b: byte)
      requires Valid() && InBinary(rx)
      modifies this, response, byteStack, current
      ensures Valid() && OnlyReceived() && rx == Settle(BinaryByte(old(rx), b))
    {
      if responseLength < RESPONSE_MAX {
        response[responseLength] := b;
        responseLength := responseLength + 1;
        rx := BinaryByte(rx, b).0;
        if responseLength >= current.req.need {
          CommandEndHandle(Success);
        }
      }
    }

    /** One byte taken from the ring. */
    method ByteHandle(b: byte) returns (nulledRead: bool)
      requires Valid() && Registered()
      modifies this, lineBuffer, response, byteStack, byteStack.items, current
      ensures Valid() && OnlyReceived() && rx == ByteStep(old(rx), old(urcs.state).urcs, b)
      ensures nulledRead == ReadsNulledTask(old(rx), b)
    {
      nulledRead := false;
      if current == null || current.status == LineRecv {
        ByteLineHandle(b);
      } else if current.status == Prompt {
        nulledRead := BytePromptHandle(b);
      } else {
        ByteBinaryHandle(b);
      }
    }

    /** The ring shares no storage with the receive side. */
    ghost predicate RingApart()
      reads this, ring, byteStack
    {
      ring.buffer != null && ring.buffer != lineBuffer && ring.buffer != response && ring.buffer != byteStack.items
    }

    /** All parts are in order and share no storage: what the event loop keeps from one iteration to the next. */
    ghost predicate Ready()
      reads this, lineBuffer, response, byteStack, byteStack.items, current
      reads ring, ring.buffer, urcs, urcs.list, urcs.list.nodes
    {
      Valid() && Registered() && RingApart() && ring.Valid()
    }

    /** The ring and the registry have not changed, and the task in flight is the same, gone or new. */
    twostate predicate OthersSame()
      reads this, ring, urcs
    {
      ring.queue == old(ring.queue) && urcs.state == old(urcs.state) &&
      (current == null || current == old(current) || fresh(current))
    }

    /** Handling a byte leaves the registry alone. */
    method ByteHandleApart(b: byte)
      requires Valid() && Registered()
      modifies this, lineBuffer, response, byteStack, byteStack.items, current
      ensures Valid() && OnlyReceived() && rx == ByteStep(old(rx), old(urcs.state).urcs, b)
      ensures Registered() && urcs.state == old(urcs.state)
    {
      var _ := ByteHandle(b);
    }

    /** And the ring. */
    method ByteHandleFramed(b: byte)
      requires Valid() && Registered() && RingApart() && ring.Valid()
      modifies this, lineBuffer, response, byteStack, byteStack.items, current
      ensures Valid() && OnlyReceived() && rx == ByteStep(old(rx), old(urcs.state).urcs, b)
      ensures Registered() && urcs.state == old(urcs.state)
      ensures ring.Valid() && ring.queue == old(ring.queue) && ring.buffer == old(ring.buffer)
    {
      ByteHandleApart(b);
    }

    /** Reads one byte from the ring, if there is one, and handles it. */
    method TakeByte() returns (ok: bool)
      requires Valid() && Registered() && RingApart() && ring.Valid()
      modifies this, lineBuffer, response, byteStack, byteStack.items, current
      modifies ring`readIndex, ring`queue
      ensures Valid() && OnlyReceived() && Registered() && urcs.state == old(urcs.state)
      ensures ring.Valid() && ring.buffer == old(ring.buffer)
      ensures ok == (old(ring.queue) != [])
      ensures !ok ==> rx == old(rx) && ring.queue == []
      ensures ok ==> ring.queue == old(ring.queue)[1..] &&
                     rx == ByteStep(old(rx), urcs.state.urcs, old(ring.queue)[0])
    {
      var b;
      ok, b := ring.Read();
      if ok {
        ByteHandleFramed(b);
      }
    }

    /** Drains the ring: a fold of the byte step over its contents. */
    method RecvDataHandle()
      requires Valid() && Registered() && RingApart() && ring.Valid()
      modifies this, lineBuffer, response, byteStack, byteStack.items, current
      modifies ring`readIndex, ring`queue
      ensures Valid() && OnlyReceived() && ring.Valid() && ring.buffer == old(ring.buffer) && ring.queue == []
      ensures Registered() && RingApart() && urcs.state == old(urcs.state)
      ensures rx == Feed(old(rx), Stamped(old(ring.queue), old(urcs.state).urcs))
    {
      ghost var start, all, registry := rx, ring.queue, urcs.state;
      ghost var n, fed := 0, start;
      var ok := true;
      while ok
        invariant Valid() && OnlyReceived() && Registered() && urcs.state == registry
        invariant ring.Valid() && ring.buffer == old(ring.buffer)
        invariant n <= |all| && ring.queue == all[n..] && (!ok ==> n == |all|)
        invariant rx == fed == Feed(start, Stamped(all[..n], registry.urcs))
        decreases |all| - n, ok
      {
        ok := TakeByte();
        if ok {
          FeedOneMore(start, all, n, registry.urcs);
          n, fed := n + 1, ByteStep(fed, registry.urcs, all[n]);
        }
      }
      assert all[..n] == all;
    }

    /** The receive interrupt: stores what fits and wakes the loop only if everything did. */
    method ReceiveData(data: seq<byte>) returns (count: nat)
      requires ring.Valid() && ring.buffer != null
      modifies this`wake, ring`writeIndex, ring`queue, ring.buffer
      ensures ring.Valid() && ring.buffer == old(ring.buffer)
      ensures var room := ring.buffer.Length - 1 - |old(ring.queue)|;
              count == if |data| <= room then |data| else room
      ensures ring.queue == old(ring.queue) + data[..count]
      ensures wake == (old(wake) || (count == |data| && data != []))
    {
      ghost var before := ring.queue;
      count := 0;
      if |data| == 0 {
        return;
      }
      while count < |data|
        invariant count <= |data| && ring.Valid() && ring.buffer == old(ring.buffer) && wake == old(wake)
        invariant ring.queue == before + data[..count]
      {
        var ok := ring.Write(data[count]);
        if !ok {
          return;
        }
        assert data[..count + 1] == data[..count] + [data[count]];
        count := count + 1;
      }
      wake := true;
    }

    /** Receiving leaves the receive side and the registry alone. */
    method ReceiveApart(data: seq<byte>) returns (count: nat)
      requires Valid() && Registered() && RingApart() && ring.Valid()
      modifies this`wake, ring`writeIndex, ring`queue, ring.buffer
      ensures Valid() && Registered() && RingApart() && ring.Valid() && ring.buffer == old(ring.buffer)
      ensures rx == old(rx) && urcs.state == old(urcs.state) && current == old(current)
      ensures old(ring.queue) == [] && |data| < ring.buffer.Length ==> count == |data| && ring.queue == data
    {
      count := ReceiveData(data);
    }

    /** One chunk, received and drained. */
    method ReceiveAndDrain(data: seq<byte>)
      requires Valid() && Registered() && RingApart() && ring.Valid()
      requires ring.queue == [] && |data| < ring.buffer.Length
      modifies this, lineBuffer, response, byteStack, byteStack.items, current
      modifies ring`readIndex, ring`writeIndex, ring`queue, ring.buffer
      ensures Valid() && Registered() && RingApart() && ring.Valid() && ring.buffer == old(ring.buffer)
      ensures ring.queue == [] && urcs.state == old(urcs.state) && (current == old(current) || current == null)
      ensures rx == Feed(old(rx), Stamped(data, urcs.state.urcs))
    {
      var count := ReceiveApart(data);
      RecvDataHandle();
    }

    /**
     * Chunks that each fit the ring, received and drained one after the other: the result is the fold over
     * the joined stream, however it was cut.
     */
    method ReceiveChunks(chunks: seq<seq<byte>>)
      requires Valid() && Registered() && RingApart() && ring.Valid() && ring.queue == []
      requires forall i | 0 <= i < |chunks| :: |chunks[i]| < ring.buffer.Length
      modifies this, lineBuffer, response, byteStack, byteStack.items, current
      modifies ring`readIndex, ring`writeIndex, ring`queue, ring.buffer
      ensures Valid() && ring.queue == [] && urcs.state == old(urcs.state)
      ensures rx == Feed(old(rx), Stamped(Joined(chunks), urcs.state.urcs))
    {
      ghost var start, registry := rx, urcs.state;
      ghost var fed := start;
      ChunksDoNotMatter(start, [], registry.urcs);
      for n := 0 to |chunks|
        invariant Valid() && Registered() && RingApart() && ring.Valid() && ring.buffer == old(ring.buffer)
        invariant ring.queue == [] && urcs.state == registry && (current == old(current) || current == null)
        invariant rx == fed == DrainEach(start, chunks[..n], registry.urcs)
      {
        assert chunks[..n + 1][..n] == chunks[..n];
        ReceiveAndDrain(chunks[n]);
        fed := Feed(fed, Stamped(chunks[n], registry.urcs));
      }
      assert chunks[..|chunks|] == chunks;
      ChunksDoNotMatter(start, chunks, registry.urcs);
    }

    /**
     * Starts the next queued request if none is in flight. Outcomes outside the engine's control are
     * parameters: whether memory was found, the block, the tick, whether the hardware accepted the data.
     */
    method SendMsgHandle(hasMemory: bool, block: nat, now: nat, transmitted: bool)
      requires Valid()
      modifies this, response, byteStack
      ensures Valid() && wake == old(wake) && lineIndex == old(lineIndex)
      ensures old(current) != null || old(sendQueue) == [] ==>
                rx == old(rx) && sendQueue == old(sendQueue) && current == old(current)
      ensures old(current) == null && old(sendQueue) != [] ==>
                sendQueue == old(sendQueue)[1..] &&
                rx == Started(old(rx), old(sendQueue)[0], hasMemory, block, now, transmitted) &&
                StartsAs(old(rx), old(sendQueue)[0], hasMemory, block, now, transmitted, rx) &&
                (current != null ==> fresh(current))
    {
      if current == null && |sendQueue| > 0 {
        StartedIs(rx, sendQueue[0], hasMemory, block, now, transmitted);
      }
      if current != null {
        return;
      }
      if |sendQueue| > 0 {
        var req := sendQueue[0];
        sendQueue := sendQueue[1..];
        if !hasMemory {
          rx := rx.(trace := rx.trace + [TaskLost(req)]);
          return;
        }
        ClearResponseBuffer();
        current := new SendTask(req, block);
        current.timestamp := now;
        rx := rx.(task := Some(current.Value()));
        if !transmitted {
          CommandEndHandle(HardwareError);
        }
      }
    }

    /** Ends the task in flight if its timeout has passed on the 32-bit tick. */
    method CheckSendTimeout(now: nat)
      requires Valid()
      modifies this, response, byteStack, current
      ensures Valid() && wake == old(wake) && sendQueue == old(sendQueue)
      ensures current == old(current) || current == null
      ensures rx == Checked(old(rx), now) && ChecksAs(old(rx), now, rx)
    {
      CheckedIs(rx, now);
      if current != null && Wrap32(now - current.timestamp) >= current.req.timeout {
        CommandEndHandle(Timeout);
      }
    }

    /** Starting a task leaves the ring and the registry alone. */
    method SendApart(hasMemory: bool, block: nat, now: nat, transmitted: bool)
      requires Ready()
      modifies this, response, byteStack
      ensures Ready() && OthersSame()
      ensures sendQueue == if old(rx).task.None? && old(sendQueue) != [] then old(sendQueue)[1..] else old(sendQueue)
      ensures rx == if old(rx).task.None? && old(sendQueue) != []
                    then Started(old(rx), old(sendQueue)[0], hasMemory, block, now, transmitted) else old(rx)
    {
      SendMsgHandle(hasMemory, block, now, transmitted);
    }

    /** So does the check for a timeout. */
    method CheckApart(now: nat)
      requires Ready()
      modifies this, response, byteStack, current
      ensures Ready() && OthersSame() && sendQueue == old(sendQueue) && rx == Checked(old(rx), now)
    {
      CheckSendTimeout(now);
    }

    /** How long the loop may sleep. */
    method WaitTime(now: nat) returns (wait: nat)
      requires Valid()
      ensures wait == if current == null then FOREVER else WaitMs(now, current.timestamp, current.req.timeout)
    {
      wait := FOREVER;
      if current != null {
        var elapsed := Wrap32(now - current.timestamp);
        wait := if elapsed < current.req.timeout then current.req.timeout - elapsed else 0;
      }
    }
  }
}
