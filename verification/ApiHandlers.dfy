/** The event loop's side of the API, run in place: draining the API queue and answering a synchronous sender. */
module ApiHandlers {
  import opened Bytes
  import opened AtcTypes
  import opened SinglyLinkedLists
  import opened UrcSpec
  import opened UrcRegistries
  import opened Engine

  class Cell<T> {
    var value: T

    constructor (value: T)
      ensures this.value == value
    {
      this.value := value;
    }
  }

  /** The pointers a synchronous sender leaves in its task. */
  class SyncTarget {
    const sendResult: Cell?<AtcResult>
    const buffer: array?<byte>
    const length: Cell?<nat>
    const semaphore: Cell<bool>

    constructor (sendResult: Cell?<AtcResult>, buffer: array?<byte>, length: Cell?<nat>, semaphore: Cell<bool>)
      ensures this.sendResult == sendResult && this.buffer == buffer
      ensures this.length == length && this.semaphore == semaphore
    {
      this.sendResult, this.buffer, this.length, this.semaphore := sendResult, buffer, length, semaphore;
    }

    /** The caller's buffer is as long as it says. */
    ghost predicate Fits()
      reads this, buffer, length
    {
      buffer != null && length != null ==> length.value <= buffer.Length
    }

    /** The task's pointers are those the request describes. */
    ghost predicate Describes(req: SendReq)
      reads this
    {
      req.wantsResult == (sendResult != null) && req.capacity.Some? == (buffer != null && length != null)
    }

    /** The caller's variables hold these values. */
    ghost predicate Shows(cells: Cells)
      reads this, sendResult, buffer, length
    {
      && (sendResult != null && cells.result.Some? ==> sendResult.value == cells.result.value)
      && (buffer != null && length != null ==> length.value == cells.length && cells.copied <= buffer[..])
    }

    /** sync_response_handler: the result, as much of the response as fits, then the semaphore. */
    method SyncResponseHandler(result: AtcResult, response: array<byte>, responseLength: nat,
                               ghost req: SendReq, ghost cells: Cells)
      requires responseLength <= response.Length && response != buffer && Fits()
      requires Describes(req) && Shows(cells)
      modifies sendResult, buffer, length, semaphore
      ensures semaphore.value && (sendResult != null ==> sendResult.value == result)
      ensures Fits() && Shows(WithResponse(WithResult(cells, req, result), req, old(response[..responseLength])))
      ensures buffer != null && length != null && responseLength > 0 ==>
                buffer[length.value..] == old(buffer[..])[length.value..]
      ensures responseLength == 0 || buffer == null || length == null ==>
                (buffer != null ==> buffer[..] == old(buffer[..])) &&
                (length != null ==> length.value == old(length.value))
    {
      if sendResult != null {
        sendResult.value := result;
      }
      if responseLength > 0 && buffer != null && length != null {
        var n := if responseLength < length.value then responseLength else length.value;
        forall i | 0 <= i < n {
          buffer[i] := response[i];
        }
        length.value := n;
        assert buffer[..n] == old(response[..responseLength])[..n];
      }
      semaphore.value := true;
    }
  }

  /** The messages carry URC requests only. */
  predicate AllUrc(msgs: seq<ApiMsg>) {
    forall i | 0 <= i < |msgs| :: !msgs[i].op.Send?
  }

  /** The registry, and what was written to callers' variables, given and freed, in order. */
  datatype Served = Served(reg: Registry, replies: seq<(nat, int)>, given: seq<nat>, freed: seq<nat>)

  /** One message served; hasMemory says whether a registration's allocations succeed. */
  ghost function Serving(s: Served, msg: ApiMsg, hasMemory: bool): Served
    requires !msg.op.Send?
  {
    var req := RequestOf(msg, hasMemory);
    if CanServe(s.reg, req) then
      Served(Serve(s.reg, req), s.replies + [(msg.ticket, Answer(s.reg, req))], s.given + [msg.sem],
             s.freed + [msg.block])
    else s
  }

  /** Messages served one after the other. */
  ghost function ServingAll(s: Served, msgs: seq<ApiMsg>, memory: seq<bool>): Served
    requires |msgs| <= |memory| && AllUrc(msgs)
  {
    if msgs == [] then s else
      var n := |msgs| - 1;
      Serving(ServingAll(s, msgs[..n], memory), msgs[n], memory[n])
  }

  lemma ServingOneMore(s: Served, msgs: seq<ApiMsg>, memory: seq<bool>, n: nat)
    requires n < |msgs| <= |memory| && AllUrc(msgs)
    ensures ServingAll(s, msgs[..n + 1], memory) == Serving(ServingAll(s, msgs[..n], memory), msgs[n], memory[n])
  {
    assert msgs[..n + 1][..n] == msgs[..n];
  }

  /** Every registration, when its turn comes, finds a free ID: without one the search would not end. */
  ghost predicate Servable(s: Served, msgs: seq<ApiMsg>, memory: seq<bool>)
    requires |msgs| <= |memory| && AllUrc(msgs)
  {
    forall i | 0 <= i < |msgs| :: CanServe(ServingAll(s, msgs[..i], memory).reg, RequestOf(msgs[i], memory[i]))
  }

  lemma WithoutAtMembers<T>(s: seq<T>, k: nat)
    requires k < |s|
    ensures forall x | x in WithoutAt(s, k) :: x in s
  {
  }

  class ApiQueue {
    var queue: seq<ApiMsg>
    var replies: seq<(nat, int)>
    var given: seq<nat>
    var freed: seq<nat>

    constructor (queue: seq<ApiMsg>)
      ensures this.queue == queue && replies == [] && given == [] && freed == []
    {
      this.queue, replies, given, freed := queue, [], [], [];
    }

    /** The nodes of the registry's list. */
    static ghost function Nodes(registry: UrcRegistry): set<object>
      reads registry, registry.list
    {
      set node | node in registry.list.nodes
    }

    ghost function Value(reg: Registry): Served
      reads this
    {
      Served(reg, replies, given, freed)
    }

    /** A message's request, carried out on the registry. */
    method Handle(registry: UrcRegistry, msg: ApiMsg, hasMemory: bool) returns (value: int)
      requires registry.Valid() && !msg.op.Send? && CanServe(registry.state, RequestOf(msg, hasMemory))
      modifies registry, registry.list, registry.list.nodes
      ensures registry.Valid() && registry.OnlyNewNodes()
      ensures var req := RequestOf(msg, hasMemory);
              registry.state == Serve(old(registry.state), req) && value == Answer(old(registry.state), req)
    {
      match msg.op {
        case Register(prefix, handler) => value := registry.Register(prefix, handler, hasMemory, hasMemory);
        case Unregister(id) =>
          ghost var k := Position(registry.state.urcs, id);
          var result := registry.Unregister(id);
          if result == Success {
            WithoutAtMembers(old(registry.list.nodes), k);
          }
          value := if result == Success then 0 else -1;
      }
    }

    method Dequeue() returns (msg: ApiMsg)
      requires queue != []
      modifies this`queue
      ensures msg == old(queue)[0] && queue == old(queue)[1..]
    {
      msg := queue[0];
      queue := queue[1..];
    }

    /** The message's reply is written first, then its semaphore given, then its memory freed. */
    method Close(msg: ApiMsg, value: int)
      modifies this`replies, this`given, this`freed
      ensures replies == old(replies) + [(msg.ticket, value)]
      ensures given == old(given) + [msg.sem] && freed == old(freed) + [msg.block]
    {
      replies := replies + [(msg.ticket, value)];
      given := given + [msg.sem];
      freed := freed + [msg.block];
    }

    /** Takes one message, carries it out and closes it. */
    method HandleNext(registry: UrcRegistry, hasMemory: bool)
      requires registry.Valid() && queue != [] && !queue[0].op.Send?
      requires CanServe(registry.state, RequestOf(queue[0], hasMemory))
      modifies this, registry, registry.list, Nodes(registry)
      ensures registry.Valid() && queue == old(queue)[1..] && fresh(Nodes(registry) - old(Nodes(registry)))
      ensures Value(registry.state) == Serving(old(Value(registry.state)), old(queue)[0], hasMemory)
    {
      var msg := Dequeue();
      var value := Handle(registry, msg, hasMemory);
      Close(msg, value);
    }

    /** extern_msg_handle: drains the queue, a message at a time. */
    method ExternMsgHandle(registry: UrcRegistry, memory: seq<bool>)
      requires registry.Valid() && AllUrc(queue) && |queue| <= |memory|
      requires Servable(Value(registry.state), queue, memory)
      modifies this, registry, registry.list, Nodes(registry)
      ensures registry.Valid() && queue == [] && fresh(Nodes(registry) - old(Nodes(registry)))
      ensures Value(registry.state) == ServingAll(old(Value(registry.state)), old(queue), memory)
    {
      ghost var all, start := queue, Value(registry.state);
      ghost var done := start;
      var i := 0;
      while |queue| > 0
        invariant i <= |all| && queue == all[i..]
        invariant registry.Valid() && fresh(Nodes(registry) - old(Nodes(registry)))
        invariant Value(registry.state) == done == ServingAll(start, all[..i], memory)
        decreases |queue|
      {
        ServingOneMore(start, all, memory, i);
        HandleNext(registry, memory[i]);
        done := Serving(done, all[i], memory[i]);
        i := i + 1;
      }
      assert all[..i] == all;
    }
  }
}
