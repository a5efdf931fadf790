/** The values the engine's parts exchange. */
module AtcTypes {
  import opened Bytes

  datatype Option<+T> = None | Some(value: T)

  datatype AtcResult = Success | Error | Timeout | HardwareError

  datatype Status = LineRecv | Prompt | Binary

  /** One registered URC handler; handlers are named by number. */
  datatype Urc = Urc(id: int, prefix: seq<byte>, handler: nat)

  /**
   * A send request as it sits in the send queue. Heap blocks and semaphores are named by handle:
   * `data` and `promptBlock` are owned by the request, `sem` is the waiting caller's semaphore.
   */
  datatype SendReq = SendReq(
    ticket: nat, who: nat, sem: Option<nat>, wantsResult: bool, capacity: Option<nat>,
    data: nat, promptBlock: Option<nat>, prompt: seq<byte>, need: nat, timeout: nat)

  /** The request being executed: its changing fields and the block that holds it. */
  datatype Flight = Flight(req: SendReq, status: Status, timestamp: nat, block: nat)

  /**
   * What the engine does that the outside can observe. A Completed event is the end of a request, told to its
   * handler if it has one: an asynchronous request may have none.
   */
  datatype Event =
    | UrcCall(id: int, handler: nat, line: seq<byte>)
    | Completed(req: SendReq, result: AtcResult, response: seq<byte>)
    | TaskLost(req: SendReq)
    | Registered(ticket: nat, prefix: seq<byte>, handler: nat, id: int)
    | Unregistered(ticket: nat, id: int, status: int)

  /** The heap blocks released when a task ends, in the order the code releases them. */
  function Blocks(f: Flight): seq<nat> {
    [f.req.data] + (if f.req.promptBlock.Some? then [f.req.promptBlock.value] else []) + [f.block]
  }

  function InitialStatus(req: SendReq): Status {
    if req.promptBlock.Some? then Prompt else LineRecv
  }
}
