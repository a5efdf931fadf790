# ATCortex, verified

A Dafny model of ATCortex, an AT-command engine: one event loop, fed by a UART interrupt and by API threads.
It sends queued commands to a modem one at a time, collects the reply line by line, or as a prompt followed by
a fixed number of bytes, dispatches unsolicited lines (URCs) to registered handlers, and ends each command by
a final line, a prompt match, a timeout or a hardware error.

Check everything with `dafny verify dfyconfig.toml`.

## How the project is organised

The receive side is specified once, as a pure machine over values, and used twice.

- `ReceiveSpec` is that machine: what one byte, one task start and one task end do to the buffers, the byte
  stack, the task in flight and the trace of handler calls. `PromptTheory` and `LineTheory` prove what it
  computes over whole streams: first occurrence of a prompt, and split into lines, filter, greedy
  concatenation.
- `Contexts` is the context as the code has it: a class with arrays, indices and a heap task, changed in place
  by methods with the loops of the source, each proved equal to the pure machine. `Process` puts them together
  to one iteration of the event loop, and to any number of them.
- `RingBuffers`, `ByteStacks`, `SinglyLinkedLists` and `UrcRegistries` are the in-place data structures, each
  proved against its sequence. `UrcSpec` is what the registry promises over runs of requests.
  `RingInterleaving` takes the ring apart into single loads and stores, and shows that they amount to one
  operation at a time, which is how the machine below uses the ring (`EngineRing`).
- `ApiHandlers` is the loop's side of the API in place: draining the API queue, and answering a synchronous
  sender through its pointers.
- `Engine` is the concurrent machine: the loop, the interrupt and any number of API callers with explicit
  program counters; queues are bounded, semaphores binary, allocation and transmission may fail, time passes
  at any moment. A run interleaves their steps arbitrarily. The modules named `Engine...` prove invariants of
  every run: bookkeeping and receive state (`EngineTasks`), conservation of requests, ownership of memory,
  leaks, the synchronous handshake, wake-ups and exactly when they are missed, timeouts, from drained bytes to
  results and on to the sender's variables (`EngineStreams`, `EngineReceive`, `EngineAnswers`), what a
  registrant can rely on (`EngineUrcs`), that every request is one its caller made (`EngineRequests`), that the
  small steps refine the atomic receive machine (`EngineAtomic`), and that an iteration left alone is the
  iteration in place (`EngineProcess`). `EngineReach`, `EngineStalls` and `EngineFailures` put runs together that
  reach the states in which the code fails its caller.

A task's end takes several steps of the machine (handler, copy, give, release), as other threads run in
between. `owner`, `items`, `accepted`, `busy`, `stranded` and `startedAt` are bookkeeping the code does not
have: who must release a handle, the book of accepted requests, what this iteration did, and true time.

## Where the code is not what one might expect

The model follows the code. Each of these is stated as a lemma or a condition in one, and a run that reaches it
is given where the statement is one about runs.

- After a prompt match with nothing to receive, `recv_data_handle.c:145` releases and nulls the task, and the
  loop guard at line 128 reads it again: when exactly, say `PromptTheory.ReadsNulledTaskIff` over streams and
  `EngineReceive.NulledReadOverRuns` over runs. The model stops after the match.
- A request with timeout 0 is documented as having none (`include/ATCortex.h:191`), but its stored timeout
  0xFFFFFFFF is reached by a check exactly 2^32 - 1 ms after the start (`Ticks.NoTimeoutStillFires`,
  `EngineTime.CheckIsAsAsked`, `EngineFailures.UntimedTimeoutIsReachable`).
- The response is documented as the lines before OK (`include/ATCortex.h:202`). It includes the final line like
  any other relevant line, so it is as documented exactly when the total of the lines kept leaves no room for
  the final one (`LineTheory.EndsAtFirstFinalLine`, `LineTheory.OkIsIncluded`, `LineTheory.OkIsDropped`).
- The response length is documented as the actual length (`include/ATCortex.h:203`). After an empty response
  the caller's variable still holds the size of its buffer: for a command without prompt that is when no line
  was kept, so only after a timeout or a hardware error (`EngineAnswers.LineSenderLength`); for one with a
  prompt also when nothing was to be received (`EngineAnswers.PromptSenderLength`).
- 255 bytes without a line feed stop line handling for good (`EngineReceive.StuckOverRuns`).
- A task that ends within the iteration that took it leaves the loop free to block for ever with a further
  request queued: this can happen exactly if more than one request is ever in the engine
  (`EngineStalls.SendIsMissedIff`). A receive call that finds less room in the ring than it has bytes stores
  what fits and does not wake the loop (`Contexts.Context.ReceiveData`). Such bytes can be missed by a blocked
  loop exactly with calls of more than 255 bytes (`EngineStalls.RingIsMissedIff`).
- If the task cannot be allocated, and only then, the dequeued request is lost
  (`EngineConservation.LostIffMemoryFailed`): its blocks leak (`EngineLeaks.IdleLeaksOnlyLost`) and its
  synchronous caller waits for ever (`EngineSync.LostCallerWaitsForever`).
- A prompt that contains a NUL never matches (`PromptTheory.CanEndIff`). A NUL in a line that is kept cuts what
  `strncat` appends (`LineTheory.NulCutsResponse`, `LineTheory.ResponseIsGreedyIff`).
- `ring_buffer_data_count` computes in unsigned 32-bit arithmetic and returns an int: it is exact for all states
  of a ring up to a capacity of 2^31 and not beyond (`RingBuffers.DataCountExactUpTo`).
- With INT_MAX registered IDs the search for a free one does not end. A registration that meets this is never
  served in the machine (`UrcSpec.CanServe`, `EngineTasks.LoopMovesIff`), and excluded by
  `ApiHandlers.Servable` in place.

## Model

| member | source | states |
|---|---|---|
| `PromptTheory.PromptTaskEndsIff` | recv_data_handle.c:122-168 | for every prompt, length and stream: a prompt command has ended within the stream if and only if the prompt has 1 to 20 bytes without NUL, at most 512 bytes are needed, and that many have followed the first occurrence of the prompt |
| `PromptTheory.EndsExactlyThere` | recv_data_handle.c:122-168 | at that very byte it ends once, with success, and its handler receives exactly the bytes after the first occurrence |
| `PromptTheory.CanEndIff` | recv_data_handle.c:122-168 | some stream can end a prompt command if and only if its prompt is recognisable and it needs at most 512 bytes; all others wait for their timeout |
| `PromptTheory.WhileWaiting` | recv_data_handle.c:122-149 | before the first occurrence only the window of the last 20 bytes has changed |
| `PromptTheory.AtFirstEnd` | recv_data_handle.c:134-148 | at the first occurrence the command moves to binary reception with empty buffers, or ends with success when nothing is needed (and a nulled task is read, see the next row) |
| `PromptTheory.ReadsNulledTaskIff` | recv_data_handle.c:128-145 | for every prompt and stream: a byte makes the comparison loop read the task it has just nulled if and only if nothing is to be received and a recognisable prompt occurs for the first time, ending with that byte |
| `EngineReceive.NulledReadOverRuns` | recv_data_handle.c:128-145 | over every run: the byte the loop is about to drain makes such a read if and only if the command in flight has a recognisable prompt and nothing to receive, and the bytes drained since it started, with this one, end with the first occurrence of the prompt |
| `EngineFailures.NulledReadIsReachable` | recv_data_handle.c:128-145 | a run leads there: a command with the prompt > and nothing to receive, and one byte |
| `PromptTheory.WhileCollecting` | recv_data_handle.c:152-168 | binary reception holds the first min(n, 512) bytes received, and nothing else changes |
| `PromptTheory.CollectedSoFar` | recv_data_handle.c:122-168 | while a prompt command has not ended, its response holds the first 512 bytes after the first occurrence, and nothing if the prompt has not occurred |
| `LineTheory.LineTaskEndsIff` | recv_data_handle.c:67-120 | for every stream: a command without prompt has ended if and only if a final line (over 2 bytes, no URC, beginning with OK or ERROR) was handed on since it started |
| `LineTheory.EndsAtFirstFinalLine` | recv_data_handle.c:23-120 | it ends at the first final line, with success exactly if that begins with the letters OK and with error exactly if it begins with ERROR, after exactly the URC calls of the lines before; the handler gets the relevant lines that fit, each up to its first NUL, and zeros up to their full length: the greedy concatenation itself if and only if every line kept is NUL-free; the response of the lines before the final one, as documented, if and only if the total of those kept plus the final line reaches 512 |
| `LineTheory.FinalIff` | recv_data_handle.c:67-98 | a line is final if and only if it has over 2 bytes, no registered prefix starts it, and it begins with OK or ERROR |
| `LineTheory.FinalResultSays` | recv_data_handle.c:71-79 | the comparisons of the code find a result if and only if the line begins with the letters OK or ERROR: success for the one, error for the other, never both |
| `LineTheory.OkIsIncluded` | recv_data_handle.c:67-77 | a concrete failure of that documentation: after a lone OK line the response is that line |
| `LineTheory.OkIsDropped` | recv_data_handle.c:23-32 | and a concrete success: behind two lines of 255 bytes the OK line is dropped, and the response is the lines before it |
| `LineTheory.LineTaskRunning` | recv_data_handle.c:67-120 | until then task, window and releases are untouched, the trace grew by the URC calls only, and the response buffer holds exactly the lines kept so far, each up to its first NUL, then zeros |
| `LineTheory.ByteStepKeepsAssembled` | recv_data_handle.c:103-120 | the line buffer and the lines handed on stay the function of all bytes ever routed to the assembler, across prompt and binary phases |
| `LineTheory.AssemblerIsSplit` | recv_data_handle.c:103-120 | the lines handed on are all lines of the routed bytes if and only if each of them has at most 255 bytes; until the assembler is stuck, the buffer holds the unfinished rest |
| `LineTheory.SplitIff` | recv_data_handle.c:103-120 | the split is characterised by what it is for: pieces that each end at their only line feed, and a rest without one, that joined give the stream, are the lines and the rest, and no others are |
| `LineTheory.StuckIff` | recv_data_handle.c:103-120 | the assembler is stuck if and only if 255 routed bytes wait without a line feed |
| `EngineReceive.StuckOverRuns` | recv_data_handle.c:103-120 | once 255 bytes wait without a line feed, the line buffer is the same and no further line has been handed on in every later state of every run, through task starts, timeouts, hardware errors and API calls; and every command without prompt that is ended from then on is ended by its timeout or the hardware |
| `EngineFailures.StuckIsReachable` | recv_data_handle.c:103-120 | a run leads there: 255 bytes without a line feed, received one at a time by an idle engine |
| `EngineReceive.FlightOverRuns` | recv_data_handle.c:185-201 | over every run, a step that leaves a task in flight leaves its request, block and start tick alone, and moves its status at most from prompt to binary |
| `LineTheory.HandedIsSplit` | recv_data_handle.c:103-120 | the lines a command sees are those of the partial line it inherited followed by its stream |
| `LineTheory.PushedIsGreedy` | recv_data_handle.c:23-32 | a line joins the response if and only if the recorded length stays below 512, else nothing of it does; what joins is the line up to its first NUL |
| `LineTheory.ResponseIsGreedyIff` | recv_data_handle.c:23-32 | the response is the greedy concatenation of the lines if and only if every line kept is NUL-free; NULs in short, URC or dropped lines do no harm |
| `LineTheory.NulCutsResponse` | recv_data_handle.c:23-32 | a concrete failure: of the line A NUL LF a fresh command collects A NUL NUL |
| `ReceiveSpec.ByteStepKeepsInv` | recv_data_handle.c:170-208 | every byte keeps the receive invariant: which buffers may be in use in which status, their bounds, and termination |
| `ReceiveSpec.TerminatedAtLength` | recv_data_handle.c:23-32 | outside binary reception, without NULs received, the response is NUL-terminated exactly at its recorded length |
| `ReceiveSpec.FeedConcat` | recv_data_handle.c:170-208 | draining is a fold: feeding two streams one after the other is feeding their concatenation |
| `ReceiveSpec.ByteEffect` | recv_data_handle.c:170-207 | whatever byte arrives in whatever status, all indices stay within the buffers |
| `Bytes.StrCatExact` | recv_data_handle.c:26-27 | without NULs strncat is concatenation, terminated exactly at the sum of the lengths |
| `Bytes.StrCatTail` | recv_data_handle.c:26-27 | strncat leaves only zeros behind the sum of the recorded lengths, whatever NULs the strings contain |
| `Bytes.StrNCmpIsPrefix` | recv_data_handle.c:72-74 | comparing with strncmp over a NUL-free marker decides whether the marker is a prefix |
| `Contexts.Context.constructor` | recv_data_handle.c:225-237 | an initialised context has empty buffers, an empty ring and an empty registry |
| `Contexts.Context.ClearResponseBuffer` | recv_data_handle.c:18-21 | in place: the response buffer is all zeros, its length 0 |
| `Contexts.Context.PushToResponseBuffer` | recv_data_handle.c:23-32 | in place: the buffer becomes what the pure machine says, by strncat on the array |
| `Contexts.AppendString` | recv_data_handle.c:27 | in place: strncat on arrays |
| `Contexts.Context.CommandEndHandle` | recv_data_handle.c:35-64 | in place: handler call recorded, data, prompt and task released in order, buffers and stack cleared |
| `Contexts.Context.NormalLineHandle` | recv_data_handle.c:67-81 | in place: collects the line; a command in flight then ends if and only if the line begins with OK or ERROR, with success or error accordingly |
| `Contexts.Context.LineHandle` | recv_data_handle.c:84-100 | in place: short lines ignored, URC lines dispatched, others collected |
| `Contexts.Context.ByteLineHandle` | recv_data_handle.c:103-120 | in place: the line assembler, including the dropped byte of a full buffer |
| `Contexts.Context.BytePromptHandle` | recv_data_handle.c:122-150 | in place: push, compare, switch to binary or end; reports exactly when the guard of the comparison loop then reads the nulled task, where the model stops |
| `Contexts.Context.PromptOnTop` | recv_data_handle.c:128-134 | the comparison loop from the newest byte down decides whether the NUL-free prompt is a suffix of the stack |
| `Contexts.Context.ByteBinaryHandle` | recv_data_handle.c:152-168 | in place: stores a byte and ends the command at the needed length; refuses above 512 |
| `Contexts.Context.ByteHandle` | recv_data_handle.c:185-206 | in place: one byte is one step of the pure receive machine |
| `Contexts.Context.RecvDataHandle` | recv_data_handle.c:170-208 | in place: empties the ring, and the result is the pure fold over its contents |
| `Contexts.Context.ReceiveData` | recv_data_handle.c:210-223 | in place: stores the longest prefix that fits, and gives the semaphore if and only if everything did |
| `Contexts.Context.SendMsgHandle` | send_msg_handle.c:239-282 | in place: nothing while a task is in flight; else the oldest request is taken: lost without memory; ended with a hardware error and an empty response, its blocks released, if refused; else in flight with its initial status, block and start tick, over empty buffers |
| `Contexts.Context.CheckSendTimeout` | ATCortex.c:10-19 | in place: ends the task in flight with a timeout, told what it has collected, exactly when the 32-bit difference of ticks reached its timeout |
| `Contexts.Context.WaitTime` | ATCortex.c:67-75 | the sleep is unlimited without a task, else what remains of the timeout, or 0 |
| `ReceiveSpec.StartedIs` | send_msg_handle.c:239-282 | what starting a request comes to in its three cases, field by field |
| `ReceiveSpec.CheckedIs` | ATCortex.c:10-19 | what the check comes to, field by field |
| `ReceiveSpec.ChunksDoNotMatter` | recv_data_handle.c:170-222 | feeding a stream in any chunks gives the same state and trace as feeding it at once |
| `Contexts.Context.ReceiveChunks` | recv_data_handle.c:170-223 | in place: chunks that each fit the ring, received by the interrupt and drained one after the other, leave the state and trace of the fold over the joined stream |
| `Process.Iterate` | ATCortex.c:60-75 | one iteration starts a task, then drains the ring, then checks the timeout, then computes the sleep from what is left; and everything the next iteration needs is in order again |
| `Process.ProcessOnce` | ATCortex.c:54-78 | with the API queue served first, so that its registry is the one the drained bytes meet; ring, registry, buffers and their separation are as they were required |
| `Process.FinalLineBeatsTimeout` | ATCortex.c:63-66 | within one iteration data come before time: a command whose final line is among those the ring completes ends by it although its timeout has passed; if none is, it ends with its timeout and the lines so far exactly if its ticks have reached that |
| `Process.DataComeFirst` | ATCortex.c:63-66 | whatever the task in flight: what the drained bytes end stays as they ended it, and only what they leave is checked |
| `Process.ProcessRounds` | ATCortex.c:54-79 | in place: any number of iterations of the endless loop, with bytes, requests and messages arriving before each, leave the state of the iterated pure iteration |
| `ByteStacks.StackIsWindow` | stack.c:79-106 | after any pushes since the last clear the stack holds exactly the last min(k, capacity) of them |
| `ByteStacks.PeekIsIthNewest` | stack.c:119-122 | peek_at(i) is the i-th newest of everything pushed, as long as it is still held |
| `ByteStacks.ByteStack.PushOverwrite` | stack.c:79-106 | in place: appends, dropping the oldest item when full |
| `ByteStacks.ByteStack.PeekAt` | stack.c:119-122 | reads the item counted from the top, NULL beyond the bottom |
| `ByteStacks.ByteStack.Clear` | stack.c:140-156 | in place: the stack is empty |
| `RingInterleaving.FifoUnderEveryInterleaving` | ring_buffer.c:54-98 | under every interleaving of single loads and stores: consumed followed by stored is what was published, in order, and one cell stays free |
| `RingInterleaving.NoUnreadCellOverwritten` | ring_buffer.c:54-98 | no store changes an unread byte, and each completed read takes exactly the oldest one |
| `RingInterleaving.VerdictsAreExact` | ring_buffer.c:61-66 | "full" is reported exactly when the ring is full at the test, "empty" exactly when it was empty as the write index was loaded |
| `RingInterleaving.RunIsNeverCut` | ring_buffer.c:54-98 | every load and store stays within the buffer, in every reachable state |
| `RingInterleaving.EveryInterleavingIsAtomic` | ring_buffer.c:54-98 | linearisation: each load or store does one operation of the ring as a value (store, refuse, take, find empty) or nothing; a write call returns exactly with its store or refusal, a read call with its take or after it found the ring empty |
| `EngineRing.MachineRingSteps` | ring_buffer.c:54-98 | every step of the machine does exactly one of these operations with its ring, or none |
| `EngineRing.InterleavingsAreMachineSteps` | ring_buffer.c:54-98 | and every store or refusal that interleaved loads and stores amount to is a step the interrupt of the machine can take, with the same content afterwards |
| `RingBuffers.RingBuffer.Init` | ring_buffer.c:16-29 | a ring needs a buffer of at least two cells, and starts empty |
| `RingBuffers.RingBuffer.Write` | ring_buffer.c:54-73 | in place: appends to the queue unless capacity - 1 bytes are stored |
| `RingBuffers.RingBuffer.Read` | ring_buffer.c:82-98 | in place: takes the oldest byte unless the queue is empty |
| `RingBuffers.RingBuffer.Count` | ring_buffer.c:107-115 | -1 without a buffer; else it is the queue length if and only if the 32-bit sum does not wrap and the length fits an int, as it always does up to 2^31 cells |
| `RingBuffers.DataCountExact` | ring_buffer.c:107-115 | the count, computed in wrapping unsigned 32-bit arithmetic and returned as int, equals the queue length if and only if the unwrapped sum stays below 2^32 and the length is at most INT_MAX |
| `RingBuffers.DataCountNegative` | ring_buffer.c:107-115 | a concrete failure without wrap-around: 0xEFFFFFFF bytes in a ring of 0xF0000000 cells are reported as a negative number |
| `RingBuffers.DataCountExactUpTo` | ring_buffer.c:107-115 | it is exact for all indices of a capacity if and only if the capacity is at most 2^31 |
| `SinglyLinkedLists.SList.Append` | slist.c:65-81 | in place: adds one fresh node at the end, or nothing without memory; still acyclic, with the right tail and length |
| `SinglyLinkedLists.SList.Prepend` | slist.c:83-99 | in place: the same at the front |
| `SinglyLinkedLists.SList.Get` | slist.c:105-117 | the i-th payload, whether by the tail shortcut or by walking; none beyond the end |
| `SinglyLinkedLists.SList.Remove` | slist.c:119-154 | in place: succeeds if and only if the pointer occurs, takes out its first node only, and releases that payload and node |
| `SinglyLinkedLists.SList.RemoveAt` | slist.c:156-189 | in place: the same by index, failing beyond the end |
| `SinglyLinkedLists.SList.Reverse` | slist.c:191-208 | in place: the very same nodes in the opposite order, nothing allocated or released |
| `SinglyLinkedLists.SList.Destroy` | slist.c:44-63 | every node is released once, in order, and every payload if the list owns them |
| `UrcRegistries.UrcRegistry.AllocateId` | urc_handle.c:57-76 | the restarting search terminates while fewer than INT_MAX IDs are in use and returns the cyclically first free one |
| `UrcRegistries.UrcRegistry.Register` | urc_handle.c:47-95 | in place: one registration as the registry's specification has it, -1 and no entry without memory |
| `UrcRegistries.UrcRegistry.Unregister` | urc_handle.c:97-116 | in place: takes out the one node whose entry has the ID and releases it, or changes nothing |
| `UrcRegistries.UrcRegistry.Dispatch` | urc_handle.c:11-32 | in place: calls the handler of each entry whose prefix starts the line once, in list order, and no other, and reports whether there was one |
| `UrcSpec.FreeIdExistsIff` | urc_handle.c:60-74 | a free ID exists if and only if fewer than INT_MAX are in use |
| `UrcSpec.IdsDistinctAndPositive` | urc_handle.c:47-116 | in every state of every run of requests the listed IDs are pairwise distinct and within 1..INT_MAX |
| `UrcSpec.IssuedIdsFreshIffBeforeWrap` | urc_handle.c:76-78 | the k-th ID issued is k for the first INT_MAX allocations, and an issued ID is a fresh one if and only if it is one of these |
| `UrcSpec.RemovedIdStaysRemoved` | urc_handle.c:47-116 | before the counter wraps, an ID that was unregistered never names another handler |
| `UrcSpec.UnregisterExact` | urc_handle.c:97-116 | unregister succeeds if and only if the ID is listed, and then exactly that entry is gone, the others in order |
| `UrcSpec.CallsExactlyLiveMatches` | urc_handle.c:11-32 | with distinct IDs, a handler is called with a line if and only if it is listed and its prefix starts the line |
| `UrcSpec.CallsIff` | urc_handle.c:11-32 | a sequence of calls is that of a line if and only if it makes, one for one and in list order, the call of exactly those entries whose prefix starts the line, each with its own handler and this line |
| `UrcSpec.LiveMatchIsCalledOnce` | urc_handle.c:19-30 | with distinct IDs, each listed handler whose prefix starts the line is called exactly once |
| `UrcSpec.ListedInOrder` | urc_handle.c:76-93 | before the counter wraps, entries are listed, and so handlers called, in the order of their registration |
| `UrcSpec.CallsOfAppend` | urc_handle.c:19-30 | calls are made in registration order |
| `UrcSpec.CallsIffUrcLine` | urc_handle.c:11-32 | a line counts as URC if and only if some handler is called |
| `UrcSpec.DispatchAfterUnregister` | urc_handle.c:97-116 | after an unregister the calls for any line are the former ones without that handler's |
| `ApiHandlers.SyncTarget.SyncResponseHandler` | send_msg_handle.c:15-30 | in place: the result itself through its pointer, copied part and length as the machine's cells say, the rest of the buffer untouched, semaphore given; without response, buffer or length nothing of buffer and length changes |
| `ApiHandlers.ApiQueue.ExternMsgHandle` | extern_msg_handle.c:166-201 | in place: drains the queue in order; replies, semaphores and releases are those of serving the requests one by one |
| `ApiHandlers.ApiQueue.Handle` | extern_msg_handle.c:170-192 | in place: one message is one request to the registry, with its answer |
| `Ticks.NoTimeoutStillFires` | send_msg_handle.c:46-49 | a request "without timeout" is timed out by exactly the checks made 2^32 - 1 ms after its start, modulo 2^32 |
| `EngineFailures.UntimedTimeoutIsReachable` | send_msg_handle.c:46-49 | a run leads to a command sent without a timeout that is being ended by its timeout |
| `Ticks.SleepsForeverIff` | ATCortex.c:67-77 | the sleep for a task is unlimited if and only if it has no timeout and its tick has not moved |
| `EngineTime.CheckIsExact` | ATCortex.c:10-19 | over every run, a check ends the task in flight exactly when its age modulo 2^32 has reached the timeout stored with it |
| `EngineTime.CheckIsAsAsked` | send_msg_handle.c:46-61 | from the call to the check, over every run: some caller began the command in flight with a timeout, and a check ends it if and only if the time since it was sent, modulo 2^32, has reached that, and never early; a timeout of 0 is reached exactly 2^32 - 1 ms after, modulo 2^32 |
| `EngineTime.NeverEarlyAsAsked` | send_msg_handle.c:46-61 | no handler is called with a timeout before the time its caller asked for has passed since the command was sent |
| `EngineTime.SleepIsAsAsked` | ATCortex.c:67-77 | the sleep computed before that ends exactly then |
| `EngineTime.EveryEndHasItsCause` | recv_data_handle.c:35-64 | over every run: a timeout comes from a check, a hardware error from a refused transmission, success and error from a drained byte, and from nothing else |
| `EngineTime.NeverEarly` | ATCortex.c:10-19 | over every run, no handler is called with a timeout before the time was up |
| `EngineTime.SleepEndsAtDeadline` | ATCortex.c:67-77 | over every run, the sleep computed for a task of any age is its timeout less its age modulo 2^32, or 0 once that has reached it; below 2^32 ms it ends exactly at the deadline |
| `EngineTime.ClockWakesAtDeadline` | ATCortex.c:67-77 | over every run, the clock ends the wait of a task in flight only once its age has reached the timeout, and never that of an idle loop |
| `EngineTasks.RunExtends` | ATCortex.c:54-79 | in every reachable state every step its program counters allow can be taken: the machine's side condition excludes no behaviour |
| `EngineTasks.LoopMovesIff` | ATCortex.c:54-79 | in every reachable state the loop has a step to take if and only if it is not waiting for a wake-up or deadline still to come, nor searching for an ID when INT_MAX are in use |
| `EngineTasks.ReceiveInvariant` | recv_data_handle.c:18-208 | in every reachable state of all threads: the assembler's refinement of splitting and distinct URC IDs; and, unless a command is just being ended, which buffers are in use in which status, their bounds, and termination |
| `EngineTasks.StepKeepsInv` | ATCortex.c:54-79 | every step of loop, interrupt or caller keeps the invariant: receive state, registry, and every request booked as it was made |
| `EngineConservation.Conservation` | send_msg_handle.c:239-282 | in every reachable state accepted requests are, in order, the ended, the one in flight and the queued; none ends twice; each ended one was completed, its handler called if it has one, if and only if no allocation of a task has failed; queues and ring keep their bounds |
| `EngineConservation.EmptyMeansAllEnded` | send_msg_handle.c:239-282 | with an empty queue and nothing in flight, every accepted request has ended |
| `EngineReach.ApiQueueFills` | extern_msg_handle.c:42 | and the API queue holds up to five messages: a run leads to any such number |
| `EngineReach.QueueFills` | send_msg_handle.c:231 | and the send queue does fill: a run leads to any number of commands up to six in it |
| `EngineConservation.LostIffMemoryFailed` | send_msg_handle.c:247-252 | over every run, a request has been lost if and only if the allocation of a task has failed |
| `EngineOwnership.ReleasedOnce` | recv_data_handle.c:48-58 | over whole runs every data, prompt, task and message block and every semaphore is released at most once, while live |
| `EngineOwnership.StepReleases` | recv_data_handle.c:48-58 | a step releases live handles, each once, and exactly those are gone afterwards |
| `EngineOwnership.HeldMemoryIsLive` | recv_data_handle.c:35-64 | every block of a request, message or task the loop still holds is live; the read of a task it no longer holds is the subject of PromptTheory.ReadsNulledTaskIff |
| `EngineOwnership.StepKeepsOwnership` | send_msg_handle.c:50-88 | every step keeps the unique owner of each live handle, through failed allocations, failed enqueues and hand-over |
| `EngineLeaks.IdleLeaksOnlyLost` | send_msg_handle.c:247-252 | once the engine is idle, what is still allocated is exactly the blocks of requests lost to a failed allocation: nothing, if and only if none has failed |
| `EngineSync.CallerSeesItsOutcome` | send_msg_handle.c:82-88 | under every interleaving, a caller past its take has in its variables the outcome of its own request: a sender the result, if it wants it, with which its command ended, as much of the response as fits, and its length; a registrant or unregistrant the number it was answered with |
| `EngineSync.WritesOnlyWaiting` | send_msg_handle.c:15-30 | the loop writes no caller's variables but those of the caller it is answering, and only while that caller waits on a semaphore not yet given |
| `EngineSync.GivesLiveSemaphores` | send_msg_handle.c:27-29 | no semaphore is given after it was deleted |
| `EngineSync.CopiedExactly` | send_msg_handle.c:20-25 | the length a sender sees is that of what was copied if and only if the response was not empty (or there is no room at all); what that means over runs is the subject of EngineAnswers |
| `EngineSync.WrittenIsShown` | send_msg_handle.c:15-30 | writing the result, then the response, shows the sender the result itself, the longest part that fits, and its length |
| `EngineAnswers.LineSenderSees` | send_msg_handle.c:15-30 | from end to end, over every run: a synchronous sender without prompt that is past its take has in its variables the result of its command, and as much as fits of the response, of the lines drained between the start of its command and the step that answered it: success or error exactly as the first final line begins with OK or ERROR, or timeout or hardware error before there was one |
| `EngineAnswers.LineSenderLength` | send_msg_handle.c:20-25 | the length it finds is that of the response copied if and only if its buffer has no room or some line was kept; always if received data ended the command |
| `EngineAnswers.PromptSenderSees` | send_msg_handle.c:15-30 | the same for a sender with a prompt: ended by data it has exactly the bytes after the first occurrence, else the first 512 of those drained so far |
| `EngineAnswers.PromptSenderLength` | send_msg_handle.c:20-25 | its length is right if and only if its buffer has no room, or data ended the command and something was to be received, or something else ended it after a byte had followed the prompt |
| `EngineFailures.WrongLengthIsReachable` | send_msg_handle.c:20-25 | a run leads to a sender past its take with nothing copied and the size of its buffer as the length: the hardware refused its command |
| `EngineSync.LostCallerWaitsForever` | send_msg_handle.c:247-252 | a synchronous caller whose task found no memory still waits in every later state |
| `EngineFailures.LostCallerIsReachable` | send_msg_handle.c:247-252 | a run leads to a synchronous caller that waits while its request is lost |
| `EngineSync.StepKeepsSync` | extern_msg_handle.c:77-110 | every step keeps the handshake between callers, variables, semaphores and requests, for senders and URC callers alike |
| `EngineSync.WaitsForAReason` | send_msg_handle.c:82-88 | in every reachable state a waiting synchronous caller has its request still in the engine, or can take its semaphore and finds its outcome, or was lost to a failed allocation |
| `EngineUrcs.RegistrantIsListed` | extern_msg_handle.c:166-200 | over every run, a registrant past its take sees -1 if and only if its entry found no memory; otherwise a number in 1..INT_MAX not in use, under which its prefix and handler were listed behind the others and still are unless an unregistration of that number was served since |
| `EngineUrcs.UnregistrantIsHeard` | extern_msg_handle.c:112-165 | over every run, an unregistrant past its take sees 0 if and only if its number was listed when it was served, -1 otherwise, and exactly that entry is gone |
| `EngineRequests.RequestWasMade` | send_msg_handle.c:33-88 | over every run, a request in the engine is one that its caller began, with these very arguments, and the entry points accept them |
| `EngineRequests.OnlyLegalCalls` | extern_msg_handle.c:50-72 | over every run, all callers and requests in the engine have a 32-bit timeout and no empty prompt, a prefix of 1 to 31 bytes without NUL, or a positive number; and every call with such arguments can begin (CallsBeginIff) |
| `EngineRequests.PrefixesFit` | extern_msg_handle.c:67-72 | over every run, every listed prefix has 1 to 31 bytes, none of them NUL |
| `EngineAtomic.StepsAreAtomic` | recv_data_handle.c:35-64 | over every run each loop step does one atomic action of the receive machine or nothing, although ending a command takes several steps with other threads in between |
| `EngineAtomic.LoneIteration` | ATCortex.c:63-77 | left alone, the small steps from the drain to the wait add up to the fold over the ring followed by the timeout check |
| `EngineProcess.LoneSend` | send_msg_handle.c:239-282 | left alone, the small steps from the send queue to the drain add up to what taking a request in place does, in each of its three cases |
| `EngineProcess.LoneApi` | extern_msg_handle.c:166-201 | left alone, the small steps that serve the API queue add up to draining it in place: registry, answers, semaphores given, messages freed |
| `EngineProcess.LoneProcess` | ATCortex.c:54-78 | a whole iteration left alone, from the poll of the API queue to the wait, leaves receive state, send queue, registry and sleep as the iteration in place does |
| `EngineWake.NothingMissedWhileBlocked` | ATCortex.c:54-78 | while the loop blocks: queued API work has a wake-up given or coming; so has queued send work unless this iteration found or took a task, and always if there is never more than one request in the engine; so have received bytes unless a receive call was cut short, and always if no call has more than 255 bytes |
| `EngineStalls.RingIsMissedIff` | recv_data_handle.c:210-223 | with receive calls of at most k bytes, some run leads to a blocked loop with received bytes and no wake-up given or coming if and only if k is over 255 |
| `EngineStalls.SendIsMissedIff` | send_msg_handle.c:239-282 | with at most k requests in the engine at any moment, some run leads to a blocked idle loop with a queued request and no wake-up given or coming if and only if k is over 1 |
| `EngineWake.BusyIff` | send_msg_handle.c:241-245 | the exception for the send queue holds if and only if, since the loop last woke, it found a task in flight or dequeued one |
| `EngineWake.StrandedIff` | recv_data_handle.c:214-217 | the exception for the ring holds if and only if a receive call stored part of its bytes and hit a full ring, and the ring was not found empty since |
| `EngineWake.StepKeepsWake` | ATCortex.c:54-78 | every step of loop, interrupt or caller keeps the wake-up invariant |
| `EngineStalls.SendStallIsReachable` | send_msg_handle.c:241-280 | a run leads to a loop that sleeps without limit with a request queued and no wake-up on its way |
| `EngineStalls.RingStallIsReachable` | recv_data_handle.c:214-222 | after a receive call of over 255 bytes on an empty ring the loop sleeps on with 255 bytes stored |
| `EngineStalls.StalledStays` | ATCortex.c:77 | from either, neither the loop nor the passing of time changes anything |
| `EngineStreams.LineCommandOutcome` | recv_data_handle.c:67-120 | over every run, between a command's start and its end: the bytes drained since then decide whether, with what result and with what response it ends, and whether that includes the final line; a timeout or hardware error hands over the response of the lines so far |
| `EngineStreams.PromptCommandOutcome` | recv_data_handle.c:122-168 | the same for a command with a prompt: the first occurrence in the bytes drained since its start, and exactly the bytes after it; a timeout or hardware error hands over those collected so far, at most 512 |

## Left out

- Logging, `isprint` dumps and trace macros: output only.
- `interface.c` and the operating system behind it: allocation, queues, semaphores, the tick and `atc_send` are
  parameters or outcomes of steps.
- `atc_init` and the other initialisers' failure paths, and null-pointer guards: runs start from an initialised context.
- The entry points' argument checks beyond `Engine.Accepts`; the block that a registration with an over-long
  prefix allocates and frees again is not modelled.
- The bytes of a command: a request carries the handle of its data block, not the data.
- The four `atc_send` entry points and the two URC entry points in place: they block in the middle, so they are
  steps of `Engine` callers, on values; what this does not capture is the order of writes within one step.
- Weak memory and compiler reordering in the ring: loads and stores are sequentially consistent.
- Callbacks that register or unregister URCs, several receive interrupts, several contexts: outside documented use.
  A callback that sends asynchronously is a caller of its own in `Engine`.
- `stack_push`, `stack_pop`, `stack_peek`, the size queries, `stack_destroy`, `ring_buffer_deinit`, `slist_len`:
  unused by the engine, and easy.
- ApiHandlers.ApiQueue.ExternMsgHandle: one flag says whether both allocations of a registration succeed.
- Process.ProcessOnce: the same.
- Process.ProcessRounds: the bounds of the queues between the iterations; what arrives is what was accepted.
- Contexts.Context.BytePromptHandle: what the code does after it has read a nulled task is undefined; the model
  goes on as if the comparison had stopped.
- Whether an asynchronous request has a handler at all: `Completed` events stand for the end of a request, and
  for a handler call only if it has one.
- Liveness: nothing is claimed about how soon a wake-up or a deadline is acted on.
