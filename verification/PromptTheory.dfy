/**
 * The prompt matcher and the binary collector, taken together, compute a short function of the stream:
 * the first occurrence of the prompt and the fixed number of bytes after it.
 */
module PromptTheory {
  import opened Bytes
  import opened AtcTypes
  import opened ByteStacks
  import opened ReceiveSpec

  /** The prompt ends right before position e. */
  predicate EndsAt(prompt: seq<byte>, s: seq<byte>, e: nat) {
    |prompt| <= e <= |s| && s[e - |prompt|..e] == prompt
  }

  /** e is where the first occurrence of the prompt ends. */
  ghost predicate FirstEnd(prompt: seq<byte>, s: seq<byte>, e: nat) {
    EndsAt(prompt, s, e) && forall d: nat | d < e :: !EndsAt(prompt, s, d)
  }

  /** Prompts the matcher can recognise: 1 to 20 bytes, none of them NUL. */
  predicate Recognisable(prompt: seq<byte>) {
    1 <= |prompt| <= 20 && NUL !in prompt
  }

  /** The command is over within s: `need` bytes have followed the first occurrence of the prompt. */
  ghost predicate Done(req: SendReq, s: seq<byte>) {
    Recognisable(req.prompt) && req.need <= 512 &&
    exists e: nat :: FirstEnd(req.prompt, s, e) && e + req.need <= |s|
  }

  /** A prompt task that has just been started: nothing matched or collected yet. */
  ghost predicate FreshPromptTask(s: RxState) {
    RxInv(s) && s.task.Some? && s.task.value.status == Prompt && s.window == []
  }

  // While the prompt has not occurred.

  lemma WindowMatchesIff(s: seq<byte>, prompt: seq<byte>)
    ensures Matches(LastN(s, STACK_DEPTH), prompt) <==> Recognisable(prompt) && EndsAt(prompt, s, |s|)
  {
    if |prompt| <= STACK_DEPTH && |prompt| <= |s| {
      assert LastN(s, STACK_DEPTH)[|LastN(s, STACK_DEPTH)| - |prompt|..] == s[|s| - |prompt|..];
    }
  }

  /** No recognisable occurrence in s. */
  ghost predicate Waiting(prompt: seq<byte>, s: seq<byte>) {
    Recognisable(prompt) ==> forall e: nat :: !EndsAt(prompt, s, e)
  }

  /** Occurrences inside a prefix are the occurrences that end inside it. */
  lemma EndsAtInPrefix(prompt: seq<byte>, s: seq<byte>, more: seq<byte>)
    ensures forall e: nat | e <= |s| :: EndsAt(prompt, s + more, e) <==> EndsAt(prompt, s, e)
  {
    forall e: nat | e <= |s| ensures EndsAt(prompt, s + more, e) <==> EndsAt(prompt, s, e) {
      if |prompt| <= e {
        assert (s + more)[e - |prompt|..e] == s[e - |prompt|..e];
      }
    }
  }

  lemma SplitLast(input: seq<Rx>)
    requires input != []
    ensures BytesOf(input) == BytesOf(input[..|input| - 1]) + [input[|input| - 1].b]
  {
  }

  lemma {:induction false} WhileWaiting(s: RxState, input: seq<Rx>)
    requires FreshPromptTask(s) && Waiting(s.task.value.req.prompt, BytesOf(input))
    ensures Feed(s, input) == s.(window := LastN(BytesOf(input), STACK_DEPTH))
  {
    if input != [] {
      var init, last := input[..|input| - 1], input[|input| - 1];
      var bytes, prompt := BytesOf(input), s.task.value.req.prompt;
      SplitLast(input);
      EndsAtInPrefix(prompt, BytesOf(init), [last.b]);
      forall e: nat | Recognisable(prompt) ensures !EndsAt(prompt, BytesOf(init), e) {
        assert !EndsAt(prompt, bytes, e);
      }
      WhileWaiting(s, init);
      WindowMatchesIff(bytes, prompt);
      assert Pushed(LastN(BytesOf(init), STACK_DEPTH), STACK_DEPTH, last.b) == LastN(bytes, STACK_DEPTH);
    }
  }

  // The prompt has just occurred, and the bytes after it.

  lemma FirstEndIsWaitingBefore(prompt: seq<byte>, s: seq<byte>, b: byte)
    requires FirstEnd(prompt, s + [b], |s| + 1)
    ensures Waiting(prompt, s)
  {
    EndsAtInPrefix(prompt, s, [b]);
    forall e: nat ensures !EndsAt(prompt, s, e) {
      assert e <= |s| ==> !EndsAt(prompt, s + [b], e);
    }
  }

  lemma OnMatch(s: RxState, window: seq<byte>, urcs: seq<Urc>, b: byte)
    requires FreshPromptTask(s) && |window| <= STACK_DEPTH
    requires Matches(Pushed(window, STACK_DEPTH, b), s.task.value.req.prompt)
    ensures var task := s.task.value;
            ByteStep(s.(window := window), urcs, b) ==
            if task.req.need != 0 then ClearResponse(s).(task := Some(task.(status := Binary)))
            else CommandEnd(s, Success)
  {
  }

  lemma AtFirstEnd(s: RxState, input: seq<Rx>)
    requires FreshPromptTask(s)
    requires var prompt := s.task.value.req.prompt;
             Recognisable(prompt) && FirstEnd(prompt, BytesOf(input), |input|)
    ensures var task := s.task.value;
            Feed(s, input) ==
            if task.req.need != 0 then ClearResponse(s).(task := Some(task.(status := Binary)))
            else CommandEnd(s, Success)
  {
    var init, last := input[..|input| - 1], input[|input| - 1];
    var prompt, window := s.task.value.req.prompt, LastN(BytesOf(init), STACK_DEPTH);
    SplitLast(input);
    FirstEndIsWaitingBefore(prompt, BytesOf(init), last.b);
    WhileWaiting(s, init);
    WindowMatchesIff(BytesOf(input), prompt);
    assert Pushed(window, STACK_DEPTH, last.b) == LastN(BytesOf(input), STACK_DEPTH);
    OnMatch(s, window, last.urcs, last.b);
  }

  /** A binary task that has collected nothing yet. */
  ghost predicate FreshBinaryTask(s: RxState) {
    Shape(s) && InBinary(s) && s.length == 0 && s.window == [] && 0 < s.task.value.req.need
  }

  /** Collecting: while fewer than `need` bytes arrived the buffer holds what fits of them. */
  lemma {:induction false} WhileCollecting(s: RxState, input: seq<Rx>)
    requires FreshBinaryTask(s) && (|input| < s.task.value.req.need || RESPONSE_MAX < s.task.value.req.need)
    ensures var t, kept := Feed(s, input), if |input| <= RESPONSE_MAX then |input| else RESPONSE_MAX;
            t == s.(response := t.response, length := kept) &&
            t.response[..kept] == BytesOf(input)[..kept]
  {
    if input != [] {
      var init, last := input[..|input| - 1], input[|input| - 1];
      SplitLast(input);
      WhileCollecting(s, init);
      var u, t := Feed(s, init), Feed(s, input);
      assert t == ByteStep(u, last.urcs, last.b);
      if |init| < RESPONSE_MAX {
        assert t.response[..|input|] == u.response[..|init|] + [last.b];
      }
    }
  }

  lemma AtLastByte(s: RxState, input: seq<Rx>)
    requires FreshBinaryTask(s) && |input| == s.task.value.req.need <= RESPONSE_MAX
    ensures Feed(s, input).task.None?
    ensures Feed(s, input).trace == s.trace + [Completed(s.task.value.req, Success, BytesOf(input))]
  {
    var init, last := input[..|input| - 1], input[|input| - 1];
    SplitLast(input);
    WhileCollecting(s, init);
    var u := Feed(s, init);
    assert u.response[..u.length] == BytesOf(init);
    var (u1, end) := BinaryByte(u, last.b);
    assert u1.response[..u1.length] == BytesOf(input);
    assert Feed(s, input) == CommandEnd(u1, Success);
  }

  /**
   * At the exact byte where the command is over it ends, once, with success, and its handler is given
   * exactly the bytes after the first occurrence of the prompt.
   */
  lemma EndsExactlyThere(s: RxState, input: seq<Rx>, e: nat)
    requires FreshPromptTask(s)
    requires var req := s.task.value.req;
             Recognisable(req.prompt) && req.need <= RESPONSE_MAX &&
             FirstEnd(req.prompt, BytesOf(input), e) && |input| == e + req.need
    ensures Feed(s, input).task.None?
    ensures Feed(s, input).trace == s.trace + [Completed(s.task.value.req, Success, BytesOf(input)[e..])]
  {
    var head, tail := input[..e], input[e..];
    var prompt := s.task.value.req.prompt;
    assert input == head + tail;
    FeedConcat(s, head, tail);
    FirstEndOfPrefix(prompt, BytesOf(input), e, e);
    assert BytesOf(head) == BytesOf(input)[..e];
    AtFirstEnd(s, head);
    assert BytesOf(tail) == BytesOf(input)[e..];
    if s.task.value.req.need != 0 {
      AtLastByte(Feed(s, head), tail);
    } else {
      assert tail == [];
      assert s.response[..0] == [];
    }
  }

  lemma FirstEndOfPrefix(prompt: seq<byte>, s: seq<byte>, e: nat, n: nat)
    requires FirstEnd(prompt, s, e) && e <= n <= |s|
    ensures FirstEnd(prompt, s[..n], e)
  {
    assert s == s[..n] + s[n..];
    EndsAtInPrefix(prompt, s[..n], s[n..]);
  }

  /** Once no task is current, no byte makes one current again. */
  lemma {:induction false} NoTaskStaysNoTask(s: RxState, input: seq<Rx>)
    requires Shape(s) && s.task.None?
    ensures Feed(s, input).task.None?
  {
    if input != [] {
      NoTaskStaysNoTask(s, input[..|input| - 1]);
    }
  }

  lemma FirstEndExists(prompt: seq<byte>, s: seq<byte>, e: nat) returns (f: nat)
    requires EndsAt(prompt, s, e)
    ensures FirstEnd(prompt, s, f) && f <= e
  {
    f := 0;
    while !EndsAt(prompt, s, f)
      invariant f <= e && forall d: nat | d < f :: !EndsAt(prompt, s, d)
      decreases e - f
    {
      f := f + 1;
    }
  }

  /**
   * Main result, for every prompt, every length and every stream: the task has ended within the stream
   * exactly when `need` (at most 512) bytes have followed the first occurrence of its prompt and the
   * prompt has 1 to 20 bytes and no NUL.
   */
  lemma PromptTaskEndsIff(s: RxState, input: seq<Rx>)
    requires FreshPromptTask(s)
    ensures Feed(s, input).task.None? <==> Done(s.task.value.req, BytesOf(input))
  {
    var req, bytes := s.task.value.req, BytesOf(input);
    if Recognisable(req.prompt) && exists e: nat :: EndsAt(req.prompt, bytes, e) {
      var any: nat :| EndsAt(req.prompt, bytes, any);
      var e := FirstEndExists(req.prompt, bytes, any);
      if e + req.need <= |bytes| && req.need <= RESPONSE_MAX {
        EndedWithin(s, input, e);
      } else {
        StillCollecting(s, input, e);
        forall d: nat | FirstEnd(req.prompt, bytes, d) ensures d == e {
        }
      }
    } else {
      WhileWaiting(s, input);
    }
  }

  lemma FirstEndsAgree(prompt: seq<byte>, s: seq<byte>, d: nat, e: nat)
    requires FirstEnd(prompt, s, d) && FirstEnd(prompt, s, e)
    ensures d == e
  {
  }

  lemma NulledReadWhileWaiting(s: RxState, bytes: seq<byte>, b: byte)
    requires s.task.Some? && s.task.value.status == Prompt && s.task.value.req.need == 0
    requires s.window == LastN(bytes, STACK_DEPTH) && Waiting(s.task.value.req.prompt, bytes)
    ensures ReadsNulledTask(s, b) <==>
            Recognisable(s.task.value.req.prompt) && FirstEnd(s.task.value.req.prompt, bytes + [b], |bytes| + 1)
  {
    var prompt := s.task.value.req.prompt;
    WindowMatchesIff(bytes + [b], prompt);
    assert Pushed(s.window, STACK_DEPTH, b) == LastN(bytes + [b], STACK_DEPTH);
    EndsAtInPrefix(prompt, bytes, [b]);
  }

  /**
   * When a byte of a prompt command makes the comparison loop read a nulled task: exactly when nothing is
   * to be received and a recognisable prompt occurs for the first time, ending with this byte.
   */
  lemma ReadsNulledTaskIff(s: RxState, input: seq<Rx>, last: Rx)
    requires FreshPromptTask(s)
    ensures ReadsNulledTask(Feed(s, input), last.b) <==>
            s.task.value.req.need == 0 && Recognisable(s.task.value.req.prompt) &&
            FirstEnd(s.task.value.req.prompt, BytesOf(input + [last]), |input| + 1)
  {
    var req, bytes, all := s.task.value.req, BytesOf(input), BytesOf(input + [last]);
    assert all == bytes + [last.b];
    PromptTaskEndsIff(s, input);
    if req.need == 0 && Recognisable(req.prompt) && exists e: nat :: EndsAt(req.prompt, bytes, e) {
      var any: nat :| EndsAt(req.prompt, bytes, any);
      var e := FirstEndExists(req.prompt, bytes, any);
      EndsAtInPrefix(req.prompt, bytes, [last.b]);
      assert Done(req, bytes) && FirstEnd(req.prompt, all, e) && e <= |input|;
    } else if req.need == 0 {
      WhileWaiting(s, input);
      NulledReadWhileWaiting(Feed(s, input), bytes, last.b);
    } else {
      RequestStays(s, input);
    }
  }

  /** While a task lasts it is the same request. */
  lemma {:induction false} RequestStays(s: RxState, input: seq<Rx>)
    requires Shape(s) && s.task.Some?
    ensures Feed(s, input).task.Some? ==> Feed(s, input).task.value.req == s.task.value.req
  {
    if input != [] {
      var init, last := input[..|input| - 1], input[|input| - 1];
      RequestStays(s, init);
      StatusOnlyMovesToBinary(Feed(s, init), last.urcs, last.b);
    }
  }

  /** What a stream that has not ended the command has collected: the first 512 bytes after the prompt. */
  lemma CollectedSoFar(s: RxState, input: seq<Rx>)
    requires FreshPromptTask(s) && Feed(s, input).task.Some?
    ensures var (t, prompt, bytes) := (Feed(s, input), s.task.value.req.prompt, BytesOf(input));
            (forall e: nat | Recognisable(prompt) && FirstEnd(prompt, bytes, e) :: Collects(t, bytes[e..])) &&
            (Waiting(prompt, bytes) ==> Collects(t, []))
  {
    var req, bytes := s.task.value.req, BytesOf(input);
    PromptTaskEndsIff(s, input);
    if Recognisable(req.prompt) && exists e: nat :: EndsAt(req.prompt, bytes, e) {
      var any: nat :| EndsAt(req.prompt, bytes, any);
      var e := FirstEndExists(req.prompt, bytes, any);
      CollectedAfter(s, input, e);
      forall d: nat | FirstEnd(req.prompt, bytes, d) ensures d == e {
        FirstEndsAgree(req.prompt, bytes, d, e);
      }
    } else {
      WhileWaiting(s, input);
    }
  }

  /** The response holds the first 512 of these bytes. */
  predicate Collects(t: RxState, bytes: seq<byte>) {
    t.length <= |t.response| &&
    t.response[..t.length] == bytes[..if |bytes| <= 512 then |bytes| else 512]
  }

  /** At the first occurrence of its prompt a command that goes on starts collecting. */
  lemma CollectsAfterPrompt(s: RxState, head: seq<Rx>)
    requires FreshPromptTask(s) && Feed(s, head).task.Some?
    requires Recognisable(s.task.value.req.prompt) && FirstEnd(s.task.value.req.prompt, BytesOf(head), |head|)
    ensures FreshBinaryTask(Feed(s, head)) && Feed(s, head).task.value.req == s.task.value.req
  {
    AtFirstEnd(s, head);
  }

  lemma NotDoneYet(req: SendReq, bytes: seq<byte>, e: nat)
    requires !Done(req, bytes) && Recognisable(req.prompt) && FirstEnd(req.prompt, bytes, e)
    ensures |bytes| < e + req.need || RESPONSE_MAX < req.need
  {
  }

  lemma StillThereBefore(s: RxState, head: seq<Rx>, tail: seq<Rx>)
    requires Shape(s) && Feed(s, head + tail).task.Some?
    ensures Feed(s, head).task.Some?
  {
    FeedConcat(s, head, tail);
    if Feed(s, head).task.None? {
      NoTaskStaysNoTask(Feed(s, head), tail);
    }
  }

  /** What is collected once collecting has begun at the end of head. */
  lemma CollectedAt(s: RxState, head: seq<Rx>, tail: seq<Rx>, need: nat)
    requires Shape(s) && FreshBinaryTask(Feed(s, head)) && Feed(s, head).task.value.req.need == need
    requires |tail| < need || RESPONSE_MAX < need
    ensures Collects(Feed(s, head + tail), BytesOf(tail))
  {
    FeedConcat(s, head, tail);
    var t := CollectedFrom(Feed(s, head), tail);
  }

  lemma CollectedAfter(s: RxState, input: seq<Rx>, e: nat)
    requires FreshPromptTask(s) && Feed(s, input).task.Some?
    requires Recognisable(s.task.value.req.prompt) && FirstEnd(s.task.value.req.prompt, BytesOf(input), e)
    ensures Collects(Feed(s, input), BytesOf(input)[e..])
  {
    var req, bytes := s.task.value.req, BytesOf(input);
    var head, tail := input[..e], input[e..];
    assert input == head + tail && BytesOf(head) == bytes[..e] && BytesOf(tail) == bytes[e..];
    PromptTaskEndsIff(s, input);
    NotDoneYet(req, bytes, e);
    FirstEndOfPrefix(req.prompt, bytes, e, e);
    StillThereBefore(s, head, tail);
    CollectsAfterPrompt(s, head);
    CollectedAt(s, head, tail, req.need);
  }

  lemma CollectedFrom(u: RxState, tail: seq<Rx>) returns (t: RxState)
    requires FreshBinaryTask(u) && (|tail| < u.task.value.req.need || RESPONSE_MAX < u.task.value.req.need)
    ensures t == Feed(u, tail) && Collects(t, BytesOf(tail))
  {
    WhileCollecting(u, tail);
    t := Feed(u, tail);
  }

  lemma EndedWithin(s: RxState, input: seq<Rx>, e: nat)
    requires FreshPromptTask(s)
    requires var req := s.task.value.req;
             Recognisable(req.prompt) && req.need <= RESPONSE_MAX &&
             FirstEnd(req.prompt, BytesOf(input), e) && e + req.need <= |input|
    ensures Feed(s, input).task.None?
  {
    var n := e + s.task.value.req.need;
    var head, tail := input[..n], input[n..];
    assert input == head + tail && BytesOf(head) == BytesOf(input)[..n];
    FirstEndOfPrefix(s.task.value.req.prompt, BytesOf(input), e, n);
    EndsExactlyThere(s, head, e);
    FeedConcat(s, head, tail);
    NoTaskStaysNoTask(Feed(s, head), tail);
  }

  lemma StillCollecting(s: RxState, input: seq<Rx>, e: nat)
    requires FreshPromptTask(s)
    requires var req := s.task.value.req;
             Recognisable(req.prompt) && FirstEnd(req.prompt, BytesOf(input), e) &&
             (|input| < e + req.need || RESPONSE_MAX < req.need)
    ensures Feed(s, input).task.Some?
  {
    var head, tail := input[..e], input[e..];
    assert input == head + tail && BytesOf(head) == BytesOf(input)[..e];
    FirstEndOfPrefix(s.task.value.req.prompt, BytesOf(input), e, e);
    AtFirstEnd(s, head);
    FeedConcat(s, head, tail);
    WhileCollecting(Feed(s, head), tail);
  }

  lemma StreamThatEnds(s: RxState) returns (input: seq<Rx>)
    requires FreshPromptTask(s)
    requires Recognisable(s.task.value.req.prompt) && s.task.value.req.need <= RESPONSE_MAX
    ensures Feed(s, input).task.None?
  {
    var req := s.task.value.req;
    var bytes := req.prompt + Zeros(req.need);
    input := seq(|bytes|, i requires 0 <= i < |bytes| => Rx(bytes[i], []));
    assert BytesOf(input) == bytes;
    assert EndsAt(req.prompt, bytes, |req.prompt|);
    var e := FirstEndExists(req.prompt, bytes, |req.prompt|);
    EndedWithin(s, input, e);
  }

  /**
   * Which prompt tasks any stream can end: those with a recognisable prompt and at most 512 bytes to
   * collect. All others wait for their timeout, whatever arrives.
   */
  lemma CanEndIff(s: RxState)
    requires FreshPromptTask(s)
    ensures (exists input: seq<Rx> :: Feed(s, input).task.None?) <==>
            Recognisable(s.task.value.req.prompt) && s.task.value.req.need <= 512
  {
    if Recognisable(s.task.value.req.prompt) && s.task.value.req.need <= RESPONSE_MAX {
      var input := StreamThatEnds(s);
    } else {
      forall input: seq<Rx> ensures Feed(s, input).task.Some? {
        PromptTaskEndsIff(s, input);
      }
    }
  }
}
