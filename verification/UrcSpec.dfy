/** What the URC registry promises, as values: ID allocation, requests, runs of requests, dispatch. */
module UrcSpec {
  import opened Bytes
  import opened AtcTypes
  import opened SinglyLinkedLists

  predicate IsId(id: int) {
    1 <= id <= INT_MAX
  }

  function NextId(id: int): int {
    if id < INT_MAX then id + 1 else 1
  }

  /** How many increments lead from one ID to another, wrapping past INT_MAX to 1. */
  function Ahead(from: int, to: int): (n: nat)
    requires IsId(from) && IsId(to)
    ensures n < INT_MAX
  {
    if from <= to then to - from else to - from + INT_MAX
  }

  ghost function Ids(urcs: seq<Urc>): (s: set<int>)
    ensures forall u :: u in urcs ==> u.id in s
    ensures forall x :: x in s ==> exists u :: u in urcs && u.id == x
  {
    set u | u in urcs :: u.id
  }

  ghost predicate DistinctIds(urcs: seq<Urc>) {
    forall i, j | 0 <= i < j < |urcs| :: urcs[i].id != urcs[j].id
  }

  /** r is the cyclically first unused ID at or after start. */
  ghost predicate FirstFreeFrom(ids: set<int>, start: int, r: int)
    requires IsId(start)
  {
    IsId(r) && r !in ids && forall x | IsId(x) && Ahead(start, x) < Ahead(start, r) :: x in ids
  }

  // Pigeonhole: a free ID exists exactly when fewer than INT_MAX IDs are in use.

  lemma {:induction false} FullRangeIsLarge(ids: set<int>, n: nat)
    requires forall x | 1 <= x <= n :: x in ids
    ensures |ids| >= n
  {
    if n > 0 {
      FullRangeIsLarge(ids - {n}, n - 1);
    }
  }

  lemma {:induction false} RangeIsSmall(ids: set<int>, n: nat)
    requires forall x | x in ids :: 1 <= x <= n
    ensures |ids| <= n
  {
    if n > 0 {
      RangeIsSmall(ids - {n}, n - 1);
    } else {
      assert forall x :: x !in ids;
    }
  }

  /** The search can succeed exactly when fewer than INT_MAX IDs are taken; otherwise it collides forever. */
  lemma FreeIdExistsIff(ids: set<int>)
    requires forall x | x in ids :: IsId(x)
    ensures (exists r :: IsId(r) && r !in ids) <==> |ids| < INT_MAX
  {
    if r :| IsId(r) && r !in ids {
      RangeIsSmall(ids + {r}, INT_MAX);
    } else {
      FullRangeIsLarge(ids, INT_MAX);
    }
  }

  lemma AheadByOne(start: int, x: int)
    requires IsId(start) && IsId(x) && x != start
    ensures IsId(NextId(start)) && Ahead(start, x) == 1 + Ahead(NextId(start), x)
  {
  }

  lemma {:induction false} FindFirstFree(ids: set<int>, start: int, free: int) returns (r: int)
    requires IsId(start) && IsId(free) && free !in ids
    ensures FirstFreeFrom(ids, start, r)
    decreases Ahead(start, free)
  {
    if start !in ids {
      return start;
    }
    AheadByOne(start, free);
    r := FindFirstFree(ids, NextId(start), free);
    AheadByOne(start, r);
    forall x | IsId(x) && Ahead(start, x) < Ahead(start, r) ensures x in ids {
      if x != start {
        AheadByOne(start, x);
      }
    }
  }

  lemma FirstFreeIsUnique(ids: set<int>, start: int, r: int, q: int)
    requires IsId(start) && FirstFreeFrom(ids, start, r) && FirstFreeFrom(ids, start, q)
    ensures r == q
  {
  }

  ghost function FirstFree(ids: set<int>, start: int): (r: int)
    requires IsId(start) && |ids| < INT_MAX
    ensures FirstFreeFrom(ids, start, r)
  {
    assert exists r :: FirstFreeFrom(ids, start, r) by {
      if forall x | IsId(x) :: x in ids {
        FullRangeIsLarge(ids, INT_MAX);
      }
      var free :| IsId(free) && free !in ids;
      var r := FindFirstFree(ids, start, free);
    }
    var r :| FirstFreeFrom(ids, start, r);
    r
  }

  // Requests and what serving one does.

  datatype Request = Register(prefix: seq<byte>, handler: nat, hasMemory: bool) | Unregister(id: int)

  /** `issued` lists every ID ever allocated, in order, whether or not storing the entry then succeeded. */
  datatype Registry = Registry(urcs: seq<Urc>, nextId: int, issued: seq<int>)

  /** The position of the entry with this ID, |urcs| if there is none. */
  function Position(urcs: seq<Urc>, id: int): (k: nat)
    ensures k <= |urcs| && (k < |urcs| ==> urcs[k].id == id)
    ensures forall i :: 0 <= i < k ==> urcs[i].id != id
  {
    if urcs == [] || urcs[0].id == id then 0 else 1 + Position(urcs[1..], id)
  }

  lemma PositionIs(urcs: seq<Urc>, id: int, k: nat)
    requires k < |urcs| && urcs[k].id == id && forall i | 0 <= i < k :: urcs[i].id != id
    ensures Position(urcs, id) == k
  {
  }

  ghost predicate CanServe(reg: Registry, req: Request) {
    IsId(reg.nextId) && (req.Register? ==> |Ids(reg.urcs)| < INT_MAX)
  }

  ghost function Serve(reg: Registry, req: Request): Registry
    requires CanServe(reg, req)
  {
    match req
    case Register(prefix, handler, hasMemory) =>
      var id := FirstFree(Ids(reg.urcs), reg.nextId);
      Registry(if hasMemory then reg.urcs + [Urc(id, prefix, handler)] else reg.urcs,
               NextId(id), reg.issued + [id])
    case Unregister(id) =>
      var k := Position(reg.urcs, id);
      if k < |reg.urcs| then reg.(urcs := WithoutAt(reg.urcs, k)) else reg
  }

  /** The value handed back: the new ID or -1; 0 (ATC_SUCCESS) or -1 (ATC_ERROR). */
  ghost function Answer(reg: Registry, req: Request): int
    requires CanServe(reg, req)
  {
    match req
    case Register(_, _, hasMemory) => if hasMemory then FirstFree(Ids(reg.urcs), reg.nextId) else -1
    case Unregister(id) => if Position(reg.urcs, id) < |reg.urcs| then 0 else -1
  }

  ghost predicate RegistryInv(reg: Registry) {
    && IsId(reg.nextId) && DistinctIds(reg.urcs)
    && (forall u | u in reg.urcs :: IsId(u.id) && u.id in reg.issued)
    && (forall x | x in reg.issued :: IsId(x))
    && (forall k | 0 <= k < |reg.issued| && k < INT_MAX :: reg.issued[k] == k + 1)
    && (|reg.issued| <= INT_MAX ==> reg.nextId == if |reg.issued| < INT_MAX then |reg.issued| + 1 else 1)
  }

  const EMPTY_REGISTRY := Registry([], 1, [])

  /** Before the counter wraps, the next ID is always free and is the one issued. */
  lemma NextIdIsFree(reg: Registry)
    requires RegistryInv(reg) && |reg.issued| < INT_MAX && |Ids(reg.urcs)| < INT_MAX
    ensures FirstFree(Ids(reg.urcs), reg.nextId) == |reg.issued| + 1
  {
    forall u | u in reg.urcs ensures u.id != reg.nextId {
      var k :| 0 <= k < |reg.issued| && reg.issued[k] == u.id;
    }
    assert Ahead(reg.nextId, reg.nextId) == 0;
    assert FirstFreeFrom(Ids(reg.urcs), reg.nextId, reg.nextId);
    FirstFreeIsUnique(Ids(reg.urcs), reg.nextId, reg.nextId, FirstFree(Ids(reg.urcs), reg.nextId));
  }

  lemma RegisterKeepsInv(reg: Registry, req: Request)
    requires RegistryInv(reg) && CanServe(reg, req) && req.Register?
    ensures RegistryInv(Serve(reg, req))
  {
    var id := FirstFree(Ids(reg.urcs), reg.nextId);
    if |reg.issued| < INT_MAX {
      NextIdIsFree(reg);
    }
    var reg' := Serve(reg, req);
    assert id in reg'.issued && forall x | x in reg.issued :: x in reg'.issued;
    forall i, j | 0 <= i < j < |reg'.urcs| ensures reg'.urcs[i].id != reg'.urcs[j].id {
      assert reg'.urcs[i] == reg.urcs[i];
      assert reg.urcs[i].id in Ids(reg.urcs);
    }
  }

  lemma ServeKeepsInv(reg: Registry, req: Request)
    requires RegistryInv(reg) && CanServe(reg, req)
    ensures RegistryInv(Serve(reg, req))
  {
    if req.Register? {
      RegisterKeepsInv(reg, req);
    }
  }

  // Runs of requests from the empty registry.

  ghost predicate Run(states: seq<Registry>, reqs: seq<Request>) {
    |states| == |reqs| + 1 && states[0] == EMPTY_REGISTRY &&
    forall i {:trigger reqs[i]} | 0 <= i < |reqs| ::
      CanServe(states[i], reqs[i]) && states[i + 1] == Serve(states[i], reqs[i])
  }

  lemma {:induction false} RunKeepsInv(states: seq<Registry>, reqs: seq<Request>, n: nat)
    requires Run(states, reqs) && n < |states|
    ensures RegistryInv(states[n])
  {
    if n > 0 {
      RunKeepsInv(states, reqs, n - 1);
      assert states[n] == Serve(states[n - 1], reqs[n - 1]);
      ServeKeepsInv(states[n - 1], reqs[n - 1]);
    }
  }

  /** Listed IDs are pairwise distinct and in 1..INT_MAX in every state of every run. */
  lemma IdsDistinctAndPositive(states: seq<Registry>, reqs: seq<Request>, n: nat)
    requires Run(states, reqs) && n < |states|
    ensures DistinctIds(states[n].urcs)
    ensures forall u | u in states[n].urcs :: 1 <= u.id <= INT_MAX
  {
    RunKeepsInv(states, reqs, n);
  }

  /** The k-th ID issued is k for the first INT_MAX allocations, and these are exactly the fresh ones. */
  lemma IssuedIdsFreshIffBeforeWrap(states: seq<Registry>, reqs: seq<Request>, n: nat, k: nat)
    requires Run(states, reqs) && n < |states| && k < |states[n].issued|
    ensures k < INT_MAX ==> states[n].issued[k] == k + 1
    ensures states[n].issued[k] !in states[n].issued[..k] <==> k < INT_MAX
  {
    RunKeepsInv(states, reqs, n);
    var issued := states[n].issued;
    if k >= INT_MAX {
      var first := issued[k] - 1;
      assert issued[k] in issued && issued[first] == issued[k];
      assert issued[..k][first] == issued[k];
    }
  }

  /** An ID once issued and no longer listed never names a handler again before the counter wraps. */
  lemma {:induction false} RemovedIdStaysRemoved(states: seq<Registry>, reqs: seq<Request>, i: nat, j: nat, id: int)
    requires Run(states, reqs) && i <= j < |states|
    requires id in states[i].issued && id !in Ids(states[i].urcs)
    requires |states[j].issued| <= INT_MAX
    ensures id in states[j].issued && id !in Ids(states[j].urcs)
    decreases j
  {
    if i < j {
      var before, req := states[j - 1], reqs[j - 1];
      assert states[j] == Serve(before, req);
      RunKeepsInv(states, reqs, j - 1);
      RemovedIdStaysRemoved(states, reqs, i, j - 1, id);
      if req.Register? {
        NextIdIsFree(before);
        var k :| 0 <= k < |before.issued| && before.issued[k] == id;
      }
    }
  }

  /** The entries stand in the order of their IDs. */
  predicate IdsAscend(urcs: seq<Urc>) {
    forall i, j | 0 <= i < j < |urcs| :: urcs[i].id < urcs[j].id
  }

  lemma AppendKeepsOrder(urcs: seq<Urc>, u: Urc)
    requires IdsAscend(urcs) && forall i | 0 <= i < |urcs| :: urcs[i].id < u.id
    ensures IdsAscend(urcs + [u])
  {
  }

  lemma RemovalKeepsOrder(urcs: seq<Urc>, k: nat)
    requires IdsAscend(urcs) && k < |urcs|
    ensures IdsAscend(WithoutAt(urcs, k))
  {
  }

  lemma ListedWereIssued(reg: Registry, i: nat)
    requires RegistryInv(reg) && |reg.issued| < INT_MAX && i < |reg.urcs|
    ensures reg.urcs[i].id <= |reg.issued|
  {
    assert reg.urcs[i] in reg.urcs;
    var k :| 0 <= k < |reg.issued| && reg.issued[k] == reg.urcs[i].id;
  }

  lemma ServeKeepsOrder(reg: Registry, req: Request)
    requires RegistryInv(reg) && CanServe(reg, req) && IdsAscend(reg.urcs)
    requires req.Register? ==> |reg.issued| < INT_MAX
    ensures IdsAscend(Serve(reg, req).urcs)
  {
    match req {
      case Register(prefix, handler, _) =>
        NextIdIsFree(reg);
        forall i | 0 <= i < |reg.urcs| ensures reg.urcs[i].id <= |reg.issued| {
          ListedWereIssued(reg, i);
        }
        AppendKeepsOrder(reg.urcs, Urc(|reg.issued| + 1, prefix, handler));
      case Unregister(id) =>
        if Position(reg.urcs, id) < |reg.urcs| {
          RemovalKeepsOrder(reg.urcs, Position(reg.urcs, id));
        }
    }
  }

  /** Before the counter wraps, entries are listed, and so handlers called, in the order of registration. */
  lemma {:induction false} ListedInOrder(states: seq<Registry>, reqs: seq<Request>, n: nat)
    requires Run(states, reqs) && n < |states| && |states[n].issued| <= INT_MAX
    ensures IdsAscend(states[n].urcs)
  {
    if n > 0 {
      assert states[n] == Serve(states[n - 1], reqs[n - 1]);
      ListedInOrder(states, reqs, n - 1);
      RunKeepsInv(states, reqs, n - 1);
      ServeKeepsOrder(states[n - 1], reqs[n - 1]);
    }
  }

  /** Some run of requests leads from the empty registry here. */
  ghost predicate Reachable(reg: Registry) {
    exists states: seq<Registry>, reqs: seq<Request> :: Run(states, reqs) && states[|reqs|] == reg
  }

  lemma EmptyIsReachable()
    ensures Reachable(EMPTY_REGISTRY)
  {
    assert Run([EMPTY_REGISTRY], []);
  }

  lemma ReachableInv(reg: Registry)
    requires Reachable(reg)
    ensures RegistryInv(reg)
  {
    var states: seq<Registry>, reqs: seq<Request> :| Run(states, reqs) && states[|reqs|] == reg;
    RunKeepsInv(states, reqs, |reqs|);
  }

  lemma ServeKeepsReachable(reg: Registry, req: Request)
    requires Reachable(reg) && CanServe(reg, req)
    ensures Reachable(Serve(reg, req))
  {
    var states: seq<Registry>, reqs: seq<Request> :| Run(states, reqs) && states[|reqs|] == reg;
    var more, longer := states + [Serve(reg, req)], reqs + [req];
    forall i {:trigger longer[i]} | 0 <= i < |longer|
      ensures CanServe(more[i], longer[i]) && more[i + 1] == Serve(more[i], longer[i])
    {
      if i < |reqs| {
        assert longer[i] == reqs[i];
      }
    }
    assert Run(more, longer);
  }

  // Unregistering.

  /** Reference definition: every entry except those with this ID, in order. */
  function Others(urcs: seq<Urc>, id: int): seq<Urc> {
    if urcs == [] then [] else
      (if urcs[0].id == id then [] else [urcs[0]]) + Others(urcs[1..], id)
  }

  lemma {:induction false} OthersOfAbsent(urcs: seq<Urc>, id: int)
    requires forall u | u in urcs :: u.id != id
    ensures Others(urcs, id) == urcs
  {
    if urcs != [] {
      assert urcs[0] in urcs && forall u | u in urcs[1..] :: u in urcs;
      OthersOfAbsent(urcs[1..], id);
    }
  }

  lemma DistinctTail(urcs: seq<Urc>)
    requires urcs != [] && DistinctIds(urcs)
    ensures DistinctIds(urcs[1..]) && forall u | u in urcs[1..] :: u.id != urcs[0].id
  {
    forall i | 0 <= i < |urcs[1..]| ensures urcs[1..][i].id != urcs[0].id {
      assert urcs[0].id != urcs[i + 1].id;
    }
  }

  lemma WithoutAtTail(urcs: seq<Urc>, k: nat)
    requires k + 1 < |urcs|
    ensures WithoutAt(urcs, k + 1) == [urcs[0]] + WithoutAt(urcs[1..], k)
  {
  }

  lemma {:induction false} WithoutPositionIsOthers(urcs: seq<Urc>, id: int)
    requires DistinctIds(urcs)
    ensures (if Position(urcs, id) < |urcs| then WithoutAt(urcs, Position(urcs, id)) else urcs) == Others(urcs, id)
  {
    if urcs != [] {
      var rest := urcs[1..];
      DistinctTail(urcs);
      if urcs[0].id == id {
        OthersOfAbsent(rest, id);
        assert WithoutAt(urcs, 0) == rest;
      } else {
        WithoutPositionIsOthers(rest, id);
        var k := Position(rest, id);
        assert Position(urcs, id) == k + 1;
        if k < |rest| {
          WithoutAtTail(urcs, k);
        } else {
          assert urcs == [urcs[0]] + rest;
        }
      }
    }
  }

  /**
   * In every reachable registry, unregistering succeeds exactly when the ID is listed, takes away
   * exactly that entry and keeps the others in order.
   */
  lemma UnregisterExact(states: seq<Registry>, reqs: seq<Request>, n: nat)
    requires Run(states, reqs) && n < |reqs| && reqs[n].Unregister?
    ensures CanServe(states[n], reqs[n])
    ensures Answer(states[n], reqs[n]) == 0 <==> reqs[n].id in Ids(states[n].urcs)
    ensures Answer(states[n], reqs[n]) == 0 || Answer(states[n], reqs[n]) == -1
    ensures states[n + 1].urcs == Others(states[n].urcs, reqs[n].id)
  {
    RunKeepsInv(states, reqs, n);
    WithoutPositionIsOthers(states[n].urcs, reqs[n].id);
    assert states[n + 1] == Serve(states[n], reqs[n]);
  }

  // Dispatch.

  /** The calls a line causes: one per entry whose prefix starts the line, in list order. */
  function Calls(urcs: seq<Urc>, line: seq<byte>): seq<Event> {
    if urcs == [] then [] else
      var u := urcs[|urcs| - 1];
      Calls(urcs[..|urcs| - 1], line) + (if u.prefix <= line then [UrcCall(u.id, u.handler, line)] else [])
  }

  predicate IsUrcLine(urcs: seq<Urc>, line: seq<byte>) {
    exists u :: u in urcs && u.prefix <= line
  }

  lemma IsUrcLineAppend(urcs: seq<Urc>, last: Urc, line: seq<byte>)
    ensures IsUrcLine(urcs + [last], line) <==> IsUrcLine(urcs, line) || last.prefix <= line
  {
    assert last in urcs + [last];
  }

  lemma {:induction false} CallsIffUrcLine(urcs: seq<Urc>, line: seq<byte>)
    ensures Calls(urcs, line) == [] <==> !IsUrcLine(urcs, line)
  {
    if urcs != [] {
      var init, last := urcs[..|urcs| - 1], urcs[|urcs| - 1];
      CallsIffUrcLine(init, line);
      assert IsUrcLine(urcs, line) <==> IsUrcLine(init, line) || last.prefix <= line by {
        IsUrcLineAppend(init, last, line);
        assert init + [last] == urcs;
      }
    }
  }

  // What the calls are, entry by entry.

  predicate Increasing(ks: seq<nat>) {
    forall i, j | 0 <= i < j < |ks| :: ks[i] < ks[j]
  }

  /** The positions, ascending, of exactly the entries whose prefix starts the line. */
  ghost predicate Matching(urcs: seq<Urc>, line: seq<byte>, ks: seq<nat>) {
    Increasing(ks) && forall k: nat {:trigger k in ks} :: k in ks <==> k < |urcs| && urcs[k].prefix <= line
  }

  /** One call for each of these positions, in order: that entry's handler, with this line. */
  predicate CalledAt(calls: seq<Event>, urcs: seq<Urc>, line: seq<byte>, ks: seq<nat>) {
    |calls| == |ks| &&
    forall i | 0 <= i < |ks| ::
      ks[i] < |urcs| && calls[i] == UrcCall(urcs[ks[i]].id, urcs[ks[i]].handler, line)
  }

  /** Each matching entry's handler is called once, in list order, and no other. */
  ghost predicate CallsMatching(calls: seq<Event>, urcs: seq<Urc>, line: seq<byte>) {
    exists ks :: Matching(urcs, line, ks) && CalledAt(calls, urcs, line, ks)
  }

  lemma MatchingMore(urcs: seq<Urc>, init: seq<Urc>, last: Urc, line: seq<byte>, ks: seq<nat>)
    requires urcs == init + [last] && Matching(init, line, ks)
    ensures Matching(urcs, line, if last.prefix <= line then ks + [|init|] else ks)
  {
    var (n, more) := (|init|, ks + [|init|]);
    assert forall i | 0 <= i < |ks| :: ks[i] in ks;
    forall k: nat ensures k in more <==> k in ks || k == n {
      assert more[|ks|] == n;
    }
  }

  lemma CalledMore(calls: seq<Event>, urcs: seq<Urc>, init: seq<Urc>, last: Urc, line: seq<byte>, ks: seq<nat>)
    requires urcs == init + [last] && CalledAt(calls, init, line, ks)
    ensures CalledAt(calls, urcs, line, ks)
    ensures CalledAt(calls + [UrcCall(last.id, last.handler, line)], urcs, line, ks + [|init|])
  {
    assert forall i | 0 <= i < |ks| :: urcs[ks[i]] == init[ks[i]];
  }

  lemma MatchedMore(calls: seq<Event>, urcs: seq<Urc>, init: seq<Urc>, last: Urc, line: seq<byte>, less: seq<nat>)
    returns (ks: seq<nat>)
    requires urcs == init + [last] && Matching(init, line, less) && CalledAt(calls, init, line, less)
    ensures Matching(urcs, line, ks)
    ensures CalledAt(if last.prefix <= line then calls + [UrcCall(last.id, last.handler, line)] else calls,
                     urcs, line, ks)
  {
    MatchingMore(urcs, init, last, line, less);
    CalledMore(calls, urcs, init, last, line, less);
    ks := if last.prefix <= line then less + [|init|] else less;
  }

  lemma CallsMore(urcs: seq<Urc>, init: seq<Urc>, last: Urc, line: seq<byte>)
    requires urcs == init + [last]
    ensures Calls(urcs, line) ==
            if last.prefix <= line then Calls(init, line) + [UrcCall(last.id, last.handler, line)]
            else Calls(init, line)
  {
    assert urcs[..|urcs| - 1] == init;
  }

  lemma {:induction false} CallsAreMatching(urcs: seq<Urc>, line: seq<byte>) returns (ks: seq<nat>)
    ensures Matching(urcs, line, ks) && CalledAt(Calls(urcs, line), urcs, line, ks)
  {
    if urcs == [] {
      ks := [];
    } else {
      var init, last := urcs[..|urcs| - 1], urcs[|urcs| - 1];
      var less := CallsAreMatching(init, line);
      CallsMore(urcs, init, last, line);
      ks := MatchedMore(Calls(init, line), urcs, init, last, line, less);
    }
  }

  /** There is only one such list of positions. */
  lemma MatchingIsUnique(urcs: seq<Urc>, line: seq<byte>, ks: seq<nat>, js: seq<nat>)
    requires Matching(urcs, line, ks) && Matching(urcs, line, js)
    ensures ks == js
  {
    assert forall k | k in ks :: k in js;
    assert forall j | j in js :: j in ks;
    SameMembers(ks, js);
  }

  lemma HeadIsMember(ks: seq<nat>)
    ensures ks != [] ==> ks[0] in ks
  {
  }

  lemma {:induction false} SameMembers(ks: seq<nat>, js: seq<nat>)
    requires Increasing(ks) && Increasing(js)
    requires (forall k | k in ks :: k in js) && (forall j | j in js :: j in ks)
    ensures ks == js
  {
    HeadIsMember(ks);
    HeadIsMember(js);
    if ks != [] && js != [] {
      var (k, j) := (ks[|ks| - 1], js[|js| - 1]);
      assert k in ks && j in js;
      LastIsLargest(ks);
      LastIsLargest(js);
      assert k == j;
      var (ks', js') := (ks[..|ks| - 1], js[..|js| - 1]);
      forall x | x in ks' ensures x in js' {
        assert x in js && x != j;
      }
      forall x | x in js' ensures x in ks' {
        assert x in ks && x != k;
      }
      SameMembers(ks', js');
      assert ks == ks' + [k] && js == js' + [j];
    }
  }

  lemma LastIsLargest(ks: seq<nat>)
    requires Increasing(ks) && ks != []
    ensures forall k | k in ks :: k <= ks[|ks| - 1]
    ensures forall k | k in ks[..|ks| - 1] :: k in ks && k != ks[|ks| - 1]
    ensures forall k | k in ks && k != ks[|ks| - 1] :: k in ks[..|ks| - 1]
  {
    assert ks == ks[..|ks| - 1] + [ks[|ks| - 1]];
  }

  /** The calls of a line are these and no others: one for each entry whose prefix starts it, in list order. */
  lemma CallsIff(urcs: seq<Urc>, line: seq<byte>, calls: seq<Event>)
    ensures calls == Calls(urcs, line) <==> CallsMatching(calls, urcs, line)
  {
    var ks := CallsAreMatching(urcs, line);
    if CallsMatching(calls, urcs, line) {
      var js :| Matching(urcs, line, js) && CalledAt(calls, urcs, line, js);
      MatchingIsUnique(urcs, line, ks, js);
      assert calls == Calls(urcs, line);
    }
  }

  /** The handler is called with this line, once. */
  predicate CalledOnce(calls: seq<Event>, u: Urc, line: seq<byte>) {
    exists i :: 0 <= i < |calls| && calls[i] == UrcCall(u.id, u.handler, line) &&
      forall j | 0 <= j < |calls| && calls[j].UrcCall? && calls[j].id == u.id :: j == i
  }

  /** With distinct IDs, a listed handler whose prefix starts the line is called exactly once, as itself. */
  lemma LiveMatchIsCalledOnce(urcs: seq<Urc>, line: seq<byte>, k: nat)
    requires DistinctIds(urcs) && k < |urcs| && urcs[k].prefix <= line
    ensures CalledOnce(Calls(urcs, line), urcs[k], line)
  {
    var ks := CallsAreMatching(urcs, line);
    assert k in ks;
    var i :| 0 <= i < |ks| && ks[i] == k;
    forall j | 0 <= j < |ks| && urcs[ks[j]].id == urcs[k].id ensures j == i {
      assert ks[j] == k;
    }
  }

  /** With distinct IDs, a handler is called exactly if it is listed and its prefix starts the line. */
  lemma {:induction false} CallsExactlyLiveMatches(urcs: seq<Urc>, line: seq<byte>, u: Urc)
    requires DistinctIds(urcs)
    ensures (exists e :: e in Calls(urcs, line) && e.UrcCall? && e.id == u.id) <==>
            (exists v :: v in urcs && v.id == u.id && v.prefix <= line)
    ensures u in urcs && u.prefix <= line ==> UrcCall(u.id, u.handler, line) in Calls(urcs, line)
  {
    if urcs != [] {
      var last, init := urcs[|urcs| - 1], urcs[..|urcs| - 1];
      assert urcs == init + [last];
      CallsExactlyLiveMatches(init, line, u);
    }
  }

  lemma {:induction false} CallsOfAppend(a: seq<Urc>, b: seq<Urc>, line: seq<byte>)
    ensures Calls(a + b, line) == Calls(a, line) + Calls(b, line)
  {
    if b == [] {
      assert a + b == a;
    } else {
      var init := b[..|b| - 1];
      assert (a + b)[..|a + b| - 1] == a + init;
      CallsOfAppend(a, init, line);
    }
  }

  /** After a successful unregistration a line makes the same calls in the same order, minus the removed one's. */
  lemma DispatchAfterUnregister(states: seq<Registry>, reqs: seq<Request>, n: nat, line: seq<byte>)
    requires Run(states, reqs) && n < |reqs| && reqs[n].Unregister?
    requires CanServe(states[n], reqs[n]) && Answer(states[n], reqs[n]) == 0
    ensures var urcs, k := states[n].urcs, Position(states[n].urcs, reqs[n].id);
            Calls(urcs, line) == Calls(urcs[..k], line) + Calls([urcs[k]], line) + Calls(urcs[k + 1..], line) &&
            Calls(states[n + 1].urcs, line) == Calls(urcs[..k], line) + Calls(urcs[k + 1..], line)
  {
    assert states[n + 1] == Serve(states[n], reqs[n]);
    var urcs, k := states[n].urcs, Position(states[n].urcs, reqs[n].id);
    CallsOfAppend(urcs[..k], urcs[k + 1..], line);
    CallsOfAppend(urcs[..k], [urcs[k]], line);
    CallsOfAppend(urcs[..k] + [urcs[k]], urcs[k + 1..], line);
    assert urcs == urcs[..k] + [urcs[k]] + urcs[k + 1..];
  }
}
