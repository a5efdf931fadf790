/** The URC registry over its heap list (urc_handle.c). */
module UrcRegistries {
  import opened Bytes
  import opened AtcTypes
  import opened SinglyLinkedLists
  import opened UrcSpec

  class UrcEntry {
    const id: int
    const prefix: seq<byte>
    const handler: nat

    constructor (id: int, prefix: seq<byte>, handler: nat)
      ensures Value() == Urc(id, prefix, handler)
    {
      this.id, this.prefix, this.handler := id, prefix, handler;
    }

    function Value(): Urc {
      Urc(id, prefix, handler)
    }
  }

  ghost predicate AllSome(data: seq<Option<UrcEntry>>) {
    forall i | 0 <= i < |data| :: data[i].Some?
  }

  ghost function Values(data: seq<Option<UrcEntry>>): (urcs: seq<Urc>)
    requires AllSome(data)
    ensures |urcs| == |data| && forall i :: 0 <= i < |data| ==> urcs[i] == data[i].value.Value()
  {
    seq(|data|, i requires 0 <= i < |data| => data[i].value.Value())
  }

  /** Entries with distinct IDs sit behind distinct pointers, so a search by pointer finds the same entry. */
  lemma PointerIndexIsIdIndex(data: seq<Option<UrcEntry>>, k: nat)
    requires AllSome(data) && k < |data| && DistinctIds(Values(data))
    ensures FirstIndex(data, data[k]) == k
    ensures Position(Values(data), data[k].value.id) == k
  {
    var urcs := Values(data);
    forall i | 0 <= i < k ensures data[i] != data[k] {
      assert urcs[i].id != urcs[k].id;
    }
    FirstIndexIs(data, data[k], k);
    PositionIs(urcs, data[k].value.id, k);
  }

  lemma ValuesWithoutAt(data: seq<Option<UrcEntry>>, k: nat)
    requires AllSome(data) && k < |data|
    ensures AllSome(WithoutAt(data, k))
    ensures Values(WithoutAt(data, k)) == WithoutAt(Values(data), k)
  {
  }

  lemma ValuesAppend(data: seq<Option<UrcEntry>>, entry: UrcEntry)
    requires AllSome(data)
    ensures AllSome(data + [Some(entry)])
    ensures Values(data + [Some(entry)]) == Values(data) + [entry.Value()]
  {
  }

  class UrcRegistry {
    const list: SList<UrcEntry>
    var nextId: int
    /** The abstract value: the listed entries, the counter and every ID ever allocated. */
    ghost var state: Registry

    /** The list holds exactly the entries of the abstract value. */
    ghost predicate Listed()
      reads this, list, list.nodes
    {
      list.Valid() && AllSome(list.Data()) && state.urcs == Values(list.Data())
    }

    ghost predicate Valid()
      reads this, list, list.nodes
    {
      Listed() && list.hasFreeFn && IsId(nextId) && state.nextId == nextId && Reachable(state)
    }

    /** No node of another list was linked in. */
    twostate predicate OnlyNewNodes()
      reads this, list
    {
      forall node | node in list.nodes :: node in old(list.nodes) || fresh(node)
    }

    constructor ()
      ensures Valid() && fresh(list) && state == EMPTY_REGISTRY && list.nodes == []
    {
      list := new SList<UrcEntry>(true);
      nextId, state := 1, EMPTY_REGISTRY;
      EmptyIsReachable();
    }

    /** One pass of the ID search: does any listed entry carry the candidate? */
    method Collides(candidate: int) returns (collision: bool)
      requires Listed()
      ensures collision <==> candidate in Ids(state.urcs)
    {
      var node := list.head;
      ghost var i := 0;
      while node != null
        invariant i <= |list.nodes| && node == list.At(i)
        invariant forall k | 0 <= k < i :: state.urcs[k].id != candidate
        decreases |list.nodes| - i
      {
        if node.data.Some? && node.data.value.id == candidate {
          assert state.urcs[i].id == candidate;
          return true;
        }
        node := node.next;
        i := i + 1;
      }
      return false;
    }

    /** The do-while search: each collision moves on by one and rescans the whole list. */
    method AllocateId() returns (id: int)
      requires Listed() && IsId(nextId) && |Ids(state.urcs)| < INT_MAX
      ensures id == FirstFree(Ids(state.urcs), nextId)
    {
      var candidate := nextId;
      if candidate == 0 {
        candidate := 1;
      }
      ghost var ids := Ids(state.urcs);
      ghost var target := FirstFree(ids, nextId);
      var collision := true;
      while collision
        invariant IsId(candidate)
        invariant Ahead(nextId, candidate) + Ahead(candidate, target) == Ahead(nextId, target)
        invariant !collision ==> candidate !in ids
        decreases Ahead(candidate, target), collision
      {
        collision := Collides(candidate);
        if collision {
          AheadByOne(candidate, target);
          candidate := if candidate < INT_MAX then candidate + 1 else 1;
        }
      }
      return candidate;
    }

    /** Allocates an entry and a list node for it; -1 when either allocation fails. */
    method Store(id: int, prefix: seq<byte>, handler: nat, entryMemory: bool, nodeMemory: bool)
      returns (stored: int)
      requires list.Valid() && AllSome(list.Data())
      modifies list, list.nodes
      ensures list.Valid() && AllSome(list.Data())
      ensures stored == if entryMemory && nodeMemory then id else -1
      ensures Values(list.Data()) ==
              old(Values(list.Data())) + if entryMemory && nodeMemory then [Urc(id, prefix, handler)] else []
      ensures list.freed == old(list.freed) && OnlyNewNodes()
    {
      if !entryMemory {
        return -1;
      }
      var entry := new UrcEntry(id, prefix, handler);
      ValuesAppend(list.Data(), entry);
      var ok := list.Append(Some(entry), nodeMemory);
      assert forall node | node in list.nodes :: node in old(list.nodes) || node == list.nodes[|list.nodes| - 1];
      return if ok then id else -1;
    }

    /** Sets the counter and the abstract value; the list is already up to date. */
    method Record(next: int, ghost reg: Registry)
      requires list.Valid() && AllSome(list.Data()) && reg.urcs == Values(list.Data()) && reg.nextId == next
      modifies this
      ensures Listed() && nextId == next && state == reg
    {
      nextId, state := next, reg;
    }

    method Register(prefix: seq<byte>, handler: nat, entryMemory: bool, nodeMemory: bool) returns (id: int)
      requires Valid() && |Ids(state.urcs)| < INT_MAX
      modifies this, list, list.nodes
      ensures Valid()
      ensures var req := Request.Register(prefix, handler, entryMemory && nodeMemory);
              state == Serve(old(state), req) && id == Answer(old(state), req)
      ensures list.freed == old(list.freed) && OnlyNewNodes()
    {
      ghost var req := Request.Register(prefix, handler, entryMemory && nodeMemory);
      ghost var next := Serve(state, req);
      ServeKeepsReachable(state, req);
      var newId := AllocateId();
      id := Store(newId, prefix, handler, entryMemory, nodeMemory);
      Record(NextId(newId), next);
    }

    /** The first node whose entry has this ID, and its position. */
    method Find(id: int) returns (node: Node?<UrcEntry>, ghost i: nat)
      requires list.Valid() && AllSome(list.Data())
      ensures i == Position(Values(list.Data()), id) && node == list.At(i)
      ensures node != null ==> node.data.Some? && node.data.value.id == id
    {
      node, i := list.head, 0;
      ghost var urcs := Values(list.Data());
      while node != null
        invariant i <= |list.nodes| && node == list.At(i)
        invariant forall k | 0 <= k < i :: urcs[k].id != id
        decreases |list.nodes| - i
      {
        assert urcs[i] == node.data.value.Value();
        if node.data.Some? && node.data.value.id == id {
          PositionIs(urcs, id, i);
          return;
        }
        node := node.next;
        i := i + 1;
      }
    }

    method Unregister(id: int) returns (result: AtcResult)
      requires Valid()
      modifies this, list, list.nodes
      ensures Valid()
      ensures state == Serve(old(state), Request.Unregister(id))
      ensures result == if Answer(old(state), Request.Unregister(id)) == 0 then Success else Error
      ensures result == Error ==> list.nodes == old(list.nodes) && list.freed == old(list.freed)
      ensures result == Success ==>
                list.nodes == WithoutAt(old(list.nodes), Position(old(state).urcs, id)) &&
                |list.freed| == |old(list.freed)| + 1 && old(list.freed) <= list.freed &&
                list.freed[|old(list.freed)|].id == id
    {
      ServeKeepsReachable(state, Request.Unregister(id));
      var node; ghost var i;
      node, i := Find(id);
      if node == null {
        return Error;
      }
      assert DistinctIds(state.urcs) by {
        ReachableInv(state);
      }
      PointerIndexIsIdIndex(list.Data(), i);
      ValuesWithoutAt(list.Data(), i);
      assert Payloads([node.data]) == [node.data.value];
      ghost var next := Serve(state, Request.Unregister(id));
      var _ := list.Remove(node.data);
      Record(nextId, next);
      return Success;
    }

    /** Calls every matching handler in list order; `calls` is the trace of the calls made. */
    method Dispatch(line: seq<byte>) returns (isUrc: bool, ghost calls: seq<Event>)
      requires Listed() && forall u | u in state.urcs :: NUL !in u.prefix
      ensures calls == Calls(state.urcs, line) && CallsMatching(calls, state.urcs, line)
      ensures isUrc == IsUrcLine(state.urcs, line)
    {
      isUrc, calls := false, [];
      var node := list.head;
      ghost var i, urcs := 0, state.urcs;
      while node != null
        invariant i <= |list.nodes| && node == list.At(i)
        invariant calls == Calls(urcs[..i], line) && isUrc == (calls != [])
        decreases |list.nodes| - i
      {
        assert urcs[..i + 1][..i] == urcs[..i];
        if node.data.Some? {
          StrNCmpIsPrefix(line, node.data.value.prefix);
          if StrNCmpEqual(line, node.data.value.prefix) {
            calls := calls + [UrcCall(node.data.value.id, node.data.value.handler, line)];
            isUrc := true;
          }
        }
        node := node.next;
        i := i + 1;
      }
      assert urcs[..i] == urcs;
      CallsIffUrcLine(urcs, line);
      CallsIff(urcs, line, calls);
    }
  }
}
