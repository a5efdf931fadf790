/** The heap list with head, tail and length (slist.c), changed in place. */
module SinglyLinkedLists {
  import opened AtcTypes

  function WithoutAt<T>(s: seq<T>, k: nat): seq<T>
    requires k < |s|
  {
    s[..k] + s[k + 1..]
  }

  /** The first index of x in s, or |s| when x does not occur. */
  function FirstIndex<T(==)>(s: seq<T>, x: T): (k: nat)
    ensures k <= |s| && x !in s[..k]
    ensures k < |s| ==> s[k] == x
    ensures k < |s| <==> x in s
  {
    if s == [] || s[0] == x then 0 else
      var k := 1 + FirstIndex(s[1..], x);
      assert s[..k] == [s[0]] + s[1..][..k - 1];
      k
  }

  lemma FirstIndexIs<T>(s: seq<T>, x: T, k: nat)
    requires k < |s| && s[k] == x && x !in s[..k]
    ensures FirstIndex(s, x) == k
  {
    var j := FirstIndex(s, x);
    assert forall i | 0 <= i < k :: s[..k][i] == s[i] != x;
    assert forall i | 0 <= i < j :: s[..j][i] == s[i] != x;
  }

  function Reversed<T>(s: seq<T>): (r: seq<T>)
    ensures |r| == |s| && forall i :: 0 <= i < |s| ==> r[i] == s[|s| - 1 - i]
  {
    seq(|s|, i requires 0 <= i < |s| => s[|s| - 1 - i])
  }

  lemma ReversedShort<T>(s: seq<T>)
    requires |s| < 2
    ensures Reversed(s) == s
  {
    assert forall i | 0 <= i < |s| :: Reversed(s)[i] == s[i];
  }

  /** The payloads that are not null pointers. */
  function Payloads<T>(s: seq<Option<T>>): seq<T> {
    if s == [] then [] else
      Payloads(s[..|s| - 1]) + (if s[|s| - 1].Some? then [s[|s| - 1].value] else [])
  }

  class Node<T> {
    const data: Option<T>
    var next: Node?<T>

    constructor (data: Option<T>)
      ensures this.data == data && next == null
    {
      this.data := data;
      next := null;
    }
  }

  ghost function DataOf<T>(nodes: seq<Node<T>>): (d: seq<Option<T>>)
    ensures |d| == |nodes| && forall i :: 0 <= i < |d| ==> d[i] == nodes[i].data
  {
    seq(|nodes|, i requires 0 <= i < |nodes| => nodes[i].data)
  }

  lemma DataOfWithoutAt<T>(nodes: seq<Node<T>>, k: nat)
    requires k < |nodes|
    ensures DataOf(WithoutAt(nodes, k)) == WithoutAt(DataOf(nodes), k)
  {
  }

  lemma DataOfReversed<T>(nodes: seq<Node<T>>)
    ensures DataOf(Reversed(nodes)) == Reversed(DataOf(nodes))
  {
  }

  ghost predicate Distinct<T>(s: seq<T>) {
    forall i, j | 0 <= i < j < |s| :: s[i] != s[j]
  }

  lemma DistinctWithoutAt<T>(s: seq<T>, k: nat)
    requires k < |s| && Distinct(s)
    ensures Distinct(WithoutAt(s, k))
  {
  }

  lemma DistinctReversed<T>(s: seq<T>)
    requires Distinct(s)
    ensures Distinct(Reversed(s))
  {
    var r := Reversed(s);
    forall i, j | 0 <= i < j < |r| ensures r[i] != r[j] {
      assert r[i] == s[|s| - 1 - i] && r[j] == s[|s| - 1 - j];
    }
  }

  /** Each node points to the one after it and the last one to nothing. */
  ghost predicate Linked<T>(nodes: seq<Node<T>>)
    reads nodes
  {
    (forall i {:trigger nodes[i].next} | 0 <= i < |nodes| - 1 :: nodes[i].next == nodes[i + 1]) &&
    (nodes != [] ==> nodes[|nodes| - 1].next == null)
  }

  /** The pointer surgery of a removal behind the head. */
  method Bypass<T>(prev: Node<T>, curr: Node<T>, ghost nodes: seq<Node<T>>, ghost k: nat)
    requires Linked(nodes) && Distinct(nodes)
    requires 0 < k < |nodes| && prev == nodes[k - 1] && curr == nodes[k]
    modifies prev
    ensures Linked(WithoutAt(nodes, k)) && curr.next == old(curr.next)
  {
    prev.next := curr.next;
    ghost var rest := WithoutAt(nodes, k);
    forall i | 0 <= i < |rest| - 1 ensures rest[i].next == rest[i + 1] {
      if i >= k {
        assert rest[i] == nodes[i + 1] && nodes[i + 1].next == nodes[i + 2];
      } else if i < k - 1 {
        assert rest[i] == nodes[i] && nodes[i].next == nodes[i + 1];
      } else {
        assert rest[i] == prev && nodes[k].next == nodes[k + 1];
      }
    }
  }

  /** Turns every link of a chain around and returns its new first node. */
  method ReverseLinks<T>(head: Node?<T>, ghost nodes: seq<Node<T>>) returns (prev: Node?<T>)
    requires nodes != [] && head == nodes[0] && Linked(nodes) && Distinct(nodes)
    modifies nodes
    ensures Linked(Reversed(nodes)) && prev == nodes[|nodes| - 1]
  {
    var curr := head;
    prev := null;
    ghost var i := 0;
    while curr != null
      invariant i <= |nodes| && curr == (if i < |nodes| then nodes[i] else null)
      invariant prev == (if i == 0 then null else nodes[i - 1])
      invariant i > 0 ==> nodes[0].next == null
      invariant forall k {:trigger nodes[k].next} | 0 < k < i :: nodes[k].next == nodes[k - 1]
      invariant forall k {:trigger nodes[k].next} | i <= k < |nodes| - 1 :: nodes[k].next == nodes[k + 1]
      invariant i < |nodes| ==> nodes[|nodes| - 1].next == null
      decreases |nodes| - i
    {
      var next := curr.next;
      curr.next := prev;
      prev := curr;
      curr := next;
      i := i + 1;
    }
  }

  class SList<T(==)> {
    var head: Node?<T>
    var tail: Node?<T>
    var len: nat
    /** Whether a data release callback was given. */
    const hasFreeFn: bool
    /** The nodes from head to tail. */
    ghost var nodes: seq<Node<T>>
    /** Payloads passed to the release callback, and nodes given back to the allocator, in order. */
    ghost var freed: seq<T>
    ghost var released: seq<Node<T>>

    /** Acyclic, ending at tail, of the recorded length. */
    ghost predicate Valid()
      reads this, nodes
    {
      && len == |nodes|
      && Distinct(nodes)
      && (nodes == [] ==> head == null && tail == null)
      && (nodes != [] ==> head == nodes[0] && tail == nodes[|nodes| - 1])
      && Linked(nodes)
    }

    ghost function At(i: nat): Node?<T>
      reads this
    {
      if i < |nodes| then nodes[i] else null
    }

    /** The abstract value: the data pointers from head to tail. */
    ghost function Data(): seq<Option<T>>
      reads this
    {
      DataOf(nodes)
    }

    constructor (hasFreeFn: bool)
      ensures Valid() && Data() == [] && nodes == [] && freed == [] && released == []
      ensures this.hasFreeFn == hasFreeFn
    {
      head, tail, len := null, null, 0;
      this.hasFreeFn := hasFreeFn;
      nodes, freed, released := [], [], [];
    }

    method Append(data: Option<T>, hasMemory: bool) returns (ok: bool)
      requires Valid()
      modifies this, nodes
      ensures Valid() && ok == hasMemory
      ensures freed == old(freed) && released == old(released)
      ensures !ok ==> nodes == old(nodes)
      ensures ok ==> |nodes| == |old(nodes)| + 1 && nodes[..|old(nodes)|] == old(nodes)
      ensures ok ==> fresh(nodes[|old(nodes)|])
      ensures Data() == if ok then old(Data()) + [data] else old(Data())
    {
      if !hasMemory {
        return false;
      }
      var node := new Node<T>(data);
      if len == 0 {
        head := node;
        tail := node;
      } else {
        tail.next := node;
        tail := node;
      }
      len := len + 1;
      nodes := nodes + [node];
      return true;
    }

    method Prepend(data: Option<T>, hasMemory: bool) returns (ok: bool)
      requires Valid()
      modifies this
      ensures Valid() && ok == hasMemory
      ensures freed == old(freed) && released == old(released)
      ensures !ok ==> nodes == old(nodes)
      ensures ok ==> |nodes| == |old(nodes)| + 1 && nodes[1..] == old(nodes) && fresh(nodes[0])
      ensures Data() == if ok then [data] + old(Data()) else old(Data())
    {
      if !hasMemory {
        return false;
      }
      var node := new Node<T>(data);
      if len == 0 {
        tail := node;
      } else {
        node.next := head;
      }
      head := node;
      len := len + 1;
      nodes := [node] + nodes;
      return true;
    }

    /** Null past the end; the tail shortcut agrees with walking. */
    method Get(index: nat) returns (data: Option<T>)
      requires Valid()
      ensures data == if index < |Data()| then Data()[index] else None
    {
      if index >= len {
        return None;
      }
      if index == len - 1 {
        return tail.data;
      }
      var curr, i := head, index;
      while i > 0 && curr != null
        invariant 0 <= i <= index && curr == At(index - i)
        decreases i
      {
        curr := curr.next;
        i := i - 1;
      }
      assert i == 0 && curr == nodes[index];
      return if curr != null then curr.data else None;
    }

    /** Takes the node at position k out of the chain. */
    method Unlink(prev: Node?<T>, curr: Node<T>, ghost k: nat)
      requires Valid() && k < |nodes| && curr == nodes[k]
      requires prev == if k == 0 then null else nodes[k - 1]
      modifies this`head, this`tail, this`len, this`nodes, nodes
      ensures Valid() && nodes == WithoutAt(old(nodes), k)
    {
      DistinctWithoutAt(nodes, k);
      if prev != null {
        Bypass(prev, curr, nodes, k);
        if curr == tail {
          tail := prev;
        }
      } else {
        head := curr.next;
        if len == 1 {
          tail := null;
        }
      }
      len := len - 1;
      nodes := WithoutAt(nodes, k);
    }

    /** Gives a node that left the chain, and its payload, back to their owners. */
    method Discard(curr: Node<T>)
      modifies this`freed, this`released
      ensures freed == old(freed) + if hasFreeFn then Payloads([curr.data]) else []
      ensures released == old(released) + [curr]
    {
      if hasFreeFn && curr.data.Some? {
        freed := freed + [curr.data.value];
      }
      released := released + [curr];
    }

    /** Removes the node at position k for good. */
    method TakeOut(prev: Node?<T>, curr: Node<T>, ghost k: nat)
      requires Valid() && k < |nodes| && curr == nodes[k]
      requires prev == if k == 0 then null else nodes[k - 1]
      modifies this, nodes
      ensures Valid() && nodes == WithoutAt(old(nodes), k) && Data() == WithoutAt(old(Data()), k)
      ensures freed == old(freed) + if hasFreeFn then Payloads([curr.data]) else []
      ensures released == old(released) + [curr]
    {
      DataOfWithoutAt(nodes, k);
      Unlink(prev, curr, k);
      Discard(curr);
    }

    /** The first node whose data pointer is `data`, and the node before it. */
    method FindData(data: Option<T>) returns (prev: Node?<T>, curr: Node?<T>, ghost k: nat)
      requires Valid()
      ensures k == FirstIndex(Data(), data) && curr == At(k)
      ensures prev == if k == 0 then null else nodes[k - 1]
    {
      prev, curr, k := null, head, 0;
      while curr != null
        invariant k <= |nodes| && curr == At(k) && prev == if k == 0 then null else nodes[k - 1]
        invariant data !in Data()[..k]
        decreases |nodes| - k
      {
        if curr.data == data {
          FirstIndexIs(Data(), data, k);
          return;
        }
        prev, curr := curr, curr.next;
        k := k + 1;
      }
      assert Data()[..k] == Data();
    }

    /** Removes the first node whose data pointer is `data`. */
    method Remove(data: Option<T>) returns (ok: bool)
      requires Valid()
      modifies this, nodes
      ensures Valid() && ok == (data in old(Data()))
      ensures !ok ==> nodes == old(nodes) && freed == old(freed) && released == old(released)
      ensures ok ==>
                var k := FirstIndex(old(Data()), data);
                nodes == WithoutAt(old(nodes), k) && Data() == WithoutAt(old(Data()), k) &&
                freed == old(freed) + (if hasFreeFn then Payloads([data]) else []) &&
                released == old(released) + [old(nodes)[k]]
    {
      if len == 0 {
        return false;
      }
      var prev, curr; ghost var k;
      prev, curr, k := FindData(data);
      if curr == null {
        return false;
      }
      TakeOut(prev, curr, k);
      return true;
    }

    method RemoveAt(index: nat) returns (ok: bool)
      requires Valid()
      modifies this, nodes
      ensures Valid() && ok == (index < |old(Data())|)
      ensures !ok ==> nodes == old(nodes) && freed == old(freed) && released == old(released)
      ensures ok ==>
                nodes == WithoutAt(old(nodes), index) && Data() == WithoutAt(old(Data()), index) &&
                freed == old(freed) + (if hasFreeFn then Payloads([old(Data())[index]]) else []) &&
                released == old(released) + [old(nodes)[index]]
    {
      if index >= len {
        return false;
      }
      var curr, prev: Node?<T> := head, null;
      for i := 0 to index
        invariant curr == At(i) && prev == if i == 0 then null else nodes[i - 1]
      {
        prev, curr := curr, curr.next;
      }
      TakeOut(prev, curr, index);
      return true;
    }

    /** Reverses in place: the very same nodes, in the opposite order. */
    method Reverse()
      requires Valid()
      modifies this, nodes
      ensures Valid() && nodes == Reversed(old(nodes))
      ensures Data() == Reversed(old(Data()))
      ensures freed == old(freed) && released == old(released)
    {
      DataOfReversed(nodes);
      if len < 2 {
        ReversedShort(nodes);
        return;
      }
      TurnAround();
    }

    /** The in-place loop, for lists of two nodes or more. */
    method TurnAround()
      requires Valid() && 2 <= len
      modifies this`head, this`tail, this`nodes, nodes
      ensures Valid() && nodes == Reversed(old(nodes))
    {
      DistinctReversed(nodes);
      tail := head;
      head := ReverseLinks(head, nodes);
      nodes := Reversed(nodes);
    }

    /** Releases every payload and every node, once, in list order. */
    method Destroy()
      requires Valid()
      modifies this
      ensures freed == old(freed) + if hasFreeFn then Payloads(old(Data())) else []
      ensures released == old(released) + old(nodes)
    {
      var curr := head;
      ghost var i, data := 0, Data();
      while curr != null
        invariant unchanged(this`nodes) && unchanged(this`len) && unchanged(this`head) && unchanged(this`tail)
        invariant i <= |nodes| && curr == At(i)
        invariant freed == old(freed) + if hasFreeFn then Payloads(data[..i]) else []
        invariant released == old(released) + nodes[..i]
        decreases |nodes| - i
      {
        var next := curr.next;
        if hasFreeFn && curr.data.Some? {
          freed := freed + [curr.data.value];
        }
        released := released + [curr];
        assert data[..i + 1][..i] == data[..i];
        curr := next;
        i := i + 1;
      }
      assert data[..i] == data;
    }
  }
}
