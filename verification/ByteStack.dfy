/** The fixed-capacity stack behind the prompt matcher (stack.c). */
module ByteStacks {
  import opened Bytes

  /** An overwriting push: a full stack loses its bottom element. */
  function Pushed(s: seq<byte>, capacity: nat, b: byte): seq<byte> {
    LastN(s + [b], capacity)
  }

  /** What the stack holds after pushing the bytes of s onto an empty stack. */
  function PushedAll(s: seq<byte>, capacity: nat): seq<byte> {
    if s == [] then [] else Pushed(PushedAll(s[..|s| - 1], capacity), capacity, s[|s| - 1])
  }

  /** The stack holds exactly the last min(k, capacity) of the k bytes pushed since it was cleared. */
  lemma {:induction false} StackIsWindow(s: seq<byte>, capacity: nat)
    ensures PushedAll(s, capacity) == LastN(s, capacity)
  {
    if s != [] {
      StackIsWindow(s[..|s| - 1], capacity);
      assert s == s[..|s| - 1] + [s[|s| - 1]];
    }
  }

  /** stack_peek_at seen on the contents: the i-th newest element, 0 (a null pointer) past the bottom. */
  function Peek(s: seq<byte>, i: nat): byte {
    if i < |s| then s[|s| - 1 - i] else NUL
  }

  /** peek_at(i) after a sequence of pushes is the i-th newest byte, for every i within the capacity. */
  lemma PeekIsIthNewest(s: seq<byte>, capacity: nat, i: nat)
    ensures i < capacity ==> Peek(PushedAll(s, capacity), i) == Peek(s, i)
    ensures i >= capacity ==> Peek(PushedAll(s, capacity), i) == NUL
  {
    StackIsWindow(s, capacity);
  }

  class ByteStack {
    const items: array<byte>
    var top: nat

    ghost predicate Valid()
      reads this
    {
      0 < items.Length && top <= items.Length
    }

    ghost function Contents(): seq<byte>
      reads this, items
      requires Valid()
    {
      items[..top]
    }

    constructor (capacity: nat)
      requires 0 < capacity
      ensures Valid() && fresh(items) && items.Length == capacity
      ensures Contents() == []
    {
      items := new byte[capacity];
      top := 0;
    }

    method PushOverwrite(b: byte)
      requires Valid()
      modifies this, items
      ensures Valid()
      ensures Contents() == Pushed(old(Contents()), items.Length, b)
    {
      if top < items.Length {
        items[top] := b;
        top := top + 1;
        return;
      }
      forall i | 0 <= i < items.Length - 1 {
        items[i] := items[i + 1];
      }
      items[items.Length - 1] := b;
      assert Contents() == old(Contents())[1..] + [b];
    }

    method PeekAt(index: nat) returns (b: byte)
      requires Valid()
      ensures b == Peek(Contents(), index)
    {
      if index >= top {
        return NUL;
      }
      return items[top - 1 - index];
    }

    method Clear()
      requires Valid()
      modifies this
      ensures Valid() && Contents() == []
    {
      top := 0;
    }
  }
}
