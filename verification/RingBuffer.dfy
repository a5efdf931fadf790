/** The byte ring between the receive interrupt and the event loop (ring_buffer.c). */
module RingBuffers {
  import opened Bytes

  /** The bytes from the read index up to the write index, oldest first. */
  function Stored(cells: seq<byte>, r: nat, w: nat): (q: seq<byte>)
    requires r < |cells| && w < |cells|
    ensures |q| == Occupied(r, w, |cells|) < |cells|
  {
    if r <= w then cells[r..w] else cells[r..] + cells[..w]
  }

  function Occupied(r: nat, w: nat, capacity: nat): nat
    requires r < capacity && w < capacity
  {
    if r <= w then w - r else w - r + capacity
  }

  /** Index arithmetic on 32-bit unsigned integers; the increment cannot wrap because capacity < 2^32. */
  function NextIndex(i: nat, capacity: nat): (j: nat)
    requires i < capacity
    ensures j < capacity && j == if i + 1 == capacity then 0 else i + 1
  {
    if i + 1 == capacity then (i + 1) % capacity else
      assert (i + 1) % capacity == i + 1; (i + 1) % capacity
  }

  lemma StoreAndAdvance(cells: seq<byte>, r: nat, w: nat, b: byte)
    requires r < |cells| && w < |cells| && NextIndex(w, |cells|) != r
    ensures Stored(cells[w := b], r, w) == Stored(cells, r, w)
    ensures Stored(cells[w := b], r, NextIndex(w, |cells|)) == Stored(cells, r, w) + [b]
  {
  }

  lemma LoadAndAdvance(cells: seq<byte>, r: nat, w: nat)
    requires r < |cells| && w < |cells| && r != w
    ensures Stored(cells, r, w) == [cells[r]] + Stored(cells, NextIndex(r, |cells|), w)
  {
  }

  /** ring_buffer_data_count: unsigned 32-bit subtraction and addition, the remainder, and its return as int. */
  function DataCount(r: nat, w: nat, capacity: nat): int
    requires 0 < capacity
  {
    ToInt32(Wrap32(Wrap32(w - r) + capacity) % capacity)
  }

  lemma DataCountValue(r: nat, w: nat, capacity: nat)
    requires r < capacity && w < capacity && 2 <= capacity < UINT32_RANGE
    ensures DataCount(r, w, capacity) ==
            ToInt32(if w - r + capacity < UINT32_RANGE then Occupied(r, w, capacity)
                    else w - r + capacity - UINT32_RANGE)
  {
    var sum := w - r + capacity;
    Wrap32Value(w - r);
    Wrap32Value(Wrap32(w - r) + capacity);
    var total := if sum < UINT32_RANGE then sum else sum - UINT32_RANGE;
    if total < capacity {
      SmallRemainder(total, capacity);
    } else {
      Remainder(total, capacity);
    }
  }

  lemma Remainder(x: nat, capacity: nat)
    requires 0 < capacity <= x < 2 * capacity
    ensures x % capacity == x - capacity
  {
    assert x == 1 * capacity + (x - capacity);
  }

  /**
   * In a given state the reported count is the queue length exactly when the 32-bit sum does not wrap and
   * the length fits an int.
   */
  lemma DataCountExact(cells: seq<byte>, r: nat, w: nat)
    requires 2 <= |cells| < UINT32_RANGE && r < |cells| && w < |cells|
    ensures DataCount(r, w, |cells|) == |Stored(cells, r, w)| <==>
            w - r + |cells| < UINT32_RANGE && |Stored(cells, r, w)| <= INT_MAX
  {
    DataCountValue(r, w, |cells|);
  }

  /** Over all states of a ring of one capacity, the count is always right exactly up to 2^31 cells. */
  lemma DataCountExactUpTo(capacity: nat)
    requires 2 <= capacity < UINT32_RANGE
    ensures (forall r: nat, w: nat | r < capacity && w < capacity ::
               DataCount(r, w, capacity) == Occupied(r, w, capacity))
            <==> capacity <= 0x8000_0000
  {
    forall r: nat, w: nat | r < capacity && w < capacity
      ensures DataCount(r, w, capacity) == Occupied(r, w, capacity) <==>
              w - r + capacity < UINT32_RANGE && Occupied(r, w, capacity) <= INT_MAX
    {
      DataCountValue(r, w, capacity);
    }
    var first, last: nat := 0, capacity - 1;
    assert DataCount(first, last, capacity) == Occupied(first, last, capacity)
           <==> 2 * capacity - 1 < UINT32_RANGE;
  }

  /** The sum does not wrap, and yet the count comes out negative: too many bytes for an int. */
  lemma DataCountNegative()
    ensures DataCount(1, 0, 0xF000_0000) < 0 && Occupied(1, 0, 0xF000_0000) == 0xEFFF_FFFF
  {
    DataCountValue(1, 0, 0xF000_0000);
  }

  class RingBuffer {
    var buffer: array?<byte>
    var readIndex: nat
    var writeIndex: nat
    /** The abstract value: the bytes written and not yet read, oldest first. */
    ghost var queue: seq<byte>

    ghost predicate Valid()
      reads this, buffer
    {
      if buffer == null then queue == [] else
        && 2 <= buffer.Length < UINT32_RANGE && readIndex < buffer.Length && writeIndex < buffer.Length
        && queue == Stored(buffer[..], readIndex, writeIndex)
    }

    constructor ()
      ensures Valid() && buffer == null && queue == []
    {
      buffer, readIndex, writeIndex := null, 0, 0;
      queue := [];
    }

    method Init(data: array<byte>) returns (ok: bool)
      requires Valid() && data.Length < UINT32_RANGE
      modifies this
      ensures Valid() && ok == (2 <= data.Length)
      ensures ok ==> buffer == data && queue == []
      ensures !ok ==> buffer == old(buffer) && queue == old(queue)
    {
      if data.Length < 2 {
        return false;
      }
      buffer, readIndex, writeIndex := data, 0, 0;
      queue := [];
      return true;
    }

    method Write(b: byte) returns (ok: bool)
      requires Valid()
      modifies this`writeIndex, this`queue, buffer
      ensures Valid()
      ensures buffer == old(buffer) && (buffer != null ==> |queue| < buffer.Length)
      ensures ok == (buffer != null && |old(queue)| < buffer.Length - 1)
      ensures queue == if ok then old(queue) + [b] else old(queue)
    {
      if buffer == null {
        return false;
      }
      var nextWrite := NextIndex(writeIndex, buffer.Length);
      if nextWrite == readIndex {
        return false;
      }
      StoreAndAdvance(buffer[..], readIndex, writeIndex, b);
      buffer[writeIndex] := b;
      assert buffer[..] == old(buffer[..])[writeIndex := b];
      writeIndex := nextWrite;
      queue := queue + [b];
      return true;
    }

    method Read() returns (ok: bool, b: byte)
      requires Valid()
      modifies this`readIndex, this`queue
      ensures Valid() && buffer == old(buffer)
      ensures ok == (old(queue) != [])
      ensures ok ==> old(queue) == [b] + queue
      ensures !ok ==> queue == old(queue)
    {
      b := NUL;
      if buffer == null || readIndex == writeIndex {
        return false, b;
      }
      LoadAndAdvance(buffer[..], readIndex, writeIndex);
      b := buffer[readIndex];
      readIndex := NextIndex(readIndex, buffer.Length);
      queue := queue[1..];
      return true, b;
    }

    method Count() returns (n: int)
      requires Valid()
      ensures buffer == null ==> n == -1
      ensures buffer != null ==>
                (n == |queue| <==> writeIndex - readIndex + buffer.Length < UINT32_RANGE && |queue| <= INT_MAX) &&
                (buffer.Length <= 0x8000_0000 ==> n == |queue|)
    {
      if buffer == null {
        return -1;
      }
      DataCountExact(buffer[..], readIndex, writeIndex);
      return DataCount(readIndex, writeIndex, buffer.Length);
    }
  }
}
