/** The buffer pool (src/pool.rs). A handle is a value: the buffer's index and the bytes it holds. The
    listener shows that those bytes stay the buffer's contents for as long as the handle lives. */
module Pool {
  import opened Bytes
  import opened Collections
  import opened Slot

  const BUF_SIZE: nat := 2048

  /** The indices from `n - 1` down to 0. */
  function Descending(n: nat): (s: seq<nat>)
    ensures |s| == n
    ensures forall i :: 0 <= i < n ==> s[i] == n - 1 - i
  {
    seq(n, (i: nat) requires i < n => n - 1 - i)
  }

  lemma DescendingIsAll(n: nat)
    ensures NoDup(Descending(n)) && Elements(Descending(n)) == Range(0, n)
  {
    forall i | 0 <= i < n
      ensures i in Descending(n)
    {
      assert Descending(n)[n - 1 - i] == i;
    }
  }

  /** A packet as far as a buffer can take it. */
  function Cut(raw: seq<byte>): seq<byte>
  {
    if |raw| <= BUF_SIZE then raw else raw[..BUF_SIZE]
  }

  class ShredPool {
    const capacity: nat
    const buffers: array2<byte>
    var free: seq<nat>

    ghost predicate Valid()
      reads this
    {
      && 0 < capacity <= U16_MAX
      && buffers.Length0 == capacity && buffers.Length1 == BUF_SIZE
      && NoDup(free) && Elements(free) <= Range(0, capacity)
    }

    /** The buffer holds the handle's bytes. */
    ghost predicate Backs(h: Handle)
      reads buffers
    {
      && h.idx < buffers.Length0 && |h.bytes| <= buffers.Length1
      && forall j :: 0 <= j < |h.bytes| ==> buffers[h.idx, j] == h.bytes[j]
    }

    constructor (capacity: nat)
      requires 0 < capacity <= U16_MAX
      ensures Valid() && this.capacity == capacity
      ensures Elements(free) == Range(0, capacity)
      ensures fresh(buffers)
    {
      this.capacity := capacity;
      buffers := new byte[capacity, BUF_SIZE]((_, _) => 0);
      free := Descending(capacity);
      DescendingIsAll(capacity);
    }

    /** Pops the last free buffer. */
    method Acquire() returns (h: Option<Handle>)
      requires Valid()
      modifies this`free
      ensures Valid()
      ensures h.None? <==> old(free) == []
      ensures h.None? ==> free == old(free)
      ensures h.Some? ==> h.value.bytes == [] && old(free) == free + [h.value.idx] && h.value.idx !in free
    {
      if free == [] {
        return None;
      }
      var last := |free| - 1;
      var idx := free[last];
      assert free == free[..last] + [idx];
      free := free[..last];
      return Some(Handle(idx, []));
    }

    /** The drop of a handle. */
    method Release(idx: nat)
      modifies this`free
      ensures free == old(free) + [idx]
    {
      free := free + [idx];
    }

    /** Copies a packet into the buffer, cut to its size, and sets the handle's length. */
    method Fill(h: Handle, raw: seq<byte>) returns (filled: Handle)
      requires Valid() && h.idx < capacity
      modifies buffers
      ensures filled == Handle(h.idx, Cut(raw))
      ensures filled.bytes == if |raw| <= 2048 then raw else raw[..2048]
      ensures Backs(filled)
      ensures forall i, j ::
        0 <= i < capacity && i != h.idx && 0 <= j < BUF_SIZE ==> buffers[i, j] == old(buffers[i, j])
    {
      var n := if |raw| <= BUF_SIZE then |raw| else BUF_SIZE;
      var k := 0;
      while k < n
        invariant 0 <= k <= n
        invariant forall j :: 0 <= j < k ==> buffers[h.idx, j] == raw[j]
        invariant forall i, j ::
          0 <= i < capacity && i != h.idx && 0 <= j < BUF_SIZE ==> buffers[i, j] == old(buffers[i, j])
      {
        buffers[h.idx, k] := raw[k];
        k := k + 1;
      }
      filled := Handle(h.idx, raw[..n]);
    }
  }
}
