/** RingBufferPool as a mutable object used by one caller at a time. Buffers are byte arrays, so a
    buffer's address is its identity; a Go slice of a buffer is the array and a length. */
module RingPool {
  import opened Bytes
  import opened Bits
  import opened RingSpec

  datatype Slice = Slice(arr: array<Byte>, len: nat)

  datatype Error = InvalidSize | InvalidCapacity

  datatype Created = Pool(pool: RingBufferPool) | Failed(error: Error)

  /** Allocs of a non-positive size, Allocs above the pool's size, Frees of a buffer it had not lent. */
  datatype Odd = Odd(empty: nat, oversize: nat, foreign: nat)

  ghost function OneMoreOdd(odd: Odd, size: int): Odd {
    if size <= 0 then odd.(empty := odd.empty + 1) else odd.(oversize := odd.oversize + 1)
  }

  ghost function OneMoreForeign(odd: Odd): Odd {
    odd.(foreign := odd.foreign + 1)
  }

  ghost predicate AllZero(a: array<Byte>)
    reads a
  {
    forall i :: 0 <= i < a.Length ==> a[i] == 0
  }

  /** clearBuffer: zero the whole backing array. */
  method ClearBuffer(a: array<Byte>)
    modifies a
    ensures AllZero(a)
  {
    for i := 0 to a.Length
      invariant forall k :: 0 <= k < i ==> a[k] == 0
    {
      a[i] := 0;
    }
  }

  /** make([]byte, n) */
  method Make(n: nat) returns (a: array<Byte>)
    ensures fresh(a) && a.Length == n && AllZero(a)
  {
    a := new Byte[n](_ => 0);
  }

  /** io.ReadFull into the front of a buffer. */
  method Copy(a: array<Byte>, data: Pack)
    requires |data| <= a.Length
    modifies a
    ensures a[..|data|] == data
  {
    for i := 0 to |data|
      invariant a[..i] == data[..i]
    {
      a[i] := data[i];
    }
  }

  /** From buffer address to slot. */
  function Addresses(buffers: seq<array<Byte>>): (m: map<array<Byte>, nat>)
    requires forall i, j :: 0 <= i < j < |buffers| ==> buffers[i] != buffers[j]
    ensures forall i :: 0 <= i < |buffers| ==> buffers[i] in m && m[buffers[i]] == i
    ensures forall a :: a in m ==> m[a] < |buffers| && buffers[m[a]] == a
  {
    map i | 0 <= i < |buffers| :: buffers[i] := i
  }

  class RingBufferPool {
    const bufferSize: nat
    const capacity: nat
    const buffers: seq<array<Byte>>
    const bufferAddrs: map<array<Byte>, nat>
    const slotStates: array<nat>
    var head: nat
    var tail: nat
    var fallbackPool: set<array<Byte>>
    var allocCount: nat
    var freeCount: nat
    var fallbackCount: nat
    ghost var skipped: nat

    /** Buffers of this pool's size that Alloc issued and Free has not taken back, and the calls that
        dealt with something else. */
    ghost var lent: set<array<Byte>>
    ghost var odd: Odd

    /** The constructor's body once its arguments are accepted. */
    constructor (bufferSize: nat, buffers: seq<array<Byte>>)
      requires bufferSize > 0 && |buffers| > 0
      requires forall i :: 0 <= i < |buffers| ==> buffers[i].Length == bufferSize && AllZero(buffers[i])
      requires forall i, j :: 0 <= i < j < |buffers| ==> buffers[i] != buffers[j]
      ensures Valid() && fresh(slotStates)
      ensures this.bufferSize == bufferSize && this.capacity == |buffers| && this.buffers == buffers
      ensures Contents() == Ring(0, 0, seq(|buffers|, _ => 0)) && fallbackPool == {}
      ensures allocCount == freeCount == fallbackCount == 0 && lent == {} && odd == Odd(0, 0, 0)
    {
      this.bufferSize, this.capacity, this.buffers := bufferSize, |buffers|, buffers;
      slotStates := new nat[|buffers|](_ => 0);
      bufferAddrs := Addresses(buffers);
      head, tail, fallbackPool, skipped, lent, odd := 0, 0, {}, 0, {}, Odd(0, 0, 0);
      allocCount, freeCount, fallbackCount := 0, 0, 0;
      new;
      assert slotStates[..] == seq(|buffers|, _ => 0);
      ZeroTotal(|buffers|);
    }

    ghost function Contents(): Ring
      reads `head, `tail, slotStates
    {
      Ring(head, tail, slotStates[..])
    }

    ghost predicate Shaped()
      reads `fallbackPool
    {
      && bufferSize > 0
      && capacity > 0
      && |buffers| == slotStates.Length == capacity
      && (forall i :: 0 <= i < capacity ==> buffers[i].Length == bufferSize)
      && (forall i :: 0 <= i < capacity ==> buffers[i] in bufferAddrs && bufferAddrs[buffers[i]] == i)
      && (forall a :: a in bufferAddrs ==> bufferAddrs[a] < capacity && buffers[bufferAddrs[a]] == a)
      && (forall a :: a in fallbackPool ==> a.Length == bufferSize && a !in bufferAddrs)
    }

    /** Slots are 0 or 1; positions are lent or skipped; what the pool keeps is zero. */
    ghost predicate Clean()
      reads `head, `tail, `skipped, `fallbackPool, slotStates, buffers, fallbackPool
    {
      && Shaped()
      && (forall i :: 0 <= i < capacity ==> slotStates[i] <= 1)
      && Bounded(Contents())
      && head - tail == Total(slotStates[..]) + skipped
      && (forall i :: 0 <= i < capacity && slotStates[i] == 0 ==> AllZero(buffers[i]))
      && (forall a :: a in fallbackPool ==> AllZero(a))
    }

    ghost predicate Valid()
      reads this, slotStates, buffers, fallbackPool
    {
      Clean() && LentOut({}) && Counts()
    }

    ghost predicate Counts()
      reads `allocCount, `freeCount, `lent, `odd
    {
      allocCount - freeCount == |lent| + odd.empty + odd.oversize - odd.foreign
    }

    /** Lent buffers, but for those in `except`, are out of the pool. */
    ghost predicate LentOut(except: set<array<Byte>>)
      requires Shaped()
      reads `lent, `fallbackPool, slotStates
    {
      forall a :: a in lent && a !in except ==> a.Length == bufferSize && !Keeps(a)
    }

    /** The pool currently keeps this buffer: in a free slot, or in the fallback. */
    ghost predicate Keeps(a: array<Byte>)
      requires Shaped()
      reads `fallbackPool, slotStates
    {
      a in fallbackPool || (a in bufferAddrs && slotStates[bufferAddrs[a]] == 0)
    }

    /** How a pooled buffer was found: the first free slot past head, else the fallback. */
    twostate predicate Served(new buf: array<Byte>)
      reads `head, `tail, `fallbackPool, `fallbackCount, slotStates
    {
      && old(Bounded(Contents()) && |buffers| == capacity)
      && Contents() == Take(old(Contents())).0
      && match Take(old(Contents())).1
         case Some(i) =>
           && i < |buffers| && buf == buffers[i]
           && fallbackPool == old(fallbackPool) && fallbackCount == old(fallbackCount)
         case None =>
           && (fresh(buf) || buf in old(fallbackPool)) && buf !in bufferAddrs
           && fallbackPool == old(fallbackPool) - {buf} && fallbackCount == old(fallbackCount) + 1
    }

    method Alloc(size: int) returns (buf: Slice)
      requires Valid()
      modifies `head, `skipped, `fallbackPool, `fallbackCount, `allocCount, `lent, `odd, slotStates
      ensures Valid() && allocCount == old(allocCount) + 1
      ensures buf.len == (if size <= 0 then 0 else size) <= buf.arr.Length && AllZero(buf.arr)
      ensures !Keeps(buf.arr)
      ensures size <= 0 || size > bufferSize ==>
        && fresh(buf.arr) && buf.arr.Length == buf.len
        && lent == old(lent) && odd == OneMoreOdd(old(odd), size)
        && Contents() == old(Contents()) && fallbackPool == old(fallbackPool) && fallbackCount == old(fallbackCount)
      ensures 0 < size <= bufferSize ==>
        && Served(buf.arr) && buf.arr.Length == bufferSize
        && buf.arr !in old(lent) && lent == old(lent) + {buf.arr} && odd == old(odd)
    {
      if size <= 0 {
        var a := Make(0);
        buf := Slice(a, 0);
      } else if size > bufferSize {
        var a := Make(size);
        buf := Slice(a, size);
      } else {
        buf := AllocPooled(size);
      }
      CountAlloc(buf.arr, size, 0 < size <= bufferSize);
    }

    method CountAlloc(a: array<Byte>, size: int, pooled: bool)
      requires Clean() && LentOut({}) && Counts()
      requires pooled ==> a !in lent && a.Length == bufferSize && !Keeps(a)
      modifies `allocCount, `lent, `odd
      ensures Valid() && allocCount == old(allocCount) + 1
      ensures lent == (if pooled then old(lent) + {a} else old(lent))
      ensures odd == if pooled then old(odd) else OneMoreOdd(old(odd), size)
    {
      allocCount := allocCount + 1;
      if pooled {
        lent := lent + {a};
      } else {
        odd := OneMoreOdd(odd, size);
      }
    }

    /** Alloc for a size the pool's buffers can carry. */
    method AllocPooled(size: nat) returns (buf: Slice)
      requires Clean() && LentOut({}) && 0 < size <= bufferSize
      modifies `head, `skipped, `fallbackPool, `fallbackCount, slotStates
      ensures Clean() && LentOut({})
      ensures buf.len == size && buf.arr.Length == bufferSize && AllZero(buf.arr)
      ensures !Keeps(buf.arr) && buf.arr !in lent
      ensures Served(buf.arr)
    {
      var slot := AllocSlot();
      match slot
      case None =>
        fallbackCount := fallbackCount + 1;
        var a := GetFallback();
        buf := Slice(a, size);
      case Some(index) =>
        buf := Slice(buffers[index], size);
    }

    /** The claimed slot's buffer was in the pool until now. */
    method AllocSlot() returns (slot: Option<nat>)
      requires Clean() && LentOut({})
      modifies `head, `skipped, slotStates
      ensures Clean() && LentOut({}) && (Contents(), slot) == Take(old(Contents()))
      ensures slot.Some? ==>
        && slot.value < capacity && AllZero(buffers[slot.value])
        && !Keeps(buffers[slot.value]) && buffers[slot.value] !in lent
    {
      TakeAccounts(Contents());
      slot := ClaimSlot();
      assert forall i :: 0 <= i < capacity ==>
        slotStates[i] == if slot == Some(i) then 1 else old(slotStates[i]);
    }

    ghost predicate Counted()
      reads `head, `tail, `skipped, slotStates
    {
      && capacity > 0
      && slotStates.Length == capacity
      && Bounded(Contents())
      && head - tail == Total(slotStates[..]) + skipped
    }

    /** The retry loop of Alloc. Its turns are bounded by the distance from head to tail + capacity. */
    method ClaimSlot() returns (slot: Option<nat>)
      requires Counted()
      modifies this`head, this`skipped, slotStates
      ensures Counted()
      ensures (Contents(), slot) == Take(old(Contents()))
      ensures slot.Some? ==>
        && slot.value < capacity && old(slotStates[slot.value]) == 0
        && slotStates[..] == old(slotStates[..])[slot.value := 1]
      ensures slot.None? ==> slotStates[..] == old(slotStates[..])
    {
      while true
        invariant Counted() && slotStates[..] == old(slotStates[..])
        invariant Scan(slotStates[..], head, tail + capacity) == Scan(slotStates[..], old(head), tail + capacity)
        decreases tail + capacity - head
      {
        var h, t := head, tail;
        if h == t + capacity {
          return None;
        }
        head := h + 1;
        var index := h % capacity;
        if slotStates[index] == 0 {
          TotalUpdate(slotStates[..], index, 1);
          slotStates[index] := 1;
          assert slotStates[..] == old(slotStates[..])[index := 1];
          return Some(index);
        }
        skipped := skipped + 1;
      }
    }

    /** sync.Pool.Get: any buffer kept there, or a new one (also when kept ones were dropped). */
    method GetFallback() returns (a: array<Byte>)
      requires Shaped() && forall b :: b in fallbackPool ==> AllZero(b)
      modifies this`fallbackPool
      ensures a.Length == bufferSize && AllZero(a) && a !in bufferAddrs
      ensures fresh(a) || a in old(fallbackPool)
      ensures fallbackPool == old(fallbackPool) - {a}
    {
      if
      case fallbackPool != {} =>
        a :| a in fallbackPool;
        fallbackPool := fallbackPool - {a};
      case true =>
        a := Make(bufferSize);
    }

    /** Free of a buffer that is not already back in the pool. */
    method Free(buf: Slice)
      requires Valid() && !Keeps(buf.arr)
      modifies `tail, `fallbackPool, `freeCount, `lent, `odd, slotStates, buf.arr
      ensures Valid() && freeCount == old(freeCount) + 1
      ensures lent == old(lent) - {buf.arr}
      ensures odd == if buf.arr in old(lent) then old(odd) else OneMoreForeign(old(odd))
      ensures buf.arr.Length == bufferSize ==> AllZero(buf.arr) && Keeps(buf.arr)
      ensures buf.arr in bufferAddrs ==>
        Contents() == Give(old(Contents()), bufferAddrs[buf.arr]) && fallbackPool == old(fallbackPool)
      ensures buf.arr !in bufferAddrs && buf.arr.Length == bufferSize ==>
        Contents() == old(Contents()) && fallbackPool == old(fallbackPool) + {buf.arr}
      ensures buf.arr.Length != bufferSize ==>
        Contents() == old(Contents()) && fallbackPool == old(fallbackPool) && buf.arr[..] == old(buf.arr[..])
    {
      if buf.arr in bufferAddrs {
        FreeRing(buf.arr);
      } else if buf.arr.Length == bufferSize {
        FreeFallback(buf.arr);
      }
      CountFree(buf.arr);
    }

    method CountFree(a: array<Byte>)
      requires Clean() && LentOut({a}) && Counts()
      modifies `freeCount, `lent, `odd
      ensures Valid() && freeCount == old(freeCount) + 1
      ensures lent == old(lent) - {a} && odd == (if a in old(lent) then old(odd) else OneMoreForeign(old(odd)))
    {
      freeCount := freeCount + 1;
      odd := if a in lent then odd else OneMoreForeign(odd);
      lent := lent - {a};
      assert LentOut({});
    }

    method FreeRing(a: array<Byte>)
      requires Clean() && LentOut({}) && a in bufferAddrs && !Keeps(a)
      modifies `tail, slotStates, a
      ensures Clean() && LentOut({a}) && AllZero(a) && Keeps(a)
      ensures Contents() == Give(old(Contents()), bufferAddrs[a])
    {
      ClearBuffer(a);
      var index := bufferAddrs[a];
      TotalUpdate(slotStates[..], index, 0);
      slotStates[index] := 0;
      assert slotStates[..] == old(slotStates[..])[index := 0];
      tail := tail + 1;
    }

    method FreeFallback(a: array<Byte>)
      requires Clean() && LentOut({}) && a !in bufferAddrs && a.Length == bufferSize
      modifies `fallbackPool, a
      ensures Clean() && LentOut({a}) && AllZero(a) && Keeps(a)
      ensures fallbackPool == old(fallbackPool) + {a}
    {
      ClearBuffer(a);
      fallbackPool := fallbackPool + {a};
    }
  }

  /** NewRingBufferPool: the size must be positive and the capacity a power of two. */
  method NewRingBufferPool(bufferSize: int, capacity: nat) returns (r: Created)
    ensures r == Failed(InvalidSize) <==> bufferSize <= 0
    ensures r == Failed(InvalidCapacity) <==> bufferSize > 0 && !PowerOfTwo(capacity)
    ensures r.Pool? ==>
      && fresh(r.pool) && fresh(r.pool.slotStates) && fresh(r.pool.buffers)
      && r.pool.Valid() && r.pool.bufferSize == bufferSize && r.pool.capacity == capacity
      && r.pool.Contents() == Ring(0, 0, seq(capacity, _ => 0)) && r.pool.fallbackPool == {}
      && r.pool.allocCount == r.pool.freeCount == r.pool.fallbackCount == 0
      && r.pool.lent == {} && r.pool.odd == Odd(0, 0, 0)
  {
    if bufferSize <= 0 {
      return Failed(InvalidSize);
    }
    if !PowerOfTwo(capacity) {
      return Failed(InvalidCapacity);
    }
    var buffers: seq<array<Byte>> := [];
    for i := 0 to capacity
      invariant |buffers| == i && fresh(buffers)
      invariant forall k :: 0 <= k < i ==> buffers[k].Length == bufferSize && AllZero(buffers[k])
      invariant forall j, k :: 0 <= j < k < i ==> buffers[j] != buffers[k]
    {
      var b := Make(bufferSize);
      buffers := buffers + [b];
    }
    var p := new RingBufferPool(bufferSize, buffers);
    r := Pool(p);
  }
}
