/** MultiSizeRingPool: one ring pool per buffer size, chosen by best fit. */
module MultiPool {
  import opened Bytes
  import opened Bits
  import opened RingSpec
  import opened RingPool

  ghost predicate Increasing(s: seq<int>) {
    forall i, j :: 0 <= i < j < |s| ==> s[i] < s[j]
  }

  ghost predicate Apart(pools: map<int, RingBufferPool>) {
    forall s, t :: s in pools && t in pools && s != t ==>
      pools[s] != pools[t] && pools[s].slotStates != pools[t].slotStates
  }

  class MultiSizeRingPool {
    const pools: map<int, RingBufferPool>
    const sizes: seq<int>

    /** The pools, their slot tables, and every buffer a pool keeps or has kept. */
    ghost const members: set<RingBufferPool>
    ghost const tables: set<array<nat>>
    ghost var arrays: set<array<Byte>>

    constructor (pools: map<int, RingBufferPool>, sizes: seq<int>, ghost realm: Realm)
      ensures this.pools == pools && this.sizes == sizes
      ensures members == realm.pools && tables == realm.tables && arrays == realm.arrays
    {
      this.pools, this.sizes := pools, sizes;
      members, tables, arrays := realm.pools, realm.tables, realm.arrays;
    }

    ghost predicate Shaped() {
      && Increasing(sizes)
      && (forall s :: s in sizes <==> s in pools)
      && (forall s :: s in pools ==> 0 < s == pools[s].bufferSize)
      && (forall s :: s in pools ==> pools[s] in members && pools[s].slotStates in tables)
      && Apart(pools)
    }

    /** Beyond its own validity: no Alloc was too large for its pool, so that per pool AllocCount - FreeCount
        is the number of outstanding buffers plus that of non-positive Allocs, less Frees of foreign buffers. */
    ghost predicate PoolOk(s: int)
      requires s in pools && pools[s].slotStates in tables
      reads this, pools[s], tables, arrays
    {
      && (forall i :: 0 <= i < |pools[s].buffers| ==> pools[s].buffers[i] in arrays)
      && pools[s].fallbackPool <= arrays
      && pools[s].Valid()
      && pools[s].odd.oversize == 0
    }

    ghost predicate Valid()
      reads this, pools.Values, tables, arrays
    {
      Shaped() && forall s :: s in pools ==> PoolOk(s)
    }

    /** s is the smallest pool size that can carry `size` bytes. */
    ghost predicate BestFit(s: int, size: int) {
      s in pools && size <= s && forall t :: t in pools && size <= t ==> s <= t
    }

    /** Every pool but the one for size s is as before. */
    twostate predicate OthersUnchanged(s: int)
      reads pools.Values, set t | t in pools :: pools[t].slotStates
    {
      forall t :: t in pools && t != s ==> unchanged(pools[t]) && unchanged(pools[t].slotStates)
    }

    /** Alloc on the smallest pool that fits, else on the heap. Go's make panics on a negative size,
        which an empty manager would pass on. */
    method Alloc(size: int) returns (buf: Slice, ghost from: Option<int>)
      requires Valid() && (size >= 0 || sizes != [])
      modifies members, tables
      ensures Valid() && AllZero(buf.arr) && Issues(size, from, buf)
    {
      var s := FindFit(size);
      from := s;
      if s.Some? {
        buf := AllocFrom(s.value, size);
      } else {
        buf := AllocHeap(size);
      }
    }

    /** Where a buffer of this size comes from, and what that changes. */
    twostate predicate Issues(size: int, new from: Option<int>, new buf: Slice)
      reads this, pools.Values, set t | t in pools :: pools[t].slotStates
    {
      && buf.len == (if size <= 0 then 0 else size) <= buf.arr.Length
      && match from
         case None =>
           && (forall t :: t in pools ==> t < size)
           && fresh(buf.arr) && buf.arr.Length == size && OthersUnchanged(size)
         case Some(s) =>
           && BestFit(s, size) && OthersUnchanged(s)
           && if size > 0 then Lends(s, buf.arr) else CountsEmpty(s, buf.arr)
    }

    method AllocHeap(size: nat) returns (buf: Slice)
      requires Valid() && forall t :: t in pools ==> t < size
      ensures Valid() && AllZero(buf.arr) && Issues(size, None, buf)
    {
      var a := Make(size);
      buf := Slice(a, size);
    }

    /** The scan over the sorted sizes. */
    method FindFit(size: int) returns (s: Option<int>)
      requires Shaped()
      ensures s.Some? ==> BestFit(s.value, size)
      ensures s.None? ==> forall t :: t in pools ==> t < size
      ensures s.None? && sizes != [] ==> size >= 0
    {
      for i := 0 to |sizes|
        invariant forall k :: 0 <= k < i ==> sizes[k] < size
      {
        if sizes[i] >= size {
          assert sizes[i] in sizes;
          return Some(sizes[i]);
        }
      }
      assert sizes != [] ==> sizes[0] in sizes;
      return None;
    }

    /** Pool s issued this buffer: its ring moved as RingSpec says and the buffer is now lent. */
    twostate predicate Lends(s: int, new a: array<Byte>)
      requires s in pools
      reads this, pools[s], pools[s].slotStates
    {
      && a.Length == s && (fresh(a) || a in arrays)
      && pools[s].Served(a)
      && a !in old(pools[s].lent) && pools[s].lent == old(pools[s].lent) + {a}
      && pools[s].odd == old(pools[s].odd)
    }

    /** Pool s only counted a non-positive Alloc. */
    twostate predicate CountsEmpty(s: int, new a: array<Byte>)
      requires s in pools
      reads pools[s]
    {
      && fresh(a) && a.Length == 0
      && pools[s].lent == old(pools[s].lent)
      && pools[s].odd == old(pools[s].odd).(empty := old(pools[s].odd).empty + 1)
    }

    method AllocFrom(s: int, size: int) returns (buf: Slice)
      requires Valid() && BestFit(s, size)
      modifies pools[s], pools[s].slotStates
      ensures Valid() && AllZero(buf.arr) && Issues(size, Some(s), buf)
    {
      buf := AllocIn(s, size);
      forall t | t in pools ensures PoolOk(t) {
      }
    }

    method AllocIn(s: int, size: int) returns (buf: Slice)
      requires s in pools && pools[s].slotStates in tables && 0 < s == pools[s].bufferSize && PoolOk(s) && size <= s
      modifies pools[s], pools[s].slotStates
      ensures PoolOk(s) && AllZero(buf.arr)
      ensures buf.len == (if size <= 0 then 0 else size) <= buf.arr.Length
      ensures if size > 0 then Lends(s, buf.arr) else CountsEmpty(s, buf.arr)
    {
      buf := pools[s].Alloc(size);
    }

    /** The buffer is not one a pool keeps: it came from the heap, or its pool lent it. */
    ghost predicate Out(a: array<Byte>)
      reads pools.Values
    {
      a.Length in pools ==> a in pools[a.Length].lent
    }

    /** The same buffers are lent as before. */
    twostate predicate SameLent()
      reads pools.Values
    {
      forall s :: s in pools ==> pools[s].lent == old(pools[s].lent)
    }

    /** The same buffers are lent as before, and a if a pool issued it. */
    twostate predicate OneMoreLent(new a: array<Byte>)
      reads pools.Values
    {
      forall s :: s in pools ==>
        if s == a.Length then a !in old(pools[s].lent) && pools[s].lent == old(pools[s].lent) + {a}
        else pools[s].lent == old(pools[s].lent)
    }

    /** Alloc of a positive size, seen by a client: a zero buffer that is now out. */
    method Obtain(size: nat) returns (buf: Slice)
      requires Valid() && size > 0
      modifies members, tables
      ensures Valid() && OneMoreLent(buf.arr) && Out(buf.arr) && AllZero(buf.arr)
      ensures buf.len == size <= buf.arr.Length
      ensures fresh(buf.arr) || buf.arr in arrays
    {
      ghost var from;
      buf, from := Alloc(size);
    }

    /** Writing to a buffer that is out leaves every pool valid. */
    method Fill(buf: Slice, data: Pack)
      requires Valid() && Out(buf.arr) && |data| <= buf.arr.Length
      modifies buf.arr
      ensures Valid() && buf.arr[..|data|] == data
    {
      Copy(buf.arr, data);
      forall s | s in pools ensures PoolOk(s) {
      }
    }

    /** Alloc and fill: the buffer holds the data and is out. */
    method Load(size: nat, data: Pack) returns (buf: Slice)
      requires Valid() && 0 < size && |data| <= size
      modifies members, tables, arrays
      ensures Valid() && OneMoreLent(buf.arr) && Out(buf.arr)
      ensures buf.len == size <= buf.arr.Length && buf.arr[..|data|] == data
      ensures fresh(buf.arr) || buf.arr in arrays
    {
      buf := Obtain(size);
      Fill(buf, data);
    }

    /** The pool for this capacity, if any, does not have the buffer. */
    ghost predicate NotKept(a: array<Byte>)
      requires Valid()
      reads this, pools.Values, tables, arrays
    {
      a.Length in pools ==> !pools[a.Length].Keeps(a)
    }

    lemma OutIsNotKept(a: array<Byte>)
      requires Valid() && Out(a)
      ensures NotKept(a)
    {
      assert a.Length in pools ==> PoolOk(a.Length);
    }

    /** Free routes by capacity. A buffer some pool lent goes back to that pool, and so does a foreign one
        of the same capacity; a buffer of any other capacity joins no pool. */
    method Free(buf: Slice)
      requires Valid() && NotKept(buf.arr)
      modifies `arrays, members, tables, buf.arr
      ensures Valid() && OthersUnchanged(buf.arr.Length)
      ensures arrays == if buf.arr.Length in pools then old(arrays) + {buf.arr} else old(arrays)
      ensures buf.arr.Length in pools ==> TookBack(pools[buf.arr.Length], buf.arr)
      ensures buf.arr.Length !in pools ==> buf.arr[..] == old(buf.arr[..])
    {
      if buf.arr.Length in pools {
        arrays := arrays + {buf.arr};
        FreeTo(buf.arr.Length, buf);
      }
    }

    method FreeTo(s: int, buf: Slice)
      requires Valid() && s in pools && s == buf.arr.Length && !pools[s].Keeps(buf.arr) && buf.arr in arrays
      modifies pools[s], pools[s].slotStates, buf.arr
      ensures Valid() && TookBack(pools[s], buf.arr)
    {
      assert PoolOk(s);
      pools[s].Free(buf);
      forall t | t in pools ensures PoolOk(t) {
      }
    }

    /** The same buffers are lent as before, but for a. */
    twostate predicate OneLessLent(a: array<Byte>)
      reads pools.Values
    {
      forall s :: s in pools ==>
        pools[s].lent == if s == a.Length then old(pools[s].lent) - {a} else old(pools[s].lent)
    }

    /** Free of a buffer that is out, seen by a client. */
    method Return(buf: Slice)
      requires Valid() && Out(buf.arr)
      modifies `arrays, members, tables, buf.arr
      ensures Valid() && OneLessLent(buf.arr) && arrays <= old(arrays) + {buf.arr}
    {
      OutIsNotKept(buf.arr);
      Free(buf);
    }

    /** Cryptor.Decrypt: a new pack, or none when the cipher refuses. In plain mode `open` is the identity
        and this is slices.Clone. */
    method Decrypt(buf: Slice, open: Pack -> Option<Pack>) returns (pack: array?<Byte>)
      requires buf.len <= buf.arr.Length
      ensures pack != null <==> open(buf.arr[..buf.len]).Some?
      ensures pack != null ==> fresh(pack) && pack[..] == open(buf.arr[..buf.len]).value
    {
      var plain := open(buf.arr[..buf.len]);
      if plain.None? {
        return null;
      }
      var bytes := plain.value;
      pack := new Byte[|bytes|](i requires 0 <= i < |bytes| => bytes[i]);
    }

    /** Decrypt followed by free(): the buffer is zeroed and may be lent again, the pack is apart from every
        buffer of the pools. */
    method DecryptAndFree(buf: Slice, open: Pack -> Option<Pack>) returns (pack: array?<Byte>)
      requires Valid() && Out(buf.arr) && buf.len <= buf.arr.Length
      modifies `arrays, members, tables, buf.arr
      ensures Valid() && OneLessLent(buf.arr) && arrays <= old(arrays) + {buf.arr}
      ensures pack != null <==> open(old(buf.arr[..buf.len])).Some?
      ensures pack != null ==> fresh(pack) && pack !in arrays && pack[..] == open(old(buf.arr[..buf.len])).value
    {
      pack := Decrypt(buf, open);
      Return(buf);
    }
  }

  /** Pool p has the buffer again, zeroed, and counted it as returned or as foreign. */
  twostate predicate TookBack(p: RingBufferPool, a: array<Byte>)
    reads p, p.slotStates, a
  {
    && p.lent == old(p.lent) - {a}
    && p.odd == (if a in old(p.lent) then old(p.odd) else OneMoreForeign(old(p.odd)))
    && p.Shaped() && p.Keeps(a) && AllZero(a)
  }

  function Insert(s: seq<int>, x: int): (r: seq<int>)
    requires Increasing(s) && x !in s
    ensures Increasing(r) && forall y :: y in r <==> y in s || y == x
  {
    if s == [] || x < s[0] then
      [x] + s
    else
      assert s[0] in s;
      var rest := Insert(s[1..], x);
      assert forall i :: 0 <= i < |rest| ==> rest[i] in rest;
      assert s == [s[0]] + s[1..];
      [s[0]] + rest
  }

  datatype Made = Manager(manager: MultiSizeRingPool) | Failed(error: Error)

  ghost predicate Accepted(size: int, capacity: nat) {
    size > 0 && PowerOfTwo(capacity)
  }

  /** What NewRingBufferPool says about an entry it does not accept. */
  ghost predicate Refused(size: int, capacity: nat, error: Error) {
    if error.InvalidSize? then size <= 0 else size > 0 && !PowerOfTwo(capacity)
  }

  ghost predicate Unused(p: RingBufferPool, size: int, capacity: nat)
    reads p, p.slotStates, p.buffers, p.fallbackPool
  {
    && p.Valid() && 0 < size == p.bufferSize && p.capacity == capacity && p.fallbackPool == {}
    && p.allocCount == p.freeCount == p.fallbackCount == 0 && p.lent == {} && p.odd == Odd(0, 0, 0)
  }

  /** Objects among which the pools, their slot tables and their buffers are. */
  datatype Realm = Realm(pools: set<RingBufferPool>, tables: set<array<nat>>, arrays: set<array<Byte>>)

  ghost predicate Within(pools: map<int, RingBufferPool>, r: Realm) {
    forall s :: s in pools ==>
      && pools[s] in r.pools && pools[s].slotStates in r.tables
      && forall i :: 0 <= i < |pools[s].buffers| ==> pools[s].buffers[i] in r.arrays
  }

  ghost predicate AllUnused(pools: map<int, RingBufferPool>, capacities: map<int, nat>, r: Realm)
    reads r.pools, r.tables, r.arrays, set s, a | s in pools && pools[s] in r.pools && a in pools[s].fallbackPool :: a
  {
    && Apart(pools) && Within(pools, r)
    && forall s :: s in pools ==> s in capacities && Unused(pools[s], s, capacities[s])
  }

  method AddPool(capacities: map<int, nat>, pools: map<int, RingBufferPool>, size: int, ghost r: Realm)
    returns (pools': map<int, RingBufferPool>, ok: bool, ghost r': Realm)
    requires size in capacities && size !in pools && AllUnused(pools, capacities, r)
    ensures ok <==> Accepted(size, capacities[size])
    ensures ok ==> AllUnused(pools', capacities, r') && pools'.Keys == pools.Keys + {size}
    ensures fresh(r'.pools - r.pools) && fresh(r'.tables - r.tables) && fresh(r'.arrays - r.arrays)
  {
    var created := NewRingBufferPool(size, capacities[size]);
    assert created.Failed? ==> created.error.InvalidSize? || created.error.InvalidCapacity?;
    ok := created.Pool?;
    pools', r' := pools, r;
    if ok {
      var p := created.pool;
      pools' := pools[size := p];
      r' := Realm(r.pools + {p}, r.tables + {p.slotStates}, r.arrays + set i | 0 <= i < |p.buffers| :: p.buffers[i]);
    }
  }

  /** A map iteration visits each key once, in an order the Go runtime picks. */
  ghost predicate IterationOf(order: seq<int>, keys: set<int>) {
    && (forall i, j :: 0 <= i < j < |order| ==> order[i] != order[j])
    && (forall k :: k in order <==> k in keys)
  }

  /** The first i entries of the iteration were accepted and have their pools. */
  ghost predicate Built(capacities: map<int, nat>, order: seq<int>, i: nat, sizes: set<int>) {
    && i <= |order|
    && (forall k :: 0 <= k < i ==> order[k] in capacities && Accepted(order[k], capacities[order[k]]))
    && sizes == set k | 0 <= k < i :: order[k]
  }

  lemma BuiltStep(capacities: map<int, nat>, order: seq<int>, i: nat, sizes: set<int>)
    requires IterationOf(order, capacities.Keys) && i < |order| && Built(capacities, order, i, sizes)
    ensures order[i] in capacities && order[i] !in sizes
    ensures Accepted(order[i], capacities[order[i]]) ==> Built(capacities, order, i + 1, sizes + {order[i]})
  {
    assert order[i] in order;
  }

  lemma BuiltAll(capacities: map<int, nat>, order: seq<int>, sizes: set<int>)
    requires IterationOf(order, capacities.Keys) && Built(capacities, order, |order|, sizes)
    ensures forall s :: s in sizes <==> s in capacities
    ensures forall s :: s in capacities ==> Accepted(s, capacities[s])
  {
    forall s | s in capacities ensures s in sizes && Accepted(s, capacities[s]) {
      assert s in order;
    }
    forall s | s in sizes ensures s in capacities {
      assert s in order;
    }
  }

  method NextPool(capacities: map<int, nat>, order: seq<int>, i: nat, pools: map<int, RingBufferPool>, ghost r: Realm)
    returns (pools': map<int, RingBufferPool>, ok: bool, ghost r': Realm)
    requires IterationOf(order, capacities.Keys) && i < |order|
    requires Built(capacities, order, i, pools.Keys) && AllUnused(pools, capacities, r)
    ensures order[i] in capacities && (ok <==> Accepted(order[i], capacities[order[i]]))
    ensures ok ==> Built(capacities, order, i + 1, pools'.Keys) && AllUnused(pools', capacities, r')
    ensures fresh(r'.pools - r.pools) && fresh(r'.tables - r.tables) && fresh(r'.arrays - r.arrays)
  {
    BuiltStep(capacities, order, i, pools.Keys);
    pools', ok, r' := AddPool(capacities, pools, order[i], r);
  }

  /** One pool per entry, in the order of the iteration; the first rejected entry rejects them all. */
  method BuildPools(capacities: map<int, nat>, order: seq<int>)
    returns (pools: map<int, RingBufferPool>, rejected: Option<int>, ghost r: Realm)
    requires IterationOf(order, capacities.Keys)
    ensures rejected.Some? ==> rejected.value in capacities && !Accepted(rejected.value, capacities[rejected.value])
    ensures rejected.None? ==> Built(capacities, order, |order|, pools.Keys) && AllUnused(pools, capacities, r)
    ensures fresh(r.pools) && fresh(r.tables) && fresh(r.arrays)
  {
    pools, r, rejected := map[], Realm({}, {}, {}), None;
    for i := 0 to |order|
      invariant Built(capacities, order, i, pools.Keys)
      invariant AllUnused(pools, capacities, r)
      invariant fresh(r.pools) && fresh(r.tables) && fresh(r.arrays)
    {
      var ok;
      pools, ok, r := NextPool(capacities, order, i, pools, r);
      if !ok {
        rejected := Some(order[i]);
        return;
      }
    }
  }

  method Sort(order: seq<int>) returns (sizes: seq<int>)
    requires forall i, j :: 0 <= i < j < |order| ==> order[i] != order[j]
    ensures Increasing(sizes) && forall s :: s in sizes <==> s in order
  {
    sizes := [];
    for i := 0 to |order|
      invariant Increasing(sizes) && forall s :: s in sizes <==> s in order[..i]
    {
      sizes := Insert(sizes, order[i]);
    }
  }

  /** NewMultiSizeRingPool: the manager and everything in its reach are new, and nothing has been used. */
  method NewMultiSizeRingPool(capacities: map<int, nat>, order: seq<int>) returns (r: Made)
    requires IterationOf(order, capacities.Keys)
    ensures r.Manager? <==> forall s :: s in capacities ==> Accepted(s, capacities[s])
    ensures r.Failed? ==> exists s :: s in capacities && Refused(s, capacities[s], r.error)
    ensures r.Manager? ==>
      && r.manager.Valid() && (forall s :: s in r.manager.pools <==> s in capacities)
      && (forall s :: s in r.manager.pools ==> Unused(r.manager.pools[s], s, capacities[s]))
      && fresh(r.manager) && fresh(r.manager.members) && fresh(r.manager.tables) && fresh(r.manager.arrays)
  {
    var pools, rejected, realm := BuildPools(capacities, order);
    if rejected.Some? {
      r := Made.Failed(if rejected.value <= 0 then InvalidSize else InvalidCapacity);
      assert Refused(rejected.value, capacities[rejected.value], r.error);
      return;
    }
    BuiltAll(capacities, order, pools.Keys);
    var sizes := Sort(order);
    var m := NewManager(capacities, pools, sizes, realm);
    r := Manager(m);
  }

  method NewManager(
      ghost capacities: map<int, nat>, pools: map<int, RingBufferPool>, sizes: seq<int>, ghost realm: Realm)
    returns (m: MultiSizeRingPool)
    requires AllUnused(pools, capacities, realm)
    requires Increasing(sizes) && forall s :: s in sizes <==> s in pools
    ensures m.pools == pools && m.Valid() && fresh(m)
    ensures m.members == realm.pools && m.tables == realm.tables && m.arrays == realm.arrays
  {
    m := new MultiSizeRingPool(pools, sizes, realm);
    forall s | s in pools ensures m.pools[s].slotStates in m.tables && m.PoolOk(s) {
      assert Unused(pools[s], s, capacities[s]);
    }
  }

  /** Per pool, allocations minus frees is what is outstanding plus the non-positive Allocs, as long as
      nobody freed a foreign buffer of that capacity. */
  lemma CountsBalance(m: MultiSizeRingPool, s: int)
    requires m.Valid() && s in m.pools
    ensures var p := m.pools[s]; p.allocCount - p.freeCount == |p.lent| + p.odd.empty - p.odd.foreign
  {
    assert m.PoolOk(s);
  }
}
