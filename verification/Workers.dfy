/** The worker manager: hash-sharded buckets of workers, a uid index shared by all managers, and the
    batched lookup, against the flat registry. */
module Workers {
  import opened Bytes
  import opened Registry
  import Bits
  import Shards

  /** The package-level index. */
  class UidIndex {
    var m: map<Key, Wid>
    constructor ()
      ensures m == map[]
    {
      m := map[];
    }
  }

  class WorkerManager {
    const index: UidIndex
    const shardCount: nat
    const bucketOf: Wid -> nat
    var buckets: seq<map<Wid, Worker>>
    var size: int

    /** The workers in all buckets together. */
    ghost var flat: map<Wid, Worker>

    /** newWorkerManager. With no shards the object is made all the same, and its first lookup panics. */
    constructor (index: UidIndex, shards: bv64)
      ensures shards != 0 ==> Valid()
      ensures this.index == index && |buckets| == shardCount == Bits.Value(shards)
      ensures flat == map[] && size == 0
      ensures forall x: Wid :: bucketOf(x) == Bits.Value(Shards.BucketKey(Bits.Word(x), shards))
    {
      this.index, shardCount, size, flat := index, Bits.Value(shards), 0, map[];
      bucketOf := (x: Wid) => Bits.Value(Shards.BucketKey(Bits.Word(x), shards));
      buckets := seq(Bits.Value(shards), _ => map[]);
      new;
      if shards != 0 {
        forall x: Wid ensures bucketOf(x) < shardCount {
          Shards.BucketInRange(Bits.Word(x), shards);
        }
      }
    }

    ghost predicate Valid()
      reads this
    {
      && |buckets| == shardCount
      && (forall x: Wid :: bucketOf(x) < shardCount)
      && (forall k: nat, x: Wid :: k < shardCount && x in buckets[k] ==> bucketOf(x) == k)
      && (forall x: Wid :: x in flat <==> x in buckets[bucketOf(x)])
      && (forall x: Wid :: x in flat ==> flat[x] == buckets[bucketOf(x)][x] && flat[x].wid == x)
    }

    ghost function Model(): Flat
      reads this, index
    {
      Flat(flat, index.m, size)
    }

    method Worker(wid: Wid) returns (w: Option<Worker>)
      requires Valid()
      ensures w == if wid in flat then Some(flat[wid]) else None
    {
      var b := buckets[bucketOf(wid)];
      w := if wid in b then Some(b[wid]) else None;
    }

    method Put(w: Worker) returns (previous: Option<Worker>)
      requires Valid()
      modifies this, index
      ensures Valid() && Model() == Registry.Put(old(Model()), w)
      ensures previous == if w.wid in old(flat) then Some(old(flat)[w.wid]) else None
      ensures w.wid in old(flat) ==> flat == old(flat) && index.m == old(index.m) && size == old(size)
      ensures w.wid !in old(flat) ==>
        && flat == old(flat)[w.wid := w] && index.m == old(index.m)[OfInt64(w.uid) := w.wid] && size == old(size) + 1
    {
      var k := bucketOf(w.wid);
      if w.wid in buckets[k] {
        return Some(buckets[k][w.wid]);
      }
      var bucket: map<Wid, Worker> := buckets[k];
      bucket := bucket[w.wid := w];
      buckets := buckets[k := bucket];
      flat := flat[w.wid := w];
      index.m := index.m[OfInt64(w.uid) := w.wid];
      size := size + 1;
      return None;
    }

    method Del(wid: Wid)
      requires Valid()
      modifies this, index
      ensures Valid() && Model() == Registry.Del(old(Model()), wid)
      ensures flat == old(flat) - {wid} && size == old(size) - 1
      ensures forall uid: int :: OfInt64(uid) in index.m <==> OfInt64(uid) in old(index.m)
      ensures forall uid: int :: OfInt64(uid) in index.m ==> index.m[OfInt64(uid)] == old(index.m)[OfInt64(uid)]
    {
      index.m := index.m - {OfUint64(wid)};
      var k := bucketOf(wid);
      buckets := buckets[k := buckets[k] - {wid}];
      flat := flat - {wid};
      size := size - 1;
    }

    method GetByUID(uid: int) returns (w: Option<Worker>)
      requires Valid()
      ensures w == Lookup(Model(), uid)
    {
      if OfInt64(uid) !in index.m {
        return None;
      }
      w := this.Worker(index.m[OfInt64(uid)]);
    }

    /** GetByUIDs: ids from the index, regrouped by bucket, then one pass over the buckets. */
    method GetByUIDs(uids: seq<int>) returns (result: map<int, Worker>)
      requires Valid()
      ensures Gathered(Model(), uids, result)
    {
      var wids := CollectIds(uids);
      var groups := GroupByBucket(wids);
      result := LoadGroups(wids, groups);
      GatheredFromIds(Model(), uids, wids, result);
    }

    method CollectIds(uids: seq<int>) returns (wids: seq<Wid>)
      ensures IdsOf(index.m, uids, wids)
    {
      wids := [];
      for i := 0 to |uids|
        invariant forall x :: x in wids ==>
          exists uid :: uid in uids && OfInt64(uid) in index.m && index.m[OfInt64(uid)] == x
        invariant forall j :: 0 <= j < i && OfInt64(uids[j]) in index.m ==> index.m[OfInt64(uids[j])] in wids
      {
        if OfInt64(uids[i]) in index.m {
          wids := wids + [index.m[OfInt64(uids[i])]];
        }
      }
    }

    method GroupByBucket(wids: seq<Wid>) returns (groups: seq<seq<Wid>>)
      requires Valid()
      ensures |groups| == shardCount
      ensures forall k, x :: 0 <= k < |groups| && x in groups[k] ==> bucketOf(x) == k && x in wids
      ensures forall x :: x in wids ==> x in groups[bucketOf(x)]
    {
      groups := seq(shardCount, _ => []);
      for i := 0 to |wids|
        invariant |groups| == shardCount
        invariant forall k, x :: 0 <= k < |groups| && x in groups[k] ==> bucketOf(x) == k && x in wids
        invariant forall j :: 0 <= j < i ==> wids[j] in groups[bucketOf(wids[j])]
      {
        var k := bucketOf(wids[i]);
        groups := groups[k := groups[k] + [wids[i]]];
      }
    }

    method LoadGroups(ghost wids: seq<Wid>, groups: seq<seq<Wid>>) returns (result: map<int, Worker>)
      requires Valid() && |groups| == shardCount
      requires forall k, x :: 0 <= k < |groups| && x in groups[k] ==> bucketOf(x) == k && x in wids
      requires forall x :: x in wids ==> x in groups[bucketOf(x)]
      ensures LoadedFrom(flat, wids, result)
    {
      result := map[];
      for k := 0 to |groups|
        invariant AllLoadedFrom(flat, wids, result)
        invariant forall x :: x in wids && bucketOf(x) < k && x in flat ==> flat[x].uid in result
      {
        assert forall x :: x in groups[k] ==> x in wids && (x in buckets[k] <==> x in flat);
        result := LoadGroup(buckets[k], flat, wids, groups[k], result);
      }
    }

    /** sync.Map.Range visits each entry of a bucket once, in an order the runtime picks. */
    ghost predicate RangeOrders(orders: seq<seq<Wid>>)
      reads this
    {
      && |orders| == |buckets|
      && (forall k, i, j :: 0 <= k < |orders| && 0 <= i < j < |orders[k]| ==> orders[k][i] != orders[k][j])
      && (forall k, x :: 0 <= k < |orders| ==> (x in orders[k] <==> x in buckets[k]))
    }

    /** Only registered workers, none of them twice. */
    ghost predicate DistinctRegistered(ws: seq<Worker>)
      reads this
    {
      DistinctIn(flat, ws)
    }

    /** The entries of every bucket. */
    ghost function Lists(orders: seq<seq<Wid>>): (lists: seq<seq<Worker>>)
      requires RangeOrders(orders)
      reads this
      ensures |lists| == |buckets|
      ensures forall k :: 0 <= k < |lists| ==> lists[k] == Entries(buckets[k], orders[k])
    {
      var bs := buckets;
      seq(|orders|, k requires 0 <= k < |orders| => Entries(bs[k], orders[k]))
    }

    lemma ListIsBucket(orders: seq<seq<Wid>>, k: nat)
      requires Valid() && RangeOrders(orders) && k < |orders|
      ensures DistinctIn(flat, Lists(orders)[k]) && InBucket(bucketOf, Lists(orders)[k], k)
    {
      var order, ws := orders[k], Lists(orders)[k];
      forall i | 0 <= i < |ws|
        ensures ws[i].wid == order[i] && order[i] in flat && flat[order[i]] == ws[i] && bucketOf(order[i]) == k
      {
        var x := order[i];
        assert x in order && x in buckets[k];
        assert bucketOf(x) == k && x in flat;
      }
    }

    lemma ListIsComplete(orders: seq<seq<Wid>>, x: Wid)
      requires Valid() && RangeOrders(orders) && x in flat
      ensures flat[x] in Lists(orders)[bucketOf(x)]
    {
      var k := bucketOf(x);
      var order, ws := orders[k], Lists(orders)[k];
      assert x in order;
      var i :| 0 <= i < |order| && order[i] == x;
      assert ws[i] == flat[x];
    }

    /** A walk lists no registered worker twice, and a complete one misses none. */
    lemma ListingDistinct(orders: seq<seq<Wid>>, k: nat)
      requires Valid() && RangeOrders(orders) && k <= |orders|
      ensures DistinctRegistered(Listing(Lists(orders), k))
    {
      var lists := Lists(orders);
      forall h | 0 <= h < |lists| ensures DistinctIn(flat, lists[h]) && InBucket(bucketOf, lists[h], h) {
        ListIsBucket(orders, h);
      }
      ConcatDistinct(flat, bucketOf, lists, k);
    }

    lemma ListingComplete(orders: seq<seq<Wid>>)
      requires Valid() && RangeOrders(orders)
      ensures forall x :: x in flat ==> flat[x] in Listing(Lists(orders), |orders|)
    {
      forall x | x in flat ensures flat[x] in Listing(Lists(orders), |orders|) {
        ListIsComplete(orders, x);
        ConcatHas(Lists(orders), bucketOf(x), |orders|, flat[x]);
      }
    }

    /** Walk with a callback that may depend on everything it has been shown so far: it sees a prefix
        of the full listing and ends with the first worker for which the callback says stop. */
    method Walk(orders: seq<seq<Wid>>, f: seq<Worker> -> bool) returns (visited: seq<Worker>)
      requires Valid() && RangeOrders(orders)
      ensures DistinctRegistered(visited)
      ensures forall i :: 0 < i < |visited| ==> f(visited[..i])
      ensures (forall x :: x in flat ==> flat[x] in visited) || (visited != [] && !f(visited))
    {
      ghost var lists := Lists(orders);
      visited := [];
      for k := 0 to |buckets|
        invariant visited == Listing(lists, k)
        invariant forall i :: 0 < i <= |visited| ==> f(visited[..i])
      {
        var continued;
        visited, continued := Show(Entries(buckets[k], orders[k]), f, visited);
        if !continued {
          ListingDistinct(orders, k + 1);
          PrefixDistinct(flat, visited, Listing(lists, k + 1));
          return;
        }
      }
      ListingDistinct(orders, |buckets|);
      ListingComplete(orders);
    }
  }

  /** The pass over the ids of one bucket. */
  method LoadGroup(
      bucket: map<Wid, Worker>, ghost flat: map<Wid, Worker>, ghost wids: seq<Wid>, group: seq<Wid>,
      before: map<int, Worker>)
    returns (result: map<int, Worker>)
    requires AllLoadedFrom(flat, wids, before)
    requires forall x :: x in group ==> x in wids && (x in bucket <==> x in flat)
    requires forall x :: x in group && x in bucket ==> flat[x] == bucket[x] && bucket[x].wid == x
    ensures AllLoadedFrom(flat, wids, result) && before.Keys <= result.Keys
    ensures forall x :: x in group && x in flat ==> flat[x].uid in result
  {
    result := before;
    for j := 0 to |group|
      invariant AllLoadedFrom(flat, wids, result) && before.Keys <= result.Keys
      invariant forall i :: 0 <= i < j && group[i] in flat ==> flat[group[i]].uid in result
    {
      var wid := group[j];
      assert wid in group;
      if wid in bucket {
        var w := bucket[wid];
        result := result[w.uid := w];
      }
    }
  }

  lemma PrefixDistinct(flat: map<Wid, Worker>, a: seq<Worker>, b: seq<Worker>)
    requires a <= b && DistinctIn(flat, b)
    ensures DistinctIn(flat, a)
  {
    assert forall i :: 0 <= i < |a| ==> a[i] == b[i];
  }

  ghost predicate DistinctIn(flat: map<Wid, Worker>, ws: seq<Worker>) {
    && (forall i :: 0 <= i < |ws| ==> ws[i].wid in flat && flat[ws[i].wid] == ws[i])
    && (forall i, j :: 0 <= i < j < |ws| ==> ws[i].wid != ws[j].wid)
  }

  ghost predicate InBucket(bucketOf: Wid -> nat, ws: seq<Worker>, k: nat) {
    forall i :: 0 <= i < |ws| ==> bucketOf(ws[i].wid) == k
  }

  ghost predicate Below(bucketOf: Wid -> nat, ws: seq<Worker>, k: nat) {
    forall i :: 0 <= i < |ws| ==> bucketOf(ws[i].wid) < k
  }

  /** The first k lists, one after the other. */
  ghost function Listing(lists: seq<seq<Worker>>, k: nat): seq<Worker>
    requires k <= |lists|
  {
    if k == 0 then [] else Listing(lists, k - 1) + lists[k - 1]
  }

  lemma JoinDistinct(flat: map<Wid, Worker>, bucketOf: Wid -> nat, a: seq<Worker>, b: seq<Worker>, k: nat)
    requires DistinctIn(flat, a) && DistinctIn(flat, b) && Below(bucketOf, a, k) && InBucket(bucketOf, b, k)
    ensures DistinctIn(flat, a + b) && Below(bucketOf, a + b, k + 1)
  {
  }

  lemma {:induction false} ConcatDistinct(flat: map<Wid, Worker>, bucketOf: Wid -> nat, lists: seq<seq<Worker>>, k: nat)
    requires k <= |lists|
    requires forall h :: 0 <= h < |lists| ==> DistinctIn(flat, lists[h]) && InBucket(bucketOf, lists[h], h)
    ensures DistinctIn(flat, Listing(lists, k)) && Below(bucketOf, Listing(lists, k), k)
  {
    if k > 0 {
      ConcatDistinct(flat, bucketOf, lists, k - 1);
      JoinDistinct(flat, bucketOf, Listing(lists, k - 1), lists[k - 1], k - 1);
    }
  }

  lemma {:induction false} ConcatHas(lists: seq<seq<Worker>>, h: nat, k: nat, w: Worker)
    requires h < k <= |lists| && w in lists[h]
    ensures w in Listing(lists, k)
  {
    if h < k - 1 {
      ConcatHas(lists, h, k - 1, w);
    }
  }

  /** The entries of one bucket in the order of its Range. */
  function Entries(bucket: map<Wid, Worker>, order: seq<Wid>): (ws: seq<Worker>)
    requires forall x :: x in order ==> x in bucket
    ensures |ws| == |order| && forall i :: 0 <= i < |ws| ==> order[i] in order && ws[i] == bucket[order[i]]
  {
    seq(|order|, i requires 0 <= i < |order| => assert order[i] in order; bucket[order[i]])
  }

  /** One Range: the callback sees entry after entry until it says stop. */
  method Show(entries: seq<Worker>, f: seq<Worker> -> bool, before: seq<Worker>)
    returns (visited: seq<Worker>, continued: bool)
    requires forall i :: 0 < i <= |before| ==> f(before[..i])
    ensures before <= visited <= before + entries
    ensures forall i :: 0 < i < |visited| ==> f(visited[..i])
    ensures continued ==> visited == before + entries && forall i :: 0 < i <= |visited| ==> f(visited[..i])
    ensures !continued ==> visited != [] && !f(visited)
  {
    visited := before;
    for j := 0 to |entries|
      invariant visited == before + entries[..j]
      invariant forall i :: 0 < i <= |visited| ==> f(visited[..i])
    {
      ghost var shown := visited;
      visited := visited + [entries[j]];
      assert forall i :: 0 < i <= |shown| ==> visited[..i] == shown[..i];
      if !f(visited) {
        return visited, false;
      }
      assert visited[..|visited|] == visited;
    }
    return visited, true;
  }
}
