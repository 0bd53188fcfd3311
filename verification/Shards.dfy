/** How the worker manager spreads worker ids over its shards. */
module Shards {
  import opened Bits
  import opened Spread

  function Fold(x: bv64): bv64 { x ^ (x >> 33) }
  function Mul1(x: bv64): bv64 { x * 0xff51afd7ed558ccd }
  function Mul2(x: bv64): bv64 { x * 0xc4ceb9fe1a85ec53 }

  function Wyhash(key: bv64): bv64 {
    Fold(Mul2(Fold(Mul1(Fold(key)))))
  }

  function BucketKey(wid: bv64, shardCount: bv64): bv64 {
    KeyOf(Wyhash, wid, shardCount)
  }

  // ----- the hash is a bijection -----

  /** Multiplication by the inverses of the two odd constants modulo 2^64. */
  function Div1(x: bv64): bv64 { x * 0x4f74430c22a54005 }
  function Div2(x: bv64): bv64 { x * 0x9cb4b2f8129337db }

  function Unhash(h: bv64): bv64 {
    Fold(Div1(Fold(Div2(Fold(h)))))
  }

  lemma FoldTwice(x: bv64)
    ensures Fold(Fold(x)) == x
  {
    assert Fold(x ^ (x >> 33)) == x;
    assert Fold(x) == x ^ (x >> 33);
  }

  lemma Multiplied1(x: bv64)
    ensures Div1(Mul1(x)) == x
  {
    assert Div1(x * 0xff51afd7ed558ccd) == x;
    assert Mul1(x) == x * 0xff51afd7ed558ccd;
  }

  lemma Divided1(x: bv64)
    ensures Mul1(Div1(x)) == x
  {
    assert Mul1(x * 0x4f74430c22a54005) == x;
    assert Div1(x) == x * 0x4f74430c22a54005;
  }

  lemma Multiplied2(x: bv64)
    ensures Div2(Mul2(x)) == x
  {
    assert Div2(x * 0xc4ceb9fe1a85ec53) == x;
    assert Mul2(x) == x * 0xc4ceb9fe1a85ec53;
  }

  lemma Divided2(x: bv64)
    ensures Mul2(Div2(x)) == x
  {
    assert Mul2(x * 0x9cb4b2f8129337db) == x;
    assert Div2(x) == x * 0x9cb4b2f8129337db;
  }

  lemma HashIsBijective(x: bv64)
    ensures Unhash(Wyhash(x)) == x
    ensures Wyhash(Unhash(x)) == x
  {
    FoldTwice(x);
    var a := Fold(Mul1(Fold(x)));
    Multiplied1(Fold(x));
    FoldTwice(Mul1(Fold(x)));
    Multiplied2(a);
    FoldTwice(Mul2(a));
    var b := Fold(Div2(Fold(x)));
    Divided2(Fold(x));
    FoldTwice(Div2(Fold(x)));
    Divided1(b);
    FoldTwice(Div1(b));
  }

  /** Hashes of some ids: consecutive connections of one net type, and the largest word. */
  lemma HashValues()
    ensures Wyhash(0x10) == 0x5f694972d3c68944 && Wyhash(0x20) == 0xcc15890f1eee9f7d
    ensures Wyhash(1) == 0xb456bcfc34c2cb2c && Wyhash(0xffff_ffff_ffff_ffff) == 0x64b5720b4b825f21
  {
  }

  /** The index is in range whatever the shard count, and is the hash modulo a power of two. */
  lemma BucketInRange(wid: bv64, shardCount: bv64)
    requires shardCount != 0
    ensures Value(BucketKey(wid, shardCount)) < Value(shardCount)
    ensures IsPowerOfTwo(shardCount) ==>
      Value(shardCount) > 0 && Value(BucketKey(wid, shardCount)) == Value(Wyhash(wid)) % Value(shardCount)
  {
    KeyValueBelow(Wyhash, wid, shardCount);
    if IsPowerOfTwo(shardCount) { KeyIsRemainder(Wyhash, wid, shardCount); }
  }

  lemma HashInverse()
    ensures Inverse(Wyhash, Unhash)
  {
    forall x: bv64 ensures Unhash(Wyhash(x)) == x && Wyhash(Unhash(x)) == x { HashIsBijective(x); }
  }

  /** ids is exactly the set of worker ids that land in bucket k. */
  ghost predicate IsBucket(ids: set<bv64>, shardCount: bv64, k: bv64) {
    IsBucketOf(Wyhash, ids, shardCount, k)
  }

  /** With a power-of-two shard count every bucket receives exactly 2^64 / shardCount ids. */
  lemma BucketsAreEven(shardCount: bv64, k: bv64) returns (ids: set<bv64>)
    requires IsPowerOfTwo(shardCount) && k < shardCount
    ensures IsBucket(ids, shardCount, k) && |ids| * Value(shardCount) == WORD
  {
    HashInverse();
    ids := EvenBuckets(Wyhash, Unhash, shardCount, k);
  }

  /** All buckets are used exactly when the shard count is a power of two. */
  lemma AllBucketsUsedIffPowerOfTwo(shardCount: bv64)
    requires shardCount != 0
    ensures IsPowerOfTwo(shardCount) <==> forall k: bv64 :: k < shardCount ==> Used(Wyhash, shardCount, k)
  {
    HashInverse();
    AllUsedIffPowerOfTwo(Wyhash, Unhash, shardCount);
  }
}
