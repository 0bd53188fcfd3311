/** Spreading ids over shards with any hash: the low bits of the hash select the shard. */
module Spread {
  import opened Bits
  import WordFacts

  function KeyOf(hash: bv64 -> bv64, wid: bv64, shardCount: bv64): bv64 {
    Mask(hash(wid), shardCount)
  }

  ghost predicate Inverse(hash: bv64 -> bv64, unhash: bv64 -> bv64) {
    forall x: bv64 :: unhash(hash(x)) == x && hash(unhash(x)) == x
  }

  // ----- the bucket of an id -----

  lemma KeyValueBelow(hash: bv64 -> bv64, wid: bv64, shardCount: bv64)
    requires shardCount != 0
    ensures Value(KeyOf(hash, wid, shardCount)) < Value(shardCount)
  {
    MaskValueBelow(hash(wid), shardCount);
  }

  lemma KeyIsRemainder(hash: bv64 -> bv64, wid: bv64, shardCount: bv64)
    requires IsPowerOfTwo(shardCount)
    ensures Value(shardCount) > 0 && Value(KeyOf(hash, wid, shardCount)) == Value(hash(wid)) % Value(shardCount)
  {
    MaskIsRemainder(hash(wid), shardCount);
  }

  // ----- how many ids each bucket receives -----

  /** ids is exactly the set of worker ids that land in bucket k. */
  ghost predicate IsBucketOf(hash: bv64 -> bv64, ids: set<bv64>, shardCount: bv64, k: bv64) {
    forall x: bv64 :: x in ids <==> KeyOf(hash, x, shardCount) == k
  }

  function Double(n: bv64): bv64 { n << 1 }

  function With(k: bv64, n: bv64): bv64 { k | n }

  function Top(): bv64 { 0x8000_0000_0000_0000 }

  const WORD: nat := 0x1_0000_0000_0000_0000

  lemma DoubledPower(n: bv64, k: bv64)
    requires IsPowerOfTwo(n) && n != Top() && k < n
    ensures IsPowerOfTwo(Double(n)) && n < Double(n)
    ensures k < Double(n) && With(k, n) < Double(n) && k != With(k, n)
  {
    WordFacts.DoubledOneBit(n);
    WordFacts.ClassesBelow(n, k);
  }

  lemma DoubledValue(n: bv64)
    requires n < Top()
    ensures Value(Double(n)) == 2 * Value(n)
  {
    WordFacts.ShiftBack(n);
    assert Half(Double(n)) == n && LowBit(Double(n)) == 0;
    ValueStep(Double(n));
  }

  lemma WiderKey(h: bv64, n: bv64, k: bv64)
    requires IsPowerOfTwo(n) && n != Top() && Mask(h, n) == k
    ensures Mask(h, Double(n)) == k || Mask(h, Double(n)) == With(k, n)
  {
    if h & n == 0 {
      WordFacts.LowHalf(h, n, k);
    } else {
      WordFacts.HighHalf(h, n, k);
    }
  }

  lemma NestedMask(h: bv64, n: bv64)
    requires IsPowerOfTwo(n) && n != Top()
    ensures Mask(h, n) == Mask(Mask(h, Double(n)), n)
  {
    WordFacts.NarrowerMask(h, n);
  }

  lemma SmallKey(k: bv64, n: bv64)
    requires IsPowerOfTwo(n) && k < n
    ensures Mask(k, n) == k && Mask(With(k, n), n) == k
  {
    WordFacts.MaskKeepsSmall(k, n);
    WordFacts.MaskDropsBit(k, n);
  }

  lemma NarrowerKey(h: bv64, n: bv64, k: bv64)
    requires IsPowerOfTwo(n) && n != Top() && k < n
    ensures Mask(h, Double(n)) == k ==> Mask(h, n) == k
    ensures Mask(h, Double(n)) == With(k, n) ==> Mask(h, n) == k
  {
    NestedMask(h, n);
    SmallKey(k, n);
  }

  /** Two disjoint classes of a finer key make up one class of a coarser key. */
  lemma MergeClasses(
      coarse: bv64 -> bv64, fine: bv64 -> bv64, k: bv64, a: bv64, b: bv64, low: set<bv64>, high: set<bv64>)
    requires forall x: bv64 :: coarse(x) == k ==> fine(x) == a || fine(x) == b
    requires forall x: bv64 :: fine(x) == a ==> coarse(x) == k
    requires forall x: bv64 :: fine(x) == b ==> coarse(x) == k
    requires a != b
    requires forall x: bv64 :: x in low <==> fine(x) == a
    requires forall x: bv64 :: x in high <==> fine(x) == b
    ensures forall x: bv64 :: x in low + high <==> coarse(x) == k
    ensures |low + high| == |low| + |high|
  {
    forall x | x in low ensures x !in high { }
  }

  lemma MergedBucket(hash: bv64 -> bv64, n: bv64, k: bv64, low: set<bv64>, high: set<bv64>)
    requires IsPowerOfTwo(n) && n != Top() && k < n
    requires IsBucketOf(hash, low, Double(n), k) && IsBucketOf(hash, high, Double(n), With(k, n))
    ensures IsBucketOf(hash, low + high, n, k) && |low + high| == |low| + |high|
  {
    var coarse: bv64 -> bv64 := x => KeyOf(hash, x, n);
    var fine: bv64 -> bv64 := x => KeyOf(hash, x, Double(n));
    forall x: bv64 | coarse(x) == k ensures fine(x) == k || fine(x) == With(k, n) { WiderKey(hash(x), n, k); }
    forall x: bv64 | fine(x) == k ensures coarse(x) == k { NarrowerKey(hash(x), n, k); }
    forall x: bv64 | fine(x) == With(k, n) ensures coarse(x) == k { NarrowerKey(hash(x), n, k); }
    DoubledPower(n, k);
    MergeClasses(coarse, fine, k, k, With(k, n), low, high);
  }

  lemma LastKeys(k: bv64)
    requires k < Top()
    ensures Mask(k, Top()) == k && Mask(With(k, Top()), Top()) == k && k != With(k, Top())
  {
    WordFacts.LastClassMembers(k);
  }

  lemma LastKeysOnly(h: bv64, k: bv64)
    requires k < Top() && Mask(h, Top()) == k
    ensures h == k || h == With(k, Top())
  {
    WordFacts.LastClass(h, k);
  }

  /** The preimages of two hash values under a bijection. */
  lemma TwoPreimages(hash: bv64 -> bv64, unhash: bv64 -> bv64, key: bv64 -> bv64, k: bv64, a: bv64, b: bv64)
    returns (ids: set<bv64>)
    requires Inverse(hash, unhash)
    requires a != b && key(a) == k && key(b) == k
    requires forall h: bv64 :: key(h) == k ==> h == a || h == b
    ensures (forall x: bv64 :: x in ids <==> key(hash(x)) == k) && |ids| == 2
  {
    ids := {unhash(a), unhash(b)};
    assert hash(unhash(a)) != hash(unhash(b));
    forall x: bv64 ensures x in ids <==> key(hash(x)) == k {
      assert unhash(hash(x)) == x;
      if hash(x) == a || hash(x) == b { assert x == unhash(a) || x == unhash(b); }
    }
  }

  lemma LastBucket(hash: bv64 -> bv64, unhash: bv64 -> bv64, k: bv64) returns (ids: set<bv64>)
    requires Inverse(hash, unhash) && k < Top()
    ensures IsBucketOf(hash, ids, Top(), k) && |ids| == 2
  {
    var key: bv64 -> bv64 := h => Mask(h, Top());
    LastKeys(k);
    forall h: bv64 | key(h) == k ensures h == k || h == With(k, Top()) { LastKeysOnly(h, k); }
    ids := TwoPreimages(hash, unhash, key, k, k, With(k, Top()));
  }

  /** With a power-of-two shard count every bucket receives exactly 2^64 / shardCount ids. */
  lemma {:induction false} EvenBuckets(hash: bv64 -> bv64, unhash: bv64 -> bv64, shardCount: bv64, k: bv64)
    returns (ids: set<bv64>)
    requires Inverse(hash, unhash) && IsPowerOfTwo(shardCount) && k < shardCount
    ensures IsBucketOf(hash, ids, shardCount, k) && |ids| * Value(shardCount) == WORD
    decreases Top() - shardCount
  {
    if shardCount == Top() {
      TopValue();
      ids := LastBucket(hash, unhash, k);
    } else {
      var n := Double(shardCount);
      DoubledPower(shardCount, k);
      BelowTop(shardCount);
      var low := EvenBuckets(hash, unhash, n, k);
      var high := EvenBuckets(hash, unhash, n, With(k, shardCount));
      ids := low + high;
      MergedCount(|low|, |high|, shardCount);
      MergedBucket(hash, shardCount, k, low, high);
    }
  }

  lemma BelowTop(n: bv64)
    requires IsPowerOfTwo(n) && n != Top()
    ensures n < Double(n) <= Top() && Top() - Double(n) < Top() - n
  {
    WordFacts.DoubledOneBit(n);
  }

  lemma MergedCount(a: nat, b: nat, n: bv64)
    requires n < Top() && a * Value(Double(n)) == WORD && b * Value(Double(n)) == WORD
    ensures (a + b) * Value(n) == WORD
  {
    DoubledValue(n);
    EvenSplit(a, b, Value(n), Value(Double(n)));
  }

  lemma EvenSplit(a: nat, b: nat, v: nat, twice: nat)
    requires twice == 2 * v && a * twice == WORD && b * twice == WORD
    ensures (a + b) * v == WORD
  {
    assert a * twice == 2 * (a * v) && b * twice == 2 * (b * v);
    assert (a + b) * v == a * v + b * v;
  }

  function Quadruple(n: bv64): bv64 { Double(Double(n)) }

  lemma Times4(n: bv64)
    requires n < 0x4000_0000_0000_0000
    ensures Value(Quadruple(n)) == 4 * Value(n)
  {
    WordFacts.DoubleStaysSmall(n);
    DoubledValue(n);
    DoubledValue(Double(n));
  }

  lemma Times16(n: bv64)
    requires n < 0x1000_0000_0000_0000
    ensures Value(Quadruple(Quadruple(n))) == 16 * Value(n)
  {
    WordFacts.QuadrupleStaysSmall(n);
    Times4(n);
    Times4(Quadruple(n));
  }

  lemma TopValue()
    ensures 2 * Value(Top()) == WORD
  {
    ValueOfOne();
    DoubledValue(1);
    DoubledValue(2);
    DoubledValue(4);
    assert Value(8) == 8;
    Times16(0x8); Times16(0x80); Times16(0x800); Times16(0x8000);
    Times16(0x8_0000); Times16(0x80_0000); Times16(0x800_0000); Times16(0x8000_0000);
    Times16(0x8_0000_0000); Times16(0x80_0000_0000); Times16(0x800_0000_0000); Times16(0x8000_0000_0000);
    Times16(0x8_0000_0000_0000); Times16(0x80_0000_0000_0000); Times16(0x800_0000_0000_0000);
  }

  /** Any other shard count leaves a bucket that no id ever reaches. */
  lemma StarvedBucket(hash: bv64 -> bv64, shardCount: bv64) returns (k: bv64)
    requires shardCount != 0 && !IsPowerOfTwo(shardCount)
    ensures k < shardCount && IsBucketOf(hash, {}, shardCount, k)
  {
    k := LowestBit(shardCount);
    LowestBitUnused(0, shardCount);
    forall x: bv64 ensures KeyOf(hash, x, shardCount) != k {
      LowestBitUnused(hash(x), shardCount);
    }
  }

  function LowestBit(n: bv64): bv64 { n & (0 - n) }

  lemma LowestBitUnused(h: bv64, n: bv64)
    requires n != 0 && !IsPowerOfTwo(n)
    ensures LowestBit(n) < n && Mask(h, n) != LowestBit(n)
  {
    WordFacts.LowestBitUnused(h, n);
  }

  ghost predicate Used(hash: bv64 -> bv64, shardCount: bv64, k: bv64) {
    exists x: bv64 :: KeyOf(hash, x, shardCount) == k
  }

  /** All buckets are used exactly when the shard count is a power of two. */
  lemma AllUsedIffPowerOfTwo(hash: bv64 -> bv64, unhash: bv64 -> bv64, shardCount: bv64)
    requires Inverse(hash, unhash) && shardCount != 0
    ensures IsPowerOfTwo(shardCount) <==> forall k: bv64 :: k < shardCount ==> Used(hash, shardCount, k)
  {
    if IsPowerOfTwo(shardCount) {
      forall k: bv64 | k < shardCount ensures Used(hash, shardCount, k) {
        SmallKey(k, shardCount);
        assert KeyOf(hash, unhash(k), shardCount) == k;
      }
    } else {
      var k := StarvedBucket(hash, shardCount);
      assert !Used(hash, shardCount, k);
    }
  }
}
