/** Facts about 64-bit words that hold bit by bit. Nothing else is defined here, so that each is a
    question about words alone. */
module WordFacts {

  lemma HalfIsSmaller(n: bv64)
    requires n != 0
    ensures n >> 1 < n
    ensures n > 1 ==> n >> 1 != 0
  {
  }

  /** A word above 1 has one bit set exactly when it is even and its half has one bit set. */
  lemma OneBitHalved(n: bv64)
    requires n > 1
    ensures n & (n - 1) == 0 <==> (n >> 1) & ((n >> 1) - 1) == 0 && n & 1 == 0
  {
  }

  lemma AndHalved(h: bv64, m: bv64)
    ensures (h & m) >> 1 == (h >> 1) & (m >> 1)
    ensures m & 1 == 1 ==> (h & m) & 1 == h & 1
  {
  }

  lemma PredecessorHalved(n: bv64)
    requires n > 1 && n & 1 == 0
    ensures (n - 1) >> 1 == (n >> 1) - 1
    ensures (n - 1) & 1 == 1
  {
  }

  lemma MaskHalved(h: bv64, n: bv64)
    requires n > 1 && n & 1 == 0
    ensures (h & (n - 1)) >> 1 == (h >> 1) & ((n >> 1) - 1)
  {
    AndHalved(h, n - 1);
    PredecessorHalved(n);
  }

  lemma MaskLowBit(h: bv64, n: bv64)
    requires n > 1 && n & 1 == 0
    ensures (h & (n - 1)) & 1 == h & 1
  {
    AndHalved(h, n - 1);
    PredecessorHalved(n);
  }

  lemma ReassembleOdd(x: bv64)
    requires x & 1 == 1
    ensures ((x >> 1) << 1) | 1 == x
  {
  }

  lemma ReassembleEven(x: bv64)
    requires x & 1 != 1
    ensures (x >> 1) << 1 == x
  {
  }

  lemma AndLowBit(h: bv64, m: bv64)
    ensures (h & m) & 1 == 1 ==> m & 1 == 1
  {
  }

  lemma OddPredecessor(n: bv64)
    requires n & 1 == 1
    ensures (n - 1) >> 1 == n >> 1 && (n - 1) & 1 == 0
  {
  }

  lemma EvenPredecessor(n: bv64)
    requires n != 0 && n & 1 == 0
    ensures n >> 1 != 0 && (n - 1) >> 1 == (n >> 1) - 1 && (n - 1) & 1 == 1
  {
  }

  lemma MaskKeepsSmall(k: bv64, n: bv64)
    requires n & (n - 1) == 0 && k < n
    ensures k & (n - 1) == k
  {
  }

  lemma ShiftBack(n: bv64)
    requires n < 0x8000_0000_0000_0000
    ensures (n << 1) >> 1 == n && (n << 1) & 1 == 0
  {
  }

  lemma DoubleStaysSmall(n: bv64)
    requires n < 0x4000_0000_0000_0000
    ensures n << 1 < 0x8000_0000_0000_0000
  {
  }

  lemma QuadrupleStaysSmall(n: bv64)
    requires n < 0x1000_0000_0000_0000
    ensures (n << 1) << 1 < 0x4000_0000_0000_0000
  {
  }

  // ----- one more mask bit splits a residue class in two -----

  lemma DoubledOneBit(n: bv64)
    requires n != 0 && n & (n - 1) == 0 && n != 0x8000_0000_0000_0000
    ensures (n << 1) & ((n << 1) - 1) == 0 && n < n << 1
    ensures n < 0x8000_0000_0000_0000
  {
  }

  lemma ClassesBelow(n: bv64, k: bv64)
    requires n & (n - 1) == 0 && n != 0x8000_0000_0000_0000 && k < n
    ensures k < n << 1 && k | n < n << 1 && k != k | n
  {
  }

  lemma WiderMask(h: bv64, n: bv64)
    requires n != 0 && n & (n - 1) == 0 && n != 0x8000_0000_0000_0000
    ensures h & ((n << 1) - 1) == (h & (n - 1)) | (h & n)
  {
  }

  lemma OneBit(h: bv64, n: bv64)
    requires n & (n - 1) == 0
    ensures h & n == 0 || h & n == n
  {
  }

  lemma NarrowerMask(h: bv64, n: bv64)
    requires n != 0 && n & (n - 1) == 0 && n != 0x8000_0000_0000_0000
    ensures h & (n - 1) == (h & ((n << 1) - 1)) & (n - 1)
  {
  }

  lemma MaskDropsBit(k: bv64, n: bv64)
    requires n & (n - 1) == 0 && k < n
    ensures (k | n) & (n - 1) == k
  {
  }

  lemma LowHalf(h: bv64, n: bv64, k: bv64)
    requires n != 0 && n & (n - 1) == 0 && n != 0x8000_0000_0000_0000
    requires h & (n - 1) == k && h & n == 0
    ensures h & ((n << 1) - 1) == k
  {
    WiderMask(h, n);
  }

  lemma HighHalf(h: bv64, n: bv64, k: bv64)
    requires n != 0 && n & (n - 1) == 0 && n != 0x8000_0000_0000_0000
    requires h & (n - 1) == k && h & n != 0
    ensures h & ((n << 1) - 1) == k | n
  {
    WiderMask(h, n);
    OneBit(h, n);
  }

  lemma LastClass(h: bv64, k: bv64)
    requires k < 0x8000_0000_0000_0000 && h & 0x7fff_ffff_ffff_ffff == k
    ensures h == k || h == k | 0x8000_0000_0000_0000
  {
  }

  lemma LastClassMembers(k: bv64)
    requires k < 0x8000_0000_0000_0000
    ensures k & 0x7fff_ffff_ffff_ffff == k
    ensures (k | 0x8000_0000_0000_0000) & 0x7fff_ffff_ffff_ffff == k
    ensures k != k | 0x8000_0000_0000_0000
  {
  }

  /** The lowest set bit of n is no submask of n - 1. */
  lemma LowestBitUnused(h: bv64, n: bv64)
    requires n != 0 && n & (n - 1) != 0
    ensures n & (0 - n) < n
    ensures h & (n - 1) != n & (0 - n)
  {
  }

  // ----- connection ids: a counter above four bits of net type -----

  lemma IdHalf4(c: bv64, t: bv64)
    requires c < 0x1000_0000_0000_0000
    ensures ((c << 4) | t) >> 1 == (c << 3) | (t >> 1)
  {
  }

  lemma IdHalf3(c: bv64, t: bv64)
    requires c < 0x1000_0000_0000_0000
    ensures ((c << 3) | t) >> 1 == (c << 2) | (t >> 1)
  {
  }

  lemma IdHalf2(c: bv64, t: bv64)
    requires c < 0x1000_0000_0000_0000
    ensures ((c << 2) | t) >> 1 == (c << 1) | (t >> 1)
  {
  }

  lemma IdHalf1(c: bv64, t: bv64)
    requires c < 0x1000_0000_0000_0000
    ensures ((c << 1) | t) >> 1 == c | (t >> 1)
  {
  }

  lemma FourBits(t: bv64)
    requires t < 16
    ensures (((t >> 1) >> 1) >> 1) >> 1 == 0
  {
  }

  lemma IdLowBits(c: bv64, t: bv64)
    ensures ((c << 4) | t) & 1 == t & 1
    ensures ((c << 3) | t) & 1 == t & 1
    ensures ((c << 2) | t) & 1 == t & 1
    ensures ((c << 1) | t) & 1 == t & 1
  {
  }

  lemma IdWraps(c: bv64, t: bv64)
    ensures ((c + 0x1000_0000_0000_0000) << 4) | t == (c << 4) | t
  {
  }
}
