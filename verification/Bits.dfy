/** 64-bit words: their unsigned value, powers of two and low-bit masks. */
module Bits {
  import WordFacts

  function Half(x: bv64): bv64 { x >> 1 }

  function LowBit(x: bv64): nat { if x & 1 == 1 then 1 else 0 }

  /** The low bits of h selected by n - 1: the ring index for a capacity n, the bucket for n shards. */
  function Mask(h: bv64, n: bv64): bv64 { h & (n - 1) }

  /** The number a 64-bit word stands for. */
  function Value(x: bv64): nat
    decreases x
  {
    if x == 0 then 0 else WordFacts.HalfIsSmaller(x); 2 * Value(Half(x)) + LowBit(x)
  }

  function Append(x: bv64, bit: nat): bv64 { if bit == 1 then (x << 1) | 1 else x << 1 }

  /** The word that stands for v, its bits beyond the 64th dropped. */
  function Word(v: nat): bv64 {
    if v == 0 then 0 else Append(Word(v / 2), v % 2)
  }

  /** n is 1, 2, 4, 8, ... */
  predicate PowerOfTwo(n: nat) {
    n == 1 || (n > 1 && n % 2 == 0 && PowerOfTwo(n / 2))
  }

  /** The bit trick that NewRingBufferPool uses to reject a capacity. */
  predicate IsPowerOfTwo(n: bv64) {
    n != 0 && Mask(n, n) == 0
  }

  lemma ValueStep(x: bv64)
    ensures Value(x) == 2 * Value(Half(x)) + LowBit(x)
  {
    if x == 0 {
      assert Half(0) == 0;
    }
  }

  lemma HalfPositive(n: bv64)
    requires n > 1
    ensures Half(n) < n && Half(n) != 0
  {
    WordFacts.HalfIsSmaller(n);
  }

  lemma ValueOfOne()
    ensures Value(1) == 1
  {
    assert Half(1) == 0 && LowBit(1) == 1;
  }

  lemma {:induction false} ValuePositive(n: bv64)
    requires n != 0
    ensures Value(n) > 0
    decreases n
  {
    if n == 1 {
      ValueOfOne();
    } else {
      HalfPositive(n);
      ValuePositive(Half(n));
    }
  }

  // ----- remainders -----

  lemma {:induction false} Multiple(a: int, b: int, d: nat)
    requires a > b
    ensures a * d >= b * d + d
    decreases a - b
  {
    assert a * d == (a - 1) * d + d;
    if a - 1 > b {
      Multiple(a - 1, b, d);
    }
  }

  lemma RemainderIsUnique(x: nat, d: nat, q: nat, r: nat)
    requires d > 0 && r < d && x == q * d + r
    ensures x % d == r
  {
    var q', r' := x / d, x % d;
    assert q' * d + r' == q * d + r;
    if q > q' {
      Multiple(q, q', d);
    } else if q < q' {
      Multiple(q', q, d);
    }
  }

  lemma DoubledRemainder(a: nat, m: nat, b: nat)
    requires m > 0 && b < 2
    ensures (2 * a + b) % (2 * m) == 2 * (a % m) + b
  {
    var q, r := a / m, 2 * (a % m) + b;
    assert 2 * a + b == q * (2 * m) + r;
    RemainderIsUnique(2 * a + b, 2 * m, q, r);
  }

  // ----- masks -----

  lemma HalfOfMask(h: bv64, n: bv64)
    requires n > 1 && LowBit(n) == 0
    ensures Half(Mask(h, n)) == Mask(Half(h), Half(n))
  {
    LowBitZero(n);
    WordFacts.MaskHalved(h, n);
  }

  lemma LowBitOfMask(h: bv64, n: bv64)
    requires n > 1 && LowBit(n) == 0
    ensures LowBit(Mask(h, n)) == LowBit(h)
  {
    LowBitZero(n);
    WordFacts.MaskLowBit(h, n);
  }

  lemma LowBitZero(n: bv64)
    ensures LowBit(n) == 0 <==> n & 1 == 0
  {
    assert n & 1 == 0 || n & 1 == 1;
  }

  lemma HalvedPower(n: bv64)
    requires n > 1
    ensures IsPowerOfTwo(n) <==> IsPowerOfTwo(Half(n)) && LowBit(n) == 0
  {
    WordFacts.HalfIsSmaller(n);
    WordFacts.OneBitHalved(n);
    LowBitZero(n);
  }

  lemma MaskOfOne(h: bv64)
    ensures Mask(h, 1) == 0
  {
  }

  lemma MaskedValue(h: bv64, n: bv64)
    requires n > 1 && LowBit(n) == 0
    ensures Value(Mask(h, n)) == 2 * Value(Mask(Half(h), Half(n))) + LowBit(h)
  {
    ValueStep(Mask(h, n));
    HalfOfMask(h, n);
    LowBitOfMask(h, n);
  }

  /** Masking with a power of two minus one is the remainder: the ring index `head & mask`
      and, for such a shard count, the bucket index are positions modulo the count. */
  lemma {:induction false} MaskIsRemainder(h: bv64, n: bv64)
    requires IsPowerOfTwo(n)
    ensures Value(n) > 0 && Value(Mask(h, n)) == Value(h) % Value(n)
    decreases n
  {
    ValuePositive(n);
    if n == 1 {
      ValueOfOne();
      MaskOfOne(h);
    } else {
      HalfPositive(n);
      HalvedPower(n);
      MaskIsRemainder(Half(h), Half(n));
      ValueStep(h);
      ValueStep(n);
      MaskedValue(h, n);
      DoubledRemainder(Value(Half(h)), Value(Half(n)), LowBit(h));
    }
  }

  lemma PowerOfTwoStep(v: nat, b: nat)
    requires v > 0 && b < 2
    ensures PowerOfTwo(2 * v + b) <==> PowerOfTwo(v) && b == 0
  {
    var n := 2 * v + b;
    assert n / 2 == v && n % 2 == b;
  }

  /** The bit trick accepts exactly the powers of two. */
  lemma {:induction false} BitTrickIsExact(n: bv64)
    ensures IsPowerOfTwo(n) <==> PowerOfTwo(Value(n))
    decreases n
  {
    if n == 0 {
    } else if n == 1 {
      ValueOfOne();
      MaskOfOne(1);
    } else {
      HalfPositive(n);
      HalvedPower(n);
      BitTrickIsExact(Half(n));
      ValueStep(n);
      ValuePositive(Half(n));
      PowerOfTwoStep(Value(Half(n)), LowBit(n));
    }
  }

  // ----- words and numbers -----

  lemma AppendHalf(x: bv64)
    ensures Append(Half(x), LowBit(x)) == x
  {
    if x & 1 == 1 {
      WordFacts.ReassembleOdd(x);
      assert LowBit(x) == 1;
    } else {
      WordFacts.ReassembleEven(x);
      assert LowBit(x) == 0;
    }
  }

  lemma {:induction false} WordOfValue(x: bv64)
    ensures Word(Value(x)) == x
    decreases x
  {
    if x != 0 {
      WordFacts.HalfIsSmaller(x);
      WordOfValue(Half(x));
      ValueStep(x);
      ValuePositive(x);
      AppendHalf(x);
      assert Value(x) / 2 == Value(Half(x)) && Value(x) % 2 == LowBit(x);
    }
  }

  function And(h: bv64, m: bv64): bv64 { h & m }

  lemma AndStep(h: bv64, m: bv64)
    ensures Half(And(h, m)) == And(Half(h), Half(m))
    ensures LowBit(And(h, m)) <= LowBit(m)
  {
    WordFacts.AndHalved(h, m);
    WordFacts.AndLowBit(h, m);
  }

  lemma AndOfZero(h: bv64)
    ensures And(h, 0) == 0
  {
  }

  /** Masking does not increase the number. */
  lemma {:induction false} AndAtMost(h: bv64, m: bv64)
    ensures Value(And(h, m)) <= Value(m)
    decreases m
  {
    if m == 0 {
      AndOfZero(h);
    } else {
      WordFacts.HalfIsSmaller(m);
      AndAtMost(Half(h), Half(m));
      AndStep(h, m);
      ValueStep(And(h, m));
      ValueStep(m);
    }
  }

  function Pred(n: bv64): bv64 { n - 1 }

  lemma PredOdd(n: bv64)
    requires LowBit(n) == 1
    ensures Half(Pred(n)) == Half(n) && LowBit(Pred(n)) == 0
  {
    WordFacts.OddPredecessor(n);
  }

  lemma PredEven(n: bv64)
    requires n != 0 && LowBit(n) == 0
    ensures Half(n) != 0 && Half(Pred(n)) == Pred(Half(n)) && LowBit(Pred(n)) == 1
  {
    LowBitZero(n);
    WordFacts.EvenPredecessor(n);
  }

  lemma {:induction false} PredValue(n: bv64)
    requires n != 0
    ensures Value(Pred(n)) == Value(n) - 1
    decreases n
  {
    ValueStep(n);
    ValueStep(Pred(n));
    if LowBit(n) == 1 {
      PredOdd(n);
    } else {
      PredEven(n);
      WordFacts.HalfIsSmaller(n);
      PredValue(Half(n));
    }
  }

  /** Masking with n - 1 gives a number below n, power of two or not. */
  lemma MaskValueBelow(h: bv64, n: bv64)
    requires n != 0
    ensures Value(Mask(h, n)) < Value(n)
  {
    AndAtMost(h, Pred(n));
    PredValue(n);
    assert Mask(h, n) == And(h, Pred(n));
  }
}
