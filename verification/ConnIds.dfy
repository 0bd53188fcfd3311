/** Connection ids: the counter shifted past four bits of net type. */
module ConnIds {
  import opened Bits
  import WordFacts

  function Next(counter: bv64, netType: bv64): bv64 {
    (counter << 4) | netType
  }

  function Id(counter: nat, netType: nat): nat {
    16 * counter + netType
  }

  function Join3(c: bv64, t: bv64): bv64 { (c << 3) | t }
  function Join2(c: bv64, t: bv64): bv64 { (c << 2) | t }
  function Join1(c: bv64, t: bv64): bv64 { (c << 1) | t }

  lemma HalfOfNext(c: bv64, t: bv64)
    requires c < 0x1000_0000_0000_0000
    ensures Half(Next(c, t)) == Join3(c, Half(t))
  {
    WordFacts.IdHalf4(c, t);
  }

  lemma HalfOfJoin3(c: bv64, t: bv64)
    requires c < 0x1000_0000_0000_0000
    ensures Half(Join3(c, t)) == Join2(c, Half(t))
  {
    WordFacts.IdHalf3(c, t);
  }

  lemma HalfOfJoin2(c: bv64, t: bv64)
    requires c < 0x1000_0000_0000_0000
    ensures Half(Join2(c, t)) == Join1(c, Half(t))
  {
    WordFacts.IdHalf2(c, t);
  }

  lemma HalfOfJoin1(c: bv64, t: bv64)
    requires c < 0x1000_0000_0000_0000 && Half(t) == 0
    ensures Half(Join1(c, t)) == c
  {
    WordFacts.IdHalf1(c, t);
  }

  lemma FourBits(t: bv64)
    requires t < 16
    ensures Half(Half(Half(Half(t)))) == 0
  {
    WordFacts.FourBits(t);
  }

  lemma LowBits(c: bv64, t: bv64)
    ensures LowBit(Next(c, t)) == LowBit(t) && LowBit(Join3(c, t)) == LowBit(t)
    ensures LowBit(Join2(c, t)) == LowBit(t) && LowBit(Join1(c, t)) == LowBit(t)
  {
    WordFacts.IdLowBits(c, t);
  }

  /** Below 2^60 ids the word computed by ConnIDGenerator.Next is 16 * counter + netType. */
  lemma NextIsId(c: bv64, t: bv64)
    requires c < 0x1000_0000_0000_0000 && t < 16
    ensures Value(Next(c, t)) == Id(Value(c), Value(t))
  {
    var t1 := Half(t);
    var t2 := Half(t1);
    var t3 := Half(t2);
    FourBits(t);
    HalfOfNext(c, t);
    HalfOfJoin3(c, t1);
    HalfOfJoin2(c, t2);
    HalfOfJoin1(c, t3);
    LowBits(c, t);
    LowBits(c, t1);
    LowBits(c, t2);
    LowBits(c, t3);
    ValueStep(Next(c, t));
    ValueStep(Join3(c, t1));
    ValueStep(Join2(c, t2));
    ValueStep(Join1(c, t3));
    ValueStep(t);
    ValueStep(t1);
    ValueStep(t2);
    ValueStep(t3);
  }

  /** Ids are never reused and never collide across net types. */
  lemma IdsAreDistinct(a: nat, t: nat, b: nat, u: nat)
    requires t < 16 && u < 16 && Id(a, t) == Id(b, u)
    ensures a == b && t == u
  {
  }

  /** The bound matters: after 2^60 more connections the same id comes round again. */
  lemma IdsRepeatAfterTheBound(c: bv64, t: bv64)
    ensures Next(c + 0x1000_0000_0000_0000, t) == Next(c, t)
  {
    WordFacts.IdWraps(c, t);
  }
}
