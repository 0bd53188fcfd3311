/** The adaptive tuner of the KCP transport: configurations derived from round-trip samples, packet loss and
    throughput. Packet loss is a real number; durations are 64-bit and wrap around. */
module Tuner {
  const TWO63: int := 0x8000_0000_0000_0000
  const MAX_SAMPLES: nat := 100
  const MILLISECOND: int := 1_000_000
  const TUNING_INTERVAL: int := 30_000 * MILLISECOND

  datatype Config = Config(
    mtu: int,
    dataShards: int,
    parityShards: int,
    sendWindow: int,
    receiveWindow: int,
    noDelay: seq<int>,
    smuxStreamSize: int,
    keepAliveInterval: int,
    keepAliveTimeout: int)

  /** The configurations Validate accepts. */
  predicate ValidConfig(c: Config) {
    && 576 <= c.mtu <= 1500
    && 0 <= c.dataShards <= 255
    && 0 <= c.parityShards <= 255
    && c.sendWindow > 0 && c.receiveWindow > 0
    && c.smuxStreamSize > 0
    && c.keepAliveInterval > 0
    && c.keepAliveTimeout > c.keepAliveInterval
  }

  /** What tuning may not do: turn a valid configuration into an invalid one, move the parity by more than
      one shard, or touch a field it does not tune. */
  ghost predicate Derived(c: Config, base: Config) {
    && (ValidConfig(base) ==> ValidConfig(c))
    && base.parityShards - 1 <= c.parityShards <= base.parityShards + 1
    && c == base.(mtu := c.mtu, parityShards := c.parityShards, noDelay := c.noDelay,
                  sendWindow := c.sendWindow, receiveWindow := c.receiveWindow)
  }

  lemma DerivedFromItself(c: Config)
    ensures Derived(c, c)
  {
  }

  // ----- 64-bit durations -----

  predicate Int64(n: int) {
    -TWO63 <= n < TWO63
  }

  function Wrap(n: int): int {
    (n + TWO63) % (2 * TWO63) - TWO63
  }

  lemma WrapAdd(m: int, n: int)
    ensures Wrap(Wrap(m) + n) == Wrap(m + n)
  {
  }

  /** Division that truncates toward zero. */
  function Quotient(m: int, n: int): int
    requires n > 0
  {
    if m >= 0 then m / n else -((-m) / n)
  }

  function Sum(samples: seq<int>): int {
    if samples == [] then 0 else Sum(samples[..|samples| - 1]) + samples[|samples| - 1]
  }

  lemma {:induction false} SumBounds(samples: seq<int>, lo: int, hi: int)
    requires forall i :: 0 <= i < |samples| ==> lo <= samples[i] <= hi
    ensures |samples| * lo <= Sum(samples) <= |samples| * hi
  {
    if samples != [] {
      SumBounds(samples[..|samples| - 1], lo, hi);
      MulStep(|samples|, lo);
      MulStep(|samples|, hi);
    }
  }

  lemma MulStep(n: nat, m: int)
    ensures n * m == (n - 1) * m + m
  {
  }

  lemma MulCancel(n: int, a: int, b: int)
    requires n > 0 && n * a < n * b
    ensures a < b
  {
    assert n * b - n * a == n * (b - a);
  }

  lemma DivBetween(m: int, n: int, lo: int, hi: int)
    requires m >= 0 && n > 0 && n * lo <= m <= n * hi
    ensures lo <= m / n <= hi
  {
    var q := m / n;
    assert n * q <= m < n * q + n;
    assert n * (q + 1) == n * q + n && n * (hi + 1) == n * hi + n;
    MulCancel(n, lo, q + 1);
    MulCancel(n, q, hi + 1);
  }

  lemma QuotientBetween(m: int, n: int, lo: int, hi: int)
    requires n > 0 && n * lo <= m <= n * hi
    ensures lo <= Quotient(m, n) <= hi
  {
    if m >= 0 {
      DivBetween(m, n, lo, hi);
    } else {
      DivBetween(-m, n, -hi, -lo);
    }
  }

  /** totalRTT divided by the number of samples. */
  function Average(samples: seq<int>): int
    requires samples != []
  {
    Quotient(Wrap(Sum(samples)), |samples|)
  }

  /** It is the mean rounded toward zero ... */
  lemma AverageRoundsTowardZero(samples: seq<int>)
    requires samples != [] && Int64(Sum(samples))
    ensures var n, a, s := |samples|, Average(samples), Sum(samples);
      if s >= 0 then n * a <= s < n * a + n else n * a - n < s <= n * a
  {
    WrapFits(Sum(samples));
    var n, s := |samples|, Sum(samples);
    if s < 0 {
      var q := (-s) / n;
      assert n * q <= -s < n * q + n;
      assert n * (-q) == -(n * q);
    }
  }

  /** The average of samples whose sum fits lies between their minimum and maximum ... */
  lemma AverageBetween(samples: seq<int>, lo: int, hi: int)
    requires samples != [] && Int64(Sum(samples))
    requires forall i :: 0 <= i < |samples| ==> lo <= samples[i] <= hi
    ensures lo <= Average(samples) <= hi
  {
    SumBounds(samples, lo, hi);
    WrapFits(Sum(samples));
    QuotientBetween(Sum(samples), |samples|, lo, hi);
  }

  lemma WrapFits(n: int)
    requires Int64(n)
    ensures Wrap(n) == n
  {
  }

  /** ... and need not when the sum overflows. */
  lemma OverflowedAverage()
    ensures var samples := [TWO63 / 2, TWO63 / 2];
      !Int64(Sum(samples)) && Average(samples) == -(TWO63 / 2)
  {
    var samples := [TWO63 / 2, TWO63 / 2];
    assert samples[..1] == [TWO63 / 2];
    assert [TWO63 / 2][..0] == [];
    assert Sum([TWO63 / 2]) == Sum([]) + TWO63 / 2;
  }

  // ----- the tuner -----

  function Last(history: seq<int>): (r: seq<int>)
    ensures |r| == if |history| < MAX_SAMPLES then |history| else MAX_SAMPLES
    ensures r == history[|history| - |r|..]
  {
    if |history| <= MAX_SAMPLES then history else history[|history| - MAX_SAMPLES..]
  }

  function MinInt(a: int, b: int): int {
    if a < b then a else b
  }

  function MaxInt(a: int, b: int): int {
    if a > b then a else b
  }

  /** The steps of TuneConfig, each on the configuration the previous one left. */
  function ForLatency(c: Config, average: int): Config {
    if average > 100 * MILLISECOND then
      c.(noDelay := [0, 20, 2, 0], sendWindow := 512, receiveWindow := 512)
    else if average < 20 * MILLISECOND then
      c.(noDelay := [1, 5, 2, 1], sendWindow := 128, receiveWindow := 128)
    else
      c
  }

  function ForLoss(c: Config, loss: real): Config {
    if loss > 0.05 then
      if c.dataShards > 0 && c.parityShards < 5 then c.(parityShards := MinInt(c.parityShards + 1, 5)) else c
    else if loss < 0.01 && c.parityShards > 1 then
      c.(parityShards := MaxInt(c.parityShards - 1, 1))
    else
      c
  }

  function ForThroughput(c: Config, throughput: nat): Config {
    if throughput > 10 * 1024 * 1024 then c.(mtu := 1400, sendWindow := 512, receiveWindow := 512) else c
  }

  /** What the conditions call for, field by field from the base configuration, in nanoseconds and bytes: the steps
      are independent but for the windows, where throughput has the last word. */
  ghost predicate CalledFor(c: Config, base: Config, samples: seq<int>, loss: real, throughput: nat) {
    var slow := samples != [] && Average(samples) > 100_000_000;
    var quick := samples != [] && Average(samples) < 20_000_000;
    var busy := throughput > 10_485_760;
    && c.noDelay == (if slow then [0, 20, 2, 0] else if quick then [1, 5, 2, 1] else base.noDelay)
    && c.sendWindow == (if busy || slow then 512 else if quick then 128 else base.sendWindow)
    && c.receiveWindow == (if busy || slow then 512 else if quick then 128 else base.receiveWindow)
    && c.mtu == (if busy then 1400 else base.mtu)
    && (c.parityShards == base.parityShards + 1 <==> loss > 0.05 && base.dataShards > 0 && base.parityShards < 5)
    && (c.parityShards == base.parityShards - 1 <==> loss < 0.01 && base.parityShards > 1)
    && base.parityShards - 1 <= c.parityShards <= base.parityShards + 1
  }

  function Tuned(base: Config, samples: seq<int>, loss: real, throughput: nat): (c: Config)
    ensures Derived(c, base)
    ensures c.parityShards > base.parityShards ==> loss > 0.05 && base.dataShards > 0 && c.parityShards <= 5
    ensures c.parityShards < base.parityShards ==> loss < 0.01 && c.parityShards >= 1
    ensures CalledFor(c, base, samples, loss, throughput)
  {
    var c0 := if samples == [] then base else ForLatency(base, Average(samples));
    ForThroughput(ForLoss(c0, loss), throughput)
  }

  class AdaptiveConfigTuner {
    const baseConfig: Config
    var currentConfig: Config
    var lastTuned: int
    var rttSamples: seq<int>
    var packetLoss: real
    var throughput: nat
    ghost var history: seq<int> // every sample since the last Reset

    ghost predicate Valid()
      reads this
    {
      && Derived(currentConfig, baseConfig)
      && rttSamples == Last(history)
    }

    constructor (baseConfig: Config, now: int)
      ensures Valid() && currentConfig == this.baseConfig == baseConfig && history == [] && lastTuned == now
      ensures packetLoss == 0.0 && throughput == 0
    {
      this.baseConfig, currentConfig, lastTuned := baseConfig, baseConfig, now;
      rttSamples, packetLoss, throughput, history := [], 0.0, 0, [];
      new;
      DerivedFromItself(baseConfig);
    }

    method AddRTTSample(rtt: int)
      requires Valid()
      modifies `rttSamples, `history
      ensures Valid() && history == old(history) + [rtt]
    {
      history := history + [rtt];
      rttSamples := rttSamples + [rtt];
      if |rttSamples| > MAX_SAMPLES {
        rttSamples := rttSamples[1..];
      }
    }

    method UpdatePacketLoss(loss: real)
      requires Valid()
      modifies `packetLoss
      ensures Valid() && packetLoss == loss
    {
      packetLoss := loss;
    }

    method UpdateThroughput(throughput: nat)
      requires Valid()
      modifies `throughput
      ensures Valid() && this.throughput == throughput
    {
      this.throughput := throughput;
    }

    /** The summing loop: partial sums wrap around, and wrapping at the end is the same. */
    method AverageRTT() returns (average: int)
      requires rttSamples != []
      ensures average == Average(rttSamples)
    {
      var total := 0;
      for i := 0 to |rttSamples|
        invariant total == Wrap(Sum(rttSamples[..i]))
      {
        assert rttSamples[..i + 1][..i] == rttSamples[..i];
        WrapAdd(Sum(rttSamples[..i]), rttSamples[i]);
        total := Wrap(total + rttSamples[i]);
      }
      assert rttSamples[..|rttSamples|] == rttSamples;
      average := Quotient(total, |rttSamples|);
    }

    /** The configuration for the conditions seen so far, always starting from the base configuration. */
    method Retune() returns (c: Config)
      ensures c == Tuned(baseConfig, rttSamples, packetLoss, throughput)
    {
      c := baseConfig;
      if |rttSamples| > 0 {
        var average := AverageRTT();
        c := ForLatency(c, average);
      }
      c := ForThroughput(ForLoss(c, packetLoss), throughput);
    }

    method TuneConfig(now: int) returns (c: Config)
      requires Valid()
      modifies `currentConfig, `lastTuned
      ensures Valid() && c == currentConfig
      ensures now - old(lastTuned) < TUNING_INTERVAL ==> c == old(currentConfig) && lastTuned == old(lastTuned)
      ensures now - old(lastTuned) >= TUNING_INTERVAL ==>
        && c == Tuned(baseConfig, rttSamples, packetLoss, throughput) && lastTuned == now
        && CalledFor(c, baseConfig, rttSamples, packetLoss, throughput)
    {
      if now - lastTuned < TUNING_INTERVAL {
        return currentConfig;
      }
      lastTuned := now;
      c := Retune();
      currentConfig := c;
    }

    method Reset(now: int)
      requires Valid()
      modifies this
      ensures Valid() && currentConfig == baseConfig && history == [] && lastTuned == now
      ensures packetLoss == 0.0 && throughput == 0
    {
      currentConfig, rttSamples, history, packetLoss, throughput, lastTuned := baseConfig, [], [], 0.0, 0, now;
    }
  }
}
