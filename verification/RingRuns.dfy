/** Theorems about every run of the ring machine, and runs that show they cannot be improved. */
module RingRuns {
  import opened Bytes
  import opened RingMachine
  import opened RingSpec
  import Bits

  ghost function RingOf(s: State): Ring {
    Ring(s.head, s.tail, s.slots)
  }

  // ----- a thread that runs alone does what RingSpec says -----

  ghost predicate OnlyBy(acts: seq<Action>, t: nat) {
    forall k :: 0 <= k < |acts| ==> !acts[k].Write? && acts[k].t == t
  }

  /** Thread t only goes on with the call it is in. */
  ghost predicate GoesOn(acts: seq<Action>, t: nat) {
    OnlyBy(acts, t) && forall k :: 0 <= k < |acts| ==> !acts[k].BeginAlloc? && !acts[k].BeginFree?
  }

  /** The state after thread t, alone, completes an Alloc whose scan of the ring stops at q. */
  ghost function AfterScan(c: Config, s: State, t: nat, q: nat): State
    requires t < |s.threads| && 0 < c.capacity == |s.slots| && q >= s.head
  {
    if q == s.tail + c.capacity then
      s.(head := q, threads := s.threads[t := Idle], skipped := s.skipped + (q - s.head), fallbacks := s.fallbacks + 1)
    else
      s.(head := q + 1, slots := s.slots[q % c.capacity := 1], lent := s.lent + multiset{q % c.capacity},
         threads := s.threads[t := Idle], skipped := s.skipped + (q - s.head))
  }

  ghost predicate Ready(c: Config, s: State, t: nat) {
    t < |s.threads| && 0 < c.capacity == |s.slots| && s.tail <= s.head <= s.tail + c.capacity
  }

  lemma InvReady(c: Config, s: State, t: nat)
    requires Inv(c, s) && t < |s.threads|
    ensures Ready(c, s, t)
  {
  }

  /** The state after thread t, alone, completes an Alloc, as RingSpec.Take describes it. */
  ghost function AfterAlloc(c: Config, s: State, t: nat): State
    requires Ready(c, s, t)
  {
    AfterScan(c, s, t, Scan(s.slots, s.head, s.tail + c.capacity))
  }

  lemma AllocIsTake(c: Config, s: State, t: nat)
    requires Ready(c, s, t)
    ensures RingOf(AfterAlloc(c, s, t)) == Take(RingOf(s)).0
    ensures AfterAlloc(c, s, t).lent == match Take(RingOf(s)).1 case None => s.lent case Some(i) => s.lent + multiset{i}
    ensures AfterAlloc(c, s, t).fallbacks == s.fallbacks + if Take(RingOf(s)).1.None? then 1 else 0
  {
  }

  /** The state after thread t, alone, completes one turn of Alloc's retry loop. */
  ghost function AfterTurn(c: Config, s: State, t: nat): State
    requires Ready(c, s, t)
  {
    var i := s.head % c.capacity;
    if s.head == s.tail + c.capacity then
      s.(threads := s.threads[t := Idle], fallbacks := s.fallbacks + 1)
    else if s.slots[i] == 0 then
      s.(head := s.head + 1, threads := s.threads[t := Idle], slots := s.slots[i := 1], lent := s.lent + multiset{i})
    else
      s.(head := s.head + 1, threads := s.threads[t := Trying], skipped := s.skipped + 1)
  }

  lemma OneStep(c: Config, s: State, a: Action)
    requires Enabled(c, s, a)
    ensures Runs(c, s, [a], Apply(c, s, a))
  {
    assert Runs(c, s, [], s);
    RunsStep(c, s, [], s, a);
    assert [] + [a] == [a];
  }

  lemma TwoSteps(c: Config, s: State, a: Action, b: Action)
    requires Enabled(c, s, a) && Enabled(c, Apply(c, s, a), b)
    ensures Runs(c, s, [a, b], Apply(c, Apply(c, s, a), b))
  {
    assert Runs(c, s, [], s);
    RunsStep(c, s, [], s, a);
    RunsStep(c, s, [] + [a], Apply(c, s, a), b);
    assert [] + [a] + [b] == [a, b];
  }

  lemma LoadBoth(c: Config, s: State, t: nat)
    requires t < |s.threads| && s.threads[t] == Trying
    ensures Runs(c, s, [LoadHead(t), LoadTail(t)], s.(threads := s.threads[t := SawBoth(s.head, s.tail)]))
  {
    TwoSteps(c, s, LoadHead(t), LoadTail(t));
    assert s.threads[t := SawHead(s.head)][t := SawBoth(s.head, s.tail)] == s.threads[t := SawBoth(s.head, s.tail)];
  }

  lemma TurnRuns(c: Config, s: State, t: nat) returns (acts: seq<Action>)
    requires Ready(c, s, t) && s.threads[t] == Trying
    ensures GoesOn(acts, t) && Runs(c, s, acts, AfterTurn(c, s, t))
  {
    LoadBoth(c, s, t);
    acts := [LoadHead(t), LoadTail(t)];
    var s2 := s.(threads := s.threads[t := SawBoth(s.head, s.tail)]);
    if s.head == s.tail + c.capacity {
      RunsStep(c, s, acts, s2, UseFallback(t));
      assert s2.threads[t := Idle] == s.threads[t := Idle];
      acts := acts + [UseFallback(t)];
    } else {
      var s3 := Apply(c, s2, CasHead(t));
      assert s3.threads[t := Idle] == s.threads[t := Idle];
      assert s3.threads[t := Trying] == s.threads[t := Trying];
      TwoSteps(c, s2, CasHead(t), CasSlot(t));
      RunsConcat(c, s, acts, s2, [CasHead(t), CasSlot(t)], AfterTurn(c, s, t));
      acts := acts + [CasHead(t), CasSlot(t)];
    }
  }

  ghost predicate TurnSkips(c: Config, s: State)
    requires 0 < c.capacity == |s.slots|
  {
    s.head != s.tail + c.capacity && s.slots[s.head % c.capacity] != 0
  }

  lemma LastTurn(c: Config, s: State, t: nat)
    requires Ready(c, s, t) && !TurnSkips(c, s)
    ensures AfterTurn(c, s, t) == AfterAlloc(c, s, t)
  {
  }

  lemma SkipThenScan(c: Config, s: State, s': State, t: nat, q: nat)
    requires t < |s.threads| && 0 < c.capacity == |s.slots| && q > s.head
    requires s' == s.(head := s.head + 1, threads := s.threads[t := Trying], skipped := s.skipped + 1)
    ensures AfterScan(c, s', t, q) == AfterScan(c, s, t, q)
  {
    assert s'.threads[t := Idle] == s.threads[t := Idle];
  }

  lemma SkippingTurn(c: Config, s: State, t: nat)
    requires Ready(c, s, t) && TurnSkips(c, s)
    ensures Ready(c, AfterTurn(c, s, t), t) && AfterAlloc(c, AfterTurn(c, s, t), t) == AfterAlloc(c, s, t)
  {
    SkipThenScan(c, s, AfterTurn(c, s, t), t, Scan(s.slots, s.head, s.tail + c.capacity));
  }

  /** Alone, the retry loop ends, and it ends where RingSpec.Take says. */
  lemma {:induction false} SoloRetry(c: Config, s: State, t: nat) returns (acts: seq<Action>)
    requires Ready(c, s, t) && s.threads[t] == Trying
    ensures GoesOn(acts, t) && Runs(c, s, acts, AfterAlloc(c, s, t))
    decreases s.tail + c.capacity - s.head
  {
    acts := TurnRuns(c, s, t);
    if TurnSkips(c, s) {
      var s' := AfterTurn(c, s, t);
      SkippingTurn(c, s, t);
      var more := SoloRetry(c, s', t);
      RunsConcat(c, s, acts, s', more, AfterAlloc(c, s, t));
      acts := acts + more;
    } else {
      LastTurn(c, s, t);
    }
  }

  lemma SoloAlloc(c: Config, s: State, t: nat) returns (acts: seq<Action>)
    requires Ready(c, s, t) && s.threads[t] == Idle
    ensures OnlyBy(acts, t) && Runs(c, s, acts, AfterAlloc(c, s, t))
  {
    var s1 := s.(threads := s.threads[t := Trying]);
    EnterRuns(c, s, s1, t);
    EnterKeepsAlloc(c, s, s1, t);
    var more := SoloRetry(c, s1, t);
    RunsConcat(c, s, [BeginAlloc(t)], s1, more, AfterAlloc(c, s, t));
    acts := [BeginAlloc(t)] + more;
  }

  lemma EnterRuns(c: Config, s: State, s1: State, t: nat)
    requires t < |s.threads| && s.threads[t] == Idle && s1 == s.(threads := s.threads[t := Trying])
    ensures Runs(c, s, [BeginAlloc(t)], s1)
  {
    OneStep(c, s, BeginAlloc(t));
  }

  lemma EnterKeepsAlloc(c: Config, s: State, s1: State, t: nat)
    requires Ready(c, s, t) && s1 == s.(threads := s.threads[t := Trying])
    ensures Ready(c, s1, t) && AfterAlloc(c, s1, t) == AfterAlloc(c, s, t)
  {
    EnterThenScan(c, s, s1, t, Scan(s.slots, s.head, s.tail + c.capacity));
  }

  lemma EnterThenScan(c: Config, s: State, s1: State, t: nat, q: nat)
    requires t < |s.threads| && 0 < c.capacity == |s.slots| && q >= s.head
    requires s1 == s.(threads := s.threads[t := Trying])
    ensures AfterScan(c, s1, t, q) == AfterScan(c, s, t, q)
  {
    assert s1.threads[t := Idle] == s.threads[t := Idle];
  }

  ghost function AfterFree(c: Config, s: State, i: nat): State
    requires Inv(c, s) && i in s.lent
  {
    s.(tail := s.tail + 1, slots := s.slots[i := 0], data := s.data[i := Zeros(c.bufferSize)],
       lent := s.lent - multiset{i})
  }

  lemma SoloFree(c: Config, s: State, t: nat, i: nat) returns (acts: seq<Action>)
    requires Inv(c, s) && t < |s.threads| && s.threads[t] == Idle && i in s.lent
    ensures OnlyBy(acts, t) && Runs(c, s, acts, AfterFree(c, s, i))
    ensures RingOf(AfterFree(c, s, i)) == Give(RingOf(s), i)
  {
    var mid := s.(threads := s.threads[t := Cleared(i)], data := s.data[i := Zeros(c.bufferSize)],
                  lent := s.lent - multiset{i});
    FreeClears(c, s, t, i, mid);
    FreeReleases(c, s, t, i, mid);
    acts := [BeginFree(t, i), Clear(t)] + [StoreSlot(t), AddTail(t)];
    RunsConcat(c, s, [BeginFree(t, i), Clear(t)], mid, [StoreSlot(t), AddTail(t)], AfterFree(c, s, i));
  }

  lemma FreeClears(c: Config, s: State, t: nat, i: nat, mid: State)
    requires t < |s.threads| && s.threads[t] == Idle && i in s.lent && i < |s.data|
    requires mid == s.(threads := s.threads[t := Cleared(i)], data := s.data[i := Zeros(c.bufferSize)],
                       lent := s.lent - multiset{i})
    ensures Runs(c, s, [BeginFree(t, i), Clear(t)], mid)
  {
    TwoSteps(c, s, BeginFree(t, i), Clear(t));
    assert s.threads[t := Clearing(i)][t := Cleared(i)] == s.threads[t := Cleared(i)];
  }

  lemma FreeReleases(c: Config, s: State, t: nat, i: nat, mid: State)
    requires Inv(c, s) && t < |s.threads| && s.threads[t] == Idle && i in s.lent
    requires mid == s.(threads := s.threads[t := Cleared(i)], data := s.data[i := Zeros(c.bufferSize)],
                       lent := s.lent - multiset{i})
    ensures Runs(c, mid, [StoreSlot(t), AddTail(t)], AfterFree(c, s, i))
  {
    TwoSteps(c, mid, StoreSlot(t), AddTail(t));
    assert s.threads[t := Cleared(i)][t := Released][t := Idle] == s.threads;
  }

  // ----- safety in every reachable state -----

  /** No ring slot is held by two callers, and its state word says whether it is held. */
  lemma MutualExclusion(c: Config, s: State, i: nat)
    requires ValidConfig(c) && Reachable(c, s) && i < c.capacity
    ensures |s.slots| == c.capacity && Holders(s, i) <= 1
    ensures s.slots[i] == 1 <==> Holders(s, i) == 1
    ensures s.slots[i] == 0 <==> Holders(s, i) == 0
  {
    ReachableInv(c, s);
  }

  /** Every position between tail and head is in flight, held, on its way back or skipped, and the
      ring never overruns although head and tail are loaded one after the other. */
  lemma PositionsConserved(c: Config, s: State)
    requires ValidConfig(c) && Reachable(c, s)
    ensures s.tail <= s.head <= s.tail + c.capacity
    ensures s.head - s.tail == Sum(s.threads, InFlight) + |s.lent| + Sum(s.threads, InFree)
                             + Sum(s.threads, Bumping) + s.skipped
  {
    ReachableInv(c, s);
  }

  /** Whatever step hands out a ring buffer, that buffer is zero over its whole capacity. */
  lemma LentBufferIsZero(c: Config, s: State, t: nat)
    requires ValidConfig(c) && Reachable(c, s) && Enabled(c, s, CasSlot(t))
    requires Apply(c, s, CasSlot(t)).threads[t] == Idle
    ensures var s' := Apply(c, s, CasSlot(t));
      exists i :: i in s'.lent && s.lent[i] == 0 && s'.lent[i] == 1
        && i < |s'.data| && s'.data[i] == Zeros(c.bufferSize)
  {
    ReachableInv(c, s);
    var i := s.threads[t].pos % c.capacity;
    assert s.slots[i] == Holders(s, i);
    assert i in Apply(c, s, CasSlot(t)).lent;
  }

  /** Although head is loaded before tail, a thread heads for the fallback only if the ring was full
      at the moment it loaded tail: every position was in flight, held, on its way back or skipped. */
  lemma FallbackOnlyWhenFull(c: Config, s: State, t: nat)
    requires ValidConfig(c) && Reachable(c, s) && Enabled(c, s, LoadTail(t))
    requires Enabled(c, Apply(c, s, LoadTail(t)), UseFallback(t))
    ensures s.head == s.tail + c.capacity
    ensures c.capacity
      == Sum(s.threads, InFlight) + |s.lent| + Sum(s.threads, InFree) + Sum(s.threads, Bumping) + s.skipped
  {
    ReachableInv(c, s);
    assert ThreadOk(c, s, s.threads[t]);
  }

  // ----- skipped positions -----

  /** Skipped positions are never given back: a ring that has skipped k of them can lend at most
      capacity - k buffers at once for the rest of the run, yet it always keeps at least one. */
  lemma SkipsShrinkTheRing(c: Config, s: State, acts: seq<Action>, s': State)
    requires ValidConfig(c) && Reachable(c, s) && Runs(c, s, acts, s')
    ensures s.skipped <= s'.skipped <= c.capacity - 1
    ensures |s'.lent| <= c.capacity - s.skipped
  {
    ReachableInv(c, s);
    RunKeepsInv(c, s, acts, s');
  }

  ghost predicate AtRest(s: State) {
    s.lent == multiset{} && forall t :: 0 <= t < |s.threads| ==> s.threads[t] == Idle
  }

  lemma {:induction false} IdleSums(ts: seq<Pc>, r: Role)
    requires forall t :: 0 <= t < |ts| ==> ts[t] == Idle
    ensures Sum(ts, r) == 0
  {
    SumZero(ts, r);
  }

  /** When nothing is lent out or in flight, the next Alloc is served from the ring, with a zero
      buffer, however many positions were skipped before. */
  lemma RestingRingServes(c: Config, s: State, t: nat) returns (acts: seq<Action>)
    requires ValidConfig(c) && Reachable(c, s) && AtRest(s) && t < |s.threads|
    ensures Ready(c, s, t) && OnlyBy(acts, t) && Runs(c, s, acts, AfterAlloc(c, s, t))
    ensures AfterAlloc(c, s, t).lent == multiset{s.head % c.capacity}
    ensures |s.data| == c.capacity && AfterAlloc(c, s, t).data[s.head % c.capacity] == Zeros(c.bufferSize)
    ensures AfterAlloc(c, s, t).fallbacks == s.fallbacks && AfterAlloc(c, s, t).skipped == s.skipped
  {
    ReachableInv(c, s);
    IdleSums(s.threads, InFlight);
    IdleSums(s.threads, InFree);
    IdleSums(s.threads, Bumping);
    var i := s.head % c.capacity;
    IdleSums(s.threads, InFreeAt(i));
    assert s.slots[i] == Holders(s, i);
    acts := SoloAlloc(c, s, t);
  }

  // ----- the bound on skipped positions is reached -----

  /** All threads idle and exactly one buffer, slot 0, lent out. */
  ghost predicate OneLent(c: Config, s: State) {
    && Inv(c, s)
    && |s.threads| > 0
    && s.lent == multiset{0}
    && (forall t :: 0 <= t < |s.threads| ==> s.threads[t] == Idle)
  }

  lemma OneLentRing(c: Config, s: State)
    requires OneLent(c, s)
    ensures s.head == s.tail + 1 + s.skipped
    ensures s.slots[0] == 1 && forall i :: 0 < i < c.capacity ==> s.slots[i] == 0
  {
    IdleSums(s.threads, InFlight);
    IdleSums(s.threads, InFree);
    IdleSums(s.threads, Bumping);
    forall i | 0 <= i < c.capacity ensures s.slots[i] == if i == 0 then 1 else 0 {
      IdleSums(s.threads, InFreeAt(i));
      assert s.slots[i] == Holders(s, i);
    }
  }

  lemma NextRemainder(p: nat, d: nat)
    requires d > 0
    ensures (p + 1) % d == if p % d + 1 == d then 0 else p % d + 1
  {
    var q, r := p / d, p % d;
    if r + 1 == d {
      Bits.RemainderIsUnique(p + 1, d, q + 1, 0);
    } else {
      Bits.RemainderIsUnique(p + 1, d, q, r + 1);
    }
  }

  lemma CycleScan(c: Config, s: State)
    requires OneLent(c, s) && s.skipped < c.capacity - 1
    ensures Scan(s.slots, s.head, s.tail + c.capacity) == if s.head % c.capacity == 0 then s.head + 1 else s.head
    ensures s.head < s.tail + c.capacity
  {
    OneLentRing(c, s);
    NextRemainder(s.head, c.capacity);
  }

  /** The Alloc of a cycle: it goes past slot 0 when it meets it, and needs the fallback only when
      that was the last position left. */
  lemma CycleTakes(c: Config, s: State) returns (acts: seq<Action>, s': State)
    requires OneLent(c, s) && s.skipped < c.capacity - 1
    ensures Runs(c, s, acts, s') && Inv(c, s') && s'.threads == s.threads
    ensures s'.skipped == s.skipped + if s.head % c.capacity == 0 then 1 else 0
    ensures s'.lent == multiset{0} || (s'.head > 0 && s'.lent == multiset{0} + multiset{(s'.head - 1) % c.capacity})
    ensures s.head % c.capacity != 0 ==> s'.head == s.head + 1
  {
    InvReady(c, s, 0);
    acts := SoloAlloc(c, s, 0);
    s' := AfterAlloc(c, s, 0);
    RunKeepsInv(c, s, acts, s');
    CycleShape(c, s);
  }

  lemma CycleShape(c: Config, s: State)
    requires OneLent(c, s) && s.skipped < c.capacity - 1
    ensures Ready(c, s, 0)
    ensures var s' := AfterAlloc(c, s, 0);
      && s'.threads == s.threads
      && s'.skipped == s.skipped + (if s.head % c.capacity == 0 then 1 else 0)
      && (s'.lent == multiset{0} || (s'.head > 0 && s'.lent == multiset{0} + multiset{(s'.head - 1) % c.capacity}))
      && (s.head % c.capacity != 0 ==> s'.head == s.head + 1)
  {
    InvReady(c, s, 0);
    CycleScan(c, s);
    CycleScanned(c, s, Scan(s.slots, s.head, s.tail + c.capacity));
  }

  lemma CycleScanned(c: Config, s: State, q: nat)
    requires 0 < c.capacity == |s.slots| && |s.threads| > 0 && s.threads[0] == Idle && s.lent == multiset{0}
    requires s.head < s.tail + c.capacity && q == if s.head % c.capacity == 0 then s.head + 1 else s.head
    ensures var s' := AfterScan(c, s, 0, q);
      && s'.threads == s.threads
      && s'.skipped == s.skipped + (q - s.head)
      && (s'.lent == multiset{0} || (s'.head > 0 && s'.lent == multiset{0} + multiset{(s'.head - 1) % c.capacity}))
      && (q == s.head ==> s'.head == s.head + 1)
  {
    assert s.threads[0 := Idle] == s.threads;
  }

  /** Alloc immediately followed by Free of what it returned, past the lent slot 0. */
  lemma Cycle(c: Config, s: State) returns (acts: seq<Action>, s': State)
    requires OneLent(c, s) && s.skipped < c.capacity - 1
    ensures Runs(c, s, acts, s') && OneLent(c, s')
    ensures if s.head % c.capacity == 0
            then s'.skipped == s.skipped + 1
            else s'.skipped == s.skipped && s'.head == s.head + 1
  {
    acts, s' := CycleTakes(c, s);
    if s'.lent != multiset{0} {
      var more, s'' := CycleGives(c, s', (s'.head - 1) % c.capacity);
      RunsConcat(c, s, acts, s', more, s'');
      acts, s' := acts + more, s'';
    }
  }

  lemma CycleGives(c: Config, s: State, i: nat) returns (acts: seq<Action>, s': State)
    requires Inv(c, s) && |s.threads| > 0 && s.lent == multiset{0} + multiset{i}
    requires forall t :: 0 <= t < |s.threads| ==> s.threads[t] == Idle
    ensures Runs(c, s, acts, s') && OneLent(c, s') && s'.skipped == s.skipped && s'.head == s.head
  {
    acts := SoloFree(c, s, 0, i);
    s' := AfterFree(c, s, i);
    RunKeepsInv(c, s, acts, s');
    assert s'.lent == multiset{0};
  }

  lemma {:induction false} Degrade(c: Config, s: State) returns (acts: seq<Action>, s': State)
    requires OneLent(c, s)
    ensures Runs(c, s, acts, s') && OneLent(c, s') && s'.skipped == c.capacity - 1
    decreases c.capacity - s.skipped, if s.head % c.capacity == 0 then 0 else c.capacity - s.head % c.capacity
  {
    if s.skipped == c.capacity - 1 {
      acts, s' := [], s;
    } else {
      var first, mid := Cycle(c, s);
      NextRemainder(s.head, c.capacity);
      var more;
      more, s' := Degrade(c, mid);
      RunsConcat(c, s, first, mid, more, s');
      acts := first + more;
    }
  }

  /** One long-lived buffer is enough to lose the whole ring: for every capacity there is a run that
      leaves capacity - 1 positions skipped, every slot but one free, and Alloc on the fallback. */
  lemma SkipBoundIsReached(c: Config) returns (s: State)
    requires ValidConfig(c) && c.threads > 0
    ensures Reachable(c, s) && s.skipped == c.capacity - 1 && s.lent == multiset{0}
    ensures |s.slots| == c.capacity && forall i :: 0 < i < c.capacity ==> s.slots[i] == 0
    ensures Bounded(RingOf(s)) && Take(RingOf(s)).1 == None
  {
    var s0 := Init(c);
    InitInv(c);
    var first := SoloAlloc(c, s0, 0);
    var s1 := AfterAlloc(c, s0, 0);
    RunKeepsInv(c, s0, first, s1);
    assert Take(RingOf(s0)).1 == Some(0);
    assert s1.lent == multiset{0};
    var more;
    more, s := Degrade(c, s1);
    RunsConcat(c, s0, first, s1, more, s);
    OneLentRing(c, s);
  }

  // ----- Stats().Available -----

  ghost function FreeCount(slots: seq<nat>): nat {
    if slots == [] then 0 else (if slots[0] == 0 then 1 else 0) + FreeCount(slots[1..])
  }

  lemma {:induction false} FreeCountIsRest(slots: seq<nat>)
    requires forall i :: 0 <= i < |slots| ==> slots[i] <= 1
    ensures FreeCount(slots) == |slots| - Total(slots)
  {
    if slots != [] {
      assert forall i :: 0 <= i < |slots[1..]| ==> slots[1..][i] == slots[i + 1];
      FreeCountIsRest(slots[1..]);
    }
  }

  ghost function HolderTable(n: nat, lent: multiset<nat>, ts: seq<Pc>): seq<nat> {
    seq(n, i requires 0 <= i => lent[i] + Sum(ts, InFreeAt(i)))
  }

  lemma OneMoreLent(n: nat, lent: multiset<nat>, ts: seq<Pc>, x: nat)
    requires x in lent && x < n
    ensures Total(HolderTable(n, lent, ts)) == Total(HolderTable(n, lent - multiset{x}, ts)) + 1
  {
    var table := HolderTable(n, lent - multiset{x}, ts);
    assert HolderTable(n, lent, ts) == table[x := table[x] + 1];
    TotalUpdate(table, x, table[x] + 1);
  }

  lemma OneMoreThread(n: nat, lent: multiset<nat>, ts: seq<Pc>)
    requires ts != [] && (Weight(InFree, ts[0]) == 1 ==> ts[0].slot < n)
    ensures Total(HolderTable(n, lent, ts)) == Total(HolderTable(n, lent, ts[1..])) + Weight(InFree, ts[0])
  {
    var table := HolderTable(n, lent, ts[1..]);
    if Weight(InFree, ts[0]) == 1 {
      var x := ts[0].slot;
      assert HolderTable(n, lent, ts) == table[x := table[x] + 1];
      TotalUpdate(table, x, table[x] + 1);
    } else {
      assert HolderTable(n, lent, ts) == table;
    }
  }

  /** Counting holders slot by slot or caller by caller gives the same number. */
  lemma {:induction false} HolderTotal(n: nat, lent: multiset<nat>, ts: seq<Pc>)
    requires forall i :: i in lent ==> i < n
    requires forall t :: 0 <= t < |ts| && Weight(InFree, ts[t]) == 1 ==> ts[t].slot < n
    ensures Total(HolderTable(n, lent, ts)) == |lent| + Sum(ts, InFree)
    decreases |lent|, |ts|
  {
    if lent != multiset{} {
      var x :| x in lent;
      HolderTotal(n, lent - multiset{x}, ts);
      OneMoreLent(n, lent, ts, x);
    } else if ts != [] {
      assert forall t :: 0 <= t < |ts[1..]| ==> ts[1..][t] == ts[t + 1];
      HolderTotal(n, lent, ts[1..]);
      OneMoreThread(n, lent, ts);
    } else {
      assert HolderTable(n, lent, ts) == seq(n, _ => 0);
      ZeroTotal(n);
    }
  }

  lemma FreeSlots(c: Config, s: State)
    requires Inv(c, s)
    ensures FreeCount(s.slots) == c.capacity - |s.lent| - Sum(s.threads, InFree)
  {
    FreeCountIsRest(s.slots);
    forall t | 0 <= t < |s.threads| && Weight(InFree, s.threads[t]) == 1
      ensures s.threads[t].slot < c.capacity
    {
      assert ThreadOk(c, s, s.threads[t]);
    }
    HolderTotal(c.capacity, s.lent, s.threads);
    assert s.slots == HolderTable(c.capacity, s.lent, s.threads);
  }

  const WORD: nat := 0x1_0000_0000_0000_0000

  /** `available` in 64-bit arithmetic: head is loaded first, tail later. */
  ghost function Available(c: Config, head: nat, tail: nat): nat {
    (c.capacity - (head - tail)) % WORD
  }

  lemma AvailableIsDifference(c: Config, head: nat, tail: nat)
    requires head <= tail + c.capacity && c.capacity + tail < WORD
    ensures Available(c, head, tail) == c.capacity + tail - head
  {
  }

  /** Loading head in s and tail in a later state s', the reported number is right about the free
      slots of s' up to what happened in between: it is no overestimate exactly when the positions
      claimed between the two loads are no more than those in flight, being bumped or skipped. */
  lemma AvailableOverestimates(c: Config, s: State, acts: seq<Action>, s': State)
    requires ValidConfig(c) && Reachable(c, s) && Runs(c, s, acts, s')
    requires c.capacity + s'.tail < WORD
    ensures Available(c, s.head, s'.tail) <= FreeCount(s'.slots) <==>
      s'.head - s.head <= Sum(s'.threads, InFlight) + Sum(s'.threads, Bumping) + s'.skipped
    ensures s'.head == s.head ==> Available(c, s.head, s'.tail) <= FreeCount(s'.slots)
  {
    ReachableInv(c, s);
    RunKeepsInv(c, s, acts, s');
    FreeSlots(c, s');
    CountersGrow(c, s, acts, s');
    AvailableIsDifference(c, s.head, s'.tail);
  }

  /** With no step between the two loads the statistic is exact: the free slots, less the positions in flight,
      being bumped or skipped; when no call is in progress, less the skipped ones alone. */
  lemma AvailableIsExact(c: Config, s: State)
    requires ValidConfig(c) && Reachable(c, s) && c.capacity + s.tail < WORD
    ensures Available(c, s.head, s.tail)
      == FreeCount(s.slots) - Sum(s.threads, InFlight) - Sum(s.threads, Bumping) - s.skipped
    ensures (forall t :: 0 <= t < |s.threads| ==> s.threads[t] == Idle) ==>
      Available(c, s.head, s.tail) == FreeCount(s.slots) - s.skipped
  {
    ReachableInv(c, s);
    FreeSlots(c, s);
    AvailableIsDifference(c, s.head, s.tail);
    if forall t :: 0 <= t < |s.threads| ==> s.threads[t] == Idle {
      IdleSums(s.threads, InFlight);
      IdleSums(s.threads, Bumping);
    }
  }

  lemma {:induction false} CountersGrow(c: Config, s: State, acts: seq<Action>, s': State)
    requires Runs(c, s, acts, s')
    ensures s.head <= s'.head && s.tail <= s'.tail
    decreases |acts|
  {
    if acts != [] {
      CountersGrow(c, Apply(c, s, acts[0]), acts[1..], s');
    }
  }

  /** With one Alloc and Free between the two loads, every ring reports one buffer too many. */
  lemma AvailableCanExceedCapacity(c: Config) returns (acts: seq<Action>, s': State)
    requires ValidConfig(c) && c.threads > 0 && c.capacity + 1 < WORD
    ensures Reachable(c, Init(c)) && Runs(c, Init(c), acts, s')
    ensures Available(c, Init(c).head, s'.tail) == c.capacity + 1
  {
    var s := Init(c);
    InitInv(c);
    assert Runs(c, s, [], s);
    var first := SoloAlloc(c, s, 0);
    var mid := AfterAlloc(c, s, 0);
    RunKeepsInv(c, s, first, mid);
    assert Take(RingOf(s)).1 == Some(0);
    var second := SoloFree(c, mid, 0, 0);
    s' := AfterFree(c, mid, 0);
    RunsConcat(c, s, first, mid, second, s');
    acts := first + second;
  }
}
