/** The lock-free ring buffer pool as a machine of atomic steps. Any number of threads run Alloc and
    Free; every atomic load, compare-and-swap, store and add is one step, and steps interleave freely.
    Clients follow the discipline the pool relies on: a buffer is passed to Free once, and is written
    only between its Alloc and its Free. Counters are unbounded. */
module RingMachine {
  import opened Bytes

  datatype Config = Config(capacity: nat, bufferSize: nat, threads: nat)

  ghost predicate ValidConfig(c: Config) {
    c.capacity > 0
  }

  /** Where a thread stands inside Alloc or Free. */
  datatype Pc =
    | Idle
    | Trying                     // at the top of Alloc's retry loop
    | SawHead(h: nat)            // head loaded
    | SawBoth(h: nat, t: nat)    // head and tail loaded
    | Claimed(pos: nat)          // head advanced past pos, slot not yet taken
    | Clearing(slot: nat)        // Free entered, buffer not yet zeroed
    | Cleared(slot: nat)         // buffer zeroed, slot not yet stored 0
    | Released                   // slot stored 0, tail not yet advanced

  /** `lent` holds the ring slots that Alloc has returned and nobody has passed to Free.
      `skipped` counts positions claimed from head whose slot was still taken. */
  datatype State = State(
    head: nat,
    tail: nat,
    slots: seq<nat>,
    data: seq<Pack>,
    lent: multiset<nat>,
    threads: seq<Pc>,
    skipped: nat,
    fallbacks: nat)

  datatype Action =
    | BeginAlloc(t: nat)
    | LoadHead(t: nat)
    | LoadTail(t: nat)
    | UseFallback(t: nat)
    | CasHead(t: nat)
    | CasSlot(t: nat)
    | Write(slot: nat, bytes: Pack)
    | BeginFree(t: nat, slot: nat)
    | Clear(t: nat)
    | StoreSlot(t: nat)
    | AddTail(t: nat)

  ghost function Init(c: Config): State {
    State(0, 0, seq(c.capacity, _ => 0), seq(c.capacity, _ => Zeros(c.bufferSize)),
          multiset{}, seq(c.threads, _ => Idle), 0, 0)
  }

  ghost predicate Enabled(c: Config, s: State, a: Action) {
    match a
    case Write(slot, bytes) => slot in s.lent && slot < |s.data| && |bytes| == c.bufferSize
    case BeginFree(t, slot) => t < |s.threads| && s.threads[t].Idle? && slot in s.lent
    case BeginAlloc(t) => t < |s.threads| && s.threads[t].Idle?
    case LoadHead(t) => t < |s.threads| && s.threads[t].Trying?
    case LoadTail(t) => t < |s.threads| && s.threads[t].SawHead?
    case UseFallback(t) =>
      t < |s.threads| && s.threads[t].SawBoth? && s.threads[t].h == s.threads[t].t + c.capacity
    case CasHead(t) =>
      t < |s.threads| && s.threads[t].SawBoth? && s.threads[t].h != s.threads[t].t + c.capacity
    case CasSlot(t) =>
      t < |s.threads| && s.threads[t].Claimed? && c.capacity > 0 && |s.slots| == c.capacity
    case Clear(t) => t < |s.threads| && s.threads[t].Clearing? && s.threads[t].slot < |s.data|
    case StoreSlot(t) => t < |s.threads| && s.threads[t].Cleared? && s.threads[t].slot < |s.slots|
    case AddTail(t) => t < |s.threads| && s.threads[t].Released?
  }

  ghost predicate InAlloc(a: Action) {
    a.BeginAlloc? || a.LoadHead? || a.LoadTail? || a.UseFallback? || a.CasHead? || a.CasSlot?
  }

  ghost function Goto(s: State, t: nat, pc: Pc): State
    requires t < |s.threads|
  {
    s.(threads := s.threads[t := pc])
  }

  ghost function Apply(c: Config, s: State, a: Action): State
    requires Enabled(c, s, a)
  {
    match a
    case Write(slot, bytes) => s.(data := s.data[slot := bytes])
    case BeginAlloc(t) => Goto(s, t, Trying)
    case LoadHead(t) => Goto(s, t, SawHead(s.head))
    case LoadTail(t) => Goto(s, t, SawBoth(s.threads[t].h, s.tail))
    case UseFallback(t) => Goto(s, t, Idle).(fallbacks := s.fallbacks + 1)
    case CasHead(t) =>
      var h := s.threads[t].h;
      if s.head == h then Goto(s, t, Claimed(h)).(head := h + 1) else Goto(s, t, Trying)
    case CasSlot(t) =>
      var i := s.threads[t].pos % c.capacity;
      if s.slots[i] == 0 then
        Goto(s, t, Idle).(slots := s.slots[i := 1], lent := s.lent + multiset{i})
      else
        Goto(s, t, Trying).(skipped := s.skipped + 1)
    case BeginFree(t, slot) => Goto(s, t, Clearing(slot)).(lent := s.lent - multiset{slot})
    case Clear(t) =>
      var i := s.threads[t].slot;
      Goto(s, t, Cleared(i)).(data := s.data[i := Zeros(c.bufferSize)])
    case StoreSlot(t) => Goto(s, t, Released).(slots := s.slots[s.threads[t].slot := 0])
    case AddTail(t) => Goto(s, t, Idle).(tail := s.tail + 1)
  }

  // ----- runs -----

  ghost predicate Runs(c: Config, s: State, acts: seq<Action>, s': State)
    decreases |acts|
  {
    if acts == [] then
      s == s'
    else
      Enabled(c, s, acts[0]) && Runs(c, Apply(c, s, acts[0]), acts[1..], s')
  }

  ghost predicate Reachable(c: Config, s: State) {
    exists acts :: Runs(c, Init(c), acts, s)
  }

  lemma {:induction false} RunsConcat(c: Config, s0: State, a: seq<Action>, s1: State, b: seq<Action>, s2: State)
    requires Runs(c, s0, a, s1) && Runs(c, s1, b, s2)
    ensures Runs(c, s0, a + b, s2)
    decreases |a|
  {
    if a == [] {
      assert a + b == b;
    } else {
      RunsConcat(c, Apply(c, s0, a[0]), a[1..], s1, b, s2);
      assert (a + b)[0] == a[0] && (a + b)[1..] == a[1..] + b;
    }
  }

  lemma RunsStep(c: Config, s0: State, acts: seq<Action>, s1: State, a: Action)
    requires Runs(c, s0, acts, s1) && Enabled(c, s1, a)
    ensures Runs(c, s0, acts + [a], Apply(c, s1, a))
  {
    assert Runs(c, Apply(c, s1, a), [], Apply(c, s1, a));
    assert [a][1..] == [];
    assert Runs(c, s1, [a], Apply(c, s1, a));
    RunsConcat(c, s0, acts, s1, [a], Apply(c, s1, a));
  }

  // ----- counting threads -----

  /** What a thread inside Alloc or Free is occupying: a claimed position, a slot on its way back
      (any slot, or slot i), or a position whose tail increment is still due. */
  datatype Role = InFlight | InFree | InFreeAt(i: nat) | Bumping

  ghost function Weight(r: Role, pc: Pc): nat {
    match r
    case InFlight => if pc.Claimed? then 1 else 0
    case InFree => if pc.Clearing? || pc.Cleared? then 1 else 0
    case InFreeAt(i) => if (pc.Clearing? || pc.Cleared?) && pc.slot == i then 1 else 0
    case Bumping => if pc.Released? then 1 else 0
  }

  ghost function Sum(ts: seq<Pc>, r: Role): nat {
    if ts == [] then 0 else Weight(r, ts[0]) + Sum(ts[1..], r)
  }

  lemma {:induction false} SumUpdate(ts: seq<Pc>, r: Role, t: nat, pc: Pc)
    requires t < |ts|
    ensures Sum(ts[t := pc], r) == Sum(ts, r) - Weight(r, ts[t]) + Weight(r, pc)
    ensures Sum(ts, r) >= Weight(r, ts[t])
  {
    if t == 0 {
      assert ts[t := pc][1..] == ts[1..];
    } else {
      assert ts[t := pc][1..] == ts[1..][t - 1 := pc];
      SumUpdate(ts[1..], r, t - 1, pc);
    }
  }

  lemma {:induction false} SumZero(ts: seq<Pc>, r: Role)
    requires forall t :: 0 <= t < |ts| ==> Weight(r, ts[t]) == 0
    ensures Sum(ts, r) == 0
  {
    if ts != [] {
      assert forall t :: 0 <= t < |ts[1..]| ==> ts[1..][t] == ts[t + 1];
      SumZero(ts[1..], r);
    }
  }

  // ----- the invariant -----

  /** The callers that hold slot i: buffers lent out, and threads inside Free that have not stored 0. */
  ghost function Holders(s: State, i: nat): nat {
    s.lent[i] + Sum(s.threads, InFreeAt(i))
  }

  ghost predicate Shape(c: Config, s: State) {
    && ValidConfig(c)
    && |s.slots| == c.capacity
    && |s.data| == c.capacity
    && |s.threads| == c.threads
    && (forall i :: i in s.lent ==> i < c.capacity)
    && (forall i :: 0 <= i < c.capacity ==> |s.data[i]| == c.bufferSize)
  }

  /** What a thread in the middle of an operation still knows. */
  ghost predicate ThreadOk(c: Config, s: State, pc: Pc) {
    match pc
    case SawHead(h) => h <= s.head
    case SawBoth(h, t) => h <= s.head && t <= s.tail && h <= t + c.capacity
    case Claimed(pos) => pos < s.head
    case Clearing(i) => i < c.capacity
    case Cleared(i) => i < |s.data| && s.data[i] == Zeros(c.bufferSize)
    case _ => true
  }

  ghost predicate ThreadsOk(c: Config, s: State) {
    forall t :: 0 <= t < |s.threads| ==> ThreadOk(c, s, s.threads[t])
  }

  ghost predicate Exclusive(c: Config, s: State)
    requires |s.slots| == c.capacity
  {
    forall i :: 0 <= i < c.capacity ==> s.slots[i] == Holders(s, i) && s.slots[i] <= 1
  }

  /** Every position between tail and head is accounted for. */
  ghost predicate Balanced(c: Config, s: State) {
    && s.tail <= s.head <= s.tail + c.capacity
    && s.head - s.tail
       == Sum(s.threads, InFlight) + |s.lent| + Sum(s.threads, InFree) + Sum(s.threads, Bumping) + s.skipped
    && s.skipped < c.capacity
  }

  ghost predicate FreeSlotsZero(c: Config, s: State)
    requires |s.slots| == |s.data| == c.capacity
  {
    forall i :: 0 <= i < c.capacity && s.slots[i] == 0 ==> s.data[i] == Zeros(c.bufferSize)
  }

  ghost predicate Inv(c: Config, s: State) {
    Shape(c, s) && ThreadsOk(c, s) && Exclusive(c, s) && Balanced(c, s) && FreeSlotsZero(c, s)
  }

  lemma InitInv(c: Config)
    requires ValidConfig(c)
    ensures Inv(c, Init(c))
  {
    var s := Init(c);
    SumZero(s.threads, InFlight);
    SumZero(s.threads, InFree);
    SumZero(s.threads, Bumping);
    forall i | 0 <= i < c.capacity ensures Holders(s, i) == 0 {
      SumZero(s.threads, InFreeAt(i));
    }
  }

  lemma SumsAfterGoto(ts: seq<Pc>, t: nat, pc: Pc)
    requires t < |ts|
    ensures Sum(ts[t := pc], InFlight) == Sum(ts, InFlight) - Weight(InFlight, ts[t]) + Weight(InFlight, pc)
    ensures Sum(ts[t := pc], InFree) == Sum(ts, InFree) - Weight(InFree, ts[t]) + Weight(InFree, pc)
    ensures Sum(ts[t := pc], Bumping) == Sum(ts, Bumping) - Weight(Bumping, ts[t]) + Weight(Bumping, pc)
  {
    SumUpdate(ts, InFlight, t, pc);
    SumUpdate(ts, InFree, t, pc);
    SumUpdate(ts, Bumping, t, pc);
  }

  /** A taken slot has a holder, and that holder occupies a position of its own. */
  lemma {:induction false} HolderOccupies(ts: seq<Pc>, i: nat)
    ensures Sum(ts, InFreeAt(i)) <= Sum(ts, InFree)
  {
    if ts != [] { HolderOccupies(ts[1..], i); }
  }

  lemma TakenSlotIsCounted(c: Config, s: State, i: nat)
    requires Inv(c, s) && i < c.capacity && s.slots[i] != 0
    ensures |s.lent| + Sum(s.threads, InFree) >= 1
  {
    HolderOccupies(s.threads, i);
    if s.lent[i] > 0 { assert i in s.lent; }
  }

  // ----- every step keeps the invariant -----

  lemma StepKeepsSizes(c: Config, s: State, a: Action)
    requires Shape(c, s) && Enabled(c, s, a)
    ensures var s' := Apply(c, s, a);
      |s'.slots| == |s.slots| && |s'.data| == |s.data| && |s'.threads| == |s.threads|
  {
  }

  lemma StepKeepsShape(c: Config, s: State, a: Action)
    requires Shape(c, s) && Enabled(c, s, a)
    ensures Shape(c, Apply(c, s, a))
  {
    StepKeepsSizes(c, s, a);
    var s' := Apply(c, s, a);
    forall i | i in s'.lent ensures i < c.capacity {
      if i !in s.lent { assert a.CasSlot?; }
    }
    forall i | 0 <= i < c.capacity ensures |s'.data[i]| == c.bufferSize {
      assert |s.data[i]| == c.bufferSize;
    }
  }

  lemma AllocKeepsSlot(c: Config, s: State, a: Action, i: nat)
    requires Enabled(c, s, a) && InAlloc(a) && i < |s.slots| && s.slots[i] == Holders(s, i) <= 1
    ensures i < |Apply(c, s, a).slots| && Apply(c, s, a).slots[i] == Holders(Apply(c, s, a), i) <= 1
  {
    SumUpdate(s.threads, InFreeAt(i), a.t, Apply(c, s, a).threads[a.t]);
  }

  lemma FreeKeepsSlot(c: Config, s: State, a: Action, i: nat)
    requires Enabled(c, s, a) && !a.Write? && !InAlloc(a) && i < |s.slots| && s.slots[i] == Holders(s, i) <= 1
    ensures i < |Apply(c, s, a).slots| && Apply(c, s, a).slots[i] == Holders(Apply(c, s, a), i) <= 1
  {
    SumUpdate(s.threads, InFreeAt(i), a.t, Apply(c, s, a).threads[a.t]);
  }

  lemma StepKeepsExclusive(c: Config, s: State, a: Action)
    requires Inv(c, s) && Enabled(c, s, a)
    ensures |Apply(c, s, a).slots| == c.capacity && Exclusive(c, Apply(c, s, a))
  {
    var s' := Apply(c, s, a);
    forall i | 0 <= i < c.capacity ensures s'.slots[i] == Holders(s', i) && s'.slots[i] <= 1 {
      assert s.slots[i] == Holders(s, i) <= 1;
      if InAlloc(a) {
        AllocKeepsSlot(c, s, a, i);
      } else if !a.Write? {
        FreeKeepsSlot(c, s, a, i);
      }
    }
  }

  /** The arithmetic of one step, from what the stepping thread knows. A skip can only happen while
      the slot has a holder, so the holder's position and the skipping thread's own are both counted. */
  lemma CasSlotBalance(c: Config, s: State, t: nat)
    requires Balanced(c, s) && Enabled(c, s, CasSlot(t))
    requires s.slots[s.threads[t].pos % c.capacity] != 0 ==> |s.lent| + Sum(s.threads, InFree) >= 1
    ensures Balanced(c, Apply(c, s, CasSlot(t)))
  {
    var i := s.threads[t].pos % c.capacity;
    if s.slots[i] == 0 {
      SumsAfterGoto(s.threads, t, Idle);
    } else {
      SumsAfterGoto(s.threads, t, Trying);
    }
  }

  lemma AllocStepBalance(c: Config, s: State, a: Action)
    requires Balanced(c, s) && Enabled(c, s, a) && InAlloc(a) && !a.CasSlot?
    requires ThreadOk(c, s, s.threads[a.t])
    ensures Balanced(c, Apply(c, s, a))
  {
    SumsAfterGoto(s.threads, a.t, Apply(c, s, a).threads[a.t]);
  }

  lemma FreeStepBalance(c: Config, s: State, a: Action)
    requires Balanced(c, s) && Enabled(c, s, a) && !a.Write? && !InAlloc(a)
    ensures Balanced(c, Apply(c, s, a))
  {
    SumsAfterGoto(s.threads, a.t, Apply(c, s, a).threads[a.t]);
  }

  lemma StepKeepsBalanced(c: Config, s: State, a: Action)
    requires Inv(c, s) && Enabled(c, s, a)
    ensures Balanced(c, Apply(c, s, a))
  {
    if a.CasSlot? {
      if s.slots[s.threads[a.t].pos % c.capacity] != 0 {
        TakenSlotIsCounted(c, s, s.threads[a.t].pos % c.capacity);
      }
      CasSlotBalance(c, s, a.t);
    } else if InAlloc(a) {
      AllocStepBalance(c, s, a);
    } else if !a.Write? {
      FreeStepBalance(c, s, a);
    }
  }

  /** Only a slot that nobody else holds changes its bytes, so a thread that has zeroed its buffer
      still finds it zero when it gives the slot back. */
  lemma ClearedStaysZero(c: Config, s: State, a: Action, t: nat)
    requires Inv(c, s) && Enabled(c, s, a) && t < |s.threads| && s.threads[t].Cleared?
    requires a.Write? || (a.Clear? && a.t != t)
    ensures ThreadOk(c, Apply(c, s, a), s.threads[t])
  {
    var i := s.threads[t].slot;
    assert ThreadOk(c, s, s.threads[t]);
    SumUpdate(s.threads, InFreeAt(i), t, Idle);
    assert s.slots[i] == Holders(s, i);
    if a.Clear? && s.threads[a.t].slot == i {
      TwoInFree(s.threads, i, t, a.t);
    }
  }

  /** The stepping thread knows what it has just seen or done. */
  lemma OwnThread(c: Config, s: State, a: Action)
    requires Enabled(c, s, a) && !a.Write? && ThreadOk(c, s, s.threads[a.t])
    requires s.head <= s.tail + c.capacity && |s.data| == c.capacity && forall i :: i in s.lent ==> i < c.capacity
    ensures |Apply(c, s, a).threads| == |s.threads| && ThreadOk(c, Apply(c, s, a), Apply(c, s, a).threads[a.t])
  {
  }

  /** What the others know stays true, for head and tail only grow. */
  lemma OtherThread(c: Config, s: State, a: Action, t: nat)
    requires Enabled(c, s, a) && t < |s.threads| && ThreadOk(c, s, s.threads[t]) && (a.Write? || a.t != t)
    requires s.threads[t].Cleared? ==> !a.Write? && !a.Clear?
    ensures |Apply(c, s, a).threads| == |s.threads| && ThreadOk(c, Apply(c, s, a), Apply(c, s, a).threads[t])
  {
  }

  lemma StepKeepsThread(c: Config, s: State, a: Action, t: nat)
    requires Inv(c, s) && Enabled(c, s, a) && t < |s.threads|
    ensures |Apply(c, s, a).threads| == |s.threads| && ThreadOk(c, Apply(c, s, a), Apply(c, s, a).threads[t])
  {
    assert ThreadOk(c, s, s.threads[t]);
    if !a.Write? && a.t == t {
      OwnThread(c, s, a);
    } else if s.threads[t].Cleared? && (a.Write? || a.Clear?) {
      ClearedStaysZero(c, s, a, t);
    } else {
      OtherThread(c, s, a, t);
    }
  }

  lemma StepKeepsThreads(c: Config, s: State, a: Action)
    requires Inv(c, s) && Enabled(c, s, a)
    ensures ThreadsOk(c, Apply(c, s, a))
  {
    var s' := Apply(c, s, a);
    forall t | 0 <= t < |s'.threads| ensures ThreadOk(c, s', s'.threads[t]) {
      StepKeepsSizes(c, s, a);
      StepKeepsThread(c, s, a, t);
    }
  }

  lemma TwoInFree(ts: seq<Pc>, i: nat, t: nat, u: nat)
    requires t < |ts| && u < |ts| && t != u
    requires Weight(InFreeAt(i), ts[t]) == 1 && Weight(InFreeAt(i), ts[u]) == 1
    ensures Sum(ts, InFreeAt(i)) >= 2
  {
    SumUpdate(ts, InFreeAt(i), t, Idle);
    SumUpdate(ts[t := Idle], InFreeAt(i), u, Idle);
  }

  lemma WriteKeepsZeros(c: Config, s: State, a: Action)
    requires Inv(c, s) && Enabled(c, s, a) && a.Write?
    ensures Shape(c, Apply(c, s, a)) && FreeSlotsZero(c, Apply(c, s, a))
  {
    assert s.slots[a.slot] == Holders(s, a.slot);
  }

  lemma FreeKeepsZeros(c: Config, s: State, a: Action)
    requires Inv(c, s) && Enabled(c, s, a) && !a.Write? && !InAlloc(a)
    ensures Shape(c, Apply(c, s, a)) && FreeSlotsZero(c, Apply(c, s, a))
  {
    assert ThreadOk(c, s, s.threads[a.t]);
  }

  lemma AllocKeepsZeros(c: Config, s: State, a: Action)
    requires Inv(c, s) && Enabled(c, s, a) && InAlloc(a)
    ensures Shape(c, Apply(c, s, a)) && FreeSlotsZero(c, Apply(c, s, a))
  {
    StepKeepsShape(c, s, a);
  }

  lemma StepKeepsZeros(c: Config, s: State, a: Action)
    requires Inv(c, s) && Enabled(c, s, a)
    ensures Shape(c, Apply(c, s, a)) && FreeSlotsZero(c, Apply(c, s, a))
  {
    if a.Write? {
      WriteKeepsZeros(c, s, a);
    } else if InAlloc(a) {
      AllocKeepsZeros(c, s, a);
    } else {
      FreeKeepsZeros(c, s, a);
    }
  }

  lemma StepKeepsInv(c: Config, s: State, a: Action)
    requires Inv(c, s) && Enabled(c, s, a)
    ensures Inv(c, Apply(c, s, a))
  {
    StepKeepsShape(c, s, a);
    StepKeepsThreads(c, s, a);
    StepKeepsExclusive(c, s, a);
    StepKeepsBalanced(c, s, a);
    StepKeepsZeros(c, s, a);
  }

  lemma {:induction false} RunKeepsInv(c: Config, s: State, acts: seq<Action>, s': State)
    requires Inv(c, s) && Runs(c, s, acts, s')
    ensures Inv(c, s') && s'.skipped >= s.skipped
    decreases |acts|
  {
    if acts != [] {
      StepKeepsInv(c, s, acts[0]);
      RunKeepsInv(c, Apply(c, s, acts[0]), acts[1..], s');
    }
  }

  lemma ReachableInv(c: Config, s: State)
    requires ValidConfig(c) && Reachable(c, s)
    ensures Inv(c, s)
  {
    var acts :| Runs(c, Init(c), acts, s);
    InitInv(c);
    RunKeepsInv(c, Init(c), acts, s);
  }
}
