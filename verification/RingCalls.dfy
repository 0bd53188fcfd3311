/** Every Alloc and every Free of the ring pool gets its answer: none is lost in a race over a whole run, and one
    that is left alone at any point completes. */
module RingCalls {
  import opened Bytes
  import opened RingMachine
  import opened RingRuns
  import opened RingSpec

  datatype Call = Alloc | Free

  ghost predicate Within(call: Call, pc: Pc) {
    match call
    case Alloc => pc.Trying? || pc.SawHead? || pc.SawBoth? || pc.Claimed?
    case Free => pc.Clearing? || pc.Cleared? || pc.Released?
  }

  /** The calls that threads are in the middle of. */
  ghost function Pending(ts: seq<Pc>, call: Call): nat {
    if ts == [] then 0 else (if Within(call, ts[0]) then 1 else 0) + Pending(ts[1..], call)
  }

  /** The calls begun in a run. */
  ghost function Begun(acts: seq<Action>, call: Call): nat {
    if acts == [] then 0 else (if Begins(acts[0], call) then 1 else 0) + Begun(acts[1..], call)
  }

  ghost predicate Begins(a: Action, call: Call) {
    match call
    case Alloc => a.BeginAlloc?
    case Free => a.BeginFree?
  }

  lemma {:induction false} PendingUpdate(ts: seq<Pc>, call: Call, t: nat, pc: Pc)
    requires t < |ts|
    ensures Pending(ts[t := pc], call) + (if Within(call, ts[t]) then 1 else 0)
         == Pending(ts, call) + (if Within(call, pc) then 1 else 0)
  {
    if t == 0 {
      assert ts[t := pc][1..] == ts[1..];
    } else {
      assert ts[t := pc][1..] == ts[1..][t - 1 := pc];
      PendingUpdate(ts[1..], call, t - 1, pc);
    }
  }

  lemma {:induction false} NonePending(ts: seq<Pc>, call: Call)
    requires forall t :: 0 <= t < |ts| ==> ts[t] == Idle
    ensures Pending(ts, call) == 0
  {
    if ts != [] {
      assert forall t :: 0 <= t < |ts[1..]| ==> ts[1..][t] == ts[t + 1];
      NonePending(ts[1..], call);
    }
  }

  /** The buffers handed out so far and not yet given to Free, wherever they came from. */
  ghost function Answers(s: State): nat {
    |s.lent| + s.fallbacks
  }

  /** The step that ends an Alloc hands out exactly one buffer: a slot that was free, or a fallback. */
  lemma AllocEndsWithABuffer(c: Config, s: State, a: Action)
    requires ValidConfig(c) && Reachable(c, s) && Enabled(c, s, a) && InAlloc(a)
    ensures var s' := Apply(c, s, a);
      && a.t < |s'.threads|
      && (s'.threads[a.t] == Idle <==> Answers(s') == Answers(s) + 1)
      && (s'.threads[a.t] != Idle <==> s'.lent == s.lent && s'.fallbacks == s.fallbacks)
      && (s'.threads[a.t] != Idle ==> Within(Alloc, s'.threads[a.t]))
      && (s'.lent != s.lent ==>
            exists i :: 0 <= i < |s.slots| && s.slots[i] == 0 && i !in s.lent && s'.lent == s.lent + multiset{i})
  {
    ReachableInv(c, s);
    if a.CasSlot? {
      var i := s.threads[a.t].pos % c.capacity;
      assert s.slots[i] == Holders(s, i);
    }
  }

  lemma StepAnswers(c: Config, s: State, a: Action)
    requires Enabled(c, s, a)
    ensures var s' := Apply(c, s, a);
      Answers(s') + Pending(s'.threads, Alloc) + (if a.BeginFree? then 1 else 0)
        == Answers(s) + Pending(s.threads, Alloc) + (if a.BeginAlloc? then 1 else 0)
  {
    hide Pending;
    if !a.Write? {
      PendingUpdate(s.threads, Alloc, a.t, Apply(c, s, a).threads[a.t]);
    }
  }

  lemma StepFrees(c: Config, s: State, a: Action)
    requires Enabled(c, s, a)
    ensures var s' := Apply(c, s, a);
      s'.tail + Pending(s'.threads, Free) == s.tail + Pending(s.threads, Free) + (if a.BeginFree? then 1 else 0)
  {
    hide Pending;
    if !a.Write? {
      PendingUpdate(s.threads, Free, a.t, Apply(c, s, a).threads[a.t]);
    }
  }

  lemma {:induction false} RunAccounts(c: Config, s: State, acts: seq<Action>, s': State)
    requires Runs(c, s, acts, s')
    ensures Answers(s') + Pending(s'.threads, Alloc) + Begun(acts, Free)
         == Answers(s) + Pending(s.threads, Alloc) + Begun(acts, Alloc)
    ensures s'.tail + Pending(s'.threads, Free) == s.tail + Pending(s.threads, Free) + Begun(acts, Free)
    decreases |acts|
  {
    if acts != [] {
      StepAnswers(c, s, acts[0]);
      StepFrees(c, s, acts[0]);
      RunAccounts(c, Apply(c, s, acts[0]), acts[1..], s');
    }
  }

  /** In every run each Alloc begun has handed out a buffer or is still trying, and each Free begun has advanced
      tail or is on its way: no call ends without its effect, whoever wins the races. */
  lemma EveryCallIsAnswered(c: Config, acts: seq<Action>, s: State)
    requires Runs(c, Init(c), acts, s)
    ensures Begun(acts, Alloc) == |s.lent| + Begun(acts, Free) + s.fallbacks + Pending(s.threads, Alloc)
    ensures Begun(acts, Free) == s.tail + Pending(s.threads, Free)
  {
    NonePending(Init(c).threads, Alloc);
    NonePending(Init(c).threads, Free);
    RunAccounts(c, Init(c), acts, s);
  }

  // ----- what a holder sees -----

  /** Nobody in this run writes to slot i or passes it to Free. */
  ghost predicate LeavesAlone(acts: seq<Action>, i: nat) {
    forall k :: 0 <= k < |acts| ==> !((acts[k].Write? || acts[k].BeginFree?) && acts[k].slot == i)
  }

  lemma StepKeepsBytes(c: Config, s: State, a: Action, i: nat)
    requires Inv(c, s) && Enabled(c, s, a) && i in s.lent && !((a.Write? || a.BeginFree?) && a.slot == i)
    ensures var s' := Apply(c, s, a); i in s'.lent && i < |s.data| == |s'.data| && s'.data[i] == s.data[i]
  {
    if a.Clear? && s.threads[a.t].slot == i {
      assert s.slots[i] == Holders(s, i);
      SumUpdate(s.threads, InFreeAt(i), a.t, Idle);
    }
  }

  lemma {:induction false} RunKeepsBytes(c: Config, s: State, acts: seq<Action>, s': State, i: nat)
    requires Inv(c, s) && Runs(c, s, acts, s') && i in s.lent && LeavesAlone(acts, i)
    ensures i in s'.lent && i < |s.data| == |s'.data| && s'.data[i] == s.data[i]
    decreases |acts|
  {
    if acts != [] {
      StepKeepsBytes(c, s, acts[0], i);
      StepKeepsInv(c, s, acts[0]);
      RunKeepsBytes(c, Apply(c, s, acts[0]), acts[1..], s', i);
    }
  }

  /** What a caller writes to its buffer stays there, whatever the others do, until it writes again or frees it. */
  lemma HolderKeepsItsBytes(c: Config, s: State, i: nat, bytes: Pack, acts: seq<Action>, s': State)
    requires ValidConfig(c) && Reachable(c, s) && Enabled(c, s, Write(i, bytes))
    requires Runs(c, Apply(c, s, Write(i, bytes)), acts, s') && LeavesAlone(acts, i)
    ensures i in s'.lent && i < |s'.data| && s'.data[i] == bytes
  {
    ReachableInv(c, s);
    StepKeepsInv(c, s, Write(i, bytes));
    RunKeepsBytes(c, Apply(c, s, Write(i, bytes)), acts, s', i);
  }

  // ----- a call that is left alone completes -----

  /** Thread t has ended its Alloc with one buffer; apart from head, the slots and the counters nothing changed. */
  ghost predicate AllocDone(s: State, s': State, t: nat) {
    && t < |s.threads| && s'.threads == s.threads[t := Idle]
    && Answers(s') == Answers(s) + 1 && s.lent <= s'.lent
    && s'.tail == s.tail && s'.data == s.data
  }

  lemma ScanDone(c: Config, s: State, t: nat, q: nat)
    requires t < |s.threads| && 0 < c.capacity == |s.slots| && q >= s.head
    ensures AllocDone(s, AfterScan(c, s, t, q), t)
  {
  }

  lemma AloneRetries(c: Config, s: State, t: nat) returns (acts: seq<Action>, s': State)
    requires Ready(c, s, t) && s.threads[t] == Trying
    ensures GoesOn(acts, t) && Runs(c, s, acts, s') && AllocDone(s, s', t)
  {
    acts := SoloRetry(c, s, t);
    s' := AfterAlloc(c, s, t);
    ScanDone(c, s, t, Scan(s.slots, s.head, s.tail + c.capacity));
  }

  /** What a thread inside Alloc does next. */
  ghost function NextStep(c: Config, pc: Pc, t: nat): Action
    requires Within(Alloc, pc)
  {
    match pc
    case Trying => LoadHead(t)
    case SawHead(_) => LoadTail(t)
    case SawBoth(h, tail) => if h == tail + c.capacity then UseFallback(t) else CasHead(t)
    case Claimed(_) => CasSlot(t)
  }

  function StepsToRetry(pc: Pc): nat {
    match pc
    case SawHead(_) => 3
    case SawBoth(_, _) => 2
    case Claimed(_) => 1
    case _ => 0
  }

  lemma NextStepGoesOn(c: Config, s: State, t: nat)
    requires Inv(c, s) && t < |s.threads| && Within(Alloc, s.threads[t]) && s.threads[t] != Trying
    ensures var a := NextStep(c, s.threads[t], t);
      && Enabled(c, s, a) && InAlloc(a) && !a.BeginAlloc? && a.t == t
      && var s' := Apply(c, s, a);
      && |s'.threads| == |s.threads|
      && if s'.threads[t] == Idle then AllocDone(s, s', t) else
        && Within(Alloc, s'.threads[t]) && StepsToRetry(s'.threads[t]) < StepsToRetry(s.threads[t])
        && s' == s.(head := s'.head, threads := s.threads[t := s'.threads[t]], skipped := s'.skipped)
  {
  }

  lemma DoneLater(s: State, s1: State, s': State, t: nat)
    requires t < |s.threads| && |s1.threads| == |s.threads|
    requires s1 == s.(head := s1.head, threads := s.threads[t := s1.threads[t]], skipped := s1.skipped)
    requires AllocDone(s1, s', t)
    ensures AllocDone(s, s', t)
  {
    assert s1.threads[t := Idle] == s.threads[t := Idle];
  }

  /** Wherever a thread stands inside Alloc, and whatever the others did meanwhile, if it goes on alone it ends
      with a buffer of the ring or of the fallback. */
  lemma {:induction false} AloneAllocCompletes(c: Config, s: State, t: nat) returns (acts: seq<Action>, s': State)
    requires Inv(c, s) && t < |s.threads| && Within(Alloc, s.threads[t])
    ensures GoesOn(acts, t) && Runs(c, s, acts, s') && AllocDone(s, s', t)
    decreases StepsToRetry(s.threads[t])
  {
    if s.threads[t] == Trying {
      acts, s' := AloneRetries(c, s, t);
    } else {
      var a := NextStep(c, s.threads[t], t);
      NextStepGoesOn(c, s, t);
      OneStep(c, s, a);
      var s1 := Apply(c, s, a);
      acts, s' := [a], s1;
      if s1.threads[t] != Idle {
        StepKeepsInv(c, s, a);
        var more;
        more, s' := AloneAllocCompletes(c, s1, t);
        DoneLater(s, s1, s', t);
        RunsConcat(c, s, [a], s1, more, s');
        acts := [a] + more;
      }
    }
  }

  /** The same of Free: alone it ends, with tail advanced by one. */
  ghost predicate FreeDone(c: Config, s: State, s': State, t: nat) {
    && t < |s.threads| && s'.threads == s.threads[t := Idle]
    && s'.tail == s.tail + 1 && s'.lent == s.lent && s'.head == s.head
    && (s.threads[t].Released? ==> s'.slots == s.slots && s'.data == s.data)
    && (!s.threads[t].Released? && Within(Free, s.threads[t]) ==>
          var i := s.threads[t].slot;
          && i < |s.slots| && s'.slots == s.slots[i := 0]
          && i < |s.data| && s'.data == s.data[i := Zeros(c.bufferSize)])
  }

  lemma AloneFreeCompletes(c: Config, s: State, t: nat) returns (acts: seq<Action>, s': State)
    requires Inv(c, s) && t < |s.threads| && Within(Free, s.threads[t])
    ensures GoesOn(acts, t) && Runs(c, s, acts, s') && FreeDone(c, s, s', t)
    decreases if s.threads[t].Clearing? then 2 else if s.threads[t].Cleared? then 1 else 0
  {
    assert ThreadOk(c, s, s.threads[t]);
    var a := if s.threads[t].Clearing? then Clear(t) else if s.threads[t].Cleared? then StoreSlot(t) else AddTail(t);
    OneStep(c, s, a);
    var s1 := Apply(c, s, a);
    acts, s' := [a], s1;
    if !a.AddTail? {
      StepKeepsInv(c, s, a);
      var more;
      more, s' := AloneFreeCompletes(c, s1, t);
      RunsConcat(c, s, [a], s1, more, s');
      acts := [a] + more;
    }
  }

  /** In every reachable state: no call can be blocked by calls that stand still. */
  lemma AloneCompletes(c: Config, s: State, t: nat) returns (acts: seq<Action>, s': State)
    requires ValidConfig(c) && Reachable(c, s) && t < |s.threads| && s.threads[t] != Idle
    ensures GoesOn(acts, t) && Runs(c, s, acts, s')
    ensures if Within(Alloc, s.threads[t]) then AllocDone(s, s', t) else FreeDone(c, s, s', t)
  {
    ReachableInv(c, s);
    if Within(Alloc, s.threads[t]) {
      acts, s' := AloneAllocCompletes(c, s, t);
    } else {
      acts, s' := AloneFreeCompletes(c, s, t);
    }
  }
}
