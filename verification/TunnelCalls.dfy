/** Every call of Worker.Tunnel and of stop ends as it should, whoever wins the mutex: the caller of Tunnel gets a
    tunnel for its own key unless creation fails, the caller of stop leaves nothing behind. */
module TunnelCalls {
  import opened TunnelRuns

  // ----- who is inside the mutex -----

  ghost predicate MutexFits(s: State) {
    && (!s.holder.Free? ==> At(s, s.holder.t) && s.threads[s.holder.t] == Inside)
    && (forall t :: 0 <= t < |s.threads| && s.threads[t] == Inside ==> !s.holder.Free? && s.holder.t == t)
  }

  lemma StepKeepsMutex(s: State, a: Step)
    requires Enabled(s, a) && MutexFits(s)
    ensures MutexFits(Apply(s, a))
  {
  }

  lemma {:induction false} RunKeepsMutex(s: State, steps: seq<Step>, s': State)
    requires MutexFits(s) && Runs(s, steps, s')
    ensures MutexFits(s')
    decreases |steps|
  {
    if steps != [] {
      StepKeepsMutex(s, steps[0]);
      RunKeepsMutex(Apply(s, steps[0]), steps[1..], s');
    }
  }

  lemma ReachableFits(threads: nat, s: State)
    requires Reachable(threads, s)
    ensures Inv(s) && MutexFits(s)
  {
    ReachableInv(threads, s);
    var steps :| Runs(Init(threads), steps, s);
    RunKeepsMutex(Init(threads), steps, s);
  }

  // ----- calls in progress -----

  ghost predicate HolderCalls(h: Holder) {
    h.Checking? || h.Creating? || h.Storing?
  }

  /** Thread t is inside a call of Tunnel for this key. */
  ghost predicate InCall(s: State, t: nat, key: Key) {
    At(s, t) && match s.threads[t]
    case Idle => false
    case Looking(k, _) => k == key
    case Missed(k) => k == key
    case Inside => HolderCalls(s.holder) && s.holder.t == t && s.holder.key == key
  }

  /** Thread t is inside stop. */
  ghost predicate InStop(s: State, t: nat) {
    At(s, t) && s.threads[t] == Inside && (s.holder.Sweeping? || s.holder.Waiting?) && s.holder.t == t
  }

  /** The last answer is tunnel id for this key: one that was live when it was asked, or the one just filed. */
  ghost predicate Answers(s: State, s': State, key: Key, id: nat) {
    && s'.returned == s.returned + [(key, id)]
    && id < |s'.tunnels| && s'.tunnels[id].key == key
    && (if s.holder.Storing? && s'.holder.Free? then s'.entries == s.entries[key := id]
        else Live(s, id) && s'.entries == s.entries)
  }

  /** The tunnel that a step may answer with. */
  ghost function Candidate(s: State, a: Step, key: Key): nat
    requires Enabled(s, a)
  {
    if a.AskFound? then s.threads[a.t].id
    else if a.Store? then s.holder.id
    else if key in s.entries then s.entries[key]
    else 0
  }

  /** In every interleaving a thread stays in its call for its key until a step answers it with such a tunnel or
      creation fails, and creation is tried only when no tunnel is live for the key. */
  lemma CallEndsWithATunnel(threads: nat, s: State, a: Step, t: nat, key: Key) returns (id: nat)
    requires Reachable(threads, s) && Enabled(s, a) && InCall(s, t, key)
    ensures var s' := Apply(s, a);
      || InCall(s', t, key)
      || (At(s', t) && s'.threads[t] == Idle &&
            if a.CreateFails? then s' == Leave(s) && forall j :: !LiveFor(s, j, key)
            else Answers(s, s', key, id))
  {
    ReachableFits(threads, s);
    id := Candidate(s, a, key);
  }

  /** Whoever leaves stop leaves no entry and no live tunnel behind, and until then stays inside it. */
  lemma StopEndsEmpty(threads: nat, s: State, a: Step, t: nat, id: nat)
    requires Reachable(threads, s) && Enabled(s, a) && InStop(s, t)
    ensures var s' := Apply(s, a);
      InStop(s', t) || (At(s', t) && s'.threads[t] == Idle && s'.holder.Free? && s'.entries == map[] && !Live(s', id))
  {
    ReachableFits(threads, s);
    if a.EndStop? {
      StopLeavesNothingLive(threads, s, id);
    }
  }

  // ----- no call is lost in a run -----

  ghost function Waiting(ts: seq<Pc>): nat {
    if ts == [] then 0 else (if ts[0].Looking? || ts[0].Missed? then 1 else 0) + Waiting(ts[1..])
  }

  /** The calls of Tunnel in progress. */
  ghost function Pending(s: State): nat {
    Waiting(s.threads) + if HolderCalls(s.holder) then 1 else 0
  }

  ghost function Begun(steps: seq<Step>): nat {
    if steps == [] then 0 else (if steps[0].Lookup? then 1 else 0) + Begun(steps[1..])
  }

  ghost function Failed(steps: seq<Step>): nat {
    if steps == [] then 0 else (if steps[0].CreateFails? then 1 else 0) + Failed(steps[1..])
  }

  lemma {:induction false} WaitingUpdate(ts: seq<Pc>, t: nat, pc: Pc)
    requires t < |ts|
    ensures Waiting(ts[t := pc]) + (if ts[t].Looking? || ts[t].Missed? then 1 else 0)
         == Waiting(ts) + (if pc.Looking? || pc.Missed? then 1 else 0)
  {
    if t == 0 {
      assert ts[t := pc][1..] == ts[1..];
    } else {
      assert ts[t := pc][1..] == ts[1..][t - 1 := pc];
      WaitingUpdate(ts[1..], t - 1, pc);
    }
  }

  /** The thread whose place a step changes, if any. */
  ghost function Mover(s: State, a: Step): nat
    requires Enabled(s, a)
  {
    match a
    case Lookup(t, _) => t
    case AskFound(t) => t
    case Enter(t) => t
    case BeginStop(t) => t
    case Check => s.holder.t
    case CreateFails => s.holder.t
    case Store => s.holder.t
    case EndStop => s.holder.t
    case _ => 0
  }

  lemma StepAccounts(s: State, a: Step)
    requires Enabled(s, a) && MutexFits(s)
    ensures |Apply(s, a).returned| + Pending(Apply(s, a)) + (if a.CreateFails? then 1 else 0)
         == |s.returned| + Pending(s) + (if a.Lookup? then 1 else 0)
  {
    var s' := Apply(s, a);
    if s'.threads != s.threads {
      WaitingUpdate(s.threads, Mover(s, a), s'.threads[Mover(s, a)]);
    }
  }

  lemma {:induction false} RunAccounts(s: State, steps: seq<Step>, s': State)
    requires MutexFits(s) && Runs(s, steps, s')
    ensures |s'.returned| + Pending(s') + Failed(steps) == |s.returned| + Pending(s) + Begun(steps)
    decreases |steps|
  {
    if steps != [] {
      StepKeepsMutex(s, steps[0]);
      StepAccounts(s, steps[0]);
      RunAccounts(Apply(s, steps[0]), steps[1..], s');
    }
  }

  lemma {:induction false} NoneWaiting(ts: seq<Pc>)
    requires forall t :: 0 <= t < |ts| ==> ts[t] == Idle
    ensures Waiting(ts) == 0
  {
    if ts != [] {
      assert forall t :: 0 <= t < |ts[1..]| ==> ts[1..][t] == ts[t + 1];
      NoneWaiting(ts[1..]);
    }
  }

  /** In every run each call of Tunnel that was begun has returned a tunnel, has failed to create one, or is still
      in progress. */
  lemma EveryCallIsAnswered(threads: nat, steps: seq<Step>, s: State)
    requires Runs(Init(threads), steps, s)
    ensures Begun(steps) == |s.returned| + Failed(steps) + Pending(s)
  {
    NoneWaiting(Init(threads).threads);
    RunAccounts(Init(threads), steps, s);
  }

  // ----- a lone caller gets its tunnel -----

  /** What a thread in a call does next, when creation succeeds. */
  ghost function NextStep(s: State, t: nat): Step
    requires At(s, t)
  {
    match s.threads[t]
    case Looking(_, _) => AskFound(t)
    case Missed(_) => Enter(t)
    case _ => match s.holder
      case Creating(_, _) => Create
      case Storing(_, _, _) => Store
      case _ => Check
  }

  ghost function StepsLeft(s: State, t: nat): nat
    requires At(s, t)
  {
    match s.threads[t]
    case Looking(_, _) => 5
    case Missed(_) => 4
    case _ => match s.holder
      case Checking(_, _) => 3
      case Creating(_, _) => 2
      case _ => 1
  }

  ghost predicate SomeLive(s: State, key: Key) {
    exists j :: LiveFor(s, j, key)
  }

  /** Thread t has got tunnel id for its key. It is live unless it was already being stored; it is a new one only if
      none was live before, and nothing else changed. */
  ghost predicate Gets(s: State, s': State, t: nat, key: Key, id: nat) {
    && At(s, t) && s'.threads == s.threads[t := Idle] && s'.holder.Free?
    && s'.returned == s.returned + [(key, id)]
    && id < |s'.tunnels| && s'.tunnels[id].key == key && (s.holder.Storing? || Live(s', id))
    && (s'.tunnels == s.tunnels
        || (s'.tunnels == s.tunnels + [Tunnel(key, false)] && id == |s.tunnels| && !SomeLive(s, key)))
    && (s'.entries == s.entries || s'.entries == s.entries[key := id])
  }

  /** The mutex is free, or thread t is the one inside. */
  ghost predicate Alone(s: State, t: nat) {
    s.holder.Free? || s.holder.t == t
  }

  lemma NextStepGoesOn(s: State, t: nat, key: Key) returns (id: nat)
    requires Inv(s) && MutexFits(s) && InCall(s, t, key) && Alone(s, t)
    ensures var a := NextStep(s, t);
      && Enabled(s, a)
      && var s' := Apply(s, a);
      && if At(s', t) && s'.threads[t] == Idle then Gets(s, s', t, key, id) else
        && InCall(s', t, key) && Alone(s', t) && StepsLeft(s', t) < StepsLeft(s, t)
        && s' == s.(threads := s.threads[t := s'.threads[t]], holder := s'.holder, tunnels := s'.tunnels)
        && if s'.tunnels == s.tunnels then !s'.holder.Storing? else
          && s'.tunnels == s.tunnels + [Tunnel(key, false)] && !SomeLive(s, key)
          && s'.holder.Storing? && s'.holder.id == |s.tunnels|
    ensures s.holder.Storing? ==> NextStep(s, t).Store? && id == s.holder.id
  {
    id := Candidate(s, NextStep(s, t), key);
  }

  lemma GetsLater(s: State, s1: State, s': State, t: nat, key: Key, id: nat)
    requires At(s, t) && At(s1, t) && Gets(s1, s', t, key, id)
    requires s1 == s.(threads := s.threads[t := s1.threads[t]], holder := s1.holder, tunnels := s1.tunnels)
    requires if s1.tunnels == s.tunnels then !s1.holder.Storing? else
      && s1.tunnels == s.tunnels + [Tunnel(key, false)] && !SomeLive(s, key)
      && s1.holder.Storing? && s1.holder.id == |s.tunnels| && id == |s.tunnels| && s'.tunnels == s1.tunnels
    ensures Gets(s, s', t, key, id)
  {
    assert s1.threads[t := Idle] == s.threads[t := Idle];
    if s1.tunnels == s.tunnels && SomeLive(s, key) {
      var j :| LiveFor(s, j, key);
      assert LiveFor(s1, j, key);
    }
  }

  lemma OneStep(s: State, a: Step)
    requires Enabled(s, a)
    ensures Runs(s, [a], Apply(s, a))
  {
    assert [a][1..] == [];
    assert Runs(Apply(s, a), [], Apply(s, a));
  }

  lemma RunsOn(s: State, a: Step, steps: seq<Step>, s': State)
    requires Enabled(s, a) && Runs(Apply(s, a), steps, s')
    ensures Runs(s, [a] + steps, s')
  {
    assert ([a] + steps)[0] == a && ([a] + steps)[1..] == steps;
  }

  /** Wherever a thread stands inside its call, once the mutex is free or its own it needs nobody else to get a
      tunnel for its key, unless creation fails. */
  lemma {:induction false} LoneCallCompletes(s: State, t: nat, key: Key)
    returns (steps: seq<Step>, s': State, id: nat)
    requires Inv(s) && MutexFits(s) && InCall(s, t, key) && Alone(s, t)
    ensures Runs(s, steps, s') && Gets(s, s', t, key, id)
    ensures s.holder.Storing? ==> id == s.holder.id && s'.tunnels == s.tunnels
    ensures s.threads[t].Looking? && Live(s, s.threads[t].id) ==> steps == [AskFound(t)]
    decreases StepsLeft(s, t)
  {
    var a := NextStep(s, t);
    id := NextStepGoesOn(s, t, key);
    var s1 := Apply(s, a);
    if s1.threads[t] == Idle {
      steps, s' := [a], s1;
      OneStep(s, a);
    } else {
      StepKeepsInv(s, a);
      StepKeepsMutex(s, a);
      steps, s', id := LoneCallCompletes(s1, t, key);
      GetsLater(s, s1, s', t, key, id);
      RunsOn(s, a, steps, s');
      steps := [a] + steps;
    }
  }

  /** In every reachable state with the mutex free a caller of Tunnel that is left alone gets a live tunnel for its
      key: the one that was live, found without entering the mutex, or else, unless creation fails, a new one. */
  lemma LoneCallerGetsItsTunnel(threads: nat, s: State, t: nat, key: Key)
    returns (steps: seq<Step>, s': State, id: nat)
    requires Reachable(threads, s) && s.holder.Free? && At(s, t) && s.threads[t] == Idle
    ensures Runs(s, [Lookup(t, key)] + steps, s')
    ensures s'.threads == s.threads && s'.holder.Free?
    ensures s'.returned == s.returned + [(key, id)] && LiveFor(s', id, key)
    ensures if SomeLive(s, key) then LiveFor(s, id, key) && s'.tunnels == s.tunnels && steps == [AskFound(t)]
            else id == |s.tunnels| && s'.tunnels == s.tunnels + [Tunnel(key, false)]
  {
    ReachableFits(threads, s);
    var a := Lookup(t, key);
    StepKeepsInv(s, a);
    StepKeepsMutex(s, a);
    var s1 := Apply(s, a);
    steps, s', id := LoneCallCompletes(s1, t, key);
    RunsOn(s, a, steps, s');
    assert s1.threads[t := Idle] == s.threads;
    if SomeLive(s, key) {
      var j :| LiveFor(s, j, key);
      assert LiveFor(s1, j, key);
    } else if LiveFor(s, id, key) {
      assert false;
    }
  }

  // ----- a lone stop completes -----

  lemma {:induction false} RunsConcat(s: State, a: seq<Step>, s1: State, b: seq<Step>, s2: State)
    requires Runs(s, a, s1) && Runs(s1, b, s2)
    ensures Runs(s, a + b, s2)
    decreases |a|
  {
    if a == [] {
      assert a + b == b;
    } else {
      RunsConcat(Apply(s, a[0]), a[1..], s1, b, s2);
      assert (a + b)[0] == a[0] && (a + b)[1..] == a[1..] + b;
    }
  }

  /** The tunnels of a group that are still live. */
  ghost function Running(s: State, ids: set<nat>): set<nat> {
    set id | id in ids && Live(s, id)
  }

  /** Only stopping flags were raised since s. */
  ghost predicate OnlyStopped(s: State, s': State) {
    && |s'.tunnels| == |s.tunnels|
    && (forall id :: 0 <= id < |s.tunnels| ==> s'.tunnels[id].key == s.tunnels[id].key)
    && (forall id :: Live(s', id) ==> Live(s, id))
    && s'.returned == s.returned && s'.threads == s.threads
  }

  /** The tunnels asked to stop do so one after the other. */
  lemma {:induction false} GroupStops(s: State) returns (steps: seq<Step>, s': State)
    requires s.holder.Waiting?
    ensures Runs(s, steps, s') && OnlyStopped(s, s') && s'.holder == s.holder && s'.entries == s.entries
    ensures Enabled(s', GroupStopped)
    decreases |Running(s, s.holder.ids)|
  {
    if Running(s, s.holder.ids) == {} {
      steps, s' := [], s;
      assert forall id :: id in s.holder.ids ==> (Live(s, id) <==> id in Running(s, s.holder.ids));
    } else {
      var id :| id in Running(s, s.holder.ids);
      var s1 := Apply(s, TunnelStops(id));
      assert Running(s1, s.holder.ids) == Running(s, s.holder.ids) - {id};
      steps, s' := GroupStops(s1);
      RunsOn(s, TunnelStops(id), steps, s');
      steps := [TunnelStops(id)] + steps;
    }
  }

  /** One group of the sweep. */
  lemma SweepGroup(s: State, key: Key) returns (steps: seq<Step>, s': State)
    requires s.holder.Sweeping? && key in s.entries
    ensures Runs(s, steps, s') && OnlyStopped(s, s') && s'.holder == s.holder
    ensures s'.entries.Keys < s.entries.Keys
  {
    var a := DeleteGroup(key.tp);
    var s1 := Apply(s, a);
    var s2;
    steps, s2 := GroupStops(s1);
    s' := Apply(s2, GroupStopped);
    OneStep(s2, GroupStopped);
    RunsConcat(s1, steps, s2, [GroupStopped], s');
    RunsOn(s, a, steps + [GroupStopped], s');
    steps := [a] + (steps + [GroupStopped]);
    assert key !in s1.entries;
    assert forall id :: (Live(s', id) <==> Live(s2, id)) && (Live(s1, id) <==> Live(s, id));
  }

  lemma SmallerKeys(a: set<Key>, b: set<Key>)
    requires a < b
    ensures |a| < |b|
  {
    var x :| x in b && x !in a;
    assert |a| <= |b - {x}| by { SubsetSize(a, b - {x}); }
  }

  lemma {:induction false} SubsetSize(a: set<Key>, b: set<Key>)
    requires a <= b
    ensures |a| <= |b|
  {
    if a != {} {
      var x :| x in a;
      SubsetSize(a - {x}, b - {x});
    }
  }

  lemma {:induction false} SweepCompletes(s: State) returns (steps: seq<Step>, s': State)
    requires s.holder.Sweeping?
    ensures Runs(s, steps, s') && OnlyStopped(s, s') && s'.holder == s.holder && s'.entries == map[]
    decreases |s.entries.Keys|
  {
    if s.entries == map[] {
      steps, s' := [], s;
    } else {
      var key :| key in s.entries;
      var first, s1 := SweepGroup(s, key);
      SmallerKeys(s1.entries.Keys, s.entries.Keys);
      steps, s' := SweepCompletes(s1);
      RunsConcat(s, first, s1, steps, s');
      steps := first + steps;
    }
  }

  /** In every reachable state with the mutex free a caller of stop needs only the tunnels to obey it: it leaves with
      no entry and nothing live, and has made and returned no tunnel. */
  lemma LoneStopCompletes(threads: nat, s: State, t: nat) returns (steps: seq<Step>, s': State)
    requires Reachable(threads, s) && s.holder.Free? && At(s, t) && s.threads[t] == Idle
    ensures Runs(s, [BeginStop(t)] + steps, s')
    ensures s'.holder.Free? && s'.entries == map[] && OnlyStopped(s, s') && forall id :: !Live(s', id)
  {
    ReachableFits(threads, s);
    var s1 := Apply(s, BeginStop(t));
    var s2;
    steps, s2 := SweepCompletes(s1);
    s' := Apply(s2, EndStop);
    OneStep(s2, EndStop);
    RunsConcat(s1, steps, s2, [EndStop], s');
    steps := steps + [EndStop];
    RunsOn(s, BeginStop(t), steps, s');
    assert s'.threads == s.threads;
    StepKeepsInv(s, BeginStop(t));
    RunKeepsInv(s1, steps, s');
    forall id ensures !Live(s', id) {
      assert Live(s', id) ==> Accounted(s', id);
    }
  }
}
