/** Concurrent use of one tunnel manager: any number of threads look tunnels up, create them and stop the
    manager, while every tunnel may start stopping by itself at any moment. The mutex admits one holder;
    `holder` says what the thread inside is about to do. */
module TunnelRuns {
  datatype Key = Key(tp: int, oid: int)

  datatype Tunnel = Tunnel(key: Key, stopping: bool)

  datatype Pc =
    | Idle
    | Looking(key: Key, id: nat)  // read-locked lookup found this entry, OnStopping not yet asked
    | Missed(key: Key)            // lookup missed, createTunnel not yet entered
    | Inside                      // holds the mutex

  datatype Holder =
    | Free
    | Checking(t: nat, key: Key)             // createTunnel entered
    | Creating(t: nat, key: Key)             // no usable entry, create not yet called
    | Storing(t: nat, key: Key, id: nat)     // create succeeded, entry not yet stored
    | Sweeping(t: nat)                       // stop entered, or between two groups
    | Waiting(t: nat, ids: set<nat>)         // group deleted, its tunnels asked to stop

  /** `returned` lists what the calls of Worker.Tunnel have returned, in order. */
  datatype State = State(
    tunnels: seq<Tunnel>,
    entries: map<Key, nat>,
    holder: Holder,
    threads: seq<Pc>,
    returned: seq<(Key, nat)>)

  datatype Step =
    | Lookup(t: nat, key: Key)
    | AskFound(t: nat)
    | Enter(t: nat)
    | Check
    | Create
    | CreateFails
    | Store
    | BeginStop(t: nat)
    | DeleteGroup(tp: int)
    | GroupStopped
    | EndStop
    | TunnelStops(id: nat)

  ghost function Init(threads: nat): State {
    State([], map[], Free, seq(threads, _ => Idle), [])
  }

  ghost predicate Live(s: State, id: nat) {
    id < |s.tunnels| && !s.tunnels[id].stopping
  }

  ghost predicate LiveFor(s: State, id: nat, key: Key) {
    Live(s, id) && s.tunnels[id].key == key
  }

  ghost predicate At(s: State, t: nat) {
    t < |s.threads|
  }

  ghost predicate Enabled(s: State, a: Step) {
    match a
    case Lookup(t, _) => At(s, t) && s.threads[t].Idle? && s.holder.Free?
    case AskFound(t) => At(s, t) && s.threads[t].Looking?
    case Enter(t) => At(s, t) && s.threads[t].Missed? && s.holder.Free?
    case Check => s.holder.Checking? && At(s, s.holder.t)
    case Create => s.holder.Creating?
    case CreateFails => s.holder.Creating? && At(s, s.holder.t)
    case Store => s.holder.Storing? && At(s, s.holder.t)
    case BeginStop(t) => At(s, t) && s.threads[t].Idle? && s.holder.Free?
    case DeleteGroup(tp) => s.holder.Sweeping? && exists k :: k in s.entries && k.tp == tp
    case GroupStopped => s.holder.Waiting? && forall id :: id in s.holder.ids ==> !Live(s, id)
    case EndStop => s.holder.Sweeping? && At(s, s.holder.t) && s.entries == map[]
    case TunnelStops(id) => id < |s.tunnels|
  }

  ghost function Goto(s: State, t: nat, pc: Pc): State
    requires At(s, t)
  {
    s.(threads := s.threads[t := pc])
  }

  ghost function Leave(s: State): State
    requires !s.holder.Free? && At(s, s.holder.t)
  {
    Goto(s, s.holder.t, Idle).(holder := Free)
  }

  ghost function Group(s: State, tp: int): set<nat> {
    set k | k in s.entries && k.tp == tp :: s.entries[k]
  }

  ghost function Apply(s: State, a: Step): State
    requires Enabled(s, a)
  {
    match a
    case Lookup(t, key) => Goto(s, t, if key in s.entries then Looking(key, s.entries[key]) else Missed(key))
    case AskFound(t) =>
      var pc := s.threads[t];
      if Live(s, pc.id) then
        Goto(s, t, Idle).(returned := s.returned + [(pc.key, pc.id)])
      else
        Goto(s, t, Missed(pc.key))
    case Enter(t) => Goto(s, t, Inside).(holder := Checking(t, s.threads[t].key))
    case Check =>
      var key := s.holder.key;
      if key in s.entries && Live(s, s.entries[key]) then
        Leave(s).(returned := s.returned + [(key, s.entries[key])])
      else
        s.(holder := Creating(s.holder.t, key))
    case Create =>
      s.(tunnels := s.tunnels + [Tunnel(s.holder.key, false)],
         holder := Storing(s.holder.t, s.holder.key, |s.tunnels|))
    case CreateFails => Leave(s)
    case Store =>
      var h := s.holder;
      Leave(s).(entries := s.entries[h.key := h.id], returned := s.returned + [(h.key, h.id)])
    case BeginStop(t) => Goto(s, t, Inside).(holder := Sweeping(t))
    case DeleteGroup(tp) =>
      s.(entries := map k | k in s.entries && k.tp != tp :: s.entries[k],
         holder := Waiting(s.holder.t, Group(s, tp)))
    case GroupStopped => s.(holder := Sweeping(s.holder.t))
    case EndStop => Leave(s)
    case TunnelStops(id) => s.(tunnels := s.tunnels[id := s.tunnels[id].(stopping := true)])
  }

  ghost predicate Runs(s: State, steps: seq<Step>, s': State)
    decreases |steps|
  {
    if steps == [] then s == s' else Enabled(s, steps[0]) && Runs(Apply(s, steps[0]), steps[1..], s')
  }

  ghost predicate Reachable(threads: nat, s: State) {
    exists steps :: Runs(Init(threads), steps, s)
  }

  // ----- invariant -----

  ghost predicate EntriesFit(s: State) {
    forall k :: k in s.entries ==> s.entries[k] < |s.tunnels| && s.tunnels[s.entries[k]].key == k
  }

  ghost predicate FoundFit(s: State) {
    forall t :: 0 <= t < |s.threads| && s.threads[t].Looking? ==>
      s.threads[t].id < |s.tunnels| && s.tunnels[s.threads[t].id].key == s.threads[t].key
  }

  ghost predicate HolderFits(s: State) {
    match s.holder
    case Creating(_, key) => forall id :: !LiveFor(s, id, key)
    case Storing(_, key, id) =>
      id < |s.tunnels| && s.tunnels[id].key == key && forall j :: LiveFor(s, j, key) ==> j == id
    case _ => true
  }

  /** A live tunnel is registered, or the thread inside the mutex is about to store or to stop it. */
  ghost predicate Accounted(s: State, id: nat) {
    id < |s.tunnels| &&
    var key := s.tunnels[id].key;
    || (key in s.entries && s.entries[key] == id)
    || (s.holder.Storing? && s.holder.id == id)
    || (s.holder.Waiting? && id in s.holder.ids)
  }

  ghost predicate AllAccounted(s: State) {
    forall id :: 0 <= id < |s.tunnels| && Live(s, id) ==> Accounted(s, id)
  }

  ghost predicate OneLive(s: State) {
    forall i, j :: 0 <= i < |s.tunnels| && 0 <= j < |s.tunnels| && Live(s, i) && Live(s, j) ==>
      s.tunnels[i].key == s.tunnels[j].key ==> i == j
  }

  /** Of two different tunnels returned for a key, the earlier has begun to stop. */
  ghost predicate ReturnsAgree(s: State) {
    && (forall a :: 0 <= a < |s.returned| ==>
          s.returned[a].1 < |s.tunnels| && s.tunnels[s.returned[a].1].key == s.returned[a].0)
    && (forall a, b :: 0 <= a < b < |s.returned| && s.returned[a].0 == s.returned[b].0 ==>
          s.returned[a].1 == s.returned[b].1 || !Live(s, s.returned[a].1))
  }

  ghost predicate Inv(s: State) {
    && EntriesFit(s)
    && FoundFit(s)
    && HolderFits(s)
    && AllAccounted(s)
    && OneLive(s)
    && ReturnsAgree(s)
  }

  /** A step that changes no tunnel keeps what was live. */
  lemma SameTunnels(s: State, s': State)
    requires s'.tunnels == s.tunnels
    ensures forall id :: Live(s', id) <==> Live(s, id)
    ensures forall id, key :: LiveFor(s', id, key) <==> LiveFor(s, id, key)
  {
  }

  lemma CheckKeepsInv(s: State)
    requires Enabled(s, Check) && Inv(s)
    ensures Inv(Apply(s, Check))
  {
    var s' := Apply(s, Check);
    SameTunnels(s, s');
    forall id | 0 <= id < |s.tunnels| && Live(s', id) ensures Accounted(s', id) {
      assert Live(s, id) && Accounted(s, id);
    }
    if s'.holder.Creating? {
      forall id ensures !LiveFor(s', id, s.holder.key) {
        assert LiveFor(s, id, s.holder.key) ==> Accounted(s, id);
      }
    }
  }

  lemma CreateKeepsInv(s: State)
    requires Enabled(s, Create) && Inv(s)
    ensures Inv(Apply(s, Create))
  {
    var s' := Apply(s, Create);
    forall i | 0 <= i < |s.tunnels| && Live(s', i) ensures Accounted(s', i) && s.tunnels[i].key != s.holder.key {
      assert Live(s, i) && Accounted(s, i);
      assert !LiveFor(s, i, s.holder.key);
    }
  }

  lemma StoreKeepsInv(s: State)
    requires Enabled(s, Store) && Inv(s)
    ensures Inv(Apply(s, Store))
  {
    var s' := Apply(s, Store);
    SameTunnels(s, s');
    forall i | 0 <= i < |s.tunnels| && Live(s', i) ensures Accounted(s', i) {
      assert Live(s, i) && Accounted(s, i);
      assert LiveFor(s, i, s.tunnels[i].key);
    }
    forall a | 0 <= a < |s.returned| && s.returned[a].0 == s.holder.key && s.returned[a].1 != s.holder.id
      ensures !Live(s', s.returned[a].1)
    {
      assert !LiveFor(s, s.returned[a].1, s.holder.key);
    }
  }

  lemma AskFoundKeepsInv(s: State, a: Step)
    requires Enabled(s, a) && a.AskFound? && Inv(s)
    ensures Inv(Apply(s, a))
  {
    var s' := Apply(s, a);
    SameTunnels(s, s');
    forall id | 0 <= id < |s.tunnels| && Live(s', id) ensures Accounted(s', id) {
      assert Live(s, id) && Accounted(s, id);
    }
  }

  lemma TunnelStopsKeepsInv(s: State, a: Step)
    requires Enabled(s, a) && a.TunnelStops? && Inv(s)
    ensures Inv(Apply(s, a))
  {
    var s' := Apply(s, a);
    assert forall id :: Live(s', id) ==> Live(s, id);
    assert forall id, key :: LiveFor(s', id, key) ==> LiveFor(s, id, key);
    forall id | 0 <= id < |s.tunnels| && Live(s', id) ensures Accounted(s', id) {
      assert Live(s, id) && Accounted(s, id);
    }
  }

  lemma DeleteGroupKeepsInv(s: State, a: Step)
    requires Enabled(s, a) && a.DeleteGroup? && Inv(s)
    ensures Inv(Apply(s, a))
  {
    var s' := Apply(s, a);
    SameTunnels(s, s');
    forall id | 0 <= id < |s.tunnels| && Live(s', id) ensures Accounted(s', id) {
      assert Live(s, id) && Accounted(s, id);
      var key := s.tunnels[id].key;
      assert key.tp == a.tp ==> s.entries[key] in Group(s, a.tp);
    }
  }

  /** The steps that change neither tunnels nor entries nor what was returned. */
  lemma QuietKeepsInv(s: State, a: Step)
    requires Enabled(s, a) && Inv(s)
    requires a.Lookup? || a.Enter? || a.CreateFails? || a.BeginStop? || a.GroupStopped? || a.EndStop?
    ensures Inv(Apply(s, a))
  {
    var s' := Apply(s, a);
    SameTunnels(s, s');
    forall id | 0 <= id < |s.tunnels| && Live(s', id) ensures Accounted(s', id) {
      assert Live(s, id) && Accounted(s, id);
    }
  }

  lemma StepKeepsInv(s: State, a: Step)
    requires Enabled(s, a) && Inv(s)
    ensures Inv(Apply(s, a))
  {
    match a
    case Check => CheckKeepsInv(s);
    case Create => CreateKeepsInv(s);
    case Store => StoreKeepsInv(s);
    case AskFound(_) => AskFoundKeepsInv(s, a);
    case TunnelStops(_) => TunnelStopsKeepsInv(s, a);
    case DeleteGroup(_) => DeleteGroupKeepsInv(s, a);
    case _ => QuietKeepsInv(s, a);
  }

  lemma {:induction false} RunKeepsInv(s: State, steps: seq<Step>, s': State)
    requires Inv(s) && Runs(s, steps, s')
    ensures Inv(s')
    decreases |steps|
  {
    if steps != [] {
      StepKeepsInv(s, steps[0]);
      RunKeepsInv(Apply(s, steps[0]), steps[1..], s');
    }
  }

  lemma ReachableInv(threads: nat, s: State)
    requires Reachable(threads, s)
    ensures Inv(s)
  {
    var steps :| Runs(Init(threads), steps, s);
    RunKeepsInv(Init(threads), steps, s);
  }

  // ----- theorems -----

  /** In every interleaving at most one tunnel per type and object id is not stopping. */
  lemma AtMostOneLive(threads: nat, s: State, i: nat, j: nat)
    requires Reachable(threads, s) && Live(s, i) && Live(s, j) && s.tunnels[i].key == s.tunnels[j].key
    ensures i == j
  {
    ReachableInv(threads, s);
  }

  /** Two callers get the same tunnel for the same key unless the one returned first began to stop. */
  lemma CallersAgree(threads: nat, s: State, a: nat, b: nat)
    requires Reachable(threads, s) && a < b < |s.returned| && s.returned[a].0 == s.returned[b].0
    ensures s.returned[a].1 == s.returned[b].1 || !Live(s, s.returned[a].1)
  {
    ReachableInv(threads, s);
  }

  /** When stop leaves the mutex no tunnel made so far is live, returned or not. */
  lemma StopLeavesNothingLive(threads: nat, s: State, id: nat)
    requires Reachable(threads, s) && Enabled(s, EndStop)
    ensures !Live(s, id)
  {
    ReachableInv(threads, s);
    assert Live(s, id) ==> Accounted(s, id);
  }
}
