/** Several managers sharing the package-level uid index, with every map operation of Put and Del an
    atomic step of its own. Each manager serves one listener, whose generator issues its ids. */
module UidSafety {
  import opened Bytes
  import opened Registry
  import opened Bits
  import opened ConnIds

  /** The net type of each manager's listener. */
  type Nets = seq<bv64>

  ghost predicate ValidNets(nets: Nets) {
    forall m :: 0 <= m < |nets| ==> nets[m] < 16
  }

  /** A Put or Del that has begun and not yet taken this step. */
  datatype Pending =
    | Insert(m: nat, w: Worker)     // LoadOrStore into the bucket
    | StoreUid(m: nat, w: Worker)   // then Store into the uid index
    | Remove(m: nat, wid: Wid)      // Delete from the bucket, after the delete from the index

  /** A manager's size counter, the adds still due to it, and the deletes that found no worker. */
  datatype Tally = Tally(size: int, ups: nat, downs: nat, absent: nat)

  /** `owner` remembers which user each issued id belongs to. */
  datatype State = State(
    flats: seq<map<Wid, Worker>>,
    counters: seq<nat>,
    index: map<Key, Wid>,
    pending: multiset<Pending>,
    tallies: seq<Tally>,
    owner: map<Wid, int>)

  datatype Step =
    | Connect(m: nat, w: Worker, c: bv64)  // a connection gets its id from counter c and authenticates as w.uid
    | Perform(p: Pending)
    | BeginDel(m: nat, wid: Wid)
    | CountUp(m: nat)                      // size.Add(1) of a Put that stored its worker
    | CountDown(m: nat)                    // size.Add(-1) of a Del

  ghost function Init(nets: Nets): State {
    State(seq(|nets|, _ => map[]), seq(|nets|, _ => 0), map[], multiset{}, seq(|nets|, _ => Tally(0, 0, 0, 0)), map[])
  }

  /** Ids stay below the generator's bound of 2^60. */
  ghost predicate Enabled(nets: Nets, s: State, a: Step) {
    match a
    case Connect(m, w, c) =>
      && m < |nets| && m < |s.counters|
      && Value(c) == s.counters[m] + 1 && c < 0x1000_0000_0000_0000
      && w.wid == Value(Next(c, nets[m]))
    case Perform(p) => p in s.pending && p.m < |s.flats| && p.m < |s.tallies|
    case BeginDel(m, wid) => m < |s.flats|
    case CountUp(m) => m < |s.tallies| && s.tallies[m].ups > 0
    case CountDown(m) => m < |s.tallies| && s.tallies[m].downs > 0
  }

  ghost function Apply(nets: Nets, s: State, a: Step): State
    requires Enabled(nets, s, a)
  {
    match a
    case Connect(m, w, _) =>
      s.(counters := s.counters[m := s.counters[m] + 1],
         pending := s.pending + multiset{Insert(m, w)},
         owner := s.owner[w.wid := w.uid])
    case BeginDel(m, wid) =>
      s.(index := s.index - {OfUint64(wid)}, pending := s.pending + multiset{Remove(m, wid)})
    case Perform(Insert(m, w)) =>
      var rest := s.pending - multiset{Insert(m, w)};
      if w.wid in s.flats[m] then
        s.(pending := rest)
      else
        var t := s.tallies[m];
        s.(flats := s.flats[m := Enter(s.flats[m], w)], pending := rest + multiset{StoreUid(m, w)},
           tallies := s.tallies[m := t.(ups := t.ups + 1)])
    case Perform(StoreUid(m, w)) =>
      s.(index := s.index[OfInt64(w.uid) := w.wid], pending := s.pending - multiset{StoreUid(m, w)})
    case Perform(Remove(m, wid)) =>
      var t := s.tallies[m];
      s.(flats := s.flats[m := s.flats[m] - {wid}], pending := s.pending - multiset{Remove(m, wid)},
         tallies := s.tallies[m := t.(downs := t.downs + 1, absent := t.absent + if wid in s.flats[m] then 0 else 1)])
    case CountUp(m) =>
      var t := s.tallies[m];
      s.(tallies := s.tallies[m := t.(size := t.size + 1, ups := t.ups - 1)])
    case CountDown(m) =>
      var t := s.tallies[m];
      s.(tallies := s.tallies[m := t.(size := t.size - 1, downs := t.downs - 1)])
  }

  ghost predicate Runs(nets: Nets, s: State, steps: seq<Step>, s': State)
    decreases |steps|
  {
    if steps == [] then s == s'
    else Enabled(nets, s, steps[0]) && Runs(nets, Apply(nets, s, steps[0]), steps[1..], s')
  }

  ghost predicate Reachable(nets: Nets, s: State) {
    exists steps :: Runs(nets, Init(nets), steps, s)
  }

  /** GetByUID on manager m: the index is loaded in s, the bucket later, in s'. */
  ghost function GetByUID(s: State, s': State, m: nat, uid: int): Option<Worker>
    requires m < |s'.flats|
  {
    Lookup(Flat(s'.flats[m], s.index, 0), uid)
  }

  /** No manager answers with another user's worker. */
  ghost predicate Safe(s: State, s': State) {
    forall m, uid :: 0 <= m < |s'.flats| && GetByUID(s, s', m, uid).Some? ==> GetByUID(s, s', m, uid).value.uid == uid
  }

  /** In any run, whatever happens before the first load of a lookup and between its two loads. */
  ghost predicate AlwaysSafe(nets: Nets) {
    forall s, steps, s' :: Reachable(nets, s) && Runs(nets, s, steps, s') ==> Safe(s, s')
  }

  ghost predicate Distinct(nets: Nets) {
    forall m, n :: 0 <= m < n < |nets| ==> nets[m] != nets[n]
  }

  // ----- distinct net types suffice -----

  ghost predicate Issued(nets: Nets, s: State, wid: Wid)
    requires |s.counters| == |nets|
  {
    exists m, c :: 0 <= m < |nets| && 0 < c <= s.counters[m] && wid == Id(c, Value(nets[m]))
  }

  ghost predicate Owned(s: State, w: Worker) {
    w.wid in s.owner && s.owner[w.wid] == w.uid
  }

  ghost predicate Inv(nets: Nets, s: State) {
    && |s.flats| == |s.counters| == |s.tallies| == |nets|
    && (forall x :: x in s.owner ==> Issued(nets, s, x))
    && (forall m, x :: 0 <= m < |s.flats| && x in s.flats[m] ==> s.flats[m][x].wid == x && Owned(s, s.flats[m][x]))
    && (forall p :: p in s.pending && !p.Remove? ==> Owned(s, p.w))
    && (forall u :: OfInt64(u) in s.index ==> s.index[OfInt64(u)] in s.owner && s.owner[s.index[OfInt64(u)]] == u)
  }

  lemma StepKeepsOwners(nets: Nets, s: State, a: Step)
    requires ValidNets(nets) && Distinct(nets) && Inv(nets, s) && Enabled(nets, s, a)
    ensures forall x :: x in s.owner ==> x in Apply(nets, s, a).owner && Apply(nets, s, a).owner[x] == s.owner[x]
  {
    if a.Connect? {
      FreshId(nets, s, a.m, a.c);
    }
  }

  lemma {:induction false} OwnersStay(nets: Nets, s: State, steps: seq<Step>, s': State)
    requires ValidNets(nets) && Distinct(nets) && Inv(nets, s) && Runs(nets, s, steps, s')
    ensures Inv(nets, s') && forall x :: x in s.owner ==> x in s'.owner && s'.owner[x] == s.owner[x]
    decreases |steps|
  {
    if steps != [] {
      StepKeepsInv(nets, s, steps[0]);
      StepKeepsOwners(nets, s, steps[0]);
      OwnersStay(nets, Apply(nets, s, steps[0]), steps[1..], s');
    }
  }

  /** An index entry names an id of that user, then and ever after; a bucket holds it only for its owner. */
  lemma InvIsSafe(nets: Nets, s: State, steps: seq<Step>, s': State)
    requires ValidNets(nets) && Distinct(nets) && Inv(nets, s) && Runs(nets, s, steps, s')
    ensures Safe(s, s')
  {
    OwnersStay(nets, s, steps, s');
  }

  lemma SmallNet(t: bv64)
    requires t < 16
    ensures Value(t) < 16
  {
    FourBits(t);
    ValueStep(t);
    ValueStep(Half(t));
    ValueStep(Half(Half(t)));
    ValueStep(Half(Half(Half(t))));
  }

  lemma SameNet(t: bv64, u: bv64)
    requires Value(t) == Value(u)
    ensures t == u
  {
    WordOfValue(t);
    WordOfValue(u);
  }

  /** The word the generator computes is an id nobody has. */
  lemma FreshId(nets: Nets, s: State, m: nat, c: bv64)
    requires ValidNets(nets) && Distinct(nets) && Inv(nets, s) && m < |nets|
    requires Value(c) == s.counters[m] + 1 && c < 0x1000_0000_0000_0000
    ensures Value(Next(c, nets[m])) == Id(s.counters[m] + 1, Value(nets[m]))
    ensures Value(Next(c, nets[m])) !in s.owner
  {
    NextIsId(c, nets[m]);
    var id := Id(s.counters[m] + 1, Value(nets[m]));
    if id in s.owner {
      assert Issued(nets, s, id);
      var n, d :| 0 <= n < |nets| && 0 < d <= s.counters[n] && id == Id(d, Value(nets[n]));
      SmallNet(nets[m]);
      SmallNet(nets[n]);
      IdsAreDistinct(s.counters[m] + 1, Value(nets[m]), d, Value(nets[n]));
      SameNet(nets[m], nets[n]);
    }
  }

  lemma IssuedStays(nets: Nets, s: State, s': State, x: Wid)
    requires |s.counters| == |s'.counters| == |nets| && Issued(nets, s, x)
    requires forall m :: 0 <= m < |nets| ==> s.counters[m] <= s'.counters[m]
    ensures Issued(nets, s', x)
  {
    var m, c :| 0 <= m < |nets| && 0 < c <= s.counters[m] && x == Id(c, Value(nets[m]));
    assert 0 < c <= s'.counters[m];
  }

  lemma ConnectKeepsInv(nets: Nets, s: State, m: nat, w: Worker, c: bv64)
    requires ValidNets(nets) && Distinct(nets) && Inv(nets, s) && Enabled(nets, s, Connect(m, w, c))
    ensures Inv(nets, Apply(nets, s, Connect(m, w, c)))
  {
    var s' := Apply(nets, s, Connect(m, w, c));
    FreshId(nets, s, m, c);
    forall x | x in s'.owner ensures Issued(nets, s', x) {
      if x == w.wid {
        assert x == Id(s'.counters[m], Value(nets[m]));
      } else {
        IssuedStays(nets, s, s', x);
      }
    }
  }

  /** Steps that issue no id leave the ids issued so far as they are. */
  lemma SameIssued(nets: Nets, s: State, s': State)
    requires Inv(nets, s) && s'.counters == s.counters && s'.owner == s.owner
    ensures forall x :: x in s'.owner ==> Issued(nets, s', x)
  {
    forall x | x in s'.owner ensures Issued(nets, s', x) {
      IssuedStays(nets, s, s', x);
    }
  }

  lemma DelKeepsInv(nets: Nets, s: State, a: Step)
    requires Inv(nets, s) && Enabled(nets, s, a)
    requires a.BeginDel? || a.CountUp? || a.CountDown? || (a.Perform? && a.p.Remove?)
    ensures Inv(nets, Apply(nets, s, a))
  {
    SameIssued(nets, s, Apply(nets, s, a));
  }

  /** Nothing is pending but what was, or a step for a worker that was. */
  ghost predicate NothingNew(s: State, s': State, w: Worker) {
    forall p :: p in s'.pending && !p.Remove? ==> p in s.pending || p.w == w
  }

  lemma EnterKeepsInv(nets: Nets, s: State, s': State, m: nat, w: Worker)
    requires Inv(nets, s) && Owned(s, w) && m < |s.flats| && NothingNew(s, s', w)
    requires s' == s.(flats := s'.flats, pending := s'.pending, tallies := s'.tallies) && |s'.tallies| == |s.tallies|
    requires s'.flats == s.flats || s'.flats == s.flats[m := Enter(s.flats[m], w)]
    ensures Inv(nets, s')
  {
    SameIssued(nets, s, s');
    forall k, x | 0 <= k < |s'.flats| && x in s'.flats[k] ensures s'.flats[k][x].wid == x && Owned(s', s'.flats[k][x]) {
      assert s'.flats[k][x] == w || (x in s.flats[k] && s'.flats[k][x] == s.flats[k][x]);
    }
  }

  lemma InsertKeepsInv(nets: Nets, s: State, a: Step)
    requires Inv(nets, s) && Enabled(nets, s, a) && a.Perform? && a.p.Insert?
    ensures Inv(nets, Apply(nets, s, a))
  {
    var s' := Apply(nets, s, a);
    assert NothingNew(s, s', a.p.w);
    EnterKeepsInv(nets, s, s', a.p.m, a.p.w);
  }

  lemma StoreKeepsInv(nets: Nets, s: State, a: Step)
    requires Inv(nets, s) && Enabled(nets, s, a) && a.Perform? && a.p.StoreUid?
    ensures Inv(nets, Apply(nets, s, a))
  {
    SameIssued(nets, s, Apply(nets, s, a));
  }

  lemma StepKeepsInv(nets: Nets, s: State, a: Step)
    requires ValidNets(nets) && Distinct(nets) && Inv(nets, s) && Enabled(nets, s, a)
    ensures Inv(nets, Apply(nets, s, a))
  {
    match a
    case Connect(m, w, c) => ConnectKeepsInv(nets, s, m, w, c);
    case Perform(Insert(_, _)) => InsertKeepsInv(nets, s, a);
    case Perform(StoreUid(_, _)) => StoreKeepsInv(nets, s, a);
    case _ => DelKeepsInv(nets, s, a);
  }

  lemma InitInv(nets: Nets)
    ensures Inv(nets, Init(nets))
  {
  }

  lemma ReachableInv(nets: Nets, s: State)
    requires ValidNets(nets) && Distinct(nets) && Reachable(nets, s)
    ensures Inv(nets, s)
  {
    var steps :| Runs(nets, Init(nets), steps, s);
    InitInv(nets);
    OwnersStay(nets, Init(nets), steps, s);
  }

  // ----- equal net types do not -----

  lemma {:induction false} RunsStep(nets: Nets, s: State, steps: seq<Step>, s': State, a: Step)
    requires Runs(nets, s, steps, s') && Enabled(nets, s', a)
    ensures Runs(nets, s, steps + [a], Apply(nets, s', a))
    decreases |steps|
  {
    if steps == [] {
      assert ([] + [a])[1..] == [];
    } else {
      RunsStep(nets, Apply(nets, s, steps[0]), steps[1..], s', a);
      assert (steps + [a])[0] == steps[0] && (steps + [a])[1..] == steps[1..] + [a];
    }
  }

  lemma ReachableStep(nets: Nets, s: State, a: Step)
    requires Reachable(nets, s) && Enabled(nets, s, a)
    ensures Reachable(nets, Apply(nets, s, a))
  {
    var steps :| Runs(nets, Init(nets), steps, s);
    RunsStep(nets, Init(nets), steps, s, a);
  }

  /** A connection that runs its Put undisturbed: an id, the bucket, ... */
  lemma Arrive(nets: Nets, s: State, m: nat, w: Worker, c: bv64) returns (s': State)
    requires Reachable(nets, s) && Enabled(nets, s, Connect(m, w, c))
    requires m < |s.flats| == |s.tallies| && w.wid !in s.flats[m]
    ensures Reachable(nets, s') && StoreUid(m, w) in s'.pending
    ensures s'.flats == s.flats[m := Enter(s.flats[m], w)] && s'.index == s.index
    ensures s'.counters == s.counters[m := s.counters[m] + 1] && |s'.tallies| == |s.tallies|
  {
    hide Reachable, Id, Value;
    ReachableStep(nets, s, Connect(m, w, c));
    var s1 := Apply(nets, s, Connect(m, w, c));
    ReachableStep(nets, s1, Perform(Insert(m, w)));
    s' := Apply(nets, s1, Perform(Insert(m, w)));
  }

  /** ... and the index. */
  lemma Join(nets: Nets, s: State, m: nat, w: Worker, c: bv64) returns (s': State)
    requires Reachable(nets, s) && Enabled(nets, s, Connect(m, w, c))
    requires m < |s.flats| == |s.tallies| && w.wid !in s.flats[m]
    ensures Reachable(nets, s')
    ensures s'.flats == s.flats[m := Enter(s.flats[m], w)] && s'.index == s.index[OfInt64(w.uid) := w.wid]
    ensures s'.counters == s.counters[m := s.counters[m] + 1] && |s'.tallies| == |s.tallies|
  {
    var s1 := Arrive(nets, s, m, w, c);
    ReachableStep(nets, s1, Perform(StoreUid(m, w)));
    s' := Apply(nets, s1, Perform(StoreUid(m, w)));
  }

  /** Two managers of the same net type issue the same id to different users. */
  lemma SameNetTypeConfusesUsers(nets: Nets, m: nat, n: nat) returns (s: State)
    requires m < n < |nets| && nets[m] == nets[n]
    ensures Reachable(nets, s) && m < |s.flats| && !Safe(s, s)
    ensures GetByUID(s, s, m, 2) == Some(Worker(Value(Next(1, nets[m])), 1, 0, "", 0))
  {
    var id := Value(Next(1, nets[m]));
    var a, b := Worker(id, 1, 0, "", 0), Worker(id, 2, 0, "", 1);
    assert Runs(nets, Init(nets), [], Init(nets));
    ValueOfOne();
    var s1 := Join(nets, Init(nets), m, a, 1);
    s := Join(nets, s1, n, b, 1);
    assert GetByUID(s, s, m, 2) == Some(a);
  }

  /** Over all runs of all managers, with any steps between the two loads of a lookup, GetByUID never returns
      another user's worker exactly when the managers' net types are pairwise different. */
  lemma UidLookupSafeIffNetsDistinct(nets: Nets)
    requires ValidNets(nets)
    ensures AlwaysSafe(nets) <==> Distinct(nets)
  {
    if Distinct(nets) {
      forall s, steps, s' | Reachable(nets, s) && Runs(nets, s, steps, s') ensures Safe(s, s') {
        ReachableInv(nets, s);
        InvIsSafe(nets, s, steps, s');
      }
    } else {
      var m, n :| 0 <= m < n < |nets| && nets[m] == nets[n];
      var s := SameNetTypeConfusesUsers(nets, m, n);
      assert Runs(nets, s, [], s);
    }
  }

  // ----- batched lookups -----

  /** The lookup of one requested user inside a batch: its index load in s, its bucket load later, in s'. Every load
      of the batch may see a state of its own. */
  datatype Load = Load(uid: int, s: State, steps: seq<Step>, s': State)

  ghost predicate OnRuns(nets: Nets, loads: seq<Load>, m: nat) {
    forall i :: 0 <= i < |loads| ==>
      && Reachable(nets, loads[i].s) && Runs(nets, loads[i].s, loads[i].steps, loads[i].s')
      && m < |loads[i].s'.flats|
  }

  ghost function Find(l: Load, m: nat): Option<Worker>
    requires m < |l.s'.flats|
  {
    GetByUID(l.s, l.s', m, l.uid)
  }

  /** What GetByUIDs may return for these loads: found workers keyed by their own uid, none found missing. */
  ghost predicate Collected(loads: seq<Load>, m: nat, result: map<int, Worker>)
    requires forall i :: 0 <= i < |loads| ==> m < |loads[i].s'.flats|
  {
    && (forall u :: u in result ==>
          result[u].uid == u && exists i :: 0 <= i < |loads| && Find(loads[i], m) == Some(result[u]))
    && (forall i :: 0 <= i < |loads| && Find(loads[i], m).Some? ==> Find(loads[i], m).value.uid in result)
  }

  /** The result has exactly the requested users whose lookup finds something, each with what its own lookup found. */
  ghost predicate Pointwise(loads: seq<Load>, m: nat, result: map<int, Worker>)
    requires forall i :: 0 <= i < |loads| ==> m < |loads[i].s'.flats|
  {
    && (forall u :: u in result ==>
          exists i :: 0 <= i < |loads| && loads[i].uid == u && Find(loads[i], m) == Some(result[u]))
    && (forall i :: 0 <= i < |loads| && Find(loads[i], m).Some? ==> loads[i].uid in result)
  }

  ghost predicate AlwaysPointwise(nets: Nets) {
    forall loads, m, result :: OnRuns(nets, loads, m) && Collected(loads, m, result) ==> Pointwise(loads, m, result)
  }

  lemma FindsOwnUser(nets: Nets, loads: seq<Load>, m: nat, i: nat)
    requires ValidNets(nets) && Distinct(nets) && OnRuns(nets, loads, m) && i < |loads|
    ensures Find(loads[i], m).Some? ==> Find(loads[i], m).value.uid == loads[i].uid
  {
    var l := loads[i];
    ReachableInv(nets, l.s);
    InvIsSafe(nets, l.s, l.steps, l.s');
  }

  lemma DistinctIsPointwise(nets: Nets, loads: seq<Load>, m: nat, result: map<int, Worker>)
    requires ValidNets(nets) && Distinct(nets) && OnRuns(nets, loads, m) && Collected(loads, m, result)
    ensures Pointwise(loads, m, result)
  {
    forall i | 0 <= i < |loads| ensures Find(loads[i], m).Some? ==> Find(loads[i], m).value.uid == loads[i].uid {
      FindsOwnUser(nets, loads, m, i);
    }
    forall u | u in result
      ensures exists i :: 0 <= i < |loads| && loads[i].uid == u && Find(loads[i], m) == Some(result[u])
    {
      var i :| 0 <= i < |loads| && Find(loads[i], m) == Some(result[u]);
    }
  }

  /** Two managers of the same net type: a batch for one user alone answers with another, who was not asked for. */
  lemma SameNetTypeMisfilesBatch(nets: Nets, m: nat, n: nat) returns (loads: seq<Load>, result: map<int, Worker>)
    requires m < n < |nets| && nets[m] == nets[n]
    ensures OnRuns(nets, loads, m) && Collected(loads, m, result) && !Pointwise(loads, m, result)
  {
    var s := SameNetTypeConfusesUsers(nets, m, n);
    var w := GetByUID(s, s, m, 2).value;
    loads, result := [Load(2, s, [], s)], map[w.uid := w];
    assert Find(loads[0], m) == Some(w);
  }

  /** Over all runs, with a state of its own for every load, GetByUIDs is the map of the single lookups exactly when
      the managers' net types are pairwise different. */
  lemma BatchPointwiseIffNetsDistinct(nets: Nets)
    requires ValidNets(nets)
    ensures AlwaysPointwise(nets) <==> Distinct(nets)
  {
    if Distinct(nets) {
      forall loads, m, result | OnRuns(nets, loads, m) && Collected(loads, m, result)
        ensures Pointwise(loads, m, result)
      {
        DistinctIsPointwise(nets, loads, m, result);
      }
    } else {
      var m, n :| 0 <= m < n < |nets| && nets[m] == nets[n];
      var loads, result := SameNetTypeMisfilesBatch(nets, m, n);
    }
  }

  /** When all index loads see one state and all bucket loads another, this is what the manager's own GetByUIDs
      ensures. */
  lemma GatheredIsCollected(s: State, steps: seq<Step>, s': State, m: nat, uids: seq<int>, result: map<int, Worker>)
    requires m < |s'.flats| && Gathered(Flat(s'.flats[m], s.index, 0), uids, result)
    ensures Collected(seq(|uids|, i requires 0 <= i < |uids| => Load(uids[i], s, steps, s')), m, result)
  {
    var loads := seq(|uids|, i requires 0 <= i < |uids| => Load(uids[i], s, steps, s'));
    var r := Flat(s'.flats[m], s.index, 0);
    assert forall i :: 0 <= i < |uids| ==> Find(loads[i], m) == Lookup(r, uids[i]);
    forall u | u in result ensures exists i :: 0 <= i < |loads| && Find(loads[i], m) == Some(result[u]) {
      var uid :| uid in uids && Lookup(r, uid) == Some(result[u]);
      var i :| 0 <= i < |uids| && uids[i] == uid;
      assert Find(loads[i], m) == Some(result[u]);
    }
  }

  /** So on a manager that shares the index, its GetByUIDs is exactly the map of what single lookups return. */
  lemma BatchedLookupIsPointwise(
      nets: Nets, s: State, steps: seq<Step>, s': State, m: nat, uids: seq<int>, result: map<int, Worker>)
    requires ValidNets(nets) && Distinct(nets) && Reachable(nets, s) && Runs(nets, s, steps, s') && m < |s'.flats|
    requires Gathered(Flat(s'.flats[m], s.index, 0), uids, result)
    ensures forall u :: u in result <==> u in uids && GetByUID(s, s', m, u).Some?
    ensures forall u :: u in result ==> Some(result[u]) == GetByUID(s, s', m, u)
  {
    ReachableInv(nets, s);
    InvIsSafe(nets, s, steps, s');
    var r := Flat(s'.flats[m], s.index, 0);
    assert forall u :: Lookup(r, u) == GetByUID(s, s', m, u);
  }

  // ----- a call that is not disturbed is the flat registry's -----

  /** Manager m as a flat registry. */
  ghost function View(s: State, m: nat): Flat
    requires m < |s.flats| && m < |s.tallies|
  {
    Flat(s.flats[m], s.index, s.tallies[m].size)
  }

  /** Nothing but manager m's workers, its counter and the index differs. */
  ghost predicate OnlyManager(s: State, s': State, m: nat) {
    && m < |s.flats| == |s'.flats| && m < |s.tallies| == |s'.tallies|
    && s' == s.(flats := s.flats[m := s'.flats[m]], index := s'.index, pending := s'.pending,
                tallies := s.tallies[m := s'.tallies[m]])
    && s'.tallies[m].ups == s.tallies[m].ups && s'.tallies[m].downs == s.tallies[m].downs
  }

  /** The steps of a Put one after the other are Registry.Put, also under an occupied id. */
  lemma UndisturbedPut(nets: Nets, s: State, m: nat, w: Worker) returns (steps: seq<Step>, s': State)
    requires Insert(m, w) in s.pending && m < |s.flats| && m < |s.tallies|
    ensures Runs(nets, s, steps, s') && OnlyManager(s, s', m) && s'.pending == s.pending - multiset{Insert(m, w)}
    ensures View(s', m) == Put(View(s, m), w)
  {
    hide Runs;
    var s1;
    steps, s1 := StartPut(nets, s, m, w);
    s' := s1;
    if w.wid !in s.flats[m] {
      steps, s' := FinishPut(nets, s, steps, s1, m, w);
      PutAdds(s, s1, s', m, w);
    }
  }

  /** What the two halves of a Put under a free id come to. */
  lemma PutAdds(s: State, s1: State, s': State, m: nat, w: Worker)
    requires m < |s.flats| && m < |s.tallies| && w.wid !in s.flats[m] && Insert(m, w) in s.pending
    requires var t := s.tallies[m];
      s1 == s.(flats := s.flats[m := Enter(s.flats[m], w)],
               pending := s.pending - multiset{Insert(m, w)} + multiset{StoreUid(m, w)},
               tallies := s.tallies[m := t.(ups := t.ups + 1)])
    requires var t := s1.tallies[m];
      s' == s1.(index := s1.index[OfInt64(w.uid) := w.wid], pending := s1.pending - multiset{StoreUid(m, w)},
                tallies := s1.tallies[m := t.(size := t.size + 1, ups := t.ups - 1)])
    ensures OnlyManager(s, s', m) && s'.pending == s.pending - multiset{Insert(m, w)}
    ensures View(s', m) == Put(View(s, m), w)
  {
    var t := s.tallies[m];
    assert s'.tallies == s.tallies[m := t.(size := t.size + 1)];
  }

  lemma StartPut(nets: Nets, s: State, m: nat, w: Worker) returns (steps: seq<Step>, s1: State)
    requires Insert(m, w) in s.pending && m < |s.flats| && m < |s.tallies|
    ensures Runs(nets, s, steps, s1)
    ensures var t, rest := s.tallies[m], s.pending - multiset{Insert(m, w)};
      s1 == if w.wid in s.flats[m] then s.(pending := rest) else
        s.(flats := s.flats[m := Enter(s.flats[m], w)], pending := rest + multiset{StoreUid(m, w)},
           tallies := s.tallies[m := t.(ups := t.ups + 1)])
  {
    hide Runs;
    var a := Perform(Insert(m, w));
    NoSteps(nets, s);
    RunsStep(nets, s, [], s, a);
    steps, s1 := [] + [a], Apply(nets, s, a);
  }

  lemma NoSteps(nets: Nets, s: State)
    ensures Runs(nets, s, [], s)
  {
  }

  /** The rest of a Put that has stored its worker. */
  lemma FinishPut(nets: Nets, s: State, before: seq<Step>, s1: State, m: nat, w: Worker)
    returns (steps: seq<Step>, s': State)
    requires Runs(nets, s, before, s1) && StoreUid(m, w) in s1.pending
    requires m < |s1.flats| && m < |s1.tallies| && s1.tallies[m].ups > 0
    ensures Runs(nets, s, steps, s')
    ensures var t := s1.tallies[m];
      s' == s1.(index := s1.index[OfInt64(w.uid) := w.wid], pending := s1.pending - multiset{StoreUid(m, w)},
                tallies := s1.tallies[m := t.(size := t.size + 1, ups := t.ups - 1)])
  {
    hide Runs;
    RunsStep(nets, s, before, s1, Perform(StoreUid(m, w)));
    var s2 := Apply(nets, s1, Perform(StoreUid(m, w)));
    RunsStep(nets, s, before + [Perform(StoreUid(m, w))], s2, CountUp(m));
    steps, s' := before + [Perform(StoreUid(m, w))] + [CountUp(m)], Apply(nets, s2, CountUp(m));
  }

  /** The steps of a Del one after the other are Registry.Del. */
  lemma UndisturbedDel(nets: Nets, s: State, m: nat, wid: Wid) returns (steps: seq<Step>, s': State)
    requires m < |s.flats| && m < |s.tallies|
    ensures Runs(nets, s, steps, s') && OnlyManager(s, s', m) && s'.pending == s.pending
    ensures View(s', m) == Del(View(s, m), wid)
  {
    assert Runs(nets, s, [], s);
    RunsStep(nets, s, [], s, BeginDel(m, wid));
    steps, s' := [] + [BeginDel(m, wid)], Apply(nets, s, BeginDel(m, wid));
    RunsStep(nets, s, steps, s', Perform(Remove(m, wid)));
    steps, s' := steps + [Perform(Remove(m, wid))], Apply(nets, s', Perform(Remove(m, wid)));
    RunsStep(nets, s, steps, s', CountDown(m));
    steps, s' := steps + [CountDown(m)], Apply(nets, s', CountDown(m));
  }

  // ----- the size counters -----

  ghost predicate Tallied(s: State) {
    && |s.tallies| == |s.flats|
    && forall m :: 0 <= m < |s.flats| ==>
         var t := s.tallies[m]; t.size + t.ups - t.downs == |s.flats[m]| - t.absent
  }

  lemma InsertKeepsTallies(nets: Nets, s: State, a: Step)
    requires Tallied(s) && Enabled(nets, s, a) && a.Perform? && a.p.Insert?
    ensures Tallied(Apply(nets, s, a))
  {
    if a.p.w.wid !in s.flats[a.p.m] {
      assert Apply(nets, s, a).flats[a.p.m].Keys == s.flats[a.p.m].Keys + {a.p.w.wid};
    }
  }

  lemma RemoveKeepsTallies(nets: Nets, s: State, a: Step)
    requires Tallied(s) && Enabled(nets, s, a) && a.Perform? && a.p.Remove?
    ensures Tallied(Apply(nets, s, a))
  {
    assert Apply(nets, s, a).flats[a.p.m].Keys == s.flats[a.p.m].Keys - {a.p.wid};
  }

  lemma StepKeepsTallies(nets: Nets, s: State, a: Step)
    requires Tallied(s) && Enabled(nets, s, a)
    ensures Tallied(Apply(nets, s, a))
  {
    if a.Perform? && a.p.Insert? {
      InsertKeepsTallies(nets, s, a);
    } else if a.Perform? && a.p.Remove? {
      RemoveKeepsTallies(nets, s, a);
    }
  }

  lemma {:induction false} RunKeepsTallies(nets: Nets, s: State, steps: seq<Step>, s': State)
    requires Tallied(s) && Runs(nets, s, steps, s')
    ensures Tallied(s')
    decreases |steps|
  {
    if steps != [] {
      StepKeepsTallies(nets, s, steps[0]);
      RunKeepsTallies(nets, Apply(nets, s, steps[0]), steps[1..], s');
    }
  }

  /** In every interleaving, whatever the net types: when no add is due, a manager's counter is below the number of its
      registered workers by exactly the deletes that found none; otherwise it is off by the adds due. */
  lemma SizeDrift(nets: Nets, s: State, m: nat)
    requires Reachable(nets, s) && m < |s.flats|
    ensures m < |s.tallies| && s.tallies[m].size ==
      |s.flats[m]| - s.tallies[m].absent - s.tallies[m].ups + s.tallies[m].downs
  {
    var steps :| Runs(nets, Init(nets), steps, s);
    RunKeepsTallies(nets, Init(nets), steps, s);
  }
}
