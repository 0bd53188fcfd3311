/** What any sequence of Put and Del calls on one manager leaves behind. */
module RegistryRuns {
  import opened Bytes
  import opened Registry

  datatype Call = PutCall(w: Worker) | DelCall(wid: Wid)

  function Apply(r: Flat, c: Call): Flat {
    match c
    case PutCall(w) => Put(r, w)
    case DelCall(wid) => Del(r, wid)
  }

  function After(calls: seq<Call>): Flat {
    if calls == [] then Flat(map[], map[], 0) else Apply(After(calls[..|calls| - 1]), calls[|calls| - 1])
  }

  // ----- the size counter -----

  /** Del calls that found no worker to delete. */
  function AbsentDels(calls: seq<Call>): nat {
    if calls == [] then 0
    else
      var n := |calls| - 1;
      AbsentDels(calls[..n]) + (if calls[n].DelCall? && calls[n].wid !in After(calls[..n]).flat then 1 else 0)
  }

  /** The counter is below the number of registered workers by exactly the deletes of absent ids. */
  lemma {:induction false} SizeDrift(calls: seq<Call>)
    ensures After(calls).size == |After(calls).flat| - AbsentDels(calls)
  {
    if calls != [] {
      var n := |calls| - 1;
      SizeDrift(calls[..n]);
      var r, r' := After(calls[..n]), After(calls);
      match calls[n]
      case PutCall(w) =>
        if w.wid !in r.flat { assert r'.flat.Keys == r.flat.Keys + {w.wid}; }
      case DelCall(wid) =>
        assert r'.flat.Keys == r.flat.Keys - {wid};
    }
  }

  /** Disconnect followed by the connection's deferred delete takes two off the counter for one worker. */
  lemma DisconnectCountsTwice(calls: seq<Call>, wid: Wid)
    requires wid in After(calls).flat
    ensures var r, r' := After(calls), After(calls + [DelCall(wid), DelCall(wid)]);
      r'.size == r.size - 2 && |r'.flat| == |r.flat| - 1
  {
    var once := calls + [DelCall(wid)];
    var twice := calls + [DelCall(wid), DelCall(wid)];
    assert once[..|once| - 1] == calls && twice[..|twice| - 1] == once;
    var r := After(calls);
    assert After(once) == Del(r, wid) && After(twice) == Del(After(once), wid);
    assert After(twice).flat.Keys == r.flat.Keys - {wid};
  }

  // ----- the uid index -----

  ghost predicate StoredBy(calls: seq<Call>, uid: int) {
    exists i :: 0 <= i < |calls| && Stores(calls, i, uid)
  }

  /** Call i is a Put of a worker of this user under an id that is free. */
  ghost predicate Stores(calls: seq<Call>, i: nat, uid: int)
    requires i < |calls|
  {
    calls[i].PutCall? && calls[i].w.uid == uid && calls[i].w.wid !in After(calls[..i]).flat
  }

  /** Del never removes an index entry: a uid stays in the index for good once a worker of it was stored. */
  lemma {:induction false} IndexNeverShrinks(calls: seq<Call>)
    ensures forall k :: k in After(calls).uidWid ==> k.OfInt64?
    ensures forall uid :: OfInt64(uid) in After(calls).uidWid <==> StoredBy(calls, uid)
  {
    if calls != [] {
      var n := |calls| - 1;
      var before := calls[..n];
      IndexNeverShrinks(before);
      forall uid ensures OfInt64(uid) in After(calls).uidWid <==> StoredBy(calls, uid) {
        StoredByPrefix(calls, uid);
      }
    }
  }

  lemma StoredByPrefix(calls: seq<Call>, uid: int)
    requires calls != []
    ensures var n := |calls| - 1;
      StoredBy(calls, uid) <==>
      StoredBy(calls[..n], uid) || Stores(calls, n, uid)
  {
    var before := calls[..|calls| - 1];
    assert forall i :: 0 <= i < |before| ==> before[i] == calls[i] && before[..i] == calls[..i];
    forall i | 0 <= i < |before| ensures Stores(before, i, uid) <==> Stores(calls, i, uid) {
      assert before[..i] == calls[..i];
    }
    if StoredBy(before, uid) {
      var i :| 0 <= i < |before| && Stores(before, i, uid);
      assert Stores(calls, i, uid);
    }
  }

  // ----- lookup by uid -----

  /** Connection ids are never reused: see ConnIds. */
  ghost predicate FreshIds(calls: seq<Call>) {
    forall i, j :: 0 <= i < j < |calls| && calls[i].PutCall? && calls[j].PutCall? ==> calls[i].w.wid != calls[j].w.wid
  }

  function LastPut(calls: seq<Call>, uid: int): Option<Worker> {
    if calls == [] then None
    else
      var last := calls[|calls| - 1];
      if last.PutCall? && last.w.uid == uid then Some(last.w) else LastPut(calls[..|calls| - 1], uid)
  }

  lemma {:induction false} RegisteredWasPut(calls: seq<Call>)
    ensures forall x :: x in After(calls).flat ==>
      After(calls).flat[x].wid == x && PutCall(After(calls).flat[x]) in calls
  {
    if calls != [] {
      RegisteredWasPut(calls[..|calls| - 1]);
    }
  }

  lemma {:induction false} LastPutWasPut(calls: seq<Call>, uid: int)
    ensures var last := LastPut(calls, uid);
      last.Some? ==> last.value.uid == uid && PutCall(last.value) in calls
  {
    if calls != [] {
      LastPutWasPut(calls[..|calls| - 1], uid);
    }
  }

  lemma {:induction false} IndexHoldsLastPut(calls: seq<Call>, uid: int)
    requires FreshIds(calls)
    ensures LastPut(calls, uid).Some? <==> OfInt64(uid) in After(calls).uidWid
    ensures LastPut(calls, uid).Some? ==> After(calls).uidWid[OfInt64(uid)] == LastPut(calls, uid).value.wid
  {
    if calls != [] {
      var n := |calls| - 1;
      IndexHoldsLastPut(calls[..n], uid);
      if calls[n].PutCall? {
        RegisteredWasPut(calls[..n]);
        assert calls[n].w.wid !in After(calls[..n]).flat;
      }
    }
  }

  lemma SamePut(calls: seq<Call>, a: Worker, b: Worker)
    requires FreshIds(calls) && PutCall(a) in calls && PutCall(b) in calls && a.wid == b.wid
    ensures a == b
  {
    var i :| 0 <= i < |calls| && calls[i] == PutCall(a);
    var j :| 0 <= j < |calls| && calls[j] == PutCall(b);
  }

  /** GetByUID answers with the user's latest worker while that one is registered, else with nothing:
      it does not fall back to an older worker of the same user that is still connected. */
  lemma LatestPutWins(calls: seq<Call>, uid: int)
    requires FreshIds(calls)
    ensures Lookup(After(calls), uid) ==
      match LastPut(calls, uid)
      case None => None
      case Some(w) => if w.wid in After(calls).flat then Some(w) else None
  {
    IndexHoldsLastPut(calls, uid);
    var r := After(calls);
    if LastPut(calls, uid).Some? {
      var w := LastPut(calls, uid).value;
      if w.wid in r.flat {
        RegisteredWasPut(calls);
        LastPutWasPut(calls, uid);
        SamePut(calls, r.flat[w.wid], w);
      }
    }
  }

  /** With fresh ids the batched lookup is the pointwise one: each requested uid maps to its own
      GetByUID result, and nothing else is in the map. UidSafety has this for managers that share the index. */
  lemma BatchedLookupIsPointwise(calls: seq<Call>, uids: seq<int>, result: map<int, Worker>)
    requires FreshIds(calls) && Gathered(After(calls), uids, result)
    ensures forall u :: u in result <==> u in uids && Lookup(After(calls), u).Some?
    ensures forall u :: u in result ==> Some(result[u]) == Lookup(After(calls), u)
  {
    var r := After(calls);
    forall uid ensures Lookup(r, uid).Some? ==> Lookup(r, uid).value.uid == uid {
      LatestPutWins(calls, uid);
      LastPutWasPut(calls, uid);
    }
  }

  /** A user's worker left and its id was given to another user: the entry Del left behind points there. */
  function ReusedId(wid: Wid, a: int, b: int): seq<Call> {
    [PutCall(Worker(wid, a, 0, "", 0)), DelCall(wid), PutCall(Worker(wid, b, 0, "", 1))]
  }

  /** Without fresh ids another user's worker comes out ... */
  lemma ReusedIdConfusesUsers(wid: Wid, a: int, b: int)
    requires a != b
    ensures Lookup(After(ReusedId(wid, a, b)), a) == Some(Worker(wid, b, 0, "", 1))
  {
    var x, y := Worker(wid, a, 0, "", 0), Worker(wid, b, 0, "", 1);
    var one, two, three := [PutCall(x)], [PutCall(x), DelCall(wid)], ReusedId(wid, a, b);
    assert one[..0] == [] && two[..1] == one && three[..2] == two;
    assert After([]) == Flat(map[], map[], 0);
    assert After(one) == Put(After([]), x);
    assert After(two) == Del(After(one), wid);
  }

  /** ... and a batched lookup of the first user alone answers for the second, who was not asked for. */
  lemma ReusedIdMisfilesBatch(wid: Wid, a: int, b: int, result: map<int, Worker>)
    requires a != b && Gathered(After(ReusedId(wid, a, b)), [a], result)
    ensures b in result && a !in result
  {
    ReusedIdConfusesUsers(wid, a, b);
    assert a in [a];
  }
}
