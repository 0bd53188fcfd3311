/** Registered workers as one flat map with the shared uid index beside it: what the sharded manager
    must agree with, and what a sequence of Put and Del calls leaves behind. */
module Registry {
  import opened Bytes

  /** A worker id: the value of a uint64. */
  type Wid = nat

  /** A worker as the manager sees it; `handle` tells apart workers with equal fields. */
  datatype Worker = Worker(wid: Wid, uid: int, sid: int, color: string, handle: nat)

  /** A key of the sync.Map index keeps its dynamic type: a uint64 never equals an int64. */
  datatype Key = OfInt64(i: int) | OfUint64(u: nat)

  // ----- the flat model -----

  datatype Flat = Flat(flat: map<Wid, Worker>, uidWid: map<Key, Wid>, size: int)

  function Enter(workers: map<Wid, Worker>, w: Worker): map<Wid, Worker> {
    workers[w.wid := w]
  }

  function Put(r: Flat, w: Worker): Flat {
    if w.wid in r.flat then r
    else Flat(Enter(r.flat, w), r.uidWid[OfInt64(w.uid) := w.wid], r.size + 1)
  }

  /** Del passes the uint64 worker id to an index keyed by int64 user ids, so no entry ever goes. */
  function Del(r: Flat, wid: Wid): Flat {
    Flat(r.flat - {wid}, r.uidWid - {OfUint64(wid)}, r.size - 1)
  }

  function Lookup(r: Flat, uid: int): Option<Worker> {
    if OfInt64(uid) in r.uidWid && r.uidWid[OfInt64(uid)] in r.flat
    then Some(r.flat[r.uidWid[OfInt64(uid)]])
    else None
  }

  /** What GetByUIDs may return: workers keyed by their own uid, each found for a requested uid, and
      none of those found missing. */
  ghost predicate Gathered(r: Flat, uids: seq<int>, result: map<int, Worker>) {
    && (forall u :: u in result ==>
          result[u].uid == u && exists uid :: uid in uids && Lookup(r, uid) == Some(result[u]))
    && (forall uid :: uid in uids && Lookup(r, uid).Some? ==> Lookup(r, uid).value.uid in result)
  }

  ghost predicate IdsOf(index: map<Key, Wid>, uids: seq<int>, wids: seq<Wid>) {
    && (forall x :: x in wids ==> exists uid :: uid in uids && OfInt64(uid) in index && index[OfInt64(uid)] == x)
    && (forall uid :: uid in uids && OfInt64(uid) in index ==> index[OfInt64(uid)] in wids)
  }

  ghost predicate AllLoadedFrom(flat: map<Wid, Worker>, wids: seq<Wid>, result: map<int, Worker>) {
    forall u :: u in result ==>
      var w := result[u];
      w.uid == u && w.wid in wids && w.wid in flat && flat[w.wid] == w
  }

  ghost predicate LoadedFrom(flat: map<Wid, Worker>, wids: seq<Wid>, result: map<int, Worker>) {
    AllLoadedFrom(flat, wids, result) && forall x :: x in wids && x in flat ==> flat[x].uid in result
  }

  lemma GatheredFromIds(r: Flat, uids: seq<int>, wids: seq<Wid>, result: map<int, Worker>)
    requires IdsOf(r.uidWid, uids, wids) && LoadedFrom(r.flat, wids, result)
    ensures Gathered(r, uids, result)
  {
    forall u | u in result ensures exists uid :: uid in uids && Lookup(r, uid) == Some(result[u]) {
      var uid :| uid in uids && OfInt64(uid) in r.uidWid && r.uidWid[OfInt64(uid)] == result[u].wid;
      assert Lookup(r, uid) == Some(result[u]);
    }
  }
}
