/** The server's pushes and disconnects as clients of the worker manager. */
module Server {
  import opened Bytes
  import opened Registry
  import opened Workers

  datatype Status = Ok | IsStopped | EmptyPack | WorkerNotFound | StopFailed

  class BaseServer {
    const manager: WorkerManager
    var stopping: bool

    constructor (manager: WorkerManager)
      ensures this.manager == manager && !stopping
    {
      this.manager, stopping := manager, false;
    }

    /** Broadcast tries each registered worker of the given color and sid exactly once and reports
        success whatever the pushes return: their joined error is dropped. */
    method Broadcast(color: string, sid: int, pack: Pack, orders: seq<seq<Wid>>)
      returns (status: Status, attempts: seq<Worker>)
      requires manager.Valid() && manager.RangeOrders(orders)
      ensures status == (if stopping then IsStopped else if pack == [] then EmptyPack else Ok)
      ensures status != Ok ==> attempts == []
      ensures manager.DistinctRegistered(attempts)
      ensures status == Ok ==> forall x :: x in manager.flat ==>
        (manager.flat[x] in attempts <==> manager.flat[x].color == color && manager.flat[x].sid == sid)
    {
      attempts := [];
      if stopping {
        return IsStopped, [];
      }
      if |pack| == 0 {
        return EmptyPack, [];
      }
      var visited := manager.Walk(orders, _ => true);
      for i := 0 to |visited|
        invariant manager.DistinctRegistered(attempts)
        invariant forall w :: w in attempts <==> w in visited[..i] && w.color == color && w.sid == sid
      {
        var w := visited[i];
        if w.color == color && w.sid == sid {
          assert w !in visited[..i];
          attempts := attempts + [w];
        }
      }
      assert visited[..|visited|] == visited;
      return Ok, attempts;
    }

    /** Multicast pushes once to each worker that GetByUIDs found, so at most once per user even when
        uids repeat. */
    method Multicast(uids: seq<int>, pack: Pack) returns (status: Status, attempts: seq<Worker>)
      requires manager.Valid()
      ensures status == (if stopping then IsStopped else if pack == [] then EmptyPack else Ok)
      ensures status != Ok ==> attempts == []
      ensures forall i, j :: 0 <= i < j < |attempts| ==> attempts[i].uid != attempts[j].uid
      ensures forall w :: w in attempts ==> exists uid :: uid in uids && Lookup(manager.Model(), uid) == Some(w)
      ensures status == Ok ==> forall uid :: uid in uids && Lookup(manager.Model(), uid).Some? ==>
        exists w :: w in attempts && w.uid == Lookup(manager.Model(), uid).value.uid
    {
      attempts := [];
      if stopping {
        return IsStopped, [];
      }
      if |pack| == 0 {
        return EmptyPack, [];
      }
      var workers := manager.GetByUIDs(uids);
      attempts := PushEach(workers);
      forall uid | uid in uids && Lookup(manager.Model(), uid).Some?
        ensures exists w :: w in attempts && w.uid == Lookup(manager.Model(), uid).value.uid
      {
        assert workers[Lookup(manager.Model(), uid).value.uid] in attempts;
      }
      return Ok, attempts;
    }

    /** The loop over the map of found workers, in whatever order the runtime picks. */
    method PushEach(workers: map<int, Worker>) returns (attempts: seq<Worker>)
      requires forall u :: u in workers ==> workers[u].uid == u
      ensures forall i, j :: 0 <= i < j < |attempts| ==> attempts[i].uid != attempts[j].uid
      ensures forall u :: u in workers ==> workers[u] in attempts
      ensures forall w :: w in attempts ==> w.uid in workers && workers[w.uid] == w
    {
      var all := set u | u in workers :: workers[u];
      attempts := [];
      var left := all;
      while left != {}
        invariant left <= all
        invariant forall w :: w in all ==> (w in attempts <==> w !in left)
        invariant forall i :: 0 <= i < |attempts| ==> attempts[i] in all && attempts[i] !in left
        invariant forall i, j :: 0 <= i < j < |attempts| ==> attempts[i].uid != attempts[j].uid
        decreases |left|
      {
        var w :| w in left;
        left := left - {w};
        attempts := attempts + [w];
      }
    }

    /** Disconnect removes the worker and then stops it; `stops` is whether that succeeds. A failed stop is
        reported although the worker is gone, and the connection's own deferred delete removes it once more. */
    method Disconnect(wid: Wid, stops: bool) returns (status: Status)
      requires manager.Valid()
      modifies manager, manager.index
      ensures manager.Valid()
      ensures status ==
        if stopping then IsStopped
        else if wid !in old(manager.flat) then WorkerNotFound
        else if stops then Ok else StopFailed
      ensures manager.Model() ==
        if status == Ok || status == StopFailed then Del(old(manager.Model()), wid) else old(manager.Model())
    {
      if stopping {
        return IsStopped;
      }
      var w := manager.Worker(wid);
      if w.None? {
        return WorkerNotFound;
      }
      manager.Del(wid);
      if !stops {
        return StopFailed;
      }
      return Ok;
    }
  }
}
