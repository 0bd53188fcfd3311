/** Whole sessions over the objects: a connection is made, authenticated and used in both directions, through one
    pool of frame buffers as in a process that holds both ends. */
module Sessions {
  import opened Bytes
  import opened Frame
  import opened Links
  import opened Protocol
  import ProtocolRuns
  import opened Codec
  import opened RingPool
  import opened MultiPool
  import opened Endpoints

  /** Two ends on an intact connection: `up` has arrived at the worker and `down` at the dialog, and nothing else is
      on its way. */
  ghost predicate Carries(d: DialogEnd, w: WorkerEnd, net: Net, up: Pack, down: Pack)
    reads d, w, net, d.codec, w.codec
  {
    && Sound(d, w, net) && d.crypto == w.crypto && !net.upCut && !net.downCut
    && d.codec.wire == w.codec.wire == [] && w.codec.input == up && d.codec.input == down
  }

  /** Both ends are authenticated under one key. */
  ghost predicate Established(d: DialogEnd, w: WorkerEnd, net: Net, key: Key, up: Pack, down: Pack)
    reads d, w, net, d.codec, w.codec
  {
    && Carries(d, w, net, up, down)
    && d.pc == CAuthed && d.authed && !d.stopping && d.session == Session(key) && !d.early
    && w.pc == WRunning && w.sending && !w.stopping && w.session == Session(key) && w.sendChan == []
  }

  /** The pool is in order and has lent what `lent` says, and the held buffers. */
  ghost predicate Books(pool: MultiSizeRingPool, lent: Lent, held: seq<Slice>)
    reads pool, pool.pools.Values, pool.tables, pool.arrays
  {
    pool.Valid() && forall s :: s in pool.pools ==> s in lent && pool.pools[s].lent - ArraysOf(held) == lent[s]
  }

  /** The pool keeps no buffer but its own and new ones. */
  twostate predicate GrowsFresh(pool: MultiSizeRingPool)
    reads pool
  {
    forall a :: a in pool.arrays ==> a in old(pool.arrays) || fresh(a)
  }

  type Lent = map<int, set<array<Byte>>>

  lemma OneFrame(p: Pack)
    requires ValidLength(|p|)
    ensures Frame.Decode(Frame.Encode(p)) == Decoded.Frame(p, [])
  {
    ProtocolRuns.DecodeAlone(p);
  }

  // ----- handshake -----

  method LaunchHello(d: DialogEnd, w: WorkerEnd, net: Net, hello: Pack)
    requires Carries(d, w, net, [], []) && d.pc == CStart && !d.stopping && d.session == Plain
    modifies d`pc, d`sent, d.codec, w`arrived, w.codec`input
    ensures Carries(d, w, net, Frame.Encode(hello), []) && d.pc == CWait
  {
    d.SendHello(hello, w, net);
    DeliverUp(d, w, net, |d.codec.wire|);
  }

  method LandHello(d: DialogEnd, w: WorkerEnd, net: Net, pool: MultiSizeRingPool, ghost lent: Lent, ghost hello: Pack)
    requires Carries(d, w, net, Frame.Encode(hello), []) && w.pc == WStart && ValidLength(|hello|)
    requires w.codec.pool == pool && Books(pool, lent, [])
    modifies w`pc, w`got, w`arrived, w.codec`input, pool, pool.members, pool.tables, pool.arrays
    ensures Carries(d, w, net, [], []) && w.pc == WAuthing(hello) && Books(pool, lent, []) && GrowsFresh(pool)
  {

    hide MultiSizeRingPool.Valid, Reachable;
    OneFrame(hello);
    var r := w.ReadHello(d, net);
  }

  /** Auth succeeds with this reply and key; the worker runs before the dialog sees the reply. */
  method Admit(d: DialogEnd, w: WorkerEnd, net: Net, out: Pack, key: Key)
    requires Carries(d, w, net, [], []) && w.pc.WAuthing? && Agrees(w.crypto, out, key)
    modifies w`pc, w`sent, w`session, w`sending, w.codec, d`arrived, d.codec`input
    ensures Carries(d, w, net, [], Frame.Encode(out))
    ensures w.pc == WRunning && w.sending && w.session == Session(key)
  {
    w.Answer(Some((out, key)), d, net);
    w.ReplaceSession(d, net);
    w.Start(d, net);
    DeliverDown(d, w, net, |w.codec.wire|);
  }

  method LandReply(
      d: DialogEnd, w: WorkerEnd, net: Net, pool: MultiSizeRingPool, ghost lent: Lent, ghost out: Pack, ghost key: Key)
    requires Carries(d, w, net, [], Frame.Encode(out)) && d.pc == CWait && ValidLength(|out|)
    requires d.codec.pool == pool && Books(pool, lent, []) && d.crypto.clientKey(out) == Some(key)
    modifies d`pc, d`session, d`got, d`arrived, d.codec`input, pool, pool.members, pool.tables, pool.arrays
    ensures Carries(d, w, net, [], []) && d.pc == CKeyed && d.session == Session(key)
    ensures Books(pool, lent, []) && GrowsFresh(pool)
  {

    hide MultiSizeRingPool.Valid, Reachable;
    OneFrame(out);
    var r := d.TakeReply(w, net);
  }

  // ----- client to worker -----

  /** Send, and the bytes travel. */
  method LaunchUp(d: DialogEnd, w: WorkerEnd, net: Net, ghost key: Key, pack: Pack, nonce: nat)
    requires Established(d, w, net, key, [], [])
    modifies d`sent, d`appSent, d`early, w`arrived, d.codec, w.codec`input
    ensures Established(d, w, net, key, Frame.Encode(d.crypto.seal(key, nonce, pack)), [])
  {
    var ok := d.SendPack(pack, nonce, w, net);
    DeliverUp(d, w, net, |d.codec.wire|);
  }

  /** One turn of the read loop on what has arrived. */
  method LandUp(
      d: DialogEnd, w: WorkerEnd, net: Net, pool: MultiSizeRingPool, ghost lent: Lent,
      ghost key: Key, ghost out: Pack, ghost pack: Pack)
    requires Established(d, w, net, key, Frame.Encode(out), []) && w.codec.pool == pool && Books(pool, lent, [])
    requires ValidLength(|out|) && d.crypto.unseal(key, out) == Some(pack)
    modifies w`pc, w`handled, w`got, w`arrived, w.codec`input, pool, pool.members, pool.tables, pool.arrays
    ensures Established(d, w, net, key, [], []) && w.handled == old(w.handled) + [pack]
    ensures Books(pool, lent, []) && GrowsFresh(pool)
  {

    hide MultiSizeRingPool.Valid, Reachable;
    OneFrame(out);
    var r := w.ReadOnce(_ => true, d, net);
  }

  /** A pack that the application sends is the pack the service handles, and its buffer is back. */
  method SendUp(
      d: DialogEnd, w: WorkerEnd, net: Net, pool: MultiSizeRingPool, ghost lent: Lent,
      ghost key: Key, pack: Pack, nonce: nat)
    requires Established(d, w, net, key, [], []) && w.codec.pool == pool && Books(pool, lent, []) && Inverse(d.crypto)
    requires ValidLength(|d.crypto.seal(key, nonce, pack)|)
    modifies d`sent, d`appSent, d`early, w`pc, w`handled, w`got, w`arrived, d.codec, w.codec
    modifies pool, pool.members, pool.tables, pool.arrays
    ensures Established(d, w, net, key, [], []) && w.handled == old(w.handled) + [pack]
    ensures Books(pool, lent, []) && GrowsFresh(pool)
  {

    LaunchUp(d, w, net, key, pack, nonce);
    LandUp(d, w, net, pool, lent, key, d.crypto.seal(key, nonce, pack), pack);
  }

  // ----- worker to client -----

  /** Push, one turn of the send loop, and the bytes travel. */
  method LaunchDown(d: DialogEnd, w: WorkerEnd, net: Net, ghost key: Key, pack: Pack, nonce: nat)
    requires Established(d, w, net, key, [], []) && pack != []
    modifies w`sendChan, w`pushed, w`sent, d`arrived, w.codec, d.codec`input
    ensures Established(d, w, net, key, [], Frame.Encode(d.crypto.seal(key, nonce, pack)))
  {
    var ok := w.PushPack(pack, d, net);
    w.WriteOnce(nonce, d, net);
    DeliverDown(d, w, net, |w.codec.wire|);
  }

  /** Every held buffer is one the pool had, or a new one. */
  twostate predicate HeldFresh(d: DialogEnd, pool: MultiSizeRingPool)
    reads d
  {
    forall i :: 0 <= i < |d.held| ==>
      d.held[i] in old(d.held) || d.held[i].arr in old(pool.arrays) || fresh(d.held[i].arr)
  }

  /** One turn of the receive loop on what has arrived; the buffer stays out. */
  method HoldDown(
      d: DialogEnd, w: WorkerEnd, net: Net, pool: MultiSizeRingPool, ghost key: Key, ghost out: Pack, ghost pack: Pack)
    returns (buf: Slice)
    requires Established(d, w, net, key, [], Frame.Encode(out)) && ValidLength(|out|)
    requires d.codec.pool == pool && pool.Valid() && d.HeldOut() && d.crypto.unseal(key, out) == Some(pack)
    modifies d`pc, d`received, d`held, d`got, d`arrived, d.codec`input, pool.members, pool.tables, pool.arrays
    ensures Established(d, w, net, key, [], []) && d.received == old(d.received) + [pack]
    ensures pool.Valid() && d.HeldOut() && d.held == old(d.held) + [buf]
    ensures pool.OneMoreLent(buf.arr) && (fresh(buf.arr) || buf.arr in pool.arrays)
  {
    hide MultiSizeRingPool.Valid, Reachable;
    OneFrame(out);
    var r := d.ReceiveOnce(w, net);
    buf := r.buf;
  }

  method LandDown(
      d: DialogEnd, w: WorkerEnd, net: Net, pool: MultiSizeRingPool, ghost lent: Lent,
      ghost key: Key, ghost out: Pack, ghost pack: Pack)
    requires Established(d, w, net, key, [], Frame.Encode(out)) && ValidLength(|out|)
    requires d.codec.pool == pool && Books(pool, lent, d.held) && d.HeldOut() && d.crypto.unseal(key, out) == Some(pack)
    modifies d`pc, d`received, d`held, d`got, d`arrived, d.codec`input, pool.members, pool.tables, pool.arrays
    ensures Established(d, w, net, key, [], []) && d.received == old(d.received) + [pack]
    ensures Books(pool, lent, d.held) && d.HeldOut() && HeldFresh(d, pool)
  {
    ghost var held, before := d.held, LentOf(pool);
    SizesOfLent(pool);
    var buf := HoldDown(d, w, net, pool, key, out, pack);
    OneMoreHeld(pool, lent, held, buf, before);
  }

  lemma ArraysAppend(slices: seq<Slice>, b: Slice)
    ensures ArraysOf(slices + [b]) == ArraysOf(slices) + {b.arr}
  {
    var all := slices + [b];
    assert all[|slices|].arr == b.arr;
    forall a | a in ArraysOf(slices) ensures a in ArraysOf(all) {
      var i :| 0 <= i < |slices| && slices[i].arr == a;
      assert all[i].arr == a;
    }
  }

  ghost function LentOf(pool: MultiSizeRingPool): Lent
    reads pool.pools.Values
  {
    map s | s in pool.pools :: pool.pools[s].lent
  }

  lemma SizesOfLent(pool: MultiSizeRingPool)
    requires pool.Valid()
    ensures forall s, a :: s in pool.pools && a in pool.pools[s].lent ==> a.Length == s
  {
    forall s, a | s in pool.pools && a in pool.pools[s].lent ensures a.Length == s {
      assert pool.PoolOk(s);
    }
  }

  /** The one buffer more that is lent is the one more that is held. */
  lemma OneMoreHeld(pool: MultiSizeRingPool, lent: Lent, held: seq<Slice>, buf: Slice, before: Lent)
    requires pool.Valid()
    requires forall s :: s in pool.pools ==> s in before && s in lent && before[s] - ArraysOf(held) == lent[s]
    requires forall s :: s in pool.pools ==> buf.arr !in before[s]
    requires forall s :: s in pool.pools ==>
      pool.pools[s].lent == if s == buf.arr.Length then before[s] + {buf.arr} else before[s]
    ensures Books(pool, lent, held + [buf])
  {
    ArraysAppend(held, buf);
    forall s | s in pool.pools ensures pool.pools[s].lent - ArraysOf(held + [buf]) == lent[s] {
      assert buf.arr !in lent[s];
    }
  }

  /** A pack that Push accepts is the pack the client receives. */
  method SendDown(
      d: DialogEnd, w: WorkerEnd, net: Net, pool: MultiSizeRingPool, ghost lent: Lent,
      ghost key: Key, pack: Pack, nonce: nat)
    requires Established(d, w, net, key, [], []) && Inverse(d.crypto)
    requires d.codec.pool == pool && Books(pool, lent, d.held) && d.HeldOut()
    requires pack != [] && ValidLength(|d.crypto.seal(key, nonce, pack)|)
    modifies w`sendChan, w`pushed, w`sent, w.codec, d`pc, d`received, d`held, d`got, d`arrived, d.codec
    modifies pool.members, pool.tables, pool.arrays
    ensures Established(d, w, net, key, [], []) && d.received == old(d.received) + [pack]
    ensures Books(pool, lent, d.held) && d.HeldOut() && HeldFresh(d, pool)
  {
    LaunchDown(d, w, net, key, pack, nonce);
    LandDown(d, w, net, pool, lent, key, d.crypto.seal(key, nonce, pack), pack);
  }

  // ----- all of it -----

  /** Nothing has been asked to stop, nothing was sent early, nothing is queued. */
  ghost predicate Untroubled(d: DialogEnd, w: WorkerEnd)
    reads d, w
  {
    !d.stopping && !d.early && !w.stopping && w.sendChan == []
  }

  method Greet(d: DialogEnd, w: WorkerEnd, net: Net, pool: MultiSizeRingPool, ghost lent: Lent, hello: Pack)
    requires Carries(d, w, net, [], []) && d.pc == CStart && d.session == Plain && w.pc == WStart && Untroubled(d, w)
    requires ValidLength(|hello|) && w.codec.pool == pool && Books(pool, lent, [])
    modifies d`pc, d`sent, d.codec, w`pc, w`got, w`arrived, w.codec, pool, pool.members, pool.tables, pool.arrays
    ensures Carries(d, w, net, [], []) && d.pc == CWait && w.pc == WAuthing(hello) && Untroubled(d, w)
    ensures Books(pool, lent, []) && GrowsFresh(pool)
  {
    hide Sound, MultiSizeRingPool.Valid;
    LaunchHello(d, w, net, hello);
    LandHello(d, w, net, pool, lent, hello);
  }

  method Welcome(d: DialogEnd, w: WorkerEnd, net: Net, pool: MultiSizeRingPool, ghost lent: Lent, out: Pack, key: Key)
    requires Carries(d, w, net, [], []) && d.pc == CWait && w.pc.WAuthing? && Untroubled(d, w)
    requires ValidLength(|out|) && d.crypto.clientKey(out) == Some(key) && d.codec.pool == pool && Books(pool, lent, [])
    modifies d`pc, d`authed, d`session, d`got, d`arrived, d.codec`input
    modifies w`pc, w`sent, w`session, w`sending, w.codec, pool, pool.members, pool.tables, pool.arrays
    ensures Established(d, w, net, key, [], []) && Books(pool, lent, []) && GrowsFresh(pool)
  {
    hide Sound, MultiSizeRingPool.Valid;
    Admit(d, w, net, out, key);
    LandReply(d, w, net, pool, lent, out, key);
    d.AnnounceAuth(w, net);
  }

  method SendAllUp(
      d: DialogEnd, w: WorkerEnd, net: Net, pool: MultiSizeRingPool, ghost lent: Lent, ghost key: Key, packs: seq<Pack>)
    requires Established(d, w, net, key, [], []) && w.codec.pool == pool && Books(pool, lent, []) && Inverse(d.crypto)
    requires forall i :: 0 <= i < |packs| ==> ValidLength(|d.crypto.seal(key, i, packs[i])|)
    modifies d`sent, d`appSent, d`early, w`pc, w`handled, w`got, w`arrived, d.codec, w.codec
    modifies pool, pool.members, pool.tables, pool.arrays
    ensures Established(d, w, net, key, [], []) && Books(pool, lent, []) && GrowsFresh(pool)
    ensures w.handled == old(w.handled) + packs
  {
    hide Sound, MultiSizeRingPool.Valid;
    for i := 0 to |packs|
      invariant Established(d, w, net, key, [], []) && Books(pool, lent, []) && GrowsFresh(pool)
      invariant w.handled == old(w.handled) + packs[..i]
    {
      SendUp(d, w, net, pool, lent, key, packs[i], i);
    }
  }

  method SendAllDown(
      d: DialogEnd, w: WorkerEnd, net: Net, pool: MultiSizeRingPool, ghost lent: Lent, ghost key: Key, packs: seq<Pack>)
    requires Established(d, w, net, key, [], []) && Inverse(d.crypto) && d.held == []
    requires d.codec.pool == pool && Books(pool, lent, [])
    requires forall i :: 0 <= i < |packs| ==> packs[i] != [] && ValidLength(|d.crypto.seal(key, i, packs[i])|)
    modifies w`sendChan, w`pushed, w`sent, w.codec, d`pc, d`received, d`held, d`got, d`arrived, d.codec
    modifies pool.members, pool.tables, pool.arrays
    ensures Established(d, w, net, key, [], []) && d.received == old(d.received) + packs
    ensures Books(pool, lent, d.held) && d.HeldOut() && HeldFresh(d, pool)
  {
    hide Sound, MultiSizeRingPool.Valid;
    for i := 0 to |packs|
      invariant Established(d, w, net, key, [], []) && d.received == old(d.received) + packs[..i]
      invariant Books(pool, lent, d.held) && d.HeldOut() && HeldFresh(d, pool)
    {
      SendDown(d, w, net, pool, lent, key, packs[i], i);
    }
  }

  /** The receive loop ends and its deferred frees run. */
  method Close(d: DialogEnd, ghost w: WorkerEnd, ghost net: Net, pool: MultiSizeRingPool, ghost lent: Lent)
    requires Sound(d, w, net) && d.codec.pool == pool && Books(pool, lent, d.held) && d.HeldOut()
    modifies d`held, pool, pool.members, pool.tables, ArraysOf(d.held)
    ensures Sound(d, w, net) && Books(pool, lent, []) && d.held == []
  {
    ghost var was := View(d, w, net);
    d.EndReceive();
    assert View(d, w, net) == was;
  }

  /** A new connection, seen by those who use it. */
  method Begin(crypto: Crypto, pool: MultiSizeRingPool) returns (d: DialogEnd, w: WorkerEnd, net: Net)
    ensures Carries(d, w, net, [], []) && Untroubled(d, w) && d.pc == CStart && d.session == Plain && w.pc == WStart
    ensures d.crypto == crypto && d.codec.pool == w.codec.pool == pool
    ensures d.held == [] && d.received == w.handled == []
    ensures fresh(d) && fresh(w) && fresh(d.codec) && fresh(w.codec)
  {
    d, w, net := Connect(crypto, pool, pool);
    assert View(d, w, net) == Init();
  }

  /** A new connection, authenticated. */
  method Open(crypto: Crypto, pool: MultiSizeRingPool, ghost lent: Lent, hello: Pack, out: Pack, key: Key)
    returns (d: DialogEnd, w: WorkerEnd, net: Net)
    requires Books(pool, lent, []) && crypto.clientKey(out) == Some(key) && ValidLength(|hello|) && ValidLength(|out|)
    modifies pool, pool.members, pool.tables, pool.arrays
    ensures Established(d, w, net, key, [], []) && Books(pool, lent, []) && GrowsFresh(pool)
    ensures d.crypto == crypto && d.codec.pool == w.codec.pool == pool
    ensures d.held == [] && d.received == w.handled == []
    ensures fresh(d) && fresh(w) && fresh(d.codec) && fresh(w.codec)
  {
    hide Carries, Books;
    d, w, net := Begin(crypto, pool);
    Greet(d, w, net, pool, lent, hello);
    Welcome(d, w, net, pool, lent, out, key);
  }

  /** Packs both ways on an authenticated connection, and the end of the receive loop. */
  method Talk(
      d: DialogEnd, w: WorkerEnd, net: Net, pool: MultiSizeRingPool, ghost lent: Lent, ghost key: Key,
      ups: seq<Pack>, downs: seq<Pack>)
    requires Established(d, w, net, key, [], []) && Inverse(d.crypto) && d.held == []
    requires d.codec.pool == w.codec.pool == pool && Books(pool, lent, [])
    requires forall i :: 0 <= i < |ups| ==> ValidLength(|d.crypto.seal(key, i, ups[i])|)
    requires forall i :: 0 <= i < |downs| ==> downs[i] != [] && ValidLength(|d.crypto.seal(key, i, downs[i])|)
    modifies d, w, d.codec, w.codec, pool, pool.members, pool.tables, pool.arrays
    ensures Sound(d, w, net) && Books(pool, lent, [])
    ensures w.handled == old(w.handled) + ups && d.received == old(d.received) + downs
  {
    hide Sound, MultiSizeRingPool.Valid;
    SendAllUp(d, w, net, pool, lent, key, ups);
    SendAllDown(d, w, net, pool, lent, key, downs);
    Close(d, w, net, pool, lent);
  }

  /** A whole session: whatever packs the application sends and the server pushes, the service has handled the
      first and the client has received the second, in order, and in the end the pool has lent what it had lent
      before. The cipher is any with Decrypt after Encrypt the identity, and frame bodies have acceptable lengths. */
  method Converse(
      crypto: Crypto, pool: MultiSizeRingPool, hello: Pack, out: Pack, key: Key, ups: seq<Pack>, downs: seq<Pack>)
    returns (d: DialogEnd, w: WorkerEnd, net: Net)
    requires Inverse(crypto) && pool.Valid() && crypto.clientKey(out) == Some(key)
    requires ValidLength(|hello|) && ValidLength(|out|)
    requires forall i :: 0 <= i < |ups| ==> ValidLength(|crypto.seal(key, i, ups[i])|)
    requires forall i :: 0 <= i < |downs| ==> downs[i] != [] && ValidLength(|crypto.seal(key, i, downs[i])|)
    modifies pool, pool.members, pool.tables, pool.arrays
    ensures Sound(d, w, net) && w.handled == ups && d.received == downs
    ensures pool.Valid() && pool.SameLent()
  {
    hide Sound, MultiSizeRingPool.Valid;
    ghost var lent := LentOf(pool);
    d, w, net := Open(crypto, pool, lent, hello, out, key);
    Talk(d, w, net, pool, lent, key, ups, downs);
  }
}
