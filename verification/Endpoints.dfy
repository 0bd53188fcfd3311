/** The dialog and the worker as objects: codecs that write to byte streams and read into pooled buffers, a
    network that carries the bytes across and may break. Together they refine the Protocol machine, so that
    its theorems hold of the objects: `Sound` says that what the objects currently hold is a reachable state
    of the machine, and every method keeps it. */
module Endpoints {
  import opened Bytes
  import opened Frame
  import opened Links
  import opened Protocol
  import ProtocolRuns
  import opened Codec
  import opened RingPool
  import MultiPool

  /** Whether either direction of the connection is broken. */
  class Net {
    var upCut: bool
    var downCut: bool

    constructor ()
      ensures !upCut && !downCut
    {
      upCut, downCut := false, false;
    }
  }

  class DialogEnd {
    const crypto: Crypto
    const codec: Codec
    var pc: ClientPc
    var authed: bool
    var stopping: bool
    var session: Mode
    var received: seq<Pack>

    /** Frame buffers of the receive loop, whose deferred frees run when the loop ends. */
    var held: seq<Slice>

    ghost var early: bool
    ghost var appSent: seq<Pack>

    /** Everything encoded, the modes of everything decoded, and what has arrived and not been decoded. */
    ghost var sent: seq<Sent>
    ghost var got: seq<Mode>
    ghost var arrived: Pack

    constructor (crypto: Crypto, codec: Codec)
      requires codec.pending == codec.wire == codec.input == []
      ensures this.crypto == crypto && this.codec == codec && pc == CStart && !authed && !stopping && session == Plain
      ensures received == [] && held == [] && !early && appSent == [] && sent == [] && got == [] && arrived == []
    {
      this.crypto, this.codec, pc, authed, stopping, session := crypto, codec, CStart, false, false, Plain;
      received, held := [], [];
      early, appSent, sent, got, arrived := false, [], [], [], [];
    }

    method EncodeRecord(r: Sent)
      requires codec.pending == []
      modifies `sent, codec`pending, codec`wire
      ensures sent == old(sent) + [r] && codec.pending == [] && codec.wire == old(codec.wire) + Frame.Encode(r.wire)
    {
      codec.Encode(r.wire);
      sent := sent + [r];
    }

    /** handshake, up to the wait for the reply. */
    method SendHello(pack: Pack, ghost peer: WorkerEnd, ghost net: Net)
      requires Sound(this, peer, net) && pc.CStart? && !stopping
      modifies `pc, `sent, codec`pending, codec`wire
      ensures Sound(this, peer, net) && pc == CWait && Wrote(this, Sealed(crypto, session, 0, pack))
    {
      ghost var was := View(this, peer, net);
      var r := Sealed(crypto, session, 0, pack);
      LinkWrites(peer.arrived, net.upCut, codec.wire, sent, peer.got, r);
      EncodeRecord(r);
      pc := CWait;
      Stepped(crypto, was, Hello(pack), View(this, peer, net));
    }

    /** handshake, from the reply on: the frame goes to the auth function as it is, and its buffer back. */
    method TakeReply(ghost peer: WorkerEnd, ghost net: Net) returns (r: Outcome)
      requires Sound(this, peer, net) && pc.CWait? && codec.pool.Valid()
      modifies `pc, `session, `got, `arrived, codec`input
      modifies codec.pool, codec.pool.members, codec.pool.tables, codec.pool.arrays
      ensures Sound(this, peer, net) && codec.pool.Valid() && codec.Returns(r) && codec.NoOldArraysJoin()
      ensures var d := Frame.Decode(old(codec.input));
        if d.Frame? && crypto.clientKey(d.pack).Some?
        then pc == CKeyed && session == Session(crypto.clientKey(d.pack).value)
        else pc == CDown && session == old(session)
      ensures r.Got? <==> Frame.Decode(old(codec.input)).Frame?
      ensures r.Got? ==> codec.input == Frame.Decode(old(codec.input)).rest
    {
      var pack;
      r, pack := codec.Fetch(p => Some(p));
      FinishReply(pack, peer, net);
    }

    method FinishReply(pack: Option<Pack>, ghost peer: WorkerEnd, ghost net: Net)
      requires Joined(this, peer) && WorkerUpToDate(peer) && Reachable(crypto, View(this, peer, net)) && pc.CWait?
      requires pack == Opened(Frame.Decode(arrived), p => Some(p))
      requires pack.Some? ==> codec.input == Frame.Decode(arrived).rest
      modifies `pc, `session, `got, `arrived
      ensures Sound(this, peer, net)
      ensures if pack.Some? && crypto.clientKey(pack.value).Some?
        then pc == CKeyed && session == Session(crypto.clientKey(pack.value).value)
        else pc == CDown && session == old(session)
    {
      if pack.Some? {
        AcceptReply(pack.value, peer, net);
      } else {
        ghost var was := View(this, peer, net);
        pc := CDown;
        Stepped(crypto, was, ClientFail, View(this, peer, net));
      }
    }

    method AcceptReply(pack: Pack, ghost peer: WorkerEnd, ghost net: Net)
      requires Joined(this, peer) && WorkerUpToDate(peer) && Reachable(crypto, View(this, peer, net)) && pc.CWait?
      requires Frame.Decode(arrived) == Decoded.Frame(pack, codec.input)
      modifies `pc, `session, `got, `arrived
      ensures Sound(this, peer, net)
      ensures if crypto.clientKey(pack).Some?
        then pc == CKeyed && session == Session(crypto.clientKey(pack).value)
        else pc == CDown && session == old(session)
    {
      ghost var was, before := View(this, peer, net), arrived;
      var key := crypto.clientKey(pack);
      if key.Some? {
        session, pc := Session(key.value), CKeyed;
      } else {
        pc := CDown;
      }
      got, arrived := got + [Plain], codec.input;
      ReplySteps(crypto, was, before, net.downCut, peer.codec.wire, View(this, peer, net).down);
    }

    /** close(authed) */
    method AnnounceAuth(ghost peer: WorkerEnd, ghost net: Net)
      requires Sound(this, peer, net) && pc.CKeyed?
      modifies `pc, `authed
      ensures Sound(this, peer, net) && pc == CAuthed && authed
    {
      ghost var was := View(this, peer, net);
      pc, authed := CAuthed, true;
      Stepped(crypto, was, Announce, View(this, peer, net));
    }

    /** Send: refused exactly when stopping; a pack accepted after WaitAuthed returned joins those the service is to
        get, also when the receive loop has failed meanwhile; an earlier one is remembered as early. */
    method SendPack(pack: Pack, nonce: nat, ghost peer: WorkerEnd, ghost net: Net) returns (ok: bool)
      requires Sound(this, peer, net)
      modifies `sent, `appSent, `early, codec`pending, codec`wire
      ensures Sound(this, peer, net) && (ok <==> !stopping)
      ensures if ok then Wrote(this, Sealed(crypto, session, nonce, pack)) else WroteNothing(this)
      ensures appSent == (if ok && authed then old(appSent) + [pack] else old(appSent))
      ensures early == (old(early) || (ok && !authed))
    {
      if stopping {
        return false;
      }
      ghost var was := View(this, peer, net);
      var r := Sealed(crypto, session, nonce, pack);
      LinkWrites(peer.arrived, net.upCut, codec.wire, sent, peer.got, r);
      EncodeRecord(r);
      if authed {
        appSent := appSent + [pack];
      } else {
        early := true;
      }
      Stepped(crypto, was, Send(pack, nonce), View(this, peer, net));
      return true;
    }

    /** The stopping flag. */
    method Stop(ghost peer: WorkerEnd, ghost net: Net)
      requires Sound(this, peer, net)
      modifies `stopping
      ensures Sound(this, peer, net) && stopping
    {
      ghost var was := View(this, peer, net);
      stopping := true;
      Stepped(crypto, was, ClientStop, View(this, peer, net));
    }

    /** The held buffers are lent, each once. */
    ghost predicate HeldOut()
      reads `held, codec.pool.pools.Values
    {
      OutEach(codec.pool, held)
    }

    /** One turn of receiveLoop. Whatever frame arrives is opened as the next pack that Push accepted. Its
        buffer stays out, to be freed when the loop ends. */
    method ReceiveOnce(ghost peer: WorkerEnd, ghost net: Net) returns (r: Outcome)
      requires Sound(this, peer, net) && (pc.CKeyed? || pc.CAuthed?) && codec.pool.Valid() && HeldOut()
      modifies `pc, `received, `held, `got, `arrived, codec`input
      modifies codec.pool.members, codec.pool.tables, codec.pool.arrays
      ensures Sound(this, peer, net) && codec.pool.Valid() && HeldOut()
      ensures held == if r.Got? then old(held) + [r.buf] else old(held)
      ensures codec.Lends(r) && (r.Got? ==> fresh(r.buf.arr) || r.buf.arr in codec.pool.arrays)
      ensures r.Got? <==> Frame.Decode(old(codec.input)).Frame?
      ensures r.Got? ==> codec.input == Frame.Decode(old(codec.input)).rest
      ensures var pack := Opened(Frame.Decode(old(codec.input)), DecryptBy(crypto, session));
        Takes(old(received), received, old(pc), pc, pack)
      ensures r.Got? && Inverse(crypto) && AllSmall(peer.sent) ==>
        pc == old(pc) && |old(received)| < |peer.pushed| && received == old(received) + [peer.pushed[|old(received)|]]
    {
      hide MultiPool.MultiSizeRingPool.Valid, Reachable;
      var pack;
      r, pack := HoldNext();
      FinishReceive(r.Got?, pack, peer, net);
    }

    /** Decode, register the free, decrypt. */
    method HoldNext() returns (r: Outcome, pack: Option<Pack>)
      requires codec.pool.Valid() && HeldOut()
      modifies `held, codec`input, codec.pool.members, codec.pool.tables, codec.pool.arrays
      ensures codec.pool.Valid() && HeldOut()
      ensures held == if r.Got? then old(held) + [r.buf] else old(held)
      ensures codec.Lends(r) && (r.Got? ==> fresh(r.buf.arr) || r.buf.arr in codec.pool.arrays)
      ensures r.Got? <==> Frame.Decode(old(codec.input)).Frame?
      ensures r.Got? ==>
        var d := Frame.Decode(old(codec.input));
        codec.input == d.rest && pack == Decrypt(crypto, session, d.pack)
      ensures !r.Got? ==> pack == None
    {
      var bytes;
      r, bytes := HoldBuffer();
      pack := if r.Got? then Decrypt(crypto, session, bytes) else None;
    }

    method HoldBuffer() returns (r: Outcome, bytes: Pack)
      requires codec.pool.Valid() && HeldOut()
      modifies `held, codec`input, codec.pool.members, codec.pool.tables, codec.pool.arrays
      ensures codec.pool.Valid() && HeldOut()
      ensures codec.Lends(r) && (r.Got? ==> fresh(r.buf.arr) || r.buf.arr in codec.pool.arrays)
      ensures held == if r.Got? then old(held) + [r.buf] else old(held)
      ensures r.Got? <==> Frame.Decode(old(codec.input)).Frame?
      ensures r.Got? ==> Decoded.Frame(bytes, codec.input) == Frame.Decode(old(codec.input))
    {
      r, bytes := DecodeBeside();
      if r.Got? {
        OutAppend(codec.pool, held, r.buf);
        held := held + [r.buf];
      }
    }

    /** Decode beside the held buffers: the new one is none of them. */
    method DecodeBeside() returns (r: Outcome, bytes: Pack)
      requires codec.pool.Valid() && HeldOut()
      modifies codec`input, codec.pool.members, codec.pool.tables, codec.pool.arrays
      ensures codec.pool.Valid() && HeldOut()
      ensures codec.Lends(r) && (r.Got? ==> fresh(r.buf.arr) || r.buf.arr in codec.pool.arrays)
      ensures r.Got? <==> Frame.Decode(old(codec.input)).Frame?
      ensures r.Got? ==> Decoded.Frame(bytes, codec.input) == Frame.Decode(old(codec.input))
      ensures r.Got? ==> codec.pool.Out(r.buf.arr)
      ensures r.Got? ==>
        forall i :: 0 <= i < |held| && held[i].arr == r.buf.arr ==> r.buf.arr.Length !in codec.pool.pools
    {
      ghost var d := Frame.Decode(codec.input);
      r := codec.Decode();
      assert codec.Yields(d, r);
      bytes := if r.Got? then r.buf.arr[..r.buf.len] else [];
    }

    method FinishReceive(decoded: bool, pack: Option<Pack>, ghost peer: WorkerEnd, ghost net: Net)
      requires Joined(this, peer) && WorkerUpToDate(peer) && Reachable(crypto, View(this, peer, net))
      requires (pc.CKeyed? || pc.CAuthed?) && (decoded <==> Frame.Decode(arrived).Frame?)
      requires decoded ==>
        codec.input == Frame.Decode(arrived).rest && pack == Decrypt(crypto, session, Frame.Decode(arrived).pack)
      modifies `pc, `received, `got, `arrived
      ensures Sound(this, peer, net)
      ensures Takes(old(received), received, old(pc), pc, if decoded then pack else None)
      ensures decoded && Inverse(crypto) && AllSmall(peer.sent) ==>
        pc == old(pc) && |old(received)| < |peer.pushed| && received == old(received) + [peer.pushed[|old(received)|]]
    {
      if decoded {
        Enqueue(pack, peer, net);
      } else {
        ghost var was := View(this, peer, net);
        pc := CDown;
        Stepped(crypto, was, ClientFail, View(this, peer, net));
      }
    }

    method Enqueue(pack: Option<Pack>, ghost peer: WorkerEnd, ghost net: Net)
      requires Joined(this, peer) && WorkerUpToDate(peer) && Reachable(crypto, View(this, peer, net))
      requires (pc.CKeyed? || pc.CAuthed?) && Frame.Decode(arrived).Frame?
      requires codec.input == Frame.Decode(arrived).rest && pack == Decrypt(crypto, session, Frame.Decode(arrived).pack)
      modifies `pc, `received, `got, `arrived
      ensures Sound(this, peer, net) && Takes(old(received), received, old(pc), pc, pack)
      ensures Inverse(crypto) && AllSmall(peer.sent) ==>
        pc == old(pc) && |old(received)| < |peer.pushed| && received == old(received) + [peer.pushed[|old(received)|]]
    {
      ghost var was := View(this, peer, net);
      ghost var before := arrived;
      if pack.Some? {
        received := received + [pack.value];
      } else {
        pc := CDown;
      }
      got, arrived := got + [session], codec.input;
      ReceiveSteps(crypto, was, before, net.downCut, peer.codec.wire, View(this, peer, net).down, pack);
    }

    /** The deferred frees of receiveLoop: every held buffer goes back, last one first. */
    method EndReceive()
      requires codec.pool.Valid() && HeldOut()
      modifies `held, codec.pool, codec.pool.members, codec.pool.tables, ArraysOf(held)
      ensures codec.pool.Valid() && held == [] && codec.pool.arrays <= old(codec.pool.arrays) + ArraysOf(old(held))
      ensures forall s :: s in codec.pool.pools ==>
        codec.pool.pools[s].lent == old(codec.pool.pools[s].lent) - ArraysOf(old(held))
    {
      ghost var all := held;
      while held != []
        invariant held <= all && codec.pool.Valid() && HeldOut()
        invariant codec.pool.arrays <= old(codec.pool.arrays) + ArraysOf(all)
        invariant forall s :: s in codec.pool.pools ==>
          codec.pool.pools[s].lent == old(codec.pool.pools[s].lent) - ArraysOf(all[|held|..])
        decreases |held|
      {
        ArraysStep(all, |held| - 1);
        FreeLast();
      }
      assert all[0..] == all;
    }

    method FreeLast()
      requires codec.pool.Valid() && HeldOut() && held != []
      modifies `held, codec.pool, codec.pool.members, codec.pool.tables, held[|held| - 1].arr
      ensures codec.pool.Valid() && HeldOut() && held == old(held)[..|old(held)| - 1]
      ensures codec.pool.OneLessLent(old(held[|held| - 1].arr))
      ensures codec.pool.arrays <= old(codec.pool.arrays) + {old(held[|held| - 1].arr)}
    {
      var last, rest := held[|held| - 1], held[..|held| - 1];
      OutPrefix(codec.pool, held);
      held := rest;
      codec.pool.Return(last);
      forall i | 0 <= i < |rest| ensures codec.pool.Out(rest[i].arr) {
        assert rest[i].arr.Length in codec.pool.pools ==> rest[i].arr != last.arr;
      }
    }
  }

  ghost predicate OutEach(pool: MultiPool.MultiSizeRingPool, held: seq<Slice>)
    reads pool.pools.Values
  {
    && (forall i :: 0 <= i < |held| ==> pool.Out(held[i].arr))
    && (forall i, j :: 0 <= i < j < |held| && held[i].arr == held[j].arr ==> held[i].arr.Length !in pool.pools)
  }

  /** No pool buffer among these is a. */
  ghost predicate NotAmong(pool: MultiPool.MultiSizeRingPool, held: seq<Slice>, a: array<Byte>) {
    forall i :: 0 <= i < |held| && held[i].arr == a ==> a.Length !in pool.pools
  }

  lemma OutPrefix(pool: MultiPool.MultiSizeRingPool, held: seq<Slice>)
    requires OutEach(pool, held) && held != []
    ensures var n := |held| - 1; OutEach(pool, held[..n]) && NotAmong(pool, held[..n], held[n].arr)
  {
  }

  lemma OutAppend(pool: MultiPool.MultiSizeRingPool, held: seq<Slice>, buf: Slice)
    requires OutEach(pool, held) && pool.Out(buf.arr) && NotAmong(pool, held, buf.arr)
    ensures OutEach(pool, held + [buf])
  {
  }

  ghost function ArraysOf(slices: seq<Slice>): set<array<Byte>> {
    set i | 0 <= i < |slices| :: slices[i].arr
  }

  lemma ArraysStep(slices: seq<Slice>, k: nat)
    requires k < |slices|
    ensures ArraysOf(slices[k..]) == ArraysOf(slices[k + 1..]) + {slices[k].arr}
    ensures slices[k].arr in ArraysOf(slices)
  {
    assert slices[k..] == [slices[k]] + slices[k + 1..];
  }

  class WorkerEnd {
    const crypto: Crypto
    const codec: Codec
    var pc: WorkerPc
    var sending: bool
    var stopping: bool
    var session: Mode
    var sendChan: seq<Pack>
    ghost var pushed: seq<Pack>
    ghost var handled: seq<Pack>
    ghost var sent: seq<Sent>
    ghost var got: seq<Mode>
    ghost var arrived: Pack

    constructor (crypto: Crypto, codec: Codec)
      requires codec.pending == codec.wire == codec.input == []
      ensures this.crypto == crypto && this.codec == codec && pc == WStart && !sending && !stopping && session == Plain
      ensures sendChan == [] && pushed == [] && handled == [] && sent == [] && got == [] && arrived == []
    {
      this.crypto, this.codec, pc, sending, stopping, session := crypto, codec, WStart, false, false, Plain;
      sendChan := [];
      pushed, handled, sent, got, arrived := [], [], [], [], [];
    }

    /** handshake, up to the call of Auth: the pack is kept for it, the buffer goes back. */
    method ReadHello(ghost peer: DialogEnd, ghost net: Net) returns (r: Outcome)
      requires Sound(peer, this, net) && pc.WStart? && codec.pool.Valid()
      modifies `pc, `got, `arrived, codec`input
      modifies codec.pool, codec.pool.members, codec.pool.tables, codec.pool.arrays
      ensures Sound(peer, this, net) && codec.pool.Valid() && codec.Returns(r) && codec.NoOldArraysJoin()
      ensures var d := Frame.Decode(old(codec.input));
        if d.Frame? then pc == WAuthing(d.pack) && codec.input == d.rest else pc == WDown
      ensures r.Got? <==> Frame.Decode(old(codec.input)).Frame?
    {
      var pack;
      r, pack := codec.Fetch(p => Some(p));
      FinishHello(pack, peer, net);
    }

    method FinishHello(pack: Option<Pack>, ghost peer: DialogEnd, ghost net: Net)
      requires Joined(peer, this) && DialogUpToDate(peer) && Reachable(crypto, View(peer, this, net)) && pc.WStart?
      requires pack == Opened(Frame.Decode(arrived), p => Some(p))
      requires pack.Some? ==> codec.input == Frame.Decode(arrived).rest
      modifies `pc, `got, `arrived
      ensures Sound(peer, this, net) && pc == if pack.Some? then WAuthing(pack.value) else WDown
    {
      ghost var was := View(peer, this, net);
      if pack.None? {
        pc := WDown;
        Stepped(crypto, was, WorkerFail, View(peer, this, net));
        return;
      }
      LinkReads(arrived, net.upCut, peer.codec.wire, peer.sent, got, Plain);
      pc := WAuthing(pack.value);
      got, arrived := got + [Plain], codec.input;
      Stepped(crypto, was, TakeHello, View(peer, this, net));
    }

    method EncodeRecord(r: Sent)
      requires codec.pending == []
      modifies `sent, codec`pending, codec`wire
      ensures sent == old(sent) + [r] && codec.pending == [] && codec.wire == old(codec.wire) + Frame.Encode(r.wire)
    {
      codec.Encode(r.wire);
      sent := sent + [r];
    }

    /** handshake, from the answer of Auth: the reply is written plain, and only then is the session replaced. */
    method Answer(auth: Option<(Pack, Key)>, ghost peer: DialogEnd, ghost net: Net)
      requires Sound(peer, this, net) && pc.WAuthing?
      requires auth.Some? ==> Agrees(crypto, auth.value.0, auth.value.1)
      modifies `pc, `sent, codec`pending, codec`wire
      ensures Sound(peer, this, net)
      ensures auth.Some? ==>
        pc == WReplied(auth.value.1) && sent == old(sent) + [Sent(Plain, auth.value.0, auth.value.0)]
      ensures codec.wire == old(codec.wire) + (if auth.Some? then Frame.Encode(auth.value.0) else [])
      ensures auth.None? ==> pc == WDown && sent == old(sent)
    {
      ghost var was := View(peer, this, net);
      if auth.None? {
        pc := WDown;
        Stepped(crypto, was, WorkerFail, View(peer, this, net));
        return;
      }
      var r, key := Sent(Plain, auth.value.0, auth.value.0), auth.value.1;
      LinkWrites(peer.arrived, net.downCut, codec.wire, sent, peer.got, r);
      EncodeRecord(r);
      pc := WReplied(key);
      Stepped(crypto, was, Auth(auth.value.0, key), View(peer, this, net));
    }

    method ReplaceSession(ghost peer: DialogEnd, ghost net: Net)
      requires Sound(peer, this, net) && pc.WReplied?
      modifies `pc, `session
      ensures Sound(peer, this, net) && pc == WKeyed && session == Session(old(pc).key)
    {
      ghost var was := View(peer, this, net);
      session := Session(pc.key);
      pc := WKeyed;
      Stepped(crypto, was, SetSession, View(peer, this, net));
    }

    method Start(ghost peer: DialogEnd, ghost net: Net)
      requires Sound(peer, this, net) && pc.WKeyed?
      modifies `pc, `sending
      ensures Sound(peer, this, net) && pc == WRunning && sending
    {
      ghost var was := View(peer, this, net);
      pc, sending := WRunning, true;
      Stepped(crypto, was, Run, View(peer, this, net));
    }

    /** Push: refused while stopping and for an empty pack, otherwise the pack joins those the client is to get. */
    method PushPack(pack: Pack, ghost peer: DialogEnd, ghost net: Net) returns (ok: bool)
      requires Sound(peer, this, net)
      modifies `sendChan, `pushed
      ensures Sound(peer, this, net) && (ok <==> !stopping && pack != [])
      ensures pushed == if ok then old(pushed) + [pack] else old(pushed)
      ensures sendChan == if ok then old(sendChan) + [pack] else old(sendChan)
    {
      if stopping {
        return false;
      }
      if |pack| == 0 {
        return false;
      }
      ghost var was := View(peer, this, net);
      sendChan, pushed := sendChan + [pack], pushed + [pack];
      Stepped(crypto, was, Push(pack), View(peer, this, net));
      return true;
    }

    /** One turn of sendLoop, with a pack waiting. */
    method WriteOnce(nonce: nat, ghost peer: DialogEnd, ghost net: Net)
      requires Sound(peer, this, net) && sending && sendChan != []
      modifies `sendChan, `sent, codec`pending, codec`wire
      ensures Sound(peer, this, net) && sendChan == old(sendChan)[1..]
      ensures var r := Sealed(crypto, session, nonce, old(sendChan)[0]);
        sent == old(sent) + [r] && codec.wire == old(codec.wire) + Frame.Encode(r.wire)
    {
      ghost var was := View(peer, this, net);
      var r := Sealed(crypto, session, nonce, sendChan[0]);
      LinkWrites(peer.arrived, net.downCut, codec.wire, sent, peer.got, r);
      sendChan := sendChan[1..];
      EncodeRecord(r);
      Stepped(crypto, was, Drain(nonce), View(peer, this, net));
    }

    /** One turn of readLoop. Whatever frame arrives is opened as the next pack sent after auth and handed to the
        service, and its buffer is back in the pools when the turn ends. The loop goes on exactly when the frame
        decodes and opens and the service accepts it. */
    method ReadOnce(handle: Pack -> bool, ghost peer: DialogEnd, ghost net: Net) returns (r: Outcome)
      requires Sound(peer, this, net) && pc.WRunning? && codec.pool.Valid()
      modifies `pc, `handled, `got, `arrived, codec`input
      modifies codec.pool, codec.pool.members, codec.pool.tables, codec.pool.arrays
      ensures Sound(peer, this, net) && codec.pool.Valid() && codec.Returns(r) && codec.NoOldArraysJoin()
      ensures r.Got? <==> Frame.Decode(old(codec.input)).Frame?
      ensures r.Got? ==> codec.input == Frame.Decode(old(codec.input)).rest
      ensures var pack := Opened(Frame.Decode(old(codec.input)), DecryptBy(crypto, session));
        Handles(old(handled), handled, pc, pack, handle)
      ensures r.Got? && Inverse(crypto) && AllSmall(sent) && AllSmall(peer.sent) && !peer.early ==>
        |old(handled)| < |peer.appSent| && handled == old(handled) + [peer.appSent[|old(handled)|]]
    {
      var pack;
      r, pack := codec.Fetch(DecryptBy(crypto, session));
      FinishRead(r.Got?, pack, handle, peer, net);
    }

    method FinishRead(decoded: bool, pack: Option<Pack>, handle: Pack -> bool, ghost peer: DialogEnd, ghost net: Net)
      requires Joined(peer, this) && DialogUpToDate(peer) && Reachable(crypto, View(peer, this, net))
      requires pc.WRunning? && (decoded <==> Frame.Decode(arrived).Frame?) && (!decoded ==> pack.None?)
      requires decoded ==>
        codec.input == Frame.Decode(arrived).rest && pack == Decrypt(crypto, session, Frame.Decode(arrived).pack)
      modifies `pc, `handled, `got, `arrived
      ensures Sound(peer, this, net) && Handles(old(handled), handled, pc, pack, handle)
      ensures decoded && Inverse(crypto) && AllSmall(sent) && AllSmall(peer.sent) && !peer.early ==>
        |old(handled)| < |peer.appSent| && handled == old(handled) + [peer.appSent[|old(handled)|]]
    {
      if decoded {
        HandOver(pack, handle, peer, net);
      } else {
        ghost var was := View(peer, this, net);
        pc := WDown;
        Stepped(crypto, was, WorkerFail, View(peer, this, net));
      }
    }

    method HandOver(pack: Option<Pack>, handle: Pack -> bool, ghost peer: DialogEnd, ghost net: Net)
      requires Joined(peer, this) && DialogUpToDate(peer) && Reachable(crypto, View(peer, this, net))
      requires pc.WRunning? && Frame.Decode(arrived).Frame?
      requires codec.input == Frame.Decode(arrived).rest && pack == Decrypt(crypto, session, Frame.Decode(arrived).pack)
      modifies `pc, `handled, `got, `arrived
      ensures Sound(peer, this, net) && Handles(old(handled), handled, pc, pack, handle)
      ensures Inverse(crypto) && AllSmall(sent) && AllSmall(peer.sent) && !peer.early ==>
        |old(handled)| < |peer.appSent| && handled == old(handled) + [peer.appSent[|old(handled)|]]
    {
      ghost var was, ok := View(peer, this, net), pack.Some? && handle(pack.value);
      ghost var before := arrived;
      if pack.Some? {
        handled := handled + [pack.value];
        pc := if handle(pack.value) then WRunning else WDown;
      } else {
        pc := WDown;
      }
      got, arrived := got + [session], codec.input;
      HandleSteps(crypto, was, before, net.upCut, peer.codec.wire, View(peer, this, net).up, pack, ok);
    }

    /** The send loop ends, or the stopping flag is set. */
    method EndSend(ghost peer: DialogEnd, ghost net: Net)
      requires Sound(peer, this, net)
      modifies `sending
      ensures Sound(peer, this, net) && !sending
    {
      ghost var was := View(peer, this, net);
      sending := false;
      Stepped(crypto, was, EndSending, View(peer, this, net));
    }

    method Stop(ghost peer: DialogEnd, ghost net: Net)
      requires Sound(peer, this, net)
      modifies `stopping
      ensures Sound(peer, this, net) && stopping
    {
      ghost var was := View(peer, this, net);
      stopping := true;
      Stepped(crypto, was, WorkerStop, View(peer, this, net));
    }
  }

  // ----- what one call does, in the caller's terms -----

  /** The dialog has encoded exactly one more record. */
  twostate predicate Wrote(d: DialogEnd, r: Sent)
    reads d, d.codec
  {
    d.sent == old(d.sent) + [r] && d.codec.wire == old(d.codec.wire) + Frame.Encode(r.wire)
  }

  twostate predicate WroteNothing(d: DialogEnd)
    reads d, d.codec
  {
    d.sent == old(d.sent) && d.codec.wire == old(d.codec.wire)
  }

  /** The cipher of a session, as a function. */
  function DecryptBy(cr: Crypto, m: Mode): Pack -> Option<Pack> {
    q => Decrypt(cr, m, q)
  }

  /** A turn of the receive loop queues the opened pack and goes on, or ends the loop. */
  ghost predicate Takes(before: seq<Pack>, after: seq<Pack>, pc: ClientPc, pc': ClientPc, pack: Option<Pack>) {
    if pack.Some? then after == before + [pack.value] && pc' == pc else after == before && pc' == CDown
  }

  /** A turn of the read loop hands the opened pack to the service and goes on if that succeeds. */
  ghost predicate Handles(before: seq<Pack>, after: seq<Pack>, pc: WorkerPc, pack: Option<Pack>, handle: Pack -> bool) {
    && after == (if pack.Some? then before + [pack.value] else before)
    && pc == (if pack.Some? && handle(pack.value) then WRunning else WDown)
  }

  /** What is on its way: arrived at the reader, then handed to the connection by the writer. */
  ghost function InFlight(arrived: Pack, cut: bool, wire: Pack): Pack {
    if cut then arrived else arrived + wire
  }

  ghost function View(d: DialogEnd, w: WorkerEnd, net: Net): State
    reads d, w, net, d.codec, w.codec
  {
    State(d.pc, d.session, w.pc, w.session, Flags(d.authed, d.stopping, w.sending, w.stopping),
          Link(InFlight(w.arrived, net.upCut, d.codec.wire), net.upCut, d.sent, w.got),
          Link(InFlight(d.arrived, net.downCut, w.codec.wire), net.downCut, w.sent, d.got),
          w.sendChan, d.early, d.appSent, w.handled, w.pushed, d.received)
  }

  /** The two ends belong together. */
  ghost predicate Joined(d: DialogEnd, w: WorkerEnd)
    reads d.codec, w.codec
  {
    d.crypto == w.crypto && d.codec != w.codec && d.codec.pending == w.codec.pending == []
  }

  /** A reader that is not down has decoded all but what its codec still has to read. */
  ghost predicate DialogUpToDate(d: DialogEnd)
    reads d, d.codec
  {
    !d.pc.CDown? ==> d.arrived == d.codec.input
  }

  ghost predicate WorkerUpToDate(w: WorkerEnd)
    reads w, w.codec
  {
    !w.pc.WDown? ==> w.arrived == w.codec.input
  }

  ghost predicate Linked(d: DialogEnd, w: WorkerEnd)
    reads d, w, d.codec, w.codec
  {
    Joined(d, w) && DialogUpToDate(d) && WorkerUpToDate(w)
  }

  ghost predicate Sound(d: DialogEnd, w: WorkerEnd, net: Net)
    reads d, w, net, d.codec, w.codec
  {
    Linked(d, w) && Reachable(d.crypto, View(d, w, net))
  }

  lemma Stepped(cr: Crypto, s: State, a: Step, s': State)
    requires Reachable(cr, s) && Enabled(cr, s, a) && s' == Apply(cr, s, a)
    ensures Reachable(cr, s')
  {
    ReachableStep(cr, s, a);
  }

  lemma LinkWrites(arrived: Pack, cut: bool, wire: Pack, sent: seq<Sent>, got: seq<Mode>, r: Sent)
    ensures Link(InFlight(arrived, cut, wire + Frame.Encode(r.wire)), cut, sent + [r], got)
      == Write(Link(InFlight(arrived, cut, wire), cut, sent, got), r)
  {
    assert arrived + (wire + Frame.Encode(r.wire)) == arrived + wire + Frame.Encode(r.wire);
  }

  /** A frame that has arrived is the first of what is in flight. */
  lemma LinkReads(arrived: Pack, cut: bool, wire: Pack, sent: seq<Sent>, got: seq<Mode>, m: Mode)
    requires Frame.Decode(arrived).Frame?
    ensures var d, l := Frame.Decode(arrived), Link(InFlight(arrived, cut, wire), cut, sent, got);
      && Frame.Decode(l.bytes).Frame? && Frame.Decode(l.bytes).pack == d.pack
      && Link(InFlight(d.rest, cut, wire), cut, sent, got + [m]) == Read(l, m)
  {
    DecodeExtends(arrived, wire);
  }

  /** What a frame that has arrived does to the machine: the reply, ... */
  lemma ReplySteps(cr: Crypto, s: State, arrived: Pack, cut: bool, wire: Pack, down: Link)
    requires Reachable(cr, s) && s.cpc.CWait? && Frame.Decode(arrived).Frame?
    requires s.down == Link(InFlight(arrived, cut, wire), cut, s.down.sent, s.down.got)
    requires down == s.down.(bytes := InFlight(Frame.Decode(arrived).rest, cut, wire), got := s.down.got + [Plain])
    ensures var key := cr.clientKey(Frame.Decode(arrived).pack);
      Reachable(cr, if key.Some? then s.(down := down, cpc := CKeyed, cmode := Session(key.value))
                    else s.(down := down, cpc := CDown))
  {
    LinkReads(arrived, cut, wire, s.down.sent, s.down.got, Plain);
    ReachableStep(cr, s, Reply);
  }

  /** ... a pack for the client, which is the next one pushed, ... */
  lemma ReceiveSteps(cr: Crypto, s: State, arrived: Pack, cut: bool, wire: Pack, down: Link, pack: Option<Pack>)
    requires Reachable(cr, s) && (s.cpc.CKeyed? || s.cpc.CAuthed?) && Frame.Decode(arrived).Frame?
    requires s.down == Link(InFlight(arrived, cut, wire), cut, s.down.sent, s.down.got)
    requires down == s.down.(bytes := InFlight(Frame.Decode(arrived).rest, cut, wire), got := s.down.got + [s.cmode])
    requires pack == Decrypt(cr, s.cmode, Frame.Decode(arrived).pack)
    ensures Reachable(cr, if pack.Some? then s.(down := down, received := s.received + [pack.value])
                          else s.(down := down, cpc := CDown))
    ensures Inverse(cr) && AllSmall(s.down.sent) ==> |s.received| < |s.pushed| && pack == Some(s.pushed[|s.received|])
  {
    LinkReads(arrived, cut, wire, s.down.sent, s.down.got, s.cmode);
    ReachableStep(cr, s, Receive);
    if Inverse(cr) && AllSmall(s.down.sent) {
      ProtocolRuns.ReceiveDeliversNext(cr, s);
    }
  }

  /** ... and a pack for the service, which is the next one sent after auth. */
  lemma HandleSteps(cr: Crypto, s: State, arrived: Pack, cut: bool, wire: Pack, up: Link, pack: Option<Pack>, ok: bool)
    requires Reachable(cr, s) && s.wpc.WRunning? && Frame.Decode(arrived).Frame?
    requires s.up == Link(InFlight(arrived, cut, wire), cut, s.up.sent, s.up.got)
    requires up == s.up.(bytes := InFlight(Frame.Decode(arrived).rest, cut, wire), got := s.up.got + [s.wmode])
    requires pack == Decrypt(cr, s.wmode, Frame.Decode(arrived).pack)
    ensures Reachable(cr, s.(up := up, wpc := if pack.Some? && ok then WRunning else WDown,
                             handled := if pack.Some? then s.handled + [pack.value] else s.handled))
    ensures Inverse(cr) && AllSmall(s.down.sent) && AllSmall(s.up.sent) && !s.early ==>
      |s.handled| < |s.appSent| && pack == Some(s.appSent[|s.handled|])
  {
    LinkReads(arrived, cut, wire, s.up.sent, s.up.got, s.wmode);
    ReachableStep(cr, s, Handle(ok));
    if Inverse(cr) && AllSmall(s.down.sent) && AllSmall(s.up.sent) && !s.early {
      ProtocolRuns.HandleDeliversNext(cr, s, ok);
    }
  }

  /** A new connection: both ends, their codecs and the network are new and have done nothing yet. */
  method Connect(crypto: Crypto, clientPool: MultiPool.MultiSizeRingPool, serverPool: MultiPool.MultiSizeRingPool)
    returns (d: DialogEnd, w: WorkerEnd, net: Net)
    ensures Sound(d, w, net) && d.crypto == w.crypto == crypto
    ensures d.codec.pool == clientPool && w.codec.pool == serverPool
    ensures fresh(d) && fresh(w) && fresh(net) && fresh(d.codec) && fresh(w.codec)
    ensures View(d, w, net) == Init() && d.held == [] && Quiet(d, w, net)
  {
    var up := new Codec(clientPool, []);
    var down := new Codec(serverPool, []);
    d := new DialogEnd(crypto, up);
    w := new WorkerEnd(crypto, down);
    net := new Net();
    ProtocolRuns.InitReachable(crypto);
    assert View(d, w, net) == Init();
  }

  /** The connection is intact and carries nothing. */
  ghost predicate Quiet(d: DialogEnd, w: WorkerEnd, net: Net)
    reads net, d.codec, w.codec
  {
    !net.upCut && !net.downCut && d.codec.wire == d.codec.input == w.codec.wire == w.codec.input == []
  }

  /** The theorems about all runs, about the objects: one session, and prefixes end to end. */
  lemma EndToEnd(d: DialogEnd, w: WorkerEnd, net: Net)
    requires Sound(d, w, net) && Inverse(d.crypto) && AllSmall(w.sent)
    ensures d.session.Session? && w.session.Session? ==> d.session == w.session
    ensures d.received <= w.pushed
    ensures AllSmall(d.sent) && !d.early ==> w.handled <= d.appSent
  {
    var s := View(d, w, net);
    ReachableInv(d.crypto, s);
    ProtocolRuns.ReceivedIsPrefixOfPushed(d.crypto, s);
    if AllSmall(d.sent) && !d.early {
      ProtocolRuns.HandledIsPrefixOfSent(d.crypto, s);
    }
  }

  ghost predicate AllSmall(sent: seq<Sent>) {
    forall i :: 0 <= i < |sent| ==> |sent[i].wire| < TWO32
  }

  // ----- the network -----

  /** The connection carries the first n bytes across: nothing the machine can see. */
  method DeliverUp(d: DialogEnd, w: WorkerEnd, net: Net, n: nat)
    requires Sound(d, w, net) && !net.upCut && n <= |d.codec.wire|
    modifies d.codec`wire, w`arrived, w.codec`input
    ensures Sound(d, w, net) && View(d, w, net) == old(View(d, w, net))
    ensures w.codec.input == old(w.codec.input) + old(d.codec.wire)[..n] && d.codec.wire == old(d.codec.wire)[n..]
  {
    ghost var was := View(d, w, net);
    var moved := d.codec.wire[..n];
    assert d.codec.wire == moved + d.codec.wire[n..];
    w.codec.input := w.codec.input + moved;
    d.codec.wire := d.codec.wire[n..];
    w.arrived := w.arrived + moved;
    assert View(d, w, net).up.bytes == was.up.bytes;
  }

  method DeliverDown(d: DialogEnd, w: WorkerEnd, net: Net, n: nat)
    requires Sound(d, w, net) && !net.downCut && n <= |w.codec.wire|
    modifies w.codec`wire, d`arrived, d.codec`input
    ensures Sound(d, w, net) && View(d, w, net) == old(View(d, w, net))
    ensures d.codec.input == old(d.codec.input) + old(w.codec.wire)[..n] && w.codec.wire == old(w.codec.wire)[n..]
  {
    ghost var was := View(d, w, net);
    var moved := w.codec.wire[..n];
    assert w.codec.wire == moved + w.codec.wire[n..];
    d.codec.input := d.codec.input + moved;
    w.codec.wire := w.codec.wire[n..];
    d.arrived := d.arrived + moved;
    assert View(d, w, net).down.bytes == was.down.bytes;
  }

  /** The connection breaks: what has not arrived is lost, and so is what is written later. */
  method BreakUp(d: DialogEnd, w: WorkerEnd, net: Net)
    requires Sound(d, w, net)
    modifies net
    ensures Sound(d, w, net) && net.upCut && net.downCut == old(net.downCut)
  {
    ghost var was := View(d, w, net);
    net.upCut := true;
    Stepped(d.crypto, was, CutUp(|w.arrived|), View(d, w, net));
  }

  method BreakDown(d: DialogEnd, w: WorkerEnd, net: Net)
    requires Sound(d, w, net)
    modifies net
    ensures Sound(d, w, net) && net.downCut && net.upCut == old(net.upCut)
  {
    ghost var was := View(d, w, net);
    net.downCut := true;
    Stepped(d.crypto, was, CutDown(|d.arrived|), View(d, w, net));
  }
}
