/** What holds in every run of a dialog and a worker. Frame bodies stay below 4 GiB (`Small`); how many
    bytes arrive before the connection breaks, and when, is arbitrary. */
module ProtocolRuns {
  import opened Bytes
  import opened Frame
  import opened Links
  import opened Protocol

  /** Every frame so far was decoded in the mode it was encoded in. */
  ghost predicate ModesAgree(l: Link) {
    |l.got| <= |l.sent| && forall i :: 0 <= i < |l.got| ==> l.got[i] == l.sent[i].mode
  }

  lemma SwitchedAgree(l: Link, m: Mode)
    requires |l.got| <= |l.sent| && Switched(Modes(l.sent), m)
    requires |l.got| > 1 ==> Switched(l.got, m)
    requires l.got != [] ==> l.got[0] == Plain
    ensures ModesAgree(l)
  {
    forall i | 0 <= i < |l.got| ensures l.got[i] == l.sent[i].mode {
      assert l.sent[i].mode == Modes(l.sent)[i];
    }
  }

  /** Worker to client the modes always agree, whatever the application does. */
  lemma DownModesAgree(cr: Crypto, s: State)
    requires Inverse(cr) && Reachable(cr, s) && Small(s.down)
    ensures ModesAgree(s.down)
  {
    ReachableInv(cr, s);
    if |s.down.got| > 1 {
      SameSession(cr, s);
    }
    SwitchedAgree(s.down, s.wmode);
  }

  /** Client to worker they agree for exactly as long as no frame but the first was encoded before the
      dialog had its session. */
  lemma UpModesAgreeIff(cr: Crypto, s: State)
    requires Inverse(cr) && Reachable(cr, s) && Small(s.down) && Small(s.up)
    ensures ModesAgree(s.up) <==> forall i :: 0 < i < |s.up.got| ==> i < |s.up.sent| && s.up.sent[i].mode != Plain
  {
    ReachableInv(cr, s);
    if s.cmode.Session? && s.wmode.Session? {
      SameSession(cr, s);
    }
    SwitchedAgreeIff(s.up, s.cmode, s.wmode);
  }

  lemma SwitchedAgreeIff(l: Link, cm: Mode, wm: Mode)
    requires |l.got| <= |l.sent| && Switched(l.got, wm) && (cm.Session? && wm.Session? ==> cm == wm)
    requires l.sent != [] ==> l.sent[0].mode == Plain
    requires forall i :: 0 <= i < |l.sent| ==> l.sent[i].mode == Plain || l.sent[i].mode == cm
    ensures ModesAgree(l) <==> forall i :: 0 < i < |l.got| ==> i < |l.sent| && l.sent[i].mode != Plain
  {
  }

  /** An application that sends only after WaitAuthed is always on the safe side. */
  lemma SendAfterAuthIsSafe(cr: Crypto, s: State)
    requires Inverse(cr) && Reachable(cr, s) && Small(s.down) && Small(s.up) && !s.early
    ensures ModesAgree(s.up)
  {
    ReachableInv(cr, s);
    forall i | 0 < i < |s.up.got| ensures i < |s.up.sent| && s.up.sent[i].mode != Plain {
      assert s.up.sent[i].mode == Modes(s.up.sent)[i];
    }
    UpModesAgreeIff(cr, s);
  }

  lemma LaterPrefix(sent: seq<Sent>, n: nat)
    requires n <= |sent|
    ensures Later(sent[..n]) <= Later(sent)
  {
    if n > 0 {
      assert sent[..n][1..] == sent[1..][..n - 1];
    }
  }

  /** End to end, worker to client: what arrives is a prefix of what Push accepted, in order, no pack
      altered, lost in the middle or repeated. */
  lemma ReceivedIsPrefixOfPushed(cr: Crypto, s: State)
    requires Inverse(cr) && Reachable(cr, s) && Small(s.down)
    ensures s.received <= s.pushed
  {
    ReachableInv(cr, s);
    LaterPrefix(s.down.sent, |s.down.got|);
  }

  /** End to end, client to worker. */
  lemma HandledIsPrefixOfSent(cr: Crypto, s: State)
    requires Inverse(cr) && Reachable(cr, s) && Small(s.down) && Small(s.up) && !s.early
    ensures s.handled <= s.appSent
  {
    ReachableInv(cr, s);
    LaterPrefix(s.up.sent, |s.up.got|);
  }

  /** On an intact connection with nothing in flight nothing is missing. */
  lemma DrainedMeansDelivered(cr: Crypto, s: State)
    requires Inverse(cr) && Reachable(cr, s) && Small(s.down) && Small(s.up)
    ensures !s.down.cut && s.down.bytes == [] ==> s.received + s.queue == s.pushed
    ensures !s.up.cut && s.up.bytes == [] && !s.early ==> s.handled == s.appSent
  {
    ReachableInv(cr, s);
    if !s.down.cut && s.down.bytes == [] {
      DrainedLink(s.down);
      assert s.down.sent[..|s.down.got|] == s.down.sent;
    }
    if !s.up.cut && s.up.bytes == [] {
      DrainedLink(s.up);
      assert s.up.sent[..|s.up.got|] == s.up.sent;
    }
  }

  lemma NextSent(s: State)
    requires UpPlaces(s) && OnTime(s) && s.up.got != [] && |s.up.got| < |s.up.sent|
    ensures |s.handled| < |s.appSent| && s.up.sent[|s.up.got|].plain == s.appSent[|s.handled|]
  {
  }

  /** Whenever a running worker decodes a frame, on an intact connection or a broken one, it opens it and
      hands the next pack to the service. */
  lemma HandleDeliversNext(cr: Crypto, s: State, ok: bool)
    requires Inverse(cr) && Reachable(cr, s) && Small(s.down) && Small(s.up) && !s.early
    requires Enabled(cr, s, Handle(ok))
    ensures |s.handled| < |s.appSent|
    ensures Decrypt(cr, s.wmode, Decode(s.up.bytes).pack) == Some(s.appSent[|s.handled|])
    ensures Apply(cr, s, Handle(ok)).handled == s.handled + [s.appSent[|s.handled|]]
    ensures ok ==> Apply(cr, s, Handle(ok)).wpc == WRunning
  {
    ReachableInv(cr, s);
    ReadGetsNext(s.up, s.wmode);
    NextSent(s);
    NextOpens(cr, s);
  }

  /** Progress: while frame bodies have lengths 1 .. 16384, a running worker on an intact connection can
      take its next turn as long as a pack is missing. */
  lemma NextPackIsHandled(cr: Crypto, s: State, ok: bool)
    requires Inverse(cr) && Reachable(cr, s) && Small(s.down) && Small(s.up) && !s.early
    requires s.wpc.WRunning? && !s.up.cut && |s.handled| < |s.appSent|
    requires forall i :: 0 <= i < |s.up.sent| ==> ValidLength(|s.up.sent[i].wire|)
    ensures Enabled(cr, s, Handle(ok))
    ensures Apply(cr, s, Handle(ok)).handled == s.handled + [s.appSent[|s.handled|]]
  {
    ReachableInv(cr, s);
    assert s.up.sent[..|s.up.sent|] == s.up.sent;
    NextFrameIsReady(s.up);
    HandleDeliversNext(cr, s, ok);
  }

  lemma NextPushed(cr: Crypto, s: State)
    requires DownInv(cr, s) && s.down.got != [] && |s.down.got| < |s.down.sent|
    ensures |s.received| < |s.pushed| && s.down.sent[|s.down.got|].plain == s.pushed[|s.received|]
    ensures var r := s.down.sent[|s.down.got|];
      s.cmode.Session? ==> Decrypt(cr, s.cmode, r.wire) == Some(r.plain)
  {
    if s.cmode.Session? {
      NextDownOpens(cr, s);
    }
  }

  lemma ReceiveDeliversNext(cr: Crypto, s: State)
    requires Inverse(cr) && Reachable(cr, s) && Small(s.down) && Enabled(cr, s, Receive)
    ensures |s.received| < |s.pushed|
    ensures Decrypt(cr, s.cmode, Decode(s.down.bytes).pack) == Some(s.pushed[|s.received|])
    ensures Apply(cr, s, Receive).received == s.received + [s.pushed[|s.received|]]
    ensures Apply(cr, s, Receive).cpc == s.cpc
  {
    ReachableInv(cr, s);
    ReadGetsNext(s.down, s.cmode);
    NextPushed(cr, s);
  }

  lemma NextPackIsReceived(cr: Crypto, s: State)
    requires Inverse(cr) && Reachable(cr, s) && Small(s.down)
    requires (s.cpc.CKeyed? || s.cpc.CAuthed?) && !s.down.cut && |s.received| < |Later(s.down.sent)|
    requires forall i :: 0 <= i < |s.down.sent| ==> ValidLength(|s.down.sent[i].wire|)
    ensures Enabled(cr, s, Receive) && |s.received| < |s.pushed|
    ensures Apply(cr, s, Receive).received == s.received + [s.pushed[|s.received|]]
  {
    ReachableInv(cr, s);
    assert s.down.sent[..|s.down.sent|] == s.down.sent;
    NextFrameIsReady(s.down);
    ReceiveDeliversNext(cr, s);
  }

  // ----- a loop that has ended -----

  lemma {:induction false} DownStaysDown(cr: Crypto, s: State, steps: seq<Step>, s': State)
    requires Runs(cr, s, steps, s')
    ensures s.cpc.CDown? ==> s'.cpc.CDown? && s'.received == s.received && s'.cmode == s.cmode
    ensures s.wpc.WDown? ==> s'.wpc.WDown? && s'.handled == s.handled && s'.wmode == s.wmode
    decreases |steps|
  {
    if steps != [] {
      DownStaysDown(cr, Apply(cr, s, steps[0]), steps[1..], s');
    }
  }

  /** A pack that the cipher refuses ends the receive loop for good: it delivers nothing, then or later in any run. */
  lemma RefusedPackEndsReceiving(cr: Crypto, s: State, steps: seq<Step>, s': State)
    requires Enabled(cr, s, Receive) && Decrypt(cr, s.cmode, Decode(s.down.bytes).pack).None?
    requires Runs(cr, Apply(cr, s, Receive), steps, s')
    ensures s'.cpc == CDown && s'.received == s.received
  {
    DownStaysDown(cr, Apply(cr, s, Receive), steps, s');
  }

  /** So does a pack that the cipher or the service refuses to the worker's read loop; the service keeps the packs it
      was handed, and a refused one of its own is the last of them. */
  lemma RefusedPackEndsReading(cr: Crypto, s: State, ok: bool, steps: seq<Step>, s': State)
    requires Enabled(cr, s, Handle(ok)) && Runs(cr, Apply(cr, s, Handle(ok)), steps, s')
    requires !ok || Decrypt(cr, s.wmode, Decode(s.up.bytes).pack).None?
    ensures var p := Decrypt(cr, s.wmode, Decode(s.up.bytes).pack);
      s'.wpc == WDown && s'.handled == if p.Some? then s.handled + [p.value] else s.handled
  {
    DownStaysDown(cr, Apply(cr, s, Handle(ok)), steps, s');
  }

  // ----- a Send before WaitAuthed -----

  ghost function AfterHello(hello: Pack): State {
    Init().(cpc := CWait, wpc := WAuthing(hello), up := Link([], false, [Sent(Plain, hello, hello)], [Plain]))
  }

  lemma DecodeAlone(p: Pack)
    requires ValidLength(|p|)
    ensures Decode(Encode(p)) == Frame(p, [])
  {
    RoundTrip(p, []);
    assert Encode(p) + [] == Encode(p);
  }

  lemma InitReachable(cr: Crypto)
    ensures Reachable(cr, Init())
  {
    assert Runs(cr, Init(), [], Init());
  }

  lemma HelloArrives(cr: Crypto, hello: Pack)
    requires ValidLength(|hello|)
    ensures Reachable(cr, AfterHello(hello))
  {
    InitReachable(cr);
    ReachableStep(cr, Init(), Hello(hello));
    var s := Apply(cr, Init(), Hello(hello));
    assert s.up.bytes == Encode(hello);
    DecodeAlone(hello);
    ReachableStep(cr, s, TakeHello);
    assert Apply(cr, s, TakeHello) == AfterHello(hello);
  }

  ghost function AfterRun(hello: Pack, out: Pack, key: Key): State {
    AfterHello(hello).(wpc := WRunning, wmode := Session(key), flags := Flags(false, false, true, false),
                       down := Link(Encode(out), false, [Sent(Plain, out, out)], []))
  }

  /** The worker may be running before the dialog has read the reply. */
  lemma WorkerRunsFirst(cr: Crypto, hello: Pack, out: Pack, key: Key)
    requires ValidLength(|hello|) && Agrees(cr, out, key)
    ensures Reachable(cr, AfterRun(hello, out, key))
  {
    HelloArrives(cr, hello);
    var s0 := AfterHello(hello);
    ReachableStep(cr, s0, Auth(out, key));
    var s1 := Apply(cr, s0, Auth(out, key));
    ReachableStep(cr, s1, SetSession);
    var s2 := Apply(cr, s1, SetSession);
    ReachableStep(cr, s2, Run);
    assert Apply(cr, s2, Run) == AfterRun(hello, out, key);
  }

  ghost function AfterEarlySend(hello: Pack, out: Pack, key: Key, pack: Pack): State {
    var s := AfterRun(hello, out, key);
    s.(early := true, up := Link(Encode(pack), false, s.up.sent + [Sent(Plain, pack, pack)], [Plain]))
  }

  lemma EarlySendGoesPlain(cr: Crypto, hello: Pack, out: Pack, key: Key, pack: Pack)
    requires ValidLength(|hello|) && Agrees(cr, out, key)
    ensures Reachable(cr, AfterEarlySend(hello, out, key, pack))
  {
    WorkerRunsFirst(cr, hello, out, key);
    var s := AfterRun(hello, out, key);
    PlainSend(cr, s, pack);
    ReachableStep(cr, s, Send(pack, 0));
    assert s.up.bytes + Encode(pack) == Encode(pack);
    assert Write(s.up, Sent(Plain, pack, pack)) == AfterEarlySend(hello, out, key, pack).up;
  }

  lemma PlainSend(cr: Crypto, s: State, pack: Pack)
    requires s.cmode == Plain && !s.flags.cstop && !s.flags.authed
    ensures Apply(cr, s, Send(pack, 0)) == s.(up := Write(s.up, Sent(Plain, pack, pack)), early := true)
  {
  }

  ghost function AfterMisread(cr: Crypto, hello: Pack, out: Pack, key: Key, pack: Pack): State {
    var s, plain := AfterEarlySend(hello, out, key, pack), cr.unseal(key, pack);
    s.(up := s.up.(bytes := [], got := [Plain, Session(key)]),
       wpc := if plain.Some? then WRunning else WDown,
       handled := if plain.Some? then [plain.value] else [])
  }

  lemma EarlySendArrives(cr: Crypto, hello: Pack, out: Pack, key: Key, pack: Pack)
    requires ValidLength(|hello|) && Agrees(cr, out, key) && ValidLength(|pack|)
    ensures Reachable(cr, AfterMisread(cr, hello, out, key, pack))
  {
    EarlySendGoesPlain(cr, hello, out, key, pack);
    DecodeAlone(pack);
    var s := AfterEarlySend(hello, out, key, pack);
    ReachableStep(cr, s, Handle(true));
    assert Apply(cr, s, Handle(true)) == AfterMisread(cr, hello, out, key, pack);
  }

  /** Why WaitAuthed matters, for every cipher, key and pack: a pack sent too early can go out plain and
      reach a worker that already has its session. The modes then disagree, and the service is handed
      whatever the cipher makes of the plain bytes, or the worker goes down. */
  lemma EarlySendIsMisread(cr: Crypto, key: Key, out: Pack, pack: Pack) returns (s: State)
    requires Agrees(cr, out, key) && |out| < TWO32 && ValidLength(|pack|)
    ensures Reachable(cr, s) && Small(s.down) && Small(s.up) && s.early && !ModesAgree(s.up)
    ensures |s.up.sent| == 2 && s.up.sent[1].plain == pack
    ensures var plain := cr.unseal(key, pack);
      if plain.Some? then s.handled == [plain.value] else s.wpc.WDown? && s.handled == []
  {
    EarlySendArrives(cr, pack, out, key, pack);
    s := AfterMisread(cr, pack, out, key, pack);
    assert s.up.got[1] != s.up.sent[1].mode;
  }
}
