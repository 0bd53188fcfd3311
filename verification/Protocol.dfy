/** One dialog and one worker over one connection, as a machine of atomic steps: handshake, the switch
    to the session cipher on either side at its own moment, then packs in both directions. The
    application, the service, failures and the network are arbitrary environment steps. */
module Protocol {
  import opened Bytes
  import opened Frame
  import opened Links

  datatype ClientPc =
    | CStart   // created, handshake pack not yet sent
    | CWait    // waiting for the reply
    | CKeyed   // session replaced, receive loop running, WaitAuthed still blocks
    | CAuthed  // WaitAuthed returns
    | CDown    // handshake failed or receive loop ended

  datatype WorkerPc =
    | WStart               // waiting for the handshake pack
    | WAuthing(hello: Pack)
    | WReplied(key: Key)   // reply written, session not yet replaced
    | WKeyed               // session replaced, loops not yet started
    | WRunning             // read loop running
    | WDown                // handshake failed or read loop ended

  /** `authed` says that WaitAuthed returns, `sending` that the worker's send loop runs; both outlive a failed
      reader. `cstop` and `wstop` are the stopping flags of the dialog and the worker. */
  datatype Flags = Flags(authed: bool, cstop: bool, sending: bool, wstop: bool)

  /** `up` carries client to worker, `down` worker to client. `queue` is the worker's send channel.
      `appSent` lists the packs given to Send after WaitAuthed returned, `pushed` those accepted by
      Push; `early` records a Send before WaitAuthed returned. */
  datatype State = State(
    cpc: ClientPc, cmode: Mode,
    wpc: WorkerPc, wmode: Mode,
    flags: Flags,
    up: Link, down: Link,
    queue: seq<Pack>,
    early: bool,
    appSent: seq<Pack>, handled: seq<Pack>,
    pushed: seq<Pack>, received: seq<Pack>)

  datatype Step =
    | Hello(pack: Pack)             // the dialog sends its handshake pack
    | Reply                         // the dialog decodes the reply and replaces its session
    | Announce                      // the dialog closes `authed`
    | Send(pack: Pack, nonce: nat)  // the application calls Send
    | Receive                       // one turn of the dialog's receive loop
    | ClientFail                    // any read error or failed callback of the dialog
    | ClientStop                    // the dialog's stopping flag is set
    | TakeHello                     // the worker decodes the handshake pack
    | Auth(out: Pack, key: Key)     // Auth succeeded, the worker writes the reply
    | SetSession                    // the worker replaces its session
    | Run                           // the worker starts its loops
    | Push(pack: Pack)              // anyone calls Push
    | Drain(nonce: nat)             // one turn of the worker's send loop
    | Handle(ok: bool)              // one turn of the worker's read loop
    | WorkerFail                    // any read error or failed callback of the worker
    | EndSending                    // the worker's send loop ends
    | WorkerStop                    // the worker's stopping flag is set
    | CutUp(n: nat)                 // the connection breaks, the first n bytes in flight arrive
    | CutDown(n: nat)

  ghost function Init(): State {
    var link := Link([], false, [], []);
    State(CStart, Plain, WStart, Plain, Flags(false, false, false, false), link, link, [], false, [], [], [], [])
  }

  /** A client that accepts the reply derives the worker's key from it. */
  ghost predicate Agrees(cr: Crypto, out: Pack, key: Key) {
    cr.clientKey(out).Some? ==> cr.clientKey(out).value == key
  }

  ghost predicate Enabled(cr: Crypto, s: State, a: Step) {
    match a
    case Hello(_) => s.cpc.CStart? && !s.flags.cstop
    case Reply => s.cpc.CWait? && Decode(s.down.bytes).Frame?
    case Announce => s.cpc.CKeyed?
    case Send(_, _) => true
    case Receive => (s.cpc.CKeyed? || s.cpc.CAuthed?) && Decode(s.down.bytes).Frame?
    case ClientFail => true
    case ClientStop => true
    case TakeHello => s.wpc.WStart? && Decode(s.up.bytes).Frame?
    case Auth(out, key) => s.wpc.WAuthing? && Agrees(cr, out, key)
    case SetSession => s.wpc.WReplied?
    case Run => s.wpc.WKeyed?
    case Push(_) => true
    case Drain(_) => s.flags.sending && s.queue != []
    case Handle(_) => s.wpc.WRunning? && Decode(s.up.bytes).Frame?
    case WorkerFail => true
    case EndSending => true
    case WorkerStop => true
    case CutUp(n) => n <= |s.up.bytes|
    case CutDown(n) => n <= |s.down.bytes|
  }

  function Sealed(cr: Crypto, m: Mode, nonce: nat, p: Pack): Sent {
    Sent(m, p, Encrypt(cr, m, nonce, p))
  }

  ghost function Apply(cr: Crypto, s: State, a: Step): State
    requires Enabled(cr, s, a)
  {
    match a
    case Hello(p) => s.(cpc := CWait, up := Write(s.up, Sealed(cr, s.cmode, 0, p)))
    case Reply =>
      var key := cr.clientKey(Decode(s.down.bytes).pack);
      s.(down := Read(s.down, Plain),
         cpc := if key.Some? then CKeyed else CDown,
         cmode := if key.Some? then Session(key.value) else s.cmode)
    case Announce => s.(cpc := CAuthed, flags := s.flags.(authed := true))
    case Send(p, nonce) =>
      if s.flags.cstop then
        s
      else
        s.(up := Write(s.up, Sealed(cr, s.cmode, nonce, p)),
           appSent := if s.flags.authed then s.appSent + [p] else s.appSent,
           early := s.early || !s.flags.authed)
    case Receive =>
      var p := Decrypt(cr, s.cmode, Decode(s.down.bytes).pack);
      s.(down := Read(s.down, s.cmode),
         cpc := if p.Some? then s.cpc else CDown,
         received := if p.Some? then s.received + [p.value] else s.received)
    case ClientFail => s.(cpc := CDown)
    case ClientStop => s.(flags := s.flags.(cstop := true))
    case TakeHello => s.(wpc := WAuthing(Decode(s.up.bytes).pack), up := Read(s.up, Plain))
    case Auth(out, key) => s.(wpc := WReplied(key), down := Write(s.down, Sent(Plain, out, out)))
    case SetSession => s.(wpc := WKeyed, wmode := Session(s.wpc.key))
    case Run => s.(wpc := WRunning, flags := s.flags.(sending := true))
    case Push(p) =>
      if s.flags.wstop || p == [] then s else s.(queue := s.queue + [p], pushed := s.pushed + [p])
    case Drain(nonce) =>
      s.(queue := s.queue[1..], down := Write(s.down, Sealed(cr, s.wmode, nonce, s.queue[0])))
    case Handle(ok) =>
      var p := Decrypt(cr, s.wmode, Decode(s.up.bytes).pack);
      s.(up := Read(s.up, s.wmode),
         wpc := if p.Some? && ok then WRunning else WDown,
         handled := if p.Some? then s.handled + [p.value] else s.handled)
    case WorkerFail => s.(wpc := WDown)
    case EndSending => s.(flags := s.flags.(sending := false))
    case WorkerStop => s.(flags := s.flags.(wstop := true))
    case CutUp(n) => s.(up := Cut(s.up, n))
    case CutDown(n) => s.(down := Cut(s.down, n))
  }

  ghost predicate Runs(cr: Crypto, s: State, steps: seq<Step>, s': State)
    decreases |steps|
  {
    if steps == [] then
      s == s'
    else
      Enabled(cr, s, steps[0]) && Runs(cr, Apply(cr, s, steps[0]), steps[1..], s')
  }

  ghost predicate Reachable(cr: Crypto, s: State) {
    exists steps :: Runs(cr, Init(), steps, s)
  }

  // ----- worker to client -----

  /** The packs after the first, which is the handshake. */
  ghost function Later(sent: seq<Sent>): seq<Pack> {
    if sent == [] then [] else Plains(sent[1..])
  }

  ghost predicate Opens(cr: Crypto, l: Link) {
    forall i :: 0 <= i < |l.sent| ==> Decrypt(cr, l.sent[i].mode, l.sent[i].wire) == Some(l.sent[i].plain)
  }

  /** Handshake frame plain, every other frame under m. */
  ghost predicate Switched(modes: seq<Mode>, m: Mode) {
    && (modes != [] ==> modes[0] == Plain)
    && (|modes| > 1 ==> m.Session?)
    && forall i :: 0 < i < |modes| ==> modes[i] == m
  }

  function Modes(sent: seq<Sent>): seq<Mode> {
    seq(|sent|, i requires 0 <= i < |sent| => sent[i].mode)
  }

  ghost predicate WorkerPlaces(cr: Crypto, s: State) {
    && (s.wpc.WStart? || s.wpc.WAuthing? ==> s.down.sent == [])
    && (s.wpc.WStart? || s.wpc.WAuthing? || s.wpc.WReplied? ==> s.wmode == Plain)
    && (s.wpc.WReplied? ==> |s.down.sent| == 1 && Agrees(cr, s.down.sent[0].plain, s.wpc.key))
    && (s.wpc.WKeyed? || s.wpc.WRunning? || s.flags.sending ==> s.wmode.Session?)
    && (s.wmode.Session? ==> |s.down.sent| >= 1 && Agrees(cr, s.down.sent[0].plain, s.wmode.key))
    && Switched(Modes(s.down.sent), s.wmode)
  }

  ghost predicate ClientPlaces(cr: Crypto, s: State) {
    && (s.cpc.CStart? || s.cpc.CWait? ==> s.down.got == [])
    && (s.cpc.CKeyed? || s.cpc.CAuthed? || s.flags.authed ==> s.cmode.Session?)
    && (s.flags.authed ==> s.cpc.CAuthed? || s.cpc.CDown?)
    && (s.cmode.Session? ==>
          |s.down.got| >= 1 && |s.down.sent| >= 1
          && cr.clientKey(s.down.sent[0].plain) == Some(s.cmode.key))
    && Switched(s.down.got, s.cmode)
  }

  ghost predicate DownInv(cr: Crypto, s: State) {
    && LinkOk(s.down)
    && Opens(cr, s.down)
    && WorkerPlaces(cr, s)
    && ClientPlaces(cr, s)
    && s.pushed == Later(s.down.sent) + s.queue
    && s.received == Later(s.down.sent[..|s.down.got|])
  }

  // ----- client to worker -----

  ghost predicate UpPlaces(s: State) {
    && (s.wpc.WStart? ==> s.up.got == [])
    && (s.wpc != WStart && s.wpc != WDown ==> s.up.got != [])
    && Switched(s.up.got, s.wmode)
    && (s.wmode.Session? ==> s.up.got != [])
    && (!s.cpc.CStart? && !s.cpc.CDown? ==> s.up.sent != [])
    && (s.cmode.Session? ==> s.up.sent != [])
    && (s.up.sent != [] ==> s.up.sent[0].mode == Plain)
    && (forall i :: 0 <= i < |s.up.sent| ==> s.up.sent[i].mode == Plain || s.up.sent[i].mode == s.cmode)
  }

  ghost predicate OnTime(s: State) {
    && (s.cpc.CStart? ==> s.up.sent == [])
    && (s.cpc.CWait? || s.cpc.CKeyed? ==> |s.up.sent| == 1)
    && Switched(Modes(s.up.sent), s.cmode)
    && s.appSent == Later(s.up.sent)
    && |s.up.got| <= |s.up.sent|
    && s.handled == Later(s.up.sent[..|s.up.got|])
  }

  ghost predicate UpInv(cr: Crypto, s: State) {
    && LinkOk(s.up)
    && Opens(cr, s.up)
    && UpPlaces(s)
    && (!s.early ==> OnTime(s))
  }

  ghost predicate Inv(cr: Crypto, s: State) {
    && (Small(s.down) ==> DownInv(cr, s))
    && (Small(s.down) && Small(s.up) ==> UpInv(cr, s))
  }

  // ----- every step keeps the invariants -----

  lemma LaterAppend(sent: seq<Sent>, r: Sent)
    ensures Later(sent + [r]) == if sent == [] then [] else Later(sent) + [r.plain]
    ensures Modes(sent + [r]) == Modes(sent) + [r.mode]
  {
    if sent != [] {
      assert (sent + [r])[1..] == sent[1..] + [r];
    }
  }

  lemma LaterTake(sent: seq<Sent>, n: nat)
    requires n < |sent|
    ensures Later(sent[..n + 1]) == if n == 0 then [] else Later(sent[..n]) + [sent[n].plain]
  {
    assert sent[..n + 1] == sent[..n] + [sent[n]];
    LaterAppend(sent[..n], sent[n]);
  }

  lemma OpensAppend(cr: Crypto, l: Link, m: Mode, nonce: nat, p: Pack)
    requires Inverse(cr) && Opens(cr, l)
    ensures Opens(cr, Write(l, Sealed(cr, m, nonce, p)))
  {
  }

  lemma SmallBefore(cr: Crypto, s: State, a: Step)
    requires Enabled(cr, s, a)
    ensures Small(Apply(cr, s, a).down) ==> Small(s.down)
    ensures Small(Apply(cr, s, a).up) ==> Small(s.up)
  {
    var s' := Apply(cr, s, a);
    assert s.down.sent <= s'.down.sent && s.up.sent <= s'.up.sent;
  }

  /** Both sides that have a session have the same one. */
  lemma SameSession(cr: Crypto, s: State)
    requires DownInv(cr, s) && s.cmode.Session? && s.wmode.Session?
    ensures s.cmode == s.wmode
  {
  }

  lemma AuthKeepsDown(cr: Crypto, s: State, a: Step)
    requires Enabled(cr, s, a) && a.Auth? && DownInv(cr, s)
    ensures DownInv(cr, Apply(cr, s, a))
  {
    var r := Sent(Plain, a.out, a.out);
    WriteKeepsLink(s.down, r);
    LaterAppend(s.down.sent, r);
  }

  lemma DrainKeepsPlaces(cr: Crypto, s: State, s': State, r: Sent)
    requires WorkerPlaces(cr, s) && ClientPlaces(cr, s) && s.flags.sending && r.mode == s.wmode
    requires s' == s.(queue := s'.queue, down := Write(s.down, r))
    ensures WorkerPlaces(cr, s') && ClientPlaces(cr, s')
  {
    LaterAppend(s.down.sent, r);
  }

  lemma DrainKeepsHistory(s: State, r: Sent)
    requires s.down.sent != [] && |s.down.got| <= |s.down.sent| && s.queue != [] && r.plain == s.queue[0]
    ensures Later(s.down.sent + [r]) + s.queue[1..] == Later(s.down.sent) + s.queue
    ensures (s.down.sent + [r])[..|s.down.got|] == s.down.sent[..|s.down.got|]
  {
    LaterAppend(s.down.sent, r);
  }

  lemma DrainKeepsDown(cr: Crypto, s: State, a: Step)
    requires Inverse(cr) && Enabled(cr, s, a) && a.Drain? && DownInv(cr, s)
    ensures DownInv(cr, Apply(cr, s, a))
  {
    var r := Sealed(cr, s.wmode, a.nonce, s.queue[0]);
    WriteKeepsLink(s.down, r);
    OpensAppend(cr, s.down, s.wmode, a.nonce, s.queue[0]);
    DrainKeepsPlaces(cr, s, Apply(cr, s, a), r);
    DrainKeepsHistory(s, r);
  }

  lemma ReplyKeepsPlaces(cr: Crypto, s: State, s': State)
    requires ClientPlaces(cr, s) && s.cpc.CWait? && |s.down.sent| >= 1 && s'.flags.authed == s.flags.authed
    requires s'.down.sent == s.down.sent && s'.down.got == [Plain]
    requires if s'.cpc.CKeyed?
      then s'.cmode.Session? && cr.clientKey(s.down.sent[0].plain) == Some(s'.cmode.key)
      else s'.cpc.CDown? && s'.cmode == s.cmode
    ensures ClientPlaces(cr, s')
  {
  }

  lemma ReplyKeepsDown(cr: Crypto, s: State, a: Step)
    requires Enabled(cr, s, a) && a.Reply? && DownInv(cr, s) && Small(s.down)
    ensures DownInv(cr, Apply(cr, s, a))
  {
    ReadGetsNext(s.down, Plain);
    LaterTake(s.down.sent, |s.down.got|);
    assert s.down.sent[0].plain == s.down.sent[0].wire by {
      assert Modes(s.down.sent)[0] == Plain;
    }
    ReplyKeepsPlaces(cr, s, Apply(cr, s, a));
  }

  lemma ReceiveKeepsPlaces(cr: Crypto, s: State, s': State)
    requires ClientPlaces(cr, s) && (s.cpc.CKeyed? || s.cpc.CAuthed?)
    requires s'.cmode == s.cmode && s'.flags.authed == s.flags.authed
    requires s'.down.sent == s.down.sent && s'.down.got == s.down.got + [s.cmode]
    requires s'.cpc == s.cpc || s'.cpc.CDown?
    ensures ClientPlaces(cr, s')
  {
  }

  /** After the handshake the next frame to the client is under the client's own session. */
  lemma NextDownOpens(cr: Crypto, s: State)
    requires DownInv(cr, s) && s.cmode.Session? && |s.down.got| < |s.down.sent|
    ensures var r := s.down.sent[|s.down.got|]; Decrypt(cr, s.cmode, r.wire) == Some(r.plain)
  {
    assert Modes(s.down.sent)[|s.down.got|] == s.wmode;
    SameSession(cr, s);
  }

  lemma ReceiveKeepsDown(cr: Crypto, s: State, a: Step)
    requires Enabled(cr, s, a) && a.Receive? && DownInv(cr, s) && Small(s.down)
    ensures DownInv(cr, Apply(cr, s, a))
  {
    ReadGetsNext(s.down, s.cmode);
    LaterTake(s.down.sent, |s.down.got|);
    NextDownOpens(cr, s);
    ReceiveKeepsPlaces(cr, s, Apply(cr, s, a));
  }

  lemma SetSessionKeepsDown(cr: Crypto, s: State, a: Step)
    requires Enabled(cr, s, a) && a.SetSession? && DownInv(cr, s)
    ensures DownInv(cr, Apply(cr, s, a))
  {
  }

  /** A step that leaves the downward link, the modes and the histories alone. */
  lemma DownStays(cr: Crypto, s: State, s': State)
    requires DownInv(cr, s) && s'.down == s.down && s'.cmode == s.cmode && s'.wmode == s.wmode
    requires s'.queue == s.queue && s'.pushed == s.pushed && s'.received == s.received
    requires s.flags.authed ==> s'.flags.authed
    requires s'.flags.authed ==> s.flags.authed || (s.cpc.CKeyed? && s'.cpc.CAuthed?)
    requires s'.cpc == s.cpc || s'.cpc.CDown? || (s.cpc.CStart? && s'.cpc.CWait?) || (s.cpc.CKeyed? && s'.cpc.CAuthed?)
    requires s'.flags.sending ==> s.flags.sending || s.wpc.WKeyed?
    requires s'.wpc == s.wpc || s'.wpc.WDown?
      || (s.wpc.WStart? && s'.wpc.WAuthing?) || (s.wpc.WKeyed? && s'.wpc.WRunning?)
    ensures DownInv(cr, s')
  {
  }

  lemma QuietKeepsDown(cr: Crypto, s: State, a: Step)
    requires Enabled(cr, s, a) && DownInv(cr, s)
    requires !a.Auth? && !a.Drain? && !a.Reply? && !a.Receive? && !a.SetSession?
    ensures DownInv(cr, Apply(cr, s, a))
  {
    if a.Push? {
      PushKeepsDown(cr, s, a);
    } else if a.CutDown? {
      CutKeepsDown(cr, s, a);
    } else if a.Hello? || a.Announce? || a.ClientFail? {
      ClientKeepsDown(cr, s, a);
    } else if a.TakeHello? {
      TakeHelloKeepsDown(cr, s, a);
    } else if a.Handle? {
      HandleKeepsDown(cr, s, a);
    } else {
      RestKeepsDown(cr, s, a);
    }
  }

  lemma TakeHelloKeepsDown(cr: Crypto, s: State, a: Step)
    requires Enabled(cr, s, a) && a.TakeHello? && DownInv(cr, s)
    ensures DownInv(cr, Apply(cr, s, a))
  {
    DownStays(cr, s, Apply(cr, s, a));
  }

  lemma HandleKeepsDown(cr: Crypto, s: State, a: Step)
    requires Enabled(cr, s, a) && a.Handle? && DownInv(cr, s)
    ensures DownInv(cr, Apply(cr, s, a))
  {
    DownStays(cr, s, Apply(cr, s, a));
  }

  lemma ClientKeepsDown(cr: Crypto, s: State, a: Step)
    requires Enabled(cr, s, a) && (a.Hello? || a.Announce? || a.ClientFail?) && DownInv(cr, s)
    ensures DownInv(cr, Apply(cr, s, a))
  {
    DownStays(cr, s, Apply(cr, s, a));
  }

  lemma RestKeepsDown(cr: Crypto, s: State, a: Step)
    requires Enabled(cr, s, a) && DownInv(cr, s)
    requires a.Send? || a.ClientStop? || a.Run? || a.WorkerFail? || a.EndSending? || a.WorkerStop? || a.CutUp?
    ensures DownInv(cr, Apply(cr, s, a))
  {
    DownStays(cr, s, Apply(cr, s, a));
  }

  lemma PushKeepsDown(cr: Crypto, s: State, a: Step)
    requires Enabled(cr, s, a) && a.Push? && DownInv(cr, s)
    ensures DownInv(cr, Apply(cr, s, a))
  {
    assert s.pushed + [a.pack] == Later(s.down.sent) + (s.queue + [a.pack]);
  }

  lemma CutKeepsDown(cr: Crypto, s: State, a: Step)
    requires Enabled(cr, s, a) && a.CutDown? && DownInv(cr, s)
    ensures DownInv(cr, Apply(cr, s, a))
  {
    CutKeepsLink(s.down, a.n);
  }

  lemma StepKeepsDown(cr: Crypto, s: State, a: Step)
    requires Inverse(cr) && Enabled(cr, s, a) && DownInv(cr, s) && Small(s.down)
    ensures DownInv(cr, Apply(cr, s, a))
  {
    if a.Auth? {
      AuthKeepsDown(cr, s, a);
    } else if a.Drain? {
      DrainKeepsDown(cr, s, a);
    } else if a.Reply? {
      ReplyKeepsDown(cr, s, a);
    } else if a.Receive? {
      ReceiveKeepsDown(cr, s, a);
    } else if a.SetSession? {
      SetSessionKeepsDown(cr, s, a);
    } else {
      QuietKeepsDown(cr, s, a);
    }
  }

  lemma SendKeepsPlaces(cr: Crypto, s: State, a: Step)
    requires Enabled(cr, s, a) && (a.Hello? || a.Send?)
    requires ClientPlaces(cr, s) && UpPlaces(s)
    ensures UpPlaces(Apply(cr, s, a))
  {
  }

  lemma SendOnTime(cr: Crypto, s: State, a: Step)
    requires Enabled(cr, s, a) && (a.Hello? || (a.Send? && s.flags.authed))
    requires ClientPlaces(cr, s) && UpPlaces(s) && OnTime(s)
    ensures OnTime(Apply(cr, s, a))
  {
    var sent, r := s.up.sent, Sealed(cr, s.cmode, if a.Hello? then 0 else a.nonce, a.pack);
    LaterAppend(sent, r);
    assert (sent + [r])[..|s.up.got|] == sent[..|s.up.got|];
  }

  lemma SendKeepsUp(cr: Crypto, s: State, a: Step)
    requires Inverse(cr) && Enabled(cr, s, a) && (a.Hello? || (a.Send? && !s.flags.cstop))
    requires ClientPlaces(cr, s) && UpInv(cr, s)
    ensures UpInv(cr, Apply(cr, s, a))
  {
    var nonce := if a.Hello? then 0 else a.nonce;
    WriteKeepsLink(s.up, Sealed(cr, s.cmode, nonce, a.pack));
    OpensAppend(cr, s.up, s.cmode, nonce, a.pack);
    SendKeepsPlaces(cr, s, a);
    if !s.early && (a.Hello? || s.flags.authed) {
      SendOnTime(cr, s, a);
    }
  }

  lemma TakeHelloKeepsUp(cr: Crypto, s: State, a: Step)
    requires Enabled(cr, s, a) && a.TakeHello? && UpInv(cr, s) && Small(s.up)
    ensures UpInv(cr, Apply(cr, s, a))
  {
    ReadGetsNext(s.up, Plain);
    LaterTake(s.up.sent, |s.up.got|);
  }

  lemma NextOpens(cr: Crypto, s: State)
    requires DownInv(cr, s) && UpInv(cr, s) && !s.early
    requires s.wpc.WRunning? && |s.up.got| < |s.up.sent|
    ensures var r := s.up.sent[|s.up.got|]; Decrypt(cr, s.wmode, r.wire) == Some(r.plain)
  {
    assert Modes(s.up.sent)[|s.up.got|] == s.cmode;
    SameSession(cr, s);
  }

  lemma HandleOnTime(s: State, s': State)
    requires OnTime(s) && s.up.got != [] && |s.up.got| < |s.up.sent|
    requires s'.up.sent == s.up.sent && |s'.up.got| == |s.up.got| + 1 && s'.cpc == s.cpc && s'.cmode == s.cmode
    requires s'.appSent == s.appSent && s'.handled == s.handled + [s.up.sent[|s.up.got|].plain]
    ensures OnTime(s')
  {
    LaterTake(s.up.sent, |s.up.got|);
  }

  lemma HandleKeepsPlaces(s: State, s': State)
    requires UpPlaces(s) && s.up.got != [] && s.wmode.Session? && !s'.wpc.WStart?
    requires s'.up.sent == s.up.sent && s'.up.got == s.up.got + [s.wmode]
    requires s'.cpc == s.cpc && s'.cmode == s.cmode && s'.wmode == s.wmode
    ensures UpPlaces(s')
  {
  }

  lemma HandleKeepsUp(cr: Crypto, s: State, a: Step)
    requires Enabled(cr, s, a) && a.Handle? && DownInv(cr, s) && UpInv(cr, s) && Small(s.up)
    ensures UpInv(cr, Apply(cr, s, a))
  {
    var s' := Apply(cr, s, a);
    HandleKeepsPlaces(s, s');
    ReadGetsNext(s.up, s.wmode);
    if !s.early {
      NextOpens(cr, s);
      HandleOnTime(s, s');
    }
  }

  lemma SetSessionKeepsUp(cr: Crypto, s: State, a: Step)
    requires Enabled(cr, s, a) && a.SetSession? && WorkerPlaces(cr, s) && UpInv(cr, s)
    ensures UpInv(cr, Apply(cr, s, a))
  {
  }

  lemma ReplyKeepsUp(cr: Crypto, s: State, s': State)
    requires UpInv(cr, s) && s.cpc.CWait? && s.cmode == Plain
    requires s'.up == s.up && s'.wpc == s.wpc && s'.wmode == s.wmode
    requires s'.early == s.early && s'.appSent == s.appSent && s'.handled == s.handled
    requires if s'.cpc.CKeyed? then s'.cmode.Session? else s'.cpc.CDown? && s'.cmode == Plain
    ensures UpInv(cr, s')
  {
  }

  /** A step that leaves the upward link, the modes and the histories alone. */
  lemma UpStays(cr: Crypto, s: State, s': State)
    requires UpInv(cr, s) && s'.up == s.up && s'.cmode == s.cmode && s'.wmode == s.wmode
    requires s'.early == s.early && s'.appSent == s.appSent && s'.handled == s.handled
    requires s'.cpc == s.cpc || s'.cpc.CDown? || (s.cpc.CKeyed? && s'.cpc.CAuthed?)
    requires s'.wpc == s.wpc || s'.wpc.WDown? || (!s.wpc.WStart? && !s.wpc.WDown? && !s'.wpc.WStart?)
    ensures UpInv(cr, s')
  {
  }

  lemma QuietKeepsUp(cr: Crypto, s: State, a: Step)
    requires Enabled(cr, s, a) && UpInv(cr, s)
    requires !a.Hello? && (a.Send? ==> s.flags.cstop)
    requires !a.TakeHello? && !a.Handle? && !a.SetSession? && !a.Reply?
    ensures UpInv(cr, Apply(cr, s, a))
  {
    if a.CutUp? {
      CutKeepsUp(cr, s, a);
    } else if a.Announce? || a.Receive? || a.ClientFail? {
      ClientKeepsUp(cr, s, a);
    } else {
      RestKeepsUp(cr, s, a);
    }
  }

  lemma CutKeepsUp(cr: Crypto, s: State, a: Step)
    requires Enabled(cr, s, a) && a.CutUp? && UpInv(cr, s)
    ensures UpInv(cr, Apply(cr, s, a))
  {
    CutKeepsLink(s.up, a.n);
  }

  lemma ClientKeepsUp(cr: Crypto, s: State, a: Step)
    requires Enabled(cr, s, a) && (a.Announce? || a.Receive? || a.ClientFail?) && UpInv(cr, s)
    ensures UpInv(cr, Apply(cr, s, a))
  {
    UpStays(cr, s, Apply(cr, s, a));
  }

  lemma RestKeepsUp(cr: Crypto, s: State, a: Step)
    requires Enabled(cr, s, a) && UpInv(cr, s) && (a.Send? ==> s.flags.cstop)
    requires a.Send? || a.ClientStop? || a.Auth? || a.Run? || a.Push? || a.Drain?
      || a.WorkerFail? || a.EndSending? || a.WorkerStop? || a.CutDown?
    ensures UpInv(cr, Apply(cr, s, a))
  {
    UpStays(cr, s, Apply(cr, s, a));
  }

  lemma StepKeepsUp(cr: Crypto, s: State, a: Step)
    requires Inverse(cr) && Enabled(cr, s, a) && DownInv(cr, s) && UpInv(cr, s) && Small(s.up)
    ensures UpInv(cr, Apply(cr, s, a))
  {
    if a.Hello? || (a.Send? && !s.flags.cstop) {
      SendKeepsUp(cr, s, a);
    } else if a.TakeHello? {
      TakeHelloKeepsUp(cr, s, a);
    } else if a.Handle? {
      HandleKeepsUp(cr, s, a);
    } else if a.SetSession? {
      SetSessionKeepsUp(cr, s, a);
    } else if a.Reply? {
      ReplyKeepsUp(cr, s, Apply(cr, s, a));
    } else {
      QuietKeepsUp(cr, s, a);
    }
  }

  lemma StepKeepsInv(cr: Crypto, s: State, a: Step)
    requires Inverse(cr) && Enabled(cr, s, a) && Inv(cr, s)
    ensures Inv(cr, Apply(cr, s, a))
  {
    SmallBefore(cr, s, a);
    var s' := Apply(cr, s, a);
    if Small(s'.down) {
      StepKeepsDown(cr, s, a);
      if Small(s'.up) {
        StepKeepsUp(cr, s, a);
      }
    }
  }

  lemma {:induction false} RunKeepsInv(cr: Crypto, s: State, steps: seq<Step>, s': State)
    requires Inverse(cr) && Inv(cr, s) && Runs(cr, s, steps, s')
    ensures Inv(cr, s')
    decreases |steps|
  {
    if steps != [] {
      StepKeepsInv(cr, s, steps[0]);
      RunKeepsInv(cr, Apply(cr, s, steps[0]), steps[1..], s');
    }
  }

  lemma {:induction false} RunsStep(cr: Crypto, s: State, steps: seq<Step>, s': State, a: Step)
    requires Runs(cr, s, steps, s') && Enabled(cr, s', a)
    ensures Runs(cr, s, steps + [a], Apply(cr, s', a))
    decreases |steps|
  {
    if steps == [] {
      assert ([] + [a])[1..] == [];
    } else {
      RunsStep(cr, Apply(cr, s, steps[0]), steps[1..], s', a);
      assert (steps + [a])[0] == steps[0] && (steps + [a])[1..] == steps[1..] + [a];
    }
  }

  lemma ReachableStep(cr: Crypto, s: State, a: Step)
    requires Reachable(cr, s) && Enabled(cr, s, a)
    ensures Reachable(cr, Apply(cr, s, a))
  {
    var steps :| Runs(cr, Init(), steps, s);
    RunsStep(cr, Init(), steps, s, a);
  }

  lemma ReachableInv(cr: Crypto, s: State)
    requires Inverse(cr) && Reachable(cr, s)
    ensures Inv(cr, s)
  {
    var steps :| Runs(cr, Init(), steps, s);
    RunKeepsInv(cr, Init(), steps, s);
  }
}
