/** The session cipher, and one direction of a connection: a stream of frames that may be cut anywhere. */
module Links {
  import opened Bytes
  import opened Frame

  type Key = nat

  /** The session cipher (with a nonce, so that encryption need not be a function of the pack), and the
      key a client derives from the server's reply. */
  datatype Crypto = Crypto(
    seal: (Key, nat, Pack) -> Pack,
    unseal: (Key, Pack) -> Option<Pack>,
    clientKey: Pack -> Option<Key>)

  ghost predicate Inverse(cr: Crypto) {
    forall k, n, p :: cr.unseal(k, cr.seal(k, n, p)) == Some(p)
  }

  datatype Mode = Plain | Session(key: Key)

  /** Cryptor.Encrypt and Decrypt: plain mode copies. */
  function Encrypt(cr: Crypto, m: Mode, nonce: nat, p: Pack): Pack {
    match m
    case Plain => p
    case Session(k) => cr.seal(k, nonce, p)
  }

  function Decrypt(cr: Crypto, m: Mode, p: Pack): Option<Pack> {
    match m
    case Plain => Some(p)
    case Session(k) => cr.unseal(k, p)
  }

  // ----- one direction of the connection -----

  /** A pack as it was encoded: the sender's mode, the pack and what went into the frame. */
  datatype Sent = Sent(mode: Mode, plain: Pack, wire: Pack)

  /** `bytes` are in flight. Once the connection is cut some tail of them is lost and later writes go
      nowhere. `sent` lists every pack encoded so far, `got` the mode each frame was decoded under. */
  datatype Link = Link(bytes: Pack, cut: bool, sent: seq<Sent>, got: seq<Mode>)

  function Wires(sent: seq<Sent>): seq<Pack> {
    seq(|sent|, i requires 0 <= i < |sent| => sent[i].wire)
  }

  function Plains(sent: seq<Sent>): seq<Pack> {
    seq(|sent|, i requires 0 <= i < |sent| => sent[i].plain)
  }

  function Write(l: Link, r: Sent): Link {
    l.(bytes := if l.cut then l.bytes else l.bytes + Encode(r.wire), sent := l.sent + [r])
  }

  function Read(l: Link, m: Mode): Link
    requires Decode(l.bytes).Frame?
  {
    l.(bytes := Decode(l.bytes).rest, got := l.got + [m])
  }

  function Cut(l: Link, n: nat): Link
    requires n <= |l.bytes|
  {
    l.(bytes := l.bytes[..n], cut := true)
  }

  /** No frame body reaches 4 GiB, where the length field wraps around. */
  ghost predicate Small(l: Link) {
    forall i :: 0 <= i < |l.sent| ==> |l.sent[i].wire| < TWO32
  }

  /** The bytes in flight are the frames not yet decoded, possibly cut short. */
  ghost predicate LinkOk(l: Link) {
    && |l.got| <= |l.sent|
    && var owed := EncodeAll(Wires(l.sent[|l.got|..]));
       if l.cut then l.bytes <= owed else l.bytes == owed
  }

  lemma WriteKeepsLink(l: Link, r: Sent)
    requires LinkOk(l)
    ensures LinkOk(Write(l, r))
  {
    var rest := l.sent[|l.got|..];
    assert (l.sent + [r])[|l.got|..] == rest + [r];
    assert Wires(rest + [r]) == Wires(rest) + [r.wire];
    EncodeAllConcat(Wires(rest), [r.wire]);
    assert EncodeAll([r.wire]) == Encode(r.wire) by { assert [r.wire][1..] == []; }
  }

  lemma CutKeepsLink(l: Link, n: nat)
    requires LinkOk(l) && n <= |l.bytes|
    ensures LinkOk(Cut(l, n))
  {
  }

  /** Whatever frame comes out is the next one that went in. */
  lemma ReadGetsNext(l: Link, m: Mode)
    requires LinkOk(l) && Small(l) && Decode(l.bytes).Frame?
    ensures |l.got| < |l.sent| && Decode(l.bytes).pack == l.sent[|l.got|].wire
    ensures LinkOk(Read(l, m))
  {
    var rest := l.sent[|l.got|..];
    var ws := Wires(rest);
    var owed := EncodeAll(ws);
    var lost := owed[|l.bytes|..];
    assert owed == l.bytes + lost;
    DecodeExtends(l.bytes, lost);
    var d := Decode(l.bytes);
    assert Decode(owed) == Frame(d.pack, d.rest + lost);
    assert ws != [];
    var p, tail := ws[0], EncodeAll(ws[1..]);
    assert p == rest[0].wire;
    if ValidLength(|p|) {
      RoundTrip(p, tail);
    } else {
      ShortPackIsNeverMisread(p, tail);
    }
    assert l.sent[|l.got| + 1..] == rest[1..];
    assert Wires(rest[1..]) == ws[1..];
    assert d.rest + lost == tail;
  }

  /** An intact link whose packs have acceptable lengths always has its next frame ready. */
  lemma NextFrameIsReady(l: Link)
    requires LinkOk(l) && !l.cut && |l.got| < |l.sent| && ValidLength(|l.sent[|l.got|].wire|)
    ensures Decode(l.bytes).Frame?
  {
    var ws := Wires(l.sent[|l.got|..]);
    RoundTrip(ws[0], EncodeAll(ws[1..]));
  }

  /** An intact link with nothing in flight owes nothing. */
  lemma DrainedLink(l: Link)
    requires LinkOk(l) && !l.cut && l.bytes == []
    ensures |l.got| == |l.sent|
  {
    var ws := Wires(l.sent[|l.got|..]);
    assert ws != [] ==> |EncodeAll(ws)| >= |Encode(ws[0])|;
  }
}
