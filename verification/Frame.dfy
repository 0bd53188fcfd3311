/** The length-prefixed frames of tcp/frame: a big-endian int32 length, then the bytes of the pack. */
module Frame {
  import opened Bytes

  const MAX_PACK_SIZE: nat := 16384
  const INT32_MIN: int := -0x8000_0000
  const TWO32: nat := 0x1_0000_0000

  // ----- the length field -----

  /** int32(n): the low 32 bits of n, read as a signed number. */
  function Int32(n: nat): int {
    var low := n % TWO32;
    if low < 0x8000_0000 then low else low - TWO32
  }

  /** binary.BigEndian on an int32. */
  function PutInt32(v: int): (s: Pack)
    requires INT32_MIN <= v < 0x8000_0000
    ensures |s| == 4
  {
    var u := if v < 0 then v + TWO32 else v;
    [(u / 0x100_0000) as Byte, (u / 0x1_0000 % 0x100) as Byte, (u / 0x100 % 0x100) as Byte, (u % 0x100) as Byte]
  }

  function GetInt32(s: Pack): int
    requires |s| == 4
  {
    var u := (s[0] as int) * 0x100_0000 + (s[1] as int) * 0x1_0000 + (s[2] as int) * 0x100 + (s[3] as int);
    if u < 0x8000_0000 then u else u - TWO32
  }

  lemma Int32RoundTrip(v: int)
    requires INT32_MIN <= v < 0x8000_0000
    ensures GetInt32(PutInt32(v)) == v
  {
    var u := if v < 0 then v + TWO32 else v;
    var a := u / 0x100;
    var b := a / 0x100;
    assert b == u / 0x1_0000;
    assert b / 0x100 == u / 0x100_0000;
  }

  // ----- one frame -----

  function Encode(p: Pack): Pack {
    PutInt32(Int32(|p|)) + p
  }

  predicate ValidLength(n: int) {
    0 < n <= MAX_PACK_SIZE
  }

  /** What Decode finds at the front of a stream that then ends. */
  datatype Decoded =
    | Frame(pack: Pack, rest: Pack)
    | ShortHeader            // the length could not be read
    | BadLength(rest: Pack)  // the length is not in 1 .. MAX_PACK_SIZE
    | ShortBody              // the stream ends inside the body

  function Decode(s: Pack): (d: Decoded)
    ensures d.Frame? ==> |d.rest| < |s| && ValidLength(|d.pack|)
  {
    if |s| < 4 then
      ShortHeader
    else
      var n := GetInt32(s[..4]);
      if !ValidLength(n) then
        BadLength(s[4..])
      else if |s| < 4 + n then
        ShortBody
      else
        Frame(s[4..4 + n], s[4 + n..])
  }

  lemma DecodeHeader(p: Pack, rest: Pack)
    ensures var s := Encode(p) + rest;
      |s| >= 4 && GetInt32(s[..4]) == Int32(|p|) && s[4..] == p + rest
  {
    var s := Encode(p) + rest;
    assert s[..4] == PutInt32(Int32(|p|));
    assert s[4..] == p + rest;
    Int32RoundTrip(Int32(|p|));
  }

  // ----- the bytes themselves -----

  /** The header of an acceptable frame, byte by byte: two zeros, then the length, most significant byte first. */
  function Header(n: nat): Pack
    requires n <= MAX_PACK_SIZE
  {
    [0, 0, (n / 256) as Byte, (n % 256) as Byte]
  }

  /** s starts with the header of an acceptable frame of n bytes. */
  predicate Announces(s: Pack, n: int) {
    |s| >= 4 && s[0] == 0 && s[1] == 0 && n == 256 * (s[2] as int) + s[3] as int && 1 <= n <= MAX_PACK_SIZE
  }

  /** A sign bit and two zero bytes leave nothing else to be acceptable. */
  lemma HeaderBytes(s: Pack, n: int)
    requires |s| == 4
    ensures GetInt32(s) == n && ValidLength(n) <==> Announces(s, n)
  {
  }

  /** What Encode puts on the wire: the length modulo 2^32, most significant byte first, and the pack. */
  lemma EncodedHeader(p: Pack)
    ensures var s := Encode(p);
      && |s| == 4 + |p| && s[4..] == p
      && (s[0] as int) * 0x100_0000 + (s[1] as int) * 0x1_0000 + (s[2] as int) * 0x100 + s[3] as int == |p| % TWO32
  {
    var u := |p| % TWO32;
    assert u / 0x100 / 0x100 == u / 0x1_0000 && u / 0x1_0000 / 0x100 == u / 0x100_0000;
  }

  /** For a pack of acceptable length, byte by byte. */
  lemma EncodedBytes(p: Pack)
    requires ValidLength(|p|)
    ensures Encode(p) == Header(|p|) + p
  {
    assert |p| / 0x1_0000 == 0 && |p| / 0x100_0000 == 0;
  }

  /** What Decode makes of any bytes: a frame exactly when they announce an acceptable length and hold it, nothing
      to skip when the header or the body is cut, and otherwise the length is refused. */
  lemma DecodedBytes(s: Pack)
    ensures forall n :: Announces(s, n) && |s| >= 4 + n ==> Decode(s) == Frame(s[4..4 + n], s[4 + n..])
    ensures forall n :: Announces(s, n) && |s| < 4 + n ==> Decode(s) == ShortBody
    ensures |s| < 4 ==> Decode(s) == ShortHeader
    ensures |s| >= 4 && (forall n :: !Announces(s, n)) ==> Decode(s) == BadLength(s[4..])
  {
    if |s| >= 4 {
      var n := GetInt32(s[..4]);
      HeaderBytes(s[..4], n);
      forall m | Announces(s, m) ensures m == n {
        HeaderBytes(s[..4], m);
      }
      assert Announces(s[..4], n) <==> Announces(s, n);
    }
  }

  /** Decoding undoes encoding for exactly the packs of length 1 .. MAX_PACK_SIZE. */
  lemma RoundTrip(p: Pack, rest: Pack)
    ensures Decode(Encode(p) + rest) == Frame(p, rest) <==> ValidLength(|p|)
  {
    DecodeHeader(p, rest);
    var s := Encode(p) + rest;
    if ValidLength(|p|) {
      assert s[4..4 + |p|] == p;
      assert s[4 + |p|..] == rest;
    }
  }

  /** A pack below 4 GiB is delivered whole or rejected by its length. */
  lemma ShortPackIsNeverMisread(p: Pack, rest: Pack)
    requires |p| < TWO32 && !ValidLength(|p|)
    ensures Decode(Encode(p) + rest) == BadLength(p + rest)
  {
    DecodeHeader(p, rest);
  }

  /** Encode checks no length: something other than the pack comes out exactly when the truncated
      length happens to be acceptable. */
  lemma MisreadIff(p: Pack, rest: Pack)
    ensures var d := Decode(Encode(p) + rest);
      (d.Frame? && d.pack != p) <==> (|p| >= TWO32 && ValidLength(|p| % TWO32))
  {
    DecodeHeader(p, rest);
    if |p| < TWO32 {
      RoundTrip(p, rest);
    } else {
      TruncatedLength(|p|);
    }
  }

  lemma TruncatedLength(n: nat)
    ensures ValidLength(Int32(n)) <==> ValidLength(n % TWO32)
    ensures ValidLength(Int32(n)) ==> Int32(n) == n % TWO32 <= n
  {
  }

  // ----- streams of frames -----

  function EncodeAll(ps: seq<Pack>): Pack {
    if ps == [] then [] else Encode(ps[0]) + EncodeAll(ps[1..])
  }

  /** The packs a reader gets before its first failure. */
  function DecodeAll(s: Pack): seq<Pack>
    decreases |s|
  {
    match Decode(s)
    case Frame(p, rest) => [p] + DecodeAll(rest)
    case _ => []
  }

  lemma {:induction false} AllDecodedAreValid(s: Pack)
    ensures forall p :: p in DecodeAll(s) ==> ValidLength(|p|)
    decreases |s|
  {
    match Decode(s)
    case Frame(_, rest) => AllDecodedAreValid(rest);
    case _ =>
  }

  /** A list of packs survives the wire exactly when every one of them has an acceptable length. */
  lemma {:induction false} ListRoundTrip(ps: seq<Pack>)
    ensures DecodeAll(EncodeAll(ps)) == ps <==> forall p :: p in ps ==> ValidLength(|p|)
  {
    if forall p :: p in ps ==> ValidLength(|p|) {
      ValidListRoundTrip(ps);
    } else {
      AllDecodedAreValid(EncodeAll(ps));
    }
  }

  lemma {:induction false} ValidListRoundTrip(ps: seq<Pack>)
    requires forall p :: p in ps ==> ValidLength(|p|)
    ensures DecodeAll(EncodeAll(ps)) == ps
  {
    if ps != [] {
      assert ps[0] in ps;
      RoundTrip(ps[0], EncodeAll(ps[1..]));
      ValidListRoundTrip(ps[1..]);
    }
  }

  lemma DecodeExtends(s: Pack, more: Pack)
    ensures match Decode(s)
      case Frame(p, rest) => Decode(s + more) == Frame(p, rest + more)
      case BadLength(rest) => Decode(s + more) == BadLength(rest + more)
      case _ => true
  {
    if |s| >= 4 {
      assert (s + more)[..4] == s[..4];
      assert (s + more)[4..] == s[4..] + more;
      var n := GetInt32(s[..4]);
      if ValidLength(n) && |s| >= 4 + n {
        assert (s + more)[4..4 + n] == s[4..4 + n];
        assert (s + more)[4 + n..] == s[4 + n..] + more;
      }
    }
  }

  /** What a reader gets from any bytes at all is a prefix of what it gets from more bytes: a stream
      cut anywhere delivers only packs the whole stream would have delivered, in the same order. */
  lemma {:induction false} CutStreamDeliversPrefix(s: Pack, more: Pack)
    ensures DecodeAll(s) <= DecodeAll(s + more)
    decreases |s|
  {
    DecodeExtends(s, more);
    match Decode(s)
    case Frame(p, rest) => CutStreamDeliversPrefix(rest, more);
    case _ =>
  }

  /** Any prefix of the encoded list yields only a prefix of the list, for all packs below 4 GiB. */
  lemma {:induction false} PrefixOfEncodedList(ps: seq<Pack>, s: Pack)
    requires s <= EncodeAll(ps) && forall p :: p in ps ==> |p| < TWO32
    ensures DecodeAll(s) <= ps
  {
    var t := EncodeAll(ps)[|s|..];
    assert EncodeAll(ps) == s + t;
    CutStreamDeliversPrefix(s, t);
    EncodedListDelivers(ps);
  }

  /** It yields every pack whose frame is complete, when the lengths are acceptable. */
  lemma CompleteFramesAreDelivered(ps: seq<Pack>, k: nat, s: Pack)
    requires k <= |ps| && (forall p :: p in ps ==> ValidLength(|p|))
    requires EncodeAll(ps[..k]) <= s
    ensures ps[..k] <= DecodeAll(s)
  {
    var t := s[|EncodeAll(ps[..k])|..];
    assert s == EncodeAll(ps[..k]) + t;
    CutStreamDeliversPrefix(EncodeAll(ps[..k]), t);
    ValidListRoundTrip(ps[..k]);
  }

  lemma {:induction false} EncodedListDelivers(ps: seq<Pack>)
    requires forall p :: p in ps ==> |p| < TWO32
    ensures DecodeAll(EncodeAll(ps)) <= ps
  {
    if ps != [] {
      assert ps[0] in ps;
      if ValidLength(|ps[0]|) {
        RoundTrip(ps[0], EncodeAll(ps[1..]));
        EncodedListDelivers(ps[1..]);
      } else {
        ShortPackIsNeverMisread(ps[0], EncodeAll(ps[1..]));
      }
    }
  }

  lemma {:induction false} EncodeAllConcat(ps: seq<Pack>, qs: seq<Pack>)
    ensures EncodeAll(ps + qs) == EncodeAll(ps) + EncodeAll(qs)
  {
    if ps == [] {
      assert ps + qs == qs;
    } else {
      assert (ps + qs)[1..] == ps[1..] + qs;
      EncodeAllConcat(ps[1..], qs);
    }
  }
}
