/** The TCP codec object: a buffered writer, a reader over the bytes the connection still delivers,
    and pooled buffers that Decode fills in place. */
module Codec {
  import opened Bytes
  import opened Frame
  import opened RingPool
  import opened MultiPool

  /** Results of the Decode method. A read failure inside the body sets the named result `free` to nil
      before the deferred function calls it: that path panics, and its buffer stays out for good. */
  datatype Outcome =
    | Got(buf: Slice)
    | ReadLenFailed
    | InvalidPackLen
    | NilFreePanic(leaked: Slice)

  class Codec {
    const pool: MultiSizeRingPool
    var pending: Pack  // in the bufio.Writer
    var wire: Pack     // handed to the connection
    var input: Pack    // what the connection still delivers before it ends

    constructor (pool: MultiSizeRingPool, input: Pack)
      ensures this.pool == pool && this.input == input && wire == [] && pending == []
    {
      this.pool, this.input, wire, pending := pool, input, [], [];
    }

    method Encode(pack: Pack)
      modifies `pending, `wire
      ensures wire == old(wire) + old(pending) + Frame.Encode(pack) && pending == []
      ensures ValidLength(|pack|) ==> wire == old(wire) + old(pending) + (Header(|pack|) + pack)
    {
      pending := pending + PutInt32(Int32(|pack|));
      pending := pending + pack;
      wire := wire + pending;
      pending := [];
      if ValidLength(|pack|) {
        EncodedBytes(pack);
      }
    }

    /** The outcome r and the new state are right for what the reader found: a success lends exactly
        one buffer, holding the pack; the two length failures lend nothing; a truncated body leaks one. */
    twostate predicate Yields(d: Decoded, new r: Outcome)
      reads `input, pool.pools.Values, (if r.Got? then {r.buf.arr} else {})
    {
      match d
      case ShortHeader => r == ReadLenFailed && input == [] && pool.SameLent()
      case BadLength(rest) => r == InvalidPackLen && input == rest && pool.SameLent()
      case ShortBody => r.NilFreePanic? && input == [] && pool.OneMoreLent(r.leaked.arr)
      case Frame(p, rest) =>
        && r.Got? && input == rest
        && r.buf.len == |p| <= r.buf.arr.Length && r.buf.arr[..r.buf.len] == p
        && pool.OneMoreLent(r.buf.arr) && pool.Out(r.buf.arr)
    }

    method Decode() returns (r: Outcome)
      requires pool.Valid()
      modifies `input, pool.members, pool.tables, pool.arrays
      ensures pool.Valid() && Yields(Frame.Decode(old(input)), r)
      ensures r.Got? ==> fresh(r.buf.arr) || r.buf.arr in pool.arrays
      ensures r.Got? <==> exists n :: Announces(old(input), n) && |old(input)| >= 4 + n
      ensures forall n :: Announces(old(input), n) && r.Got? ==>
        r.buf.len == n <= r.buf.arr.Length && r.buf.arr[..n] == old(input)[4..4 + n] && input == old(input)[4 + n..]
    {
      DecodedBytes(input);
      if |input| < 4 {
        input := [];
        return ReadLenFailed;
      }
      var packLen := GetInt32(input[..4]);
      if packLen <= 0 || packLen > MAX_PACK_SIZE {
        input := input[4..];
        return InvalidPackLen;
      }
      if |input| < 4 + packLen {
        r := ReadTruncated(packLen);
      } else {
        r := ReadComplete(packLen);
      }
    }

    /** io.ReadFull of a body that arrives whole ... */
    method ReadComplete(packLen: nat) returns (r: Outcome)
      requires pool.Valid() && ValidLength(packLen) && |input| >= 4 + packLen && packLen == GetInt32(input[..4])
      modifies `input, pool.members, pool.tables, pool.arrays
      ensures pool.Valid() && Yields(Frame.Decode(old(input)), r)
      ensures r.Got? && (fresh(r.buf.arr) || r.buf.arr in pool.arrays)
    {
      var body := input[4..4 + packLen];
      assert Frame.Decode(input) == Decoded.Frame(body, input[4 + packLen..]);
      input := input[4 + packLen..];
      var buf := pool.Load(packLen, body);
      r := Got(buf);
    }

    /** ... and of one that is cut short. */
    method ReadTruncated(packLen: nat) returns (r: Outcome)
      requires pool.Valid() && ValidLength(packLen) && 4 <= |input| < 4 + packLen && packLen == GetInt32(input[..4])
      modifies `input, pool.members, pool.tables, pool.arrays
      ensures pool.Valid() && Yields(Frame.Decode(old(input)), r) && r.NilFreePanic?
    {
      assert Frame.Decode(input) == ShortBody;
      var buf := pool.Load(packLen, input[4..]);
      input := [];
      r := NilFreePanic(buf);
    }

    /** Every buffer the pools may touch later is one they had, or a new one. */
    twostate predicate NoOldArraysJoin()
      reads pool
    {
      forall a :: a in pool.arrays ==> a in old(pool.arrays) || fresh(a)
    }

    /** What Read hands on for the frame it found: a new pack, apart from every buffer of the pools. */
    twostate predicate HandsOn(d: Decoded, open: Pack -> Option<Pack>, new pack: array?<Byte>)
      reads `input, pool, if pack == null then {} else {pack}
    {
      if !d.Frame? then
        pack == null
      else
        && input == d.rest
        && (pack != null <==> open(d.pack).Some?)
        && (pack != null ==> fresh(pack) && pack !in pool.arrays && pack[..] == open(d.pack).value)
    }

    /** Every buffer is given back but the one of a truncated body. */
    twostate predicate Returns(new r: Outcome)
      reads pool.pools.Values
    {
      if r.NilFreePanic? then pool.OneMoreLent(r.leaked.arr) else pool.SameLent()
    }

    /** Without a free, the buffer of a success stays out as well. */
    twostate predicate Lends(new r: Outcome)
      reads pool.pools.Values
    {
      if r.Got? then pool.OneMoreLent(r.buf.arr) else Returns(r)
    }

    /** Worker.read up to Handle: decode, decrypt into a new pack, return the buffer, also when the cipher
        refuses. */
    method Read(open: Pack -> Option<Pack>) returns (r: Outcome, pack: array?<Byte>)
      requires pool.Valid()
      modifies `input, pool, pool.members, pool.tables, pool.arrays
      ensures pool.Valid() && NoOldArraysJoin()
      ensures HandsOn(Frame.Decode(old(input)), open, pack)
      ensures r.Got? <==> Frame.Decode(old(input)).Frame?
      ensures r.NilFreePanic? <==> Frame.Decode(old(input)).ShortBody?
      ensures r.InvalidPackLen? <==> Frame.Decode(old(input)).BadLength?
      ensures Returns(r)
    {
      ghost var d := Frame.Decode(input);
      r := Decode();
      assert Yields(d, r);
      pack := null;
      if r.Got? {
        pack := pool.DecryptAndFree(r.buf, open);
      }
    }

    /** Read, when only the bytes of the pack matter. */
    method Fetch(open: Pack -> Option<Pack>) returns (r: Outcome, pack: Option<Pack>)
      requires pool.Valid()
      modifies `input, pool, pool.members, pool.tables, pool.arrays
      ensures pool.Valid() && Returns(r) && NoOldArraysJoin()
      ensures pack == Opened(Frame.Decode(old(input)), open)
      ensures r.Got? <==> Frame.Decode(old(input)).Frame?
      ensures r.Got? ==> input == Frame.Decode(old(input)).rest
    {
      var a;
      r, a := Read(open);
      pack := if a == null then None else Some(a[..]);
    }

    /** One turn of readLoop beside the packs handed on so far: none of them changes. */
    method ReadNext(open: Pack -> Option<Pack>, packs: seq<array<Byte>>) returns (r: Outcome, packs': seq<array<Byte>>)
      requires pool.Valid() && Apart(packs)
      modifies `input, pool, pool.members, pool.tables, pool.arrays
      ensures pool.Valid() && NoOldArraysJoin() && Apart(packs') && Returns(r)
      ensures forall a :: a in packs' ==> a in packs || fresh(a)
      ensures var d := Frame.Decode(old(input));
        if d.Frame? && open(d.pack).Some?
        then r.Got? && input == d.rest && Contents(packs') == old(Contents(packs)) + [open(d.pack).value]
        else Contents(packs') == old(Contents(packs))
    {
      var pack;
      r, pack := Read(open);
      packs' := if pack == null then packs else packs + [pack];
      assert Contents(packs) == old(Contents(packs));
    }

    /** The packs are no buffers of the pools. */
    ghost predicate Apart(packs: seq<array<Byte>>)
      reads pool
    {
      forall a :: a in packs ==> a !in pool.arrays
    }

    method ReadTurn(open: Pack -> Option<Pack>, handle: Pack -> bool, packs: seq<array<Byte>>)
      returns (r: Outcome, packs': seq<array<Byte>>, more: bool)
      requires pool.Valid() && Apart(packs)
      modifies `input, pool, pool.members, pool.tables, pool.arrays
      ensures pool.Valid() && NoOldArraysJoin() && Apart(packs') && Returns(r)
      ensures forall a :: a in packs' ==> a in packs || fresh(a)
      ensures Contents(packs') + (if more then Handled(input, open, handle) else [])
        == old(Contents(packs)) + Handled(old(input), open, handle)
      ensures more ==> r.Got? && |input| < |old(input)|
    {
      ghost var s, done := input, Contents(packs);
      r, packs' := ReadNext(open, packs);
      more := |packs'| > |packs|;
      if more {
        var last := packs'[|packs|][..];
        assert last == Contents(packs')[|packs|];
        more := handle(last);
      }
      HandledStep(s, done, open, handle);
    }

    /** Worker.readLoop over the rest of the connection. The packs handed on are those Handled describes, and
        at the end, after their buffers were zeroed and reused by later reads, every one still holds its
        bytes. The pools have lent what they had lent before, and one buffer more after a truncated body. */
    method ReadLoop(open: Pack -> Option<Pack>, handle: Pack -> bool) returns (r: Outcome, packs: seq<array<Byte>>)
      requires pool.Valid()
      modifies `input, pool, pool.members, pool.tables, pool.arrays
      ensures pool.Valid() && Apart(packs) && Returns(r)
      ensures Contents(packs) == Handled(old(input), open, handle)
    {
      packs := [];
      var more := true;
      r := ReadLenFailed;
      while more
        invariant pool.Valid() && NoOldArraysJoin() && Returns(r)
        invariant more ==> !r.NilFreePanic?
        invariant Apart(packs)
        invariant Contents(packs) + (if more then Handled(input, open, handle) else [])
          == Handled(old(input), open, handle)
        decreases more, |input|
      {
        r, packs, more := ReadTurn(open, handle, packs);
      }
    }
  }

  lemma HandledStep(s: Pack, done: seq<Pack>, open: Pack -> Option<Pack>, handle: Pack -> bool)
    ensures var d := Frame.Decode(s);
      done + Handled(s, open, handle) ==
      if d.Frame? && open(d.pack).Some?
      then done + [open(d.pack).value] + (if handle(open(d.pack).value) then Handled(d.rest, open, handle) else [])
      else done
  {
  }

  function Opened(d: Decoded, open: Pack -> Option<Pack>): Option<Pack> {
    if d.Frame? then open(d.pack) else None
  }

  ghost function Contents(packs: seq<array<Byte>>): seq<Pack>
    reads packs
  {
    seq(|packs|, i requires 0 <= i < |packs| reads packs => packs[i][..])
  }

  /** The packs the service is given from the bytes s, until a frame fails to decode or to decrypt or the
      service refuses one. */
  ghost function Handled(s: Pack, open: Pack -> Option<Pack>, handle: Pack -> bool): seq<Pack>
    decreases |s|
  {
    match Frame.Decode(s)
    case Frame(p, rest) =>
      if open(p).None? then []
      else [open(p).value] + if handle(open(p).value) then Handled(rest, open, handle) else []
    case _ => []
  }

  /** Under a plain session and a service that refuses nothing, these are all packs of the stream. */
  lemma {:induction false} PlainHandlesAll(s: Pack)
    ensures Handled(s, p => Some(p), _ => true) == DecodeAll(s)
    decreases |s|
  {
    var d := Frame.Decode(s);
    if d.Frame? {
      PlainHandlesAll(d.rest);
    }
  }
}
