/** What one undisturbed Alloc or Free does to the ring, as a function of head, tail and slot states. */
module RingSpec {
  import opened Bytes

  datatype Ring = Ring(head: nat, tail: nat, slots: seq<nat>)

  predicate Bounded(r: Ring) {
    |r.slots| > 0 && r.tail <= r.head <= r.tail + |r.slots|
  }

  /** The first position from p whose slot is free, or limit when every one before it is taken. */
  function Scan(slots: seq<nat>, p: nat, limit: nat): (q: nat)
    requires |slots| > 0 && p <= limit
    ensures p <= q <= limit
    ensures forall k :: p <= k < q ==> slots[k % |slots|] != 0
    ensures q < limit ==> slots[q % |slots|] == 0
    decreases limit - p
  {
    if p == limit || slots[p % |slots|] == 0 then p else Scan(slots, p + 1, limit)
  }

  /** Alloc on an undisturbed ring: the new ring and the slot handed out, None for the fallback. */
  function Take(r: Ring): (Ring, Option<nat>)
    requires Bounded(r)
  {
    var q := Scan(r.slots, r.head, r.tail + |r.slots|);
    if q == r.tail + |r.slots| then
      (r.(head := q), None)
    else
      (r.(head := q + 1, slots := r.slots[q % |r.slots| := 1]), Some(q % |r.slots|))
  }

  /** Free of slot i on an undisturbed ring. */
  function Give(r: Ring, i: nat): Ring
    requires i < |r.slots|
  {
    r.(tail := r.tail + 1, slots := r.slots[i := 0])
  }

  function Total(slots: seq<nat>): nat {
    if slots == [] then 0 else slots[0] + Total(slots[1..])
  }

  lemma {:induction false} TotalUpdate(slots: seq<nat>, i: nat, v: nat)
    requires i < |slots|
    ensures Total(slots[i := v]) == Total(slots) - slots[i] + v
    ensures Total(slots) >= slots[i]
  {
    if i == 0 {
      assert slots[i := v][1..] == slots[1..];
    } else {
      assert slots[i := v][1..] == slots[1..][i - 1 := v];
      TotalUpdate(slots[1..], i - 1, v);
    }
  }

  lemma {:induction false} ZeroTotal(n: nat)
    ensures Total(seq(n, _ => 0)) == 0
  {
    if n > 0 {
      assert seq(n, _ => 0)[1..] == seq(n - 1, _ => 0);
      ZeroTotal(n - 1);
    }
  }

  /** A position advances head either to hand out a slot or to skip one, never both. */
  lemma TakeAccounts(r: Ring)
    requires Bounded(r)
    ensures Bounded(Take(r).0) && Take(r).0.tail == r.tail
    ensures Take(r).1.Some? ==>
      && Take(r).1.value < |r.slots|
      && r.slots[Take(r).1.value] == 0
      && Total(Take(r).0.slots) == Total(r.slots) + 1
    ensures Take(r).1.None? ==>
      && Take(r).0.slots == r.slots
      && Take(r).0.head == r.tail + |r.slots|
      && forall k :: r.head <= k < r.tail + |r.slots| ==> r.slots[k % |r.slots|] != 0
  {
    if Take(r).1.Some? {
      TotalUpdate(r.slots, Take(r).1.value, 1);
    }
  }
}
