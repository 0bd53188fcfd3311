/** The ring when buffers come back in the order they were lent: the use it is designed for. */
module RingFifo {
  import opened Bytes
  import opened RingSpec
  import Bits
  import RingRuns

  /** A ring and its lent slots, oldest first. */
  datatype Queue = Queue(ring: Ring, lent: seq<nat>)

  datatype Op = Alloc | FreeOldest

  /** What one call returns: a slot, the fallback, or nothing for a Free. */
  datatype Outcome = Served(slot: nat) | Fallback | Freed

  function Perform(q: Queue, op: Op): (Queue, Outcome)
    requires Bounded(q.ring) && (forall i :: i in q.lent ==> i < |q.ring.slots|)
  {
    match op
    case Alloc =>
      var (r, slot) := Take(q.ring);
      (match slot
       case Some(i) => (Queue(r, q.lent + [i]), Served(i))
       case None => (Queue(r, q.lent), Fallback))
    case FreeOldest =>
      if q.lent == [] then (q, Freed)
      else assert q.lent[0] in q.lent; (Queue(Give(q.ring, q.lent[0]), q.lent[1..]), Freed)
  }

  function Fresh(capacity: nat): Queue {
    Queue(Ring(0, 0, seq(capacity, _ => 0)), [])
  }

  /** The lent slots are exactly positions tail .. head - 1, in order. */
  ghost predicate InOrder(q: Queue) {
    var r, cap := q.ring, |q.ring.slots|;
    && Bounded(r)
    && |q.lent| == r.head - r.tail == Total(r.slots)
    && (forall k {:trigger q.lent[k]} :: 0 <= k < |q.lent| ==> q.lent[k] == (r.tail + k) % cap)
    && (forall i :: 0 <= i < cap ==> r.slots[i] <= 1)
    && (forall i :: 0 <= i < cap ==> (r.slots[i] == 1 <==> i in q.lent))
  }

  lemma DistinctRemainders(p: nat, q: nat, d: nat)
    requires d > 0 && p < q < p + d
    ensures p % d != q % d
  {
    if p % d == q % d {
      var a, b := p / d, q / d;
      assert p == a * d + p % d && q == b * d + q % d;
      if b <= a {
        if b < a { Bits.Multiple(a, b, d); }
      } else {
        Bits.Multiple(b, a, d);
      }
    }
  }

  lemma OrderedSlotsDiffer(q: Queue, j: nat, k: nat)
    requires InOrder(q) && j < k < |q.lent|
    ensures q.lent[j] != q.lent[k]
  {
    DistinctRemainders(q.ring.tail + j, q.ring.tail + k, |q.ring.slots|);
  }

  /** Alloc in order: never a failed slot claim, and the fallback exactly when every slot is lent. */
  lemma AllocInOrder(q: Queue)
    requires InOrder(q)
    ensures q.ring.head < q.ring.tail + |q.ring.slots| ==> q.ring.slots[q.ring.head % |q.ring.slots|] == 0
    ensures InOrder(Perform(q, Alloc).0)
  {
    var r, cap := q.ring, |q.ring.slots|;
    if r.head < r.tail + cap {
      var i := r.head % cap;
      if i in q.lent {
        var k: nat :| k < |q.lent| && q.lent[k] == i;
        DistinctRemainders(r.tail + k, r.head, cap);
      }
      TotalUpdate(r.slots, i, 1);
      var q' := Perform(q, Alloc).0;
      assert q'.lent == q.lent + [i];
      assert forall x :: x in q'.lent <==> x in q.lent || x == i;
    }
  }

  lemma FreeInOrder(q: Queue)
    requires InOrder(q)
    ensures InOrder(Perform(q, FreeOldest).0)
  {
    if q.lent != [] {
      var r, cap, q' := q.ring, |q.ring.slots|, Perform(q, FreeOldest).0;
      var i := q.lent[0];
      assert i in q.lent && r.slots[i] == 1;
      TotalUpdate(r.slots, i, 0);
      forall k | 0 <= k < |q'.lent| ensures q'.lent[k] == (q'.ring.tail + k) % cap && q'.lent[k] != i {
        assert q'.lent[k] == q.lent[k + 1];
        OrderedSlotsDiffer(q, 0, k + 1);
      }
      forall x | 0 <= x < cap ensures q'.ring.slots[x] == 1 <==> x in q'.lent {
        if x in q.lent && x != i {
          var k: nat :| k < |q.lent| && q.lent[k] == x;
          assert q'.lent[k - 1] == x;
        }
      }
    }
  }

  ghost predicate History(q: Queue, ops: seq<Op>, q': Queue)
    decreases |ops|
  {
    if ops == [] then
      q == q'
    else
      && Bounded(q.ring)
      && (forall i :: i in q.lent ==> i < |q.ring.slots|)
      && History(Perform(q, ops[0]).0, ops[1..], q')
  }

  lemma {:induction false} HistoryInOrder(q: Queue, ops: seq<Op>, q': Queue)
    requires InOrder(q) && History(q, ops, q')
    ensures InOrder(q') && |q'.ring.slots| == |q.ring.slots|
    decreases |ops|
  {
    if ops != [] {
      if ops[0].Alloc? { AllocInOrder(q); } else { FreeInOrder(q); }
      HistoryInOrder(Perform(q, ops[0]).0, ops[1..], q');
    }
  }

  /** After any sequence of calls that frees in allocation order: the lent slots are positions
      tail .. head - 1, nothing was skipped, Alloc falls back iff no slot is free, and the
      Available statistic is the number of free slots. */
  lemma FifoUseLosesNothing(capacity: nat, ops: seq<Op>, q: Queue)
    requires capacity > 0 && History(Fresh(capacity), ops, q)
    ensures InOrder(q) && |q.ring.slots| == capacity
    ensures capacity - (q.ring.head - q.ring.tail) == RingRuns.FreeCount(q.ring.slots)
    ensures Perform(q, Alloc).1 == Fallback <==> RingRuns.FreeCount(q.ring.slots) == 0
    ensures Perform(q, Alloc).1.Served? ==>
      Perform(q, Alloc).1.slot == q.ring.head % capacity && Perform(q, Alloc).0.ring.head == q.ring.head + 1
  {
    ZeroTotal(capacity);
    HistoryInOrder(Fresh(capacity), ops, q);
    RingRuns.FreeCountIsRest(q.ring.slots);
    AllocInOrder(q);
  }
}
