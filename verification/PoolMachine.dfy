/** The ring machine together with its fallback buffers: the step that turns to the fallback takes a buffer from
    the shared bag or makes one, and every part of a fallback buffer's Free is a step of its own. */
module PoolMachine {
  import opened Bytes
  import Ring = RingMachine
  import RingRuns

  /** A fallback buffer: kept in the bag, lent to a caller, being freed, zeroed but not yet put back, or
      dropped by the garbage collector. */
  datatype Phase = Kept | Lent | Freeing | Zeroed | Dropped

  datatype Spare = Spare(data: Pack, phase: Phase)

  datatype State = State(ring: Ring.State, spares: seq<Spare>)

  datatype Step =
    | OnRing(a: Ring.Action)
    | TakeSpare(t: nat, kept: Option<nat>)  // thread t gets a kept buffer, or a new one
    | WriteSpare(i: nat, bytes: Pack)
    | FreeSpare(i: nat)
    | ClearSpare(i: nat)
    | PutSpare(i: nat)
    | DropSpare(i: nat)

  ghost function Init(c: Ring.Config): State {
    State(Ring.Init(c), [])
  }

  ghost predicate In(s: State, i: nat, phase: Phase) {
    i < |s.spares| && s.spares[i].phase == phase
  }

  ghost predicate Enabled(c: Ring.Config, s: State, step: Step) {
    match step
    case OnRing(a) => !a.UseFallback? && Ring.Enabled(c, s.ring, a)
    case TakeSpare(t, kept) => Ring.Enabled(c, s.ring, Ring.UseFallback(t)) && (kept.Some? ==> In(s, kept.value, Kept))
    case WriteSpare(i, bytes) => In(s, i, Lent) && |bytes| == c.bufferSize
    case FreeSpare(i) => In(s, i, Lent)
    case ClearSpare(i) => In(s, i, Freeing)
    case PutSpare(i) => In(s, i, Zeroed)
    case DropSpare(i) => In(s, i, Kept)
  }

  ghost function Set(s: State, i: nat, spare: Spare): State
    requires i < |s.spares|
  {
    s.(spares := s.spares[i := spare])
  }

  ghost function Apply(c: Ring.Config, s: State, step: Step): State
    requires Enabled(c, s, step)
  {
    match step
    case OnRing(a) => s.(ring := Ring.Apply(c, s.ring, a))
    case TakeSpare(t, kept) =>
      var s1 := s.(ring := Ring.Apply(c, s.ring, Ring.UseFallback(t)));
      if kept.Some? then Set(s1, kept.value, s.spares[kept.value].(phase := Lent))
      else s1.(spares := s.spares + [Spare(Zeros(c.bufferSize), Lent)])
    case WriteSpare(i, bytes) => Set(s, i, Spare(bytes, Lent))
    case FreeSpare(i) => Set(s, i, s.spares[i].(phase := Freeing))
    case ClearSpare(i) => Set(s, i, Spare(Zeros(c.bufferSize), Zeroed))
    case PutSpare(i) => Set(s, i, s.spares[i].(phase := Kept))
    case DropSpare(i) => Set(s, i, s.spares[i].(phase := Dropped))
  }

  ghost predicate Runs(c: Ring.Config, s: State, steps: seq<Step>, s': State)
    decreases |steps|
  {
    if steps == [] then s == s' else Enabled(c, s, steps[0]) && Runs(c, Apply(c, s, steps[0]), steps[1..], s')
  }

  ghost predicate Reachable(c: Ring.Config, s: State) {
    exists steps :: Runs(c, Init(c), steps, s)
  }

  ghost predicate SparesZero(c: Ring.Config, s: State) {
    forall i :: 0 <= i < |s.spares| && (s.spares[i].phase.Kept? || s.spares[i].phase.Zeroed?) ==>
      s.spares[i].data == Zeros(c.bufferSize)
  }

  lemma StepKeepsRing(c: Ring.Config, s: State, step: Step)
    requires Ring.Reachable(c, s.ring) && Enabled(c, s, step)
    ensures Ring.Reachable(c, Apply(c, s, step).ring)
  {
    if step.OnRing? {
      RingStep(c, s.ring, step.a);
    } else if step.TakeSpare? {
      RingStep(c, s.ring, Ring.UseFallback(step.t));
    }
  }

  lemma RingStep(c: Ring.Config, s: Ring.State, a: Ring.Action)
    requires Ring.Reachable(c, s) && Ring.Enabled(c, s, a)
    ensures Ring.Reachable(c, Ring.Apply(c, s, a))
  {
    var acts :| Ring.Runs(c, Ring.Init(c), acts, s);
    Ring.RunsStep(c, Ring.Init(c), acts, s, a);
  }

  lemma StepKeepsSpares(c: Ring.Config, s: State, step: Step)
    requires SparesZero(c, s) && Enabled(c, s, step)
    ensures SparesZero(c, Apply(c, s, step))
  {
  }

  lemma {:induction false} RunKeeps(c: Ring.Config, s: State, steps: seq<Step>, s': State)
    requires Ring.Reachable(c, s.ring) && SparesZero(c, s) && Runs(c, s, steps, s')
    ensures Ring.Reachable(c, s'.ring) && SparesZero(c, s')
    decreases |steps|
  {
    if steps != [] {
      StepKeepsRing(c, s, steps[0]);
      StepKeepsSpares(c, s, steps[0]);
      RunKeeps(c, Apply(c, s, steps[0]), steps[1..], s');
    }
  }

  /** Fallback buffers do not disturb the ring: every theorem about the ring machine holds here. */
  lemma ReachableRing(c: Ring.Config, s: State)
    requires Reachable(c, s)
    ensures Ring.Reachable(c, s.ring) && SparesZero(c, s)
  {
    var steps :| Runs(c, Init(c), steps, s);
    assert Ring.Runs(c, Ring.Init(c), [], Ring.Init(c));
    RunKeeps(c, Init(c), steps, s);
  }

  ghost predicate LeavesAlone(steps: seq<Step>, i: nat) {
    forall k :: 0 <= k < |steps| ==> steps[k] != FreeSpare(i) && !(steps[k].WriteSpare? && steps[k].i == i)
  }

  /** A lent fallback buffer is its caller's alone: it keeps what was written until the caller writes again or frees
      it; and one that the garbage collector took is never lent again. */
  lemma {:induction false} SpareIsLeftAlone(c: Ring.Config, s: State, steps: seq<Step>, s': State, i: nat)
    requires Runs(c, s, steps, s') && (In(s, i, Dropped) || (In(s, i, Lent) && LeavesAlone(steps, i)))
    ensures i < |s'.spares| && s'.spares[i] == s.spares[i]
    decreases |steps|
  {
    if steps != [] {
      SpareIsLeftAlone(c, Apply(c, s, steps[0]), steps[1..], s', i);
    }
  }

  lemma CallerKeepsItsBytes(c: Ring.Config, s: State, i: nat, bytes: Pack, steps: seq<Step>, s': State)
    requires Enabled(c, s, WriteSpare(i, bytes)) && Runs(c, Apply(c, s, WriteSpare(i, bytes)), steps, s')
    requires LeavesAlone(steps, i)
    ensures i < |s'.spares| && s'.spares[i] == Spare(bytes, Lent)
  {
    SpareIsLeftAlone(c, Apply(c, s, WriteSpare(i, bytes)), steps, s', i);
  }

  lemma DroppedIsGone(c: Ring.Config, s: State, i: nat, steps: seq<Step>, s': State)
    requires Enabled(c, s, DropSpare(i)) && Runs(c, Apply(c, s, DropSpare(i)), steps, s')
    ensures In(s', i, Dropped)
  {
    SpareIsLeftAlone(c, Apply(c, s, DropSpare(i)), steps, s', i);
  }

  /** A fallback buffer comes back: however its caller used it, its Free leaves it zero in the bag, where the next
      caller that turns to the fallback may find it. */
  lemma SpareComesBack(c: Ring.Config, s: State, i: nat) returns (s': State)
    requires In(s, i, Lent)
    ensures Runs(c, s, [FreeSpare(i), ClearSpare(i), PutSpare(i)], s')
    ensures s'.ring == s.ring && s'.spares == s.spares[i := Spare(Zeros(c.bufferSize), Kept)]
    ensures forall t :: Ring.Enabled(c, s.ring, Ring.UseFallback(t)) ==>
      Enabled(c, s', TakeSpare(t, Some(i))) && In(Apply(c, s', TakeSpare(t, Some(i))), i, Lent)
  {
    var s1 := Apply(c, s, FreeSpare(i));
    var s2 := Apply(c, s1, ClearSpare(i));
    s' := Apply(c, s2, PutSpare(i));
    assert Runs(c, s', [], s');
    assert [PutSpare(i)][1..] == [];
    assert Runs(c, s2, [PutSpare(i)], s');
    assert [ClearSpare(i), PutSpare(i)][1..] == [PutSpare(i)];
    assert Runs(c, s1, [ClearSpare(i), PutSpare(i)], s');
    assert [FreeSpare(i), ClearSpare(i), PutSpare(i)][1..] == [ClearSpare(i), PutSpare(i)];
  }

  /** In every interleaving whatever step hands out a buffer of the pool's size, from the ring or from the
      fallback, hands out one that is all zero and that no other caller has. */
  lemma EveryBufferIsZero(c: Ring.Config, s: State, step: Step)
    requires Ring.ValidConfig(c) && Reachable(c, s) && Enabled(c, s, step)
    ensures var s' := Apply(c, s, step);
      && (step.TakeSpare? ==>
            var i := if step.kept.Some? then step.kept.value else |s.spares|;
            !In(s, i, Lent) && In(s', i, Lent) && s'.spares[i].data == Zeros(c.bufferSize))
      && (step.OnRing? && step.a.CasSlot? && s'.ring.threads[step.a.t] == Ring.Idle ==>
            var i := s.ring.threads[step.a.t].pos % c.capacity;
            i !in s.ring.lent && s'.ring.lent[i] == 1 && i < |s'.ring.data| && s'.ring.data[i] == Zeros(c.bufferSize))
  {
    ReachableRing(c, s);
    if step.OnRing? && step.a.CasSlot? && Apply(c, s, step).ring.threads[step.a.t] == Ring.Idle {
      RingRuns.LentBufferIsZero(c, s.ring, step.a.t);
    }
  }
}
