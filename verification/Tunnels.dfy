/** The tunnel manager itself: tunnels by type and object id, found, created and stopped one call at a time. */
module Tunnels {
  import opened Bytes

  class Tunnel {
    const tp: int
    const oid: int
    var stopping: bool

    constructor (tp: int, oid: int)
      ensures this.tp == tp && this.oid == oid && !stopping
    {
      this.tp, this.oid, stopping := tp, oid, false;
    }

    method Stop()
      modifies this
      ensures stopping
    {
      stopping := true;
    }
  }

  type Groups = map<int, map<int, Tunnel>>

  ghost function Members(groups: Groups): set<Tunnel> {
    set p, o | p in groups && o in groups[p] :: groups[p][o]
  }

  class TunnelManager {
    var tunnelGroups: Groups

    constructor ()
      ensures Valid() && tunnelGroups == map[]
    {
      tunnelGroups := map[];
    }

    /** Every tunnel is filed under its own type and object id. */
    ghost predicate Valid()
      reads this
    {
      forall p, o :: Has(p, o) ==> tunnelGroups[p][o].tp == p && tunnelGroups[p][o].oid == o
    }

    ghost predicate Has(tp: int, oid: int)
      reads this
    {
      tp in tunnelGroups && oid in tunnelGroups[tp]
    }

    ghost function All(): set<Tunnel>
      reads this
    {
      Members(tunnelGroups)
    }

    /** The tunnel a caller may use: filed and not stopping. */
    ghost function Usable(tp: int, oid: int): Tunnel?
      reads this, All()
    {
      if Has(tp, oid) && !tunnelGroups[tp][oid].stopping then tunnelGroups[tp][oid] else null
    }

    method Lookup(tp: int, oid: int) returns (t: Tunnel?)
      ensures t == Usable(tp, oid)
    {
      if tp !in tunnelGroups {
        return null;
      }
      var group := tunnelGroups[tp];
      if oid !in group || group[oid].stopping {
        return null;
      }
      return group[oid];
    }

    /** Everything but (tp, oid) is filed as before. */
    twostate predicate OthersKept(tp: int, oid: int)
      reads this
    {
      forall p, o :: (p, o) != (tp, oid) ==>
        (Has(p, o) <==> old(Has(p, o))) && (Has(p, o) ==> tunnelGroups[p][o] == old(tunnelGroups[p][o]))
    }

    method CreateTunnel(tp: int, oid: int, succeeds: bool) returns (t: Tunnel?)
      requires Valid()
      modifies this
      ensures Valid() && OthersKept(tp, oid)
      ensures old(Usable(tp, oid)) != null ==> t == old(Usable(tp, oid))
      ensures old(Usable(tp, oid)) == null && succeeds ==> t != null && fresh(t)
      ensures old(Usable(tp, oid)) == null && !succeeds ==> t == null
      ensures t == Usable(tp, oid)
    {
      var group: map<int, Tunnel> := map[];
      if tp in tunnelGroups {
        group := tunnelGroups[tp];
      } else {
        tunnelGroups := tunnelGroups[tp := group];
      }
      if oid in group && !group[oid].stopping {
        return group[oid];
      }
      if !succeeds {
        return null;
      }
      var made := new Tunnel(tp, oid);
      tunnelGroups := tunnelGroups[tp := group[oid := made]];
      return made;
    }

    /** Stop, with the types in the order of the range over the groups. */
    method Stop(order: seq<int>)
      requires RangeOrder(tunnelGroups, order)
      modifies this, All()
      ensures tunnelGroups == map[]
      ensures forall t :: t in old(All()) ==> t.stopping
    {
      ghost var was := tunnelGroups;
      WholeRemains(was, order);
      for i := 0 to |order|
        invariant tunnelGroups == Remaining(was, order[i..])
        invariant forall j, o :: 0 <= j < i && o in was[order[j]] ==> was[order[j]][o].stopping
      {
        RemainingStep(was, order, i);
        var group := tunnelGroups[order[i]];
        tunnelGroups := tunnelGroups - {order[i]};
        StopGroup(group);
      }
      assert order[|order|..] == [];
    }
  }

  ghost predicate RangeOrder(groups: Groups, order: seq<int>) {
    && (forall i :: 0 <= i < |order| ==> order[i] in groups)
    && (forall p :: p in groups ==> p in order)
    && (forall i, j :: 0 <= i < j < |order| ==> order[i] != order[j])
  }

  ghost function Remaining(groups: Groups, order: seq<int>): Groups {
    map p | p in groups && p in order :: groups[p]
  }

  lemma WholeRemains(groups: Groups, order: seq<int>)
    requires RangeOrder(groups, order)
    ensures Remaining(groups, order[0..]) == groups
  {
    assert order[0..] == order;
    var all := groups.Keys;
    forall p | p in all ensures p in Remaining(groups, order).Keys {
      assert p in groups;
    }
  }

  lemma RemainingStep(groups: Groups, order: seq<int>, i: nat)
    requires RangeOrder(groups, order) && i < |order|
    ensures order[i] in Remaining(groups, order[i..])
    ensures Remaining(groups, order[i..]) - {order[i]} == Remaining(groups, order[i + 1..])
    ensures (set o | o in groups[order[i]] :: groups[order[i]][o]) <= Members(groups)
  {
    assert order[i..] == [order[i]] + order[i + 1..];
  }

  /** Stops the tunnels of one group, in any order. */
  method StopGroup(group: map<int, Tunnel>)
    modifies set o | o in group :: group[o]
    ensures forall o :: o in group ==> group[o].stopping
    ensures forall t: Tunnel :: old(allocated(t)) && old(t.stopping) ==> t.stopping
  {
    var left := set o | o in group :: group[o];
    while left != {}
      invariant left <= set o | o in group :: group[o]
      invariant forall o :: o in group ==> group[o] in left || group[o].stopping
      invariant forall t: Tunnel :: old(allocated(t)) && old(t.stopping) ==> t.stopping
      decreases |left|
    {
      var t :| t in left;
      t.Stop();
      left := left - {t};
    }
  }

  /** Worker.Tunnel: the service maps a module to a tunnel type, then lookup, then creation. */
  method WorkerTunnel(m: TunnelManager, tunnelType: int -> Option<int>, mod: int, oid: int, succeeds: bool)
    returns (t: Tunnel?)
    requires m.Valid()
    modifies m
    ensures m.Valid()
    ensures tunnelType(mod).None? ==> t == null && m.tunnelGroups == old(m.tunnelGroups)
    ensures tunnelType(mod).Some? ==>
      var tp := tunnelType(mod).value;
      && m.OthersKept(tp, oid)
      && t == m.Usable(tp, oid)
      && (old(m.Usable(tp, oid)) != null ==> t == old(m.Usable(tp, oid)))
      && (old(m.Usable(tp, oid)) == null ==> if succeeds then t != null && fresh(t) else t == null)
  {
    var tp := tunnelType(mod);
    if tp.None? {
      return null;
    }
    t := m.Lookup(tp.value, oid);
    if t == null {
      t := m.CreateTunnel(tp.value, oid, succeeds);
    }
  }
}
