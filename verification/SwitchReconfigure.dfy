/**
bridge_reconfigure over all bridges and VRFs: first every table and every
datapath loses what is not wanted, then missing datapaths are created, and only
then are interfaces added.
*/
module SwitchReconfigure {
  import opened BridgeTables
  import opened BridgeEngine
  import opened BridgeTheorems
  import opened Datapaths

  /** What the database and the provider have in store for one bridge or VRF. */
  datatype Plan = Plan(
    config: Config,
    misconfigured: set<Name>,         // netdev_set_config fails for these
    refused: set<(Name, Name)>,       // creation fails for these, by port and interface
    creatable: bool)                  // ofproto_create succeeds

  const NOTHING := Tables(map[], map[], map[])

  /** Different objects, different datapaths. */
  ghost predicate Distinct(bridges: seq<Bridge>) {
    forall i, j :: 0 <= i < j < |bridges| ==> bridges[i] != bridges[j] && bridges[i].id != bridges[j].id
  }

  ghost predicate AllValid(bridges: seq<Bridge>, o: Ofproto)
    reads bridges, o
  {
    forall b :: b in bridges ==> b.Valid(o)
  }

  predicate Owned(bridges: seq<Bridge>, d: DpId) {
    exists i :: 0 <= i < |bridges| && bridges[i].id == d
  }

  /** The datapaths of no bridge or VRF, be it that only the type is wrong. */
  function Strays(h: Holdings, bridges: seq<Bridge>): set<DpId> {
    set d | d in h && !Owned(bridges, d)
  }

  /** What each datapath is to have. */
  ghost predicate Wants(want: Names, bridges: seq<Bridge>, plans: seq<Plan>) {
    && |plans| == |bridges|
    && forall i :: 0 <= i < |bridges| ==> Of(want, bridges[i].id) == WantedNames(plans[i].config)
  }

  // ----- the phases -----

  method DeleteInMemory(bridges: seq<Bridge>, plans: seq<Plan>, ghost o: Ofproto)
    requires |plans| == |bridges| && Distinct(bridges) && AllValid(bridges, o)
    modifies bridges
    ensures AllValid(bridges, o)
    ensures forall i :: 0 <= i < |bridges| ==>
      && bridges[i].T(o) == DelPorts(old(bridges[i].T(o)), plans[i].config)
      && bridges[i].hasOfproto == old(bridges[i].hasOfproto)
  {
    hide DelPorts, Agree;
    for i := 0 to |bridges|
      invariant AllValid(bridges, o)
      invariant forall j :: 0 <= j < i ==>
        && bridges[j].T(o) == DelPorts(old(bridges[j].T(o)), plans[j].config)
        && bridges[j].hasOfproto == old(bridges[j].hasOfproto)
      invariant forall j :: i <= j < |bridges| ==>
        bridges[j].T(o) == old(bridges[j].T(o)) && bridges[j].hasOfproto == old(bridges[j].hasOfproto)
    {
      assert bridges[i] in bridges;
      DeleteFrom(bridges[i], plans[i].config, o);
    }
  }

  method DeleteFrom(b: Bridge, c: Config, ghost o: Ofproto)
    requires b.Valid(o)
    modifies b
    ensures b.Valid(o) && b.T(o) == DelPorts(old(b.T(o)), c) && b.hasOfproto == old(b.hasOfproto)
  {
    hide Consistent, DistinctNumbers;
    MemoryOnly(b.T(o));
    DelPortsAnyway(b.M(), c, b.T(o).dp);
    NothingListed(b.M(), c);
    b.DelPorts(c);
    ConsistentAnyway(b.M(), b.T(o).dp);
  }

  /** The datapath has no part in it. */
  lemma DelPortsAnyway(t: Tables, c: Config, d: Datapath)
    ensures DelPorts(t.(dp := d), c) == DelPorts(t, c).(dp := d)
  {
  }

  lemma NothingListed(t: Tables, c: Config)
    ensures t.ifaces == map[] ==> DelPorts(t, c).ifaces == map[]
  {
  }

  /** bridge_delete_ofprotos. */
  method DestroyStrays(bridges: seq<Bridge>, o: Ofproto)
    modifies o
    ensures old(o.log) <= o.log && forall i :: |old(o.log)| <= i < |o.log| ==> o.log[i].Destroy?
    ensures Strays(old(o.Now()), bridges) == {} ==> o.log == old(o.log)
    ensures o.Now() == old(o.Now()) - Strays(old(o.Now()), bridges)
  {
    hide Replay, Owned;
    ghost var h, gone: set<DpId> := o.Now(), {};
    var todo := o.Now().Keys;
    assert h - gone == h;
    while todo != {}
      invariant todo <= h.Keys && gone == Strays(h, bridges) - todo && o.Now() == h - gone
      invariant old(o.log) <= o.log && forall i :: |old(o.log)| <= i < |o.log| ==> o.log[i].Destroy?
      invariant gone == {} ==> o.log == old(o.log)
    {
      var d :| d in todo;
      var owned := IsOwned(bridges, d);
      if !owned {
        assert h - gone - {d} == h - (gone + {d});
        o.DoDestroy(d);
        gone := gone + {d};
      }
      todo := todo - {d};
    }
  }

  /** bridge_lookup and vrf_lookup, and the comparison of types. */
  method IsOwned(bridges: seq<Bridge>, d: DpId) returns (owned: bool)
    ensures owned == Owned(bridges, d)
  {
    for i := 0 to |bridges|
      invariant forall j :: 0 <= j < i ==> bridges[j].id != d
    {
      if bridges[i].id == d {
        return true;
      }
    }
    return false;
  }

  /** What a call leaves alone. */
  ghost predicate SameAt(was: Holdings, now: Holdings, d: DpId) {
    (d in now <==> d in was) && At(now, d) == At(was, d)
  }

  method DeleteInDatapaths(bridges: seq<Bridge>, plans: seq<Plan>, o: Ofproto)
    requires |plans| == |bridges| && Distinct(bridges) && AllValid(bridges, o)
    modifies bridges, o
    ensures AllValid(bridges, o) && o.Now().Keys == old(o.Now()).Keys
    ensures forall i :: 0 <= i < |bridges| ==>
      && bridges[i].T(o) == DeleteOrReconfigure(old(bridges[i].T(o)), plans[i].config, plans[i].misconfigured)
      && bridges[i].hasOfproto == old(bridges[i].hasOfproto)
    ensures old(o.log) <= o.log && NoneAdded(o.log, |old(o.log)|, |o.log|)
    ensures (forall i :: 0 <= i < |bridges| ==> bridges[i].T(o).dp == old(bridges[i].T(o)).dp) ==> o.log == old(o.log)
  {
    hide Agree, DeleteOrReconfigure, Replay;
    ghost var busy := -1;
    for i := 0 to |bridges|
      invariant AllValid(bridges, o) && o.Now().Keys == old(o.Now()).Keys
      invariant forall j :: 0 <= j < i ==>
        && bridges[j].T(o) == DeleteOrReconfigure(old(bridges[j].T(o)), plans[j].config, plans[j].misconfigured)
        && bridges[j].hasOfproto == old(bridges[j].hasOfproto)
      invariant forall j :: i <= j < |bridges| ==>
        bridges[j].T(o) == old(bridges[j].T(o)) && bridges[j].hasOfproto == old(bridges[j].hasOfproto)
      invariant old(o.log) <= o.log && NoneAdded(o.log, |old(o.log)|, |o.log|)
      invariant
        if busy < 0 then o.log == old(o.log)
        else busy < i && bridges[busy].T(o).dp != old(bridges[busy].T(o)).dp
    {
      ghost var log, h := o.log, o.Now();
      DeleteInDatapath(bridges[i], plans[i], o);
      assert forall j :: 0 <= j < |bridges| && j != i ==> SameAt(h, o.Now(), bridges[j].id);
      busy := if o.log == log then busy else i;
    }
  }

  method DeleteInDatapath(b: Bridge, plan: Plan, o: Ofproto)
    requires b.Valid(o)
    modifies b, o
    ensures b.Valid(o) && b.hasOfproto == old(b.hasOfproto) && o.Now().Keys == old(o.Now()).Keys
    ensures b.T(o) == DeleteOrReconfigure(old(b.T(o)), plan.config, plan.misconfigured)
    ensures forall d :: d != b.id ==> SameAt(old(o.Now()), o.Now(), d)
    ensures old(o.log) <= o.log && NoneAdded(o.log, |old(o.log)|, |o.log|)
    ensures b.T(o).dp == old(b.T(o)).dp ==> o.log == old(o.log)
  {
    hide Replay, Consistent, DeleteOrReconfigure;
    if b.hasOfproto {
      b.DeleteOrReconfigure(o, plan.config, plan.misconfigured);
    } else {
      EmptyStaysEmpty(b.T(o), plan.config, plan.misconfigured);
    }
  }

  lemma EmptyStaysEmpty(t: Tables, c: Config, misconfigured: set<Name>)
    requires Consistent(t) && t.ifaces == map[] && t.dp == map[]
    ensures DeleteOrReconfigure(t, c, misconfigured) == t
  {
    KeepAll(t, Usable(t, c, misconfigured));
  }

  /** Creates the missing datapaths; a bridge or VRF for which that fails is destroyed, being empty. */
  method CreateOfprotos(bridges: seq<Bridge>, plans: seq<Plan>, o: Ofproto) returns (gone: set<nat>)
    requires |plans| == |bridges| && Distinct(bridges) && AllValid(bridges, o)
    modifies bridges, o
    ensures AllValid(bridges, o) && forall d :: At(o.Now(), d) == old(At(o.Now(), d))
    ensures forall d :: d in o.Now() && d !in old(o.Now()) ==> Owned(bridges, d)
    ensures forall i :: 0 <= i < |bridges| ==>
      && bridges[i].T(o) == old(bridges[i].T(o))
      && bridges[i].hasOfproto == (old(bridges[i].hasOfproto) || plans[i].creatable)
    ensures forall i: nat :: i in gone <==> i < |bridges| && !bridges[i].hasOfproto
    ensures forall i :: i in gone ==> bridges[i].T(o) == NOTHING
    ensures old(o.log) <= o.log && NoneAdded(o.log, |old(o.log)|, |o.log|)
    ensures (forall i :: 0 <= i < |bridges| ==> bridges[i].hasOfproto == old(bridges[i].hasOfproto)) ==>
      o.log == old(o.log)
  {
    hide Agree, Replay;
    gone := {};
    ghost var busy := -1;
    for i := 0 to |bridges|
      invariant AllValid(bridges, o) && forall d :: At(o.Now(), d) == old(At(o.Now(), d))
      invariant forall d :: d in o.Now() && d !in old(o.Now()) ==> Owned(bridges, d)
      invariant forall j :: 0 <= j < |bridges| ==> bridges[j].T(o) == old(bridges[j].T(o))
      invariant forall j :: 0 <= j < |bridges| ==>
        bridges[j].hasOfproto == (old(bridges[j].hasOfproto) || (j < i && plans[j].creatable))
      invariant forall j: nat :: j in gone <==> j < i && !bridges[j].hasOfproto
      invariant old(o.log) <= o.log && NoneAdded(o.log, |old(o.log)|, |o.log|)
      invariant
        if busy < 0 then o.log == old(o.log)
        else busy < i && bridges[busy].hasOfproto && !old(bridges[busy].hasOfproto)
    {
      if !bridges[i].hasOfproto {
        assert bridges[i] in bridges;
        if plans[i].creatable {
          CreateOfproto(bridges[i], o);
          assert Owned(bridges, bridges[i].id);
          busy := i;
        } else {
          gone := gone + {i};
        }
      }
    }
    forall i | i in gone ensures bridges[i].T(o) == NOTHING {
      assert bridges[i] in bridges;
      IsNothing(bridges[i], o);
    }
  }

  method CreateOfproto(b: Bridge, o: Ofproto)
    requires b.Valid(o) && !b.hasOfproto
    modifies b, o
    ensures b.Valid(o) && b.hasOfproto && b.T(o) == old(b.T(o))
    ensures o.log == old(o.log) + [Create(b.id)] && o.Now() == old(o.Now())[b.id := map[]]
    ensures forall d :: At(o.Now(), d) == old(At(o.Now(), d))
  {
    hide Replay, Consistent;
    o.DoCreate(b.id);
    b.hasOfproto := true;
  }

  lemma IsNothing(b: Bridge, o: Ofproto)
    requires b.Valid(o) && !b.hasOfproto
    ensures b.T(o) == NOTHING
  {
    NoPorts(b.T(o));
  }

  lemma NoPorts(t: Tables)
    requires Consistent(t) && t.ifaces == map[]
    ensures t.ports == map[]
  {
    KeepAll(t, {});
    forall p | p in t.ports ensures Filter(t.ports[p], {}) == [] {
      FilterNone(t.ports[p], {});
    }
    assert KeepPorts(t.ports, {}) == map[];
  }

  /** What the last phase does to one bridge; to one that is gone, nothing. */
  ghost predicate Filled(t: Tables, plan: Plan, hasOfproto: bool, t': Tables) {
    if hasOfproto then
      Grown(t, t', plan.config) && t'.ifaces.Keys == t.ifaces.Keys + Accepted(plan.config, plan.refused)
    else t' == t
  }

  /** What each datapath is to have and does not have yet. */
  ghost predicate Lacks(lack: Names, bridges: seq<Bridge>, plans: seq<Plan>)
    requires |plans| == |bridges|
    reads bridges
  {
    forall i :: 0 <= i < |bridges| ==>
      Of(lack, bridges[i].id) == WantedNames(plans[i].config) - bridges[i].byName.Keys
  }

  method AddToDatapaths(bridges: seq<Bridge>, plans: seq<Plan>, gone: set<nat>, o: Ofproto, ghost lack: Names)
    requires |plans| == |bridges| && Distinct(bridges) && AllValid(bridges, o) && Lacks(lack, bridges, plans)
    requires forall i :: 0 <= i < |bridges| ==> bridges[i].T(o).dp.Keys == bridges[i].byName.Keys
    requires forall i: nat :: i in gone <==> i < |bridges| && !bridges[i].hasOfproto
    modifies bridges, o
    ensures AllValid(bridges, o) && o.Now().Keys == old(o.Now()).Keys
    ensures forall i :: 0 <= i < |bridges| ==>
      && Filled(old(bridges[i].T(o)), plans[i], bridges[i].hasOfproto, bridges[i].T(o))
      && bridges[i].hasOfproto == old(bridges[i].hasOfproto)
    ensures old(o.log) <= o.log && OnlyWanted(o.log, |old(o.log)|, lack)
    ensures (forall i :: 0 <= i < |bridges| ==> bridges[i].T(o) == old(bridges[i].T(o))) ==> o.log == old(o.log)
  {
    hide Agree, Filled, WantedNames, Replay, OnlyWanted;
    NoneWanted(o.log, lack);
    ghost var busy := -1;
    for i := 0 to |bridges|
      invariant AllValid(bridges, o) && o.Now().Keys == old(o.Now()).Keys
      invariant forall j :: 0 <= j < i ==>
        && Filled(old(bridges[j].T(o)), plans[j], bridges[j].hasOfproto, bridges[j].T(o))
        && bridges[j].hasOfproto == old(bridges[j].hasOfproto)
      invariant forall j :: i <= j < |bridges| ==>
        && bridges[j].T(o) == old(bridges[j].T(o)) && bridges[j].hasOfproto == old(bridges[j].hasOfproto)
      invariant old(o.log) <= o.log && OnlyWanted(o.log, |old(o.log)|, lack)
      invariant
        if busy < 0 then o.log == old(o.log)
        else busy < i && bridges[busy].T(o) != old(bridges[busy].T(o))
    {
      if i !in gone {
        ghost var log, h := o.log, o.Now();
        AddToDatapath(bridges[i], plans[i], o, lack);
        assert forall j :: 0 <= j < |bridges| && j != i ==> SameAt(h, o.Now(), bridges[j].id);
        MoreWanted(log, o.log, |old(o.log)|, lack);
        busy := if o.log == log then busy else i;
      } else {
        NotFilled(bridges[i].T(o), plans[i]);
      }
    }
  }

  lemma NoneWanted(log: seq<Call>, lack: Names)
    ensures OnlyWanted(log, |log|, lack)
  {
  }

  lemma MoreWanted(log: seq<Call>, longer: seq<Call>, a: nat, lack: Names)
    requires a <= |log| && log <= longer && OnlyWanted(log, a, lack) && OnlyWanted(longer, |log|, lack)
    ensures OnlyWanted(longer, a, lack)
  {
    hide AddsWanted;
    forall k | a <= k < |longer| ensures AddsWanted(longer[k], lack) {
      assert k < |log| ==> longer[k] == log[k];
    }
  }

  lemma NotFilled(t: Tables, plan: Plan)
    ensures Filled(t, plan, false, t)
  {
  }

  method AddToDatapath(b: Bridge, plan: Plan, o: Ofproto, ghost lack: Names)
    requires b.Valid(o) && b.hasOfproto && b.T(o).dp.Keys == b.byName.Keys
    requires Of(lack, b.id) == WantedNames(plan.config) - b.byName.Keys
    modifies b, o
    ensures b.Valid(o) && b.hasOfproto && Filled(old(b.T(o)), plan, true, b.T(o))
    ensures o.Now().Keys == old(o.Now()).Keys && forall d :: d != b.id ==> SameAt(old(o.Now()), o.Now(), d)
    ensures old(o.log) <= o.log && OnlyWanted(o.log, |old(o.log)|, lack)
    ensures b.T(o) == old(b.T(o)) ==> o.log == old(o.log)
  {
    hide Consistent, Grown, Replay, WantedNames;
    b.AddPorts(o, plan.config, plan.refused);
  }

  // ----- the whole reconfiguration -----

  /** A pass has nothing to do for one bridge or VRF. */
  ghost predicate Settled(t: Tables, plan: Plan, hasOfproto: bool) {
    && (hasOfproto || !plan.creatable)
    && t.dp.Keys == t.ifaces.Keys && AfterDeletes(t, plan.config, plan.misconfigured) == t
    && (hasOfproto ==> Accepted(plan.config, plan.refused) <= t.ifaces.Keys)
  }

  /** What a reconfiguration makes of one bridge or VRF: a complete pass, or nothing is left of it. */
  ghost predicate Outcome(t: Tables, plan: Plan, hasOfproto: bool, t': Tables) {
    if hasOfproto then Pass(t, plan.config, plan.misconfigured, plan.refused, t') else t' == NOTHING
  }

  /** All that takes away, and the creation of datapaths. */
  method TakeAway(bridges: seq<Bridge>, plans: seq<Plan>, o: Ofproto) returns (gone: set<nat>)
    requires |plans| == |bridges| && Distinct(bridges) && AllValid(bridges, o)
    modifies bridges, o
    ensures AllValid(bridges, o) && forall d :: d in o.Now() ==> Owned(bridges, d)
    ensures forall i :: 0 <= i < |bridges| ==>
      && bridges[i].T(o) == AfterDeletes(old(bridges[i].T(o)), plans[i].config, plans[i].misconfigured)
      && bridges[i].hasOfproto == (old(bridges[i].hasOfproto) || plans[i].creatable)
    ensures forall i: nat :: i in gone <==> i < |bridges| && !bridges[i].hasOfproto
    ensures forall i :: i in gone ==> bridges[i].T(o) == NOTHING
    ensures old(o.log) <= o.log && NoneAdded(o.log, |old(o.log)|, |o.log|)
    ensures
      (forall i :: 0 <= i < |bridges| ==>
         bridges[i].T(o).dp == old(bridges[i].T(o)).dp && bridges[i].hasOfproto == old(bridges[i].hasOfproto)) ==>
        OnlyStrays(old(o.log), o.log, Strays(old(o.Now()), bridges))
  {
    hide Agree, DelPorts, DeleteOrReconfigure, Replay, Owned, Strays;
    DeleteInMemory(bridges, plans, o);
    assert forall i :: 0 <= i < |bridges| ==> bridges[i].T(o).dp == old(bridges[i].T(o)).dp;
    ghost var h := o.Now();
    DestroyStrays(bridges, o);
    forall i | 0 <= i < |bridges| ensures SameAt(h, o.Now(), bridges[i].id) {
      OwnIsNoStray(h, bridges, i);
    }
    OnlyOwnedLeft(h, bridges);
    DeleteInDatapaths(bridges, plans, o);
    ghost var deleted := o.Now();
    gone := CreateOfprotos(bridges, plans, o);
    forall d | d in o.Now() ensures Owned(bridges, d) {
      assert d in deleted || Owned(bridges, d);
    }
  }

  lemma OwnIsNoStray(h: Holdings, bridges: seq<Bridge>, i: nat)
    requires i < |bridges|
    ensures bridges[i].id !in Strays(h, bridges)
  {
  }

  lemma OnlyOwnedLeft(h: Holdings, bridges: seq<Bridge>)
    ensures forall d :: d in h - Strays(h, bridges) ==> Owned(bridges, d)
  {
  }

  /** No call since but the destruction of strays. */
  ghost predicate OnlyStrays(was: seq<Call>, now: seq<Call>, strays: set<DpId>) {
    was <= now && (forall k :: |was| <= k < |now| ==> now[k].Destroy?) && (strays == {} ==> now == was)
  }

  /** An interface that is to stay has the wanted type, its old port and number, and was in its datapath throughout. */
  ghost predicate Spared(t: Tables, t': Tables, c: Config, o: Ofproto, a: nat, d: DpId, n: Name)
    reads o
  {
    && n in t.ifaces && n in t.dp && n in t'.ifaces && t'.ifaces[n] == t.ifaces[n].(typ := c.typ(n))
    && HeldThroughout(o.start, o.log, a, d, n, t.dp[n])
  }

  /**
  From datapaths without overlap, towards wanted names without overlap: after every
  single call no name is held by two datapaths; and every bridge and VRF that has
  a datapath at the end has gone through a complete pass, the others being gone.
  No call touches an interface that is to stay.  Where nothing is to do, the only
  calls are those that destroy strays.
  */
  method Reconfigure(bridges: seq<Bridge>, plans: seq<Plan>, o: Ofproto, ghost want: Names) returns (gone: set<nat>)
    requires |plans| == |bridges| && Distinct(bridges) && AllValid(bridges, o)
    requires Wants(want, bridges, plans) && Disjoint(Held(o.Now())) && Disjoint(want)
    modifies bridges, o
    ensures AllValid(bridges, o) && old(o.log) <= o.log && AlwaysDisjoint(o.start, o.log, |old(o.log)|)
    ensures forall d :: d in o.Now() ==> Owned(bridges, d)
    ensures forall i :: 0 <= i < |bridges| ==>
      bridges[i].hasOfproto == (old(bridges[i].hasOfproto) || plans[i].creatable)
    ensures forall i: nat :: i in gone <==> i < |bridges| && !bridges[i].hasOfproto
    ensures forall i :: 0 <= i < |bridges| ==>
      Outcome(old(bridges[i].T(o)), plans[i], bridges[i].hasOfproto, bridges[i].T(o))
    ensures forall i, n ::
      0 <= i < |bridges| && Stays(old(bridges[i].T(o)), plans[i].config, plans[i].misconfigured, n) ==>
        Spared(old(bridges[i].T(o)), bridges[i].T(o), plans[i].config, o, |old(o.log)|, bridges[i].id, n)
    ensures
      (forall i :: 0 <= i < |bridges| ==> Settled(old(bridges[i].T(o)), plans[i], old(bridges[i].hasOfproto))) ==>
        && OnlyStrays(old(o.log), o.log, Strays(old(o.Now()), bridges))
        && forall i :: 0 <= i < |bridges| ==> bridges[i].T(o) == old(bridges[i].T(o))
  {
    hide Agree, AfterDeletes, Replay, WantedNames, Accepted, Settled, Filled, Outcome, Disjoint, Within, Held, Owned;
    hide AlwaysDisjoint, Stays, HeldThroughout, NotAgain;
    ghost var quiet :=
      forall i :: 0 <= i < |bridges| ==> Settled(old(bridges[i].T(o)), plans[i], old(bridges[i].hasOfproto));
    forall i | 0 <= i < |bridges| && !bridges[i].hasOfproto ensures bridges[i].T(o) == NOTHING {
      assert bridges[i] in bridges;
      IsNothing(bridges[i], o);
    }
    gone := TakeAway(bridges, plans, o);
    ghost var log, kept := o.log, o.Now();
    forall i | 0 <= i < |bridges|
      ensures bridges[i].T(o).dp.Keys == bridges[i].byName.Keys && bridges[i].byName.Keys <= Of(want, bridges[i].id)
      ensures quiet ==>
        bridges[i].T(o) == old(bridges[i].T(o)) && bridges[i].hasOfproto == old(bridges[i].hasOfproto)
    {
      DeletesAgree(old(bridges[i].T(o)), plans[i].config, plans[i].misconfigured);
      if quiet {
        SettledStays(old(bridges[i].T(o)), plans[i], old(bridges[i].hasOfproto));
      }
    }
    WithinWishes(bridges, o, want);
    ghost var lack := Missing(want, o.Now());
    LacksMissing(bridges, plans, o, want);
    AddToDatapaths(bridges, plans, gone, o, lack);
    OnlyMissing(o.log, |log|, want, kept);
    assert o.log[..|old(o.log)|] == old(o.log) && o.log[..|log|] == log;
    DeletesBeforeAdds(o.start, o.log, |old(o.log)|, |log|, want);
    forall i | 0 <= i < |bridges|
      ensures Outcome(old(bridges[i].T(o)), plans[i], bridges[i].hasOfproto, bridges[i].T(o))
      ensures quiet ==> bridges[i].T(o) == old(bridges[i].T(o))
    {
      assert bridges[i] in bridges;
      Ended(bridges[i], o, old(bridges[i].T(o)), plans[i]);
      if quiet {
        Unmoved(old(bridges[i].T(o)), plans[i], old(bridges[i].hasOfproto), bridges[i].T(o));
      }
    }
    forall i, n | 0 <= i < |bridges| && Stays(old(bridges[i].T(o)), plans[i].config, plans[i].misconfigured, n)
      ensures Spared(old(bridges[i].T(o)), bridges[i].T(o), plans[i].config, o, |old(o.log)|, bridges[i].id, n)
    {
      HasDatapath(old(bridges[i].T(o)), plans[i], n);
      SparedAlong(bridges[i].hasOfproto, old(bridges[i].T(o)), bridges[i].T(o), plans[i], o,
                  |old(o.log)|, |log|, want, bridges[i].id, n);
    }
  }

  ghost function Missing(want: Names, h: Holdings): Names {
    map d | d in want :: want[d] - At(h, d).Keys
  }

  lemma LacksMissing(bridges: seq<Bridge>, plans: seq<Plan>, o: Ofproto, want: Names)
    requires Wants(want, bridges, plans)
    requires forall i :: 0 <= i < |bridges| ==> bridges[i].T(o).dp.Keys == bridges[i].byName.Keys
    ensures Lacks(Missing(want, o.Now()), bridges, plans)
  {
    hide Replay, WantedNames;
  }

  /** What is added is wanted and was not there. */
  lemma OnlyMissing(log: seq<Call>, a: nat, want: Names, h: Holdings)
    requires OnlyWanted(log, a, Missing(want, h))
    ensures OnlyWanted(log, a, want) && forall d :: NotAgain(log, a, d, At(h, d).Keys)
  {
    forall k | a <= k < |log|
      ensures AddsWanted(log[k], want) && log[k].name !in At(h, log[k].id)
    {
      assert AddsWanted(log[k], Missing(want, h));
    }
  }

  lemma HasDatapath(t: Tables, plan: Plan, n: Name)
    requires Stays(t, plan.config, plan.misconfigured, n)
    ensures t != NOTHING
  {
  }

  lemma SparedAlong(
      has: bool, t: Tables, t': Tables, plan: Plan, o: Ofproto, a: nat, b: nat, want: Names, d: DpId, n: Name)
    requires has && Stays(t, plan.config, plan.misconfigured, n) && Outcome(t, plan, has, t')
    requires a <= b <= |o.log| && NoneAdded(o.log, a, b) && OnlyWanted(o.log, b, want)
    requires At(Replay(o.start, o.log[..b]), d) == AfterDeletes(t, plan.config, plan.misconfigured).dp
    requires NotAgain(o.log, b, d, AfterDeletes(t, plan.config, plan.misconfigured).dp.Keys)
    ensures Spared(t, t', plan.config, o, a, d, n)
  {
    hide AfterDeletes, Replay, HeldThroughout, ListsGrown;
    StaysExact(t, plan.config, plan.misconfigured, n);
    HeldAllAlong(o.start, o.log, a, b, want, d, n, t.dp[n]);
  }

  lemma WithinWishes(bridges: seq<Bridge>, o: Ofproto, want: Names)
    requires forall d :: d in o.Now() ==> Owned(bridges, d)
    requires forall i :: 0 <= i < |bridges| ==> bridges[i].T(o).dp.Keys <= Of(want, bridges[i].id)
    ensures Within(Held(o.Now()), want)
  {
    hide Replay;
    var h := o.Now();
    forall d ensures Of(Held(h), d) <= Of(want, d) {
      if d in h {
        var i :| 0 <= i < |bridges| && bridges[i].id == d;
        assert bridges[i].T(o).dp == h[d];
      }
    }
  }

  lemma Ended(b: Bridge, o: Ofproto, t: Tables, plan: Plan)
    requires b.Valid(o) && Filled(AfterDeletes(t, plan.config, plan.misconfigured), plan, b.hasOfproto, b.T(o))
    ensures Outcome(t, plan, b.hasOfproto, b.T(o))
  {
    hide AfterDeletes, Replay;
    if !b.hasOfproto {
      IsNothing(b, o);
    }
  }

  lemma SettledStays(t: Tables, plan: Plan, had: bool)
    requires Settled(t, plan, had)
    ensures AfterDeletes(t, plan.config, plan.misconfigured) == t && (had || plan.creatable) == had
  {
  }

  lemma Unmoved(t: Tables, plan: Plan, had: bool, t': Tables)
    requires Settled(t, plan, had) && Filled(t, plan, had, t')
    ensures t' == t
  {
    hide AfterDeletes;
    if had {
      assert t.ifaces.Keys + Accepted(plan.config, plan.refused) == t.ifaces.Keys;
      GrownNothing(t, t', plan.config);
    }
  }

  // ----- once more -----

  /** No wanted interface is of type "null" or fails to be configured. */
  ghost predicate Calm(plan: Plan) {
    WantedNames(plan.config) !! plan.config.nulls + plan.misconfigured
  }

  lemma CalmSettles(t: Tables, plan: Plan, hasOfproto: bool, t': Tables)
    requires Calm(plan) && Outcome(t, plan, hasOfproto, t') && (plan.creatable ==> hasOfproto)
    ensures Settled(t', plan, hasOfproto)
  {
    hide AfterDeletes, WantedNames, Grown;
    if hasOfproto {
      PassSettles(t, plan.config, plan.misconfigured, plan.refused, t');
      PassThenQuiet(t, plan.config, plan.misconfigured, plan.refused, t');
    } else {
      DeletesQuiet(t', plan.config, plan.misconfigured);
    }
  }

  lemma DisjointInTheEnd(start: Holdings, log: seq<Call>, a: nat)
    requires a <= |log| && AlwaysDisjoint(start, log, a)
    ensures Disjoint(Held(Replay(start, log)))
  {
    assert log[..|log|] == log;
  }

  lemma NoStrays(h: Holdings, bridges: seq<Bridge>)
    requires forall d :: d in h ==> Owned(bridges, d)
    ensures Strays(h, bridges) == {}
  {
  }

  /** A second reconfiguration with the same plans makes no calls and changes nothing. */
  method ReconfigureTwice(bridges: seq<Bridge>, plans: seq<Plan>, o: Ofproto, ghost want: Names)
    returns (ghost first: seq<Call>, ghost between: seq<Tables>)
    requires |plans| == |bridges| && Distinct(bridges) && AllValid(bridges, o)
    requires Wants(want, bridges, plans) && Disjoint(Held(o.Now())) && Disjoint(want)
    modifies bridges, o
    ensures |between| == |bridges| && AllValid(bridges, o) && old(o.log) <= first <= o.log
    ensures AlwaysDisjoint(o.start, first, |old(o.log)|)
    ensures forall i :: 0 <= i < |bridges| ==>
      Outcome(old(bridges[i].T(o)), plans[i], bridges[i].hasOfproto, between[i])
    ensures (forall i :: 0 <= i < |plans| ==> Calm(plans[i])) ==>
      o.log == first && forall i :: 0 <= i < |bridges| ==> bridges[i].T(o) == between[i]
  {
    hide Outcome, Settled, Calm, AlwaysDisjoint, Disjoint, Held, Replay, Agree, Wants, Distinct, Owned, Strays;
    var gone := Reconfigure(bridges, plans, o, want);
    first := o.log;
    between := seq(|bridges|, i requires 0 <= i < |bridges| reads bridges, o => bridges[i].T(o));
    DisjointInTheEnd(o.start, first, |old(o.log)|);
    NoStrays(o.Now(), bridges);
    forall i | 0 <= i < |bridges| && Calm(plans[i])
      ensures Settled(bridges[i].T(o), plans[i], bridges[i].hasOfproto)
    {
      CalmSettles(old(bridges[i].T(o)), plans[i], bridges[i].hasOfproto, bridges[i].T(o));
    }
    gone := Reconfigure(bridges, plans, o, want);
  }
}
