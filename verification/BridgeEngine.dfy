/**
The code of src/bridge.c that changes the tables of a bridge in place: creation
and destruction of interfaces and ports, and the phases of bridge_reconfigure.
The provider may refuse to create or configure any device.
*/
module BridgeEngine {
  import opened BridgeTables
  import opened Datapaths

  /** The interfaces by OpenFlow number; a hash map, so numbers need not be distinct. */
  function OfpIndex(ifaces: map<Name, Iface>): set<(nat, Name)> {
    set n | n in ifaces :: (ifaces[n].ofp, n)
  }

  /** As Consistent, but the list of port `p` may be empty. */
  ghost predicate AlmostConsistent(ports: map<Name, seq<Name>>, ifaces: map<Name, Iface>, p: Name) {
    && (forall n :: n in ifaces ==> ifaces[n].port in ports && n in ports[ifaces[n].port])
    && (forall q :: q in ports ==>
          && (q != p ==> ports[q] != []) && NoDup(ports[q])
          && forall n :: n in ports[q] ==> n in ifaces && ifaces[n].port == q)
  }

  lemma WithoutMembers(s: seq<Name>, i: nat)
    requires i < |s| && NoDup(s)
    ensures NoDup(Without(s, i)) && forall n :: n in Without(s, i) <==> n in s && n != s[i]
  {
    var r := Without(s, i);
    forall n ensures n in r <==> n in s && n != s[i] {
      if n in s && n != s[i] {
        var j :| 0 <= j < |s| && s[j] == n;
        assert n == if j < i then r[j] else r[j - 1];
      }
      if n in r {
        var j :| 0 <= j < |r| && r[j] == n;
        assert n == if j < i then s[j] else s[j + 1];
      }
    }
  }

  lemma UnlinkKeeps(ports: map<Name, seq<Name>>, ifaces: map<Name, Iface>, p: Name, i: nat)
    requires AlmostConsistent(ports, ifaces, p) && p in ports && i < |ports[p]|
    ensures AlmostConsistent(ports[p := Without(ports[p], i)], ifaces - {ports[p][i]}, p)
  {
    hide Without, NoDup;
    WithoutMembers(ports[p], i);
    assert ports[p][i] in ports[p];
  }

  lemma IndexWithout(ifaces: map<Name, Iface>, n: Name)
    requires n in ifaces
    ensures OfpIndex(ifaces - {n}) == OfpIndex(ifaces) - {(ifaces[n].ofp, n)}
  {
    forall e | e in OfpIndex(ifaces) && e != (ifaces[n].ofp, n) ensures e in OfpIndex(ifaces - {n}) {
      assert e.1 in ifaces - {n};
    }
  }

  lemma AlmostAnyway(t: Tables, n: Name)
    requires Consistent(t) && n in t.ifaces
    ensures t.ifaces[n].port in t.ports && n in t.ports[t.ifaces[n].port]
    ensures AlmostConsistent(t.ports, t.ifaces, t.ifaces[n].port)
  {
  }

  /** Which interfaces have another port. */
  function OfOtherPorts(ifaces: map<Name, Iface>, p: Name): set<Name> {
    set n | n in ifaces && ifaces[n].port != p
  }

  lemma {:induction false} FilterNone(s: seq<Name>, keep: set<Name>)
    requires forall n :: n in s ==> n !in keep
    ensures Filter(s, keep) == []
  {
    if s != [] {
      FilterNone(s[..|s| - 1], keep);
    }
  }

  /** Only the list of `p` loses interfaces. */
  lemma KeepPortsAt(ports: map<Name, seq<Name>>, p: Name, keep: set<Name>)
    requires p in ports
    requires forall q :: q in ports && q != p ==> ports[q] != []
    requires forall q, n :: q in ports && q != p && n in ports[q] ==> n in keep
    ensures
      var rest := Filter(ports[p], keep);
      KeepPorts(ports, keep) == if rest == [] then ports - {p} else ports[p := rest]
  {
    hide Filter;
    forall q | q in ports && q != p ensures Filter(ports[q], keep) == ports[q] {
      FilterAll(ports[q], keep);
    }
  }

  lemma ElsewhereKept(t: Tables, p: Name)
    requires Consistent(t) && p in t.ports
    ensures
      var keep := OfOtherPorts(t.ifaces, p);
      Keep(t, keep) == t.(ports := t.ports - {p}, ifaces := KeepIfaces(t.ifaces, keep))
  {
    var keep := OfOtherPorts(t.ifaces, p);
    FilterNone(t.ports[p], keep);
    KeepPortsAt(t.ports, p, keep);
  }

  /** The list of a port without the interface at `i`. */
  function Without(s: seq<Name>, i: nat): seq<Name>
    requires i < |s|
  {
    s[..i] + s[i + 1..]
  }

  lemma WithoutIsFilter(s: seq<Name>, i: nat, keep: set<Name>)
    requires NoDup(s) && i < |s| && s[i] !in keep && forall n :: n in s && n != s[i] ==> n in keep
    ensures Filter(s, keep) == Without(s, i)
  {
    assert forall j :: 0 <= j < i ==> s[..i][j] in s && s[..i][j] != s[i];
    assert s[i] !in s[i + 1..];
    RemoveIsFilter(s, i, keep);
  }

  /** What is left after one interface goes: its port too, if that was all it had. */
  lemma OneLess(t: Tables, n: Name, i: nat)
    requires Consistent(t) && n in t.ifaces
    requires i < |t.ports[t.ifaces[n].port]| && t.ports[t.ifaces[n].port][i] == n
    ensures
      var p := t.ifaces[n].port;
      var rest := Without(t.ports[p], i);
      Keep(t, t.ifaces.Keys - {n}) ==
        t.(ports := if rest == [] then t.ports - {p} else t.ports[p := rest], ifaces := t.ifaces - {n})
  {
    var p, keep := t.ifaces[n].port, t.ifaces.Keys - {n};
    WithoutIsFilter(t.ports[p], i, keep);
    KeepPortsAt(t.ports, p, keep);
    assert KeepIfaces(t.ifaces, keep) == t.ifaces - {n};
  }

  /** Unlinking the first interface of a port leaves those of other ports. */
  lemma StillOther(ports: map<Name, seq<Name>>, ifaces: map<Name, Iface>, p: Name)
    requires AlmostConsistent(ports, ifaces, p) && p in ports && ports[p] != []
    ensures
      var less := ifaces - {ports[p][0]};
      KeepIfaces(less, OfOtherPorts(less, p)) == KeepIfaces(ifaces, OfOtherPorts(ifaces, p))
  {
    assert ports[p][0] in ports[p];
  }

  lemma NoneLeft(ports: map<Name, seq<Name>>, ifaces: map<Name, Iface>, p: Name)
    requires AlmostConsistent(ports, ifaces, p) && p in ports && ports[p] == []
    ensures AlmostConsistent(ports - {p}, ifaces, p)
    ensures KeepIfaces(ifaces, OfOtherPorts(ifaces, p)) == ifaces
  {
  }

  /** The indexes of a bridge agree with each other and with its datapath; without one it is empty. */
  ghost predicate Agree(t: Tables, byOfp: set<(nat, Name)>, hasOfproto: bool, there: bool) {
    && Consistent(t) && byOfp == OfpIndex(t.ifaces) && DistinctNumbers(t.dp) && hasOfproto == there
    && (!hasOfproto ==> t.ifaces == map[] && t.dp == map[])
  }

  class Bridge {
    const id: DpId                        // its name and the type of its datapath
    var ports: map<Name, seq<Name>>       // ports by name, each with its list of interfaces
    var byName: map<Name, Iface>          // iface_by_name
    var byOfp: set<(nat, Name)>           // ifaces, indexed by OpenFlow number
    var hasOfproto: bool

    /** The tables in memory. */
    ghost function M(): Tables
      reads this
    {
      Tables(ports, byName, map[])
    }

    ghost predicate Indexed()
      reads this
    {
      Consistent(M()) && byOfp == OfpIndex(byName)
    }

    /** The tables with the datapath. */
    ghost function T(o: Ofproto): Tables
      reads this, o
    {
      Tables(ports, byName, At(o.Now(), id))
    }

    ghost predicate Valid(o: Ofproto)
      reads this, o
    {
      Agree(T(o), byOfp, hasOfproto, id in o.Now())
    }

    constructor (id: DpId)
      ensures Indexed() && !hasOfproto && M() == Tables(map[], map[], map[]) && this.id == id
    {
      this.id := id;
      ports, byName, byOfp, hasOfproto := map[], map[], {}, false;
    }

    // ----- interfaces and ports -----

    /** iface_destroy__, of the interface at position `i` of the list of `p`. */
    method Unlink(p: Name, i: nat)
      requires AlmostConsistent(ports, byName, p) && byOfp == OfpIndex(byName) && p in ports && i < |ports[p]|
      modifies this`ports, this`byName, this`byOfp
      ensures AlmostConsistent(ports, byName, p) && byOfp == OfpIndex(byName)
      ensures ports == old(ports)[p := Without(old(ports)[p], i)]
      ensures byName == old(byName) - {old(ports)[p][i]}
    {
      var n := ports[p][i];
      UnlinkKeeps(ports, byName, p, i);
      IndexWithout(byName, n);
      byOfp := byOfp - {(byName[n].ofp, n)};
      ports := ports[p := Without(ports[p], i)];
      byName := byName - {n};
    }

    /** port_destroy. */
    method PortDestroy(p: Name)
      requires AlmostConsistent(ports, byName, p) && byOfp == OfpIndex(byName) && p in ports
      modifies this`ports, this`byName, this`byOfp
      ensures Consistent(M()) && byOfp == OfpIndex(byName)
      ensures ports == old(ports) - {p} && byName == KeepIfaces(old(byName), OfOtherPorts(old(byName), p))
    {
      while ports[p] != []
        invariant AlmostConsistent(ports, byName, p) && byOfp == OfpIndex(byName) && p in ports
        invariant ports - {p} == old(ports) - {p}
        invariant KeepIfaces(byName, OfOtherPorts(byName, p)) == KeepIfaces(old(byName), OfOtherPorts(old(byName), p))
        decreases |ports[p]|
      {
        StillOther(ports, byName, p);
        Unlink(p, 0);
      }
      NoneLeft(ports, byName, p);
      ports := ports - {p};
    }

    /** iface_destroy. */
    method IfaceDestroy(n: Name)
      requires Indexed() && n in byName
      modifies this`ports, this`byName, this`byOfp
      ensures Indexed() && M() == Drop(old(M()), {n})
    {
      hide Consistent, AlmostConsistent;
      var p := byName[n].port;
      AlmostAnyway(M(), n);
      var i := Position(ports[p], n);
      OneLess(M(), n, i);
      ghost var target := Keep(M(), byName.Keys - {n});
      KeepConsistent(M(), byName.Keys - {n});
      Unlink(p, i);
      if ports[p] == [] {
        NoneLeft(ports, byName, p);
        PortDestroy(p);
        assert ports == target.ports;
      }
      assert M() == target;
      assert Consistent(M());
    }

    method Position(s: seq<Name>, n: Name) returns (i: nat)
      requires n in s
      ensures i < |s| && s[i] == n
    {
      i := 0;
      while s[i] != n
        invariant i < |s| && n in s[i..]
        decreases |s| - i
      {
        i := i + 1;
      }
    }

    /** port_del_ifaces, for a port that is to have the interfaces `names`. */
    method PortDelIfaces(p: Name, names: seq<Name>, nulls: set<Name>)
      requires Indexed() && p in ports
      modifies this`ports, this`byName, this`byOfp
      ensures Indexed() && M() == Drop(old(M()), Unlisted(old(ports)[p], NameSet(names) - nulls))
    {
      var wanted := CollectNames(names, nulls);
      DropUnlisted(ports[p], wanted);
    }

    method CollectNames(names: seq<Name>, nulls: set<Name>) returns (wanted: set<Name>)
      ensures wanted == NameSet(names) - nulls
    {
      wanted := {};
      for i := 0 to |names|
        invariant wanted == NameSet(names[..i]) - nulls
      {
        NameSetStep(names, i);
        if names[i] !in nulls {
          wanted := wanted + {names[i]};
        }
      }
      assert names[..|names|] == names;
    }

    /** Destroys those interfaces of a list that are not in `wanted`. */
    method DropUnlisted(have: seq<Name>, wanted: set<Name>)
      requires Indexed() && NoDup(have) && forall n :: n in have ==> n in byName
      modifies this`ports, this`byName, this`byOfp
      ensures Indexed() && M() == Drop(old(M()), Unlisted(have, wanted))
    {
      hide Consistent;
      DropNothing(M());
      ghost var gone := {};
      for i := 0 to |have|
        invariant gone == Unlisted(have[..i], wanted)
        invariant Indexed() && M() == Drop(old(M()), gone)
      {
        UnlistedStep(have, i, wanted);
        if have[i] !in wanted {
          DropTwice(old(M()), gone, {have[i]});
          IfaceDestroy(have[i]);
          gone := gone + {have[i]};
        }
      }
      assert have[..|have|] == have;
    }

    /** port_destroy, seen from the tables. */
    method RemovePort(p: Name)
      requires Indexed() && p in ports
      modifies this`ports, this`byName, this`byOfp
      ensures Indexed() && M() == Drop(old(M()), NameSet(old(ports)[p]))
    {
      ElsewhereKept(M(), p);
      assert OfOtherPorts(byName, p) == byName.Keys - NameSet(ports[p]);
      PortDestroy(p);
    }

    /** bridge_del_ports and vrf_del_ports. */
    method DelPorts(c: Config)
      requires Indexed()
      modifies this`ports, this`byName, this`byOfp
      ensures Indexed() && M() == BridgeTables.DelPorts(old(M()), c)
    {
      DropUnwanted(c);
      RetypeAll(c);
    }

    /** Destroys the ports that are not wanted, and of the others the interfaces that are not. */
    method DropUnwanted(c: Config)
      requires Indexed()
      modifies this`ports, this`byName, this`byOfp
      ensures Indexed() && M() == Keep(old(M()), Listed(old(M()), c))
    {
      hide Consistent;
      var todo := ports.Keys;
      ghost var t, gone := M(), {};
      DropNothing(t);
      NothingGone(t, c);
      while todo != {}
        invariant todo <= t.ports.Keys && gone == GoneFrom(t, c, todo)
        invariant Indexed() && Consistent(t) && M() == Drop(t, gone)
      {
        var p :| p in todo;
        StillWhole(t, c, todo, p);
        ghost var more := Leaving(t, c, p);
        DropTwice(t, gone, more);
        GoneStep(t, c, todo, p);
        if p !in c.ports {
          RemovePort(p);
        } else {
          PortDelIfaces(p, c.ports[p], c.nulls);
        }
        todo, gone := todo - {p}, gone + more;
      }
      AllGone(t, c);
    }

    /** Gives the interfaces that still exist the type they are to have. */
    method RetypeAll(c: Config)
      requires Indexed()
      modifies this`byName
      ensures Indexed() && M() == Retype(old(M()), c)
    {
      hide Consistent;
      ghost var t, done := M(), {};
      var todo := c.ports.Keys;
      assert byName == RetypeSome(t.ifaces, c, {});
      while todo != {}
        invariant todo <= c.ports.Keys
        invariant done == (set p, n | p in c.ports && p !in todo && n in c.ports[p] :: n)
        invariant byName == RetypeSome(t.ifaces, c, done)
      {
        var p :| p in todo;
        RetypeList(c, c.ports[p], t.ifaces, done);
        todo, done := todo - {p}, done + NameSet(c.ports[p]);
      }
      assert done == WantedNames(c);
      RetypeConsistent(t, c, done);
      assert OfpIndex(byName) == OfpIndex(t.ifaces);
    }

    method RetypeList(c: Config, names: seq<Name>, ghost ifaces: map<Name, Iface>, ghost done: set<Name>)
      requires byName == RetypeSome(ifaces, c, done)
      modifies this`byName
      ensures byName == RetypeSome(ifaces, c, done + NameSet(names))
    {
      for i := 0 to |names|
        invariant byName == RetypeSome(ifaces, c, done + NameSet(names[..i]))
      {
        NameSetStep(names, i);
        if names[i] in byName {
          byName := byName[names[i] := byName[names[i]].(typ := c.typ(names[i]))];
        }
      }
      assert names[..|names|] == names;
    }

    // ----- the datapath -----

    /**
    bridge_delete_or_reconfigure_ports and vrf_delete_or_reconfigure_ports:
    `misconfigured` are the interfaces netdev_set_config refuses.
    */
    method DeleteOrReconfigure(o: Ofproto, c: Config, misconfigured: set<Name>)
      requires Valid(o) && hasOfproto
      modifies this`ports, this`byName, this`byOfp, o
      ensures Valid(o) && T(o) == BridgeTables.DeleteOrReconfigure(old(T(o)), c, misconfigured)
      ensures Elsewhere(id, old(o.Now()), o.Now()) && OnlyDeletes(old(o.log), o.log, id)
      ensures T(o).dp == old(T(o)).dp ==> o.log == old(o.log)
    {
      hide Consistent, DistinctNumbers;
      ghost var t := T(o);
      var seen := At(o.Now(), id).Keys;
      MemoryOnly(t);
      var deleted, numbers := DropUnusable(o, c, misconfigured);
      ghost var bad := NameSet(deleted);
      DeleteNumbers(o, deleted, numbers);
      DropUnseen(seen);
      ghost var d := At(o.Now(), id);
      Phases(t, c, misconfigured, bad, d);
      ConsistentAnyway(M(), d);
      FewerDistinct(t.dp, bad);
      assert deleted == [] || (deleted[0] in bad && deleted[0] in t.dp && deleted[0] !in d);
    }

    /** The loop over the datapath: its ports that cannot stay, and the end of their interfaces. */
    method DropUnusable(o: Ofproto, c: Config, misconfigured: set<Name>) returns (deleted: seq<Name>, numbers: seq<nat>)
      requires Indexed()
      modifies this`ports, this`byName, this`byOfp
      ensures Indexed() && M() == Drop(old(M()), NameSet(deleted))
      ensures NameSet(deleted) == Bad(old(T(o)), c, misconfigured)
      ensures Numbered(At(o.Now(), id), deleted, numbers)
    {
      hide Consistent, Replay;
      ghost var m, t := M(), T(o);
      var dp := At(o.Now(), id);
      deleted, numbers := [], [];
      var todo := dp.Keys;
      DropNothing(m);
      assert NameSet(deleted) == {};
      while todo != {}
        invariant todo <= dp.Keys && Numbered(dp, deleted, numbers)
        invariant NameSet(deleted) == Bad(t, c, misconfigured) - todo
        invariant Indexed() && Consistent(m) && M() == Drop(m, NameSet(deleted))
      {
        var n :| n in todo;
        DropTwice(m, NameSet(deleted), {n});
        assert n in byName <==> n in m.ifaces;
        var usable := false;
        if n in byName {
          usable := (n in c.subints || dp[n].typ == byName[n].typ) && n !in misconfigured;
        }
        if !usable {
          NameSetAppend(deleted, n);
          if n in byName {
            IfaceDestroy(n);
          } else {
            DropAbsent(m, NameSet(deleted), n);
          }
          deleted, numbers := deleted + [n], numbers + [dp[n].ofp];
        }
        todo := todo - {n};
      }
    }

    /** ofproto_port_del for each number in turn. */
    method DeleteNumbers(o: Ofproto, ghost names: seq<Name>, numbers: seq<nat>)
      requires id in o.Now() && DistinctNumbers(At(o.Now(), id)) && Numbered(At(o.Now(), id), names, numbers)
      modifies o
      ensures id in o.Now() && At(o.Now(), id) == Minus(old(At(o.Now(), id)), NameSet(names))
      ensures Elsewhere(id, old(o.Now()), o.Now()) && OnlyDeletes(old(o.log), o.log, id)
      ensures names == [] ==> o.log == old(o.log)
    {
      hide Replay, Elsewhere;
      NothingElsewhere(id, o.Now());
      ghost var dp := At(o.Now(), id);
      assert Minus(dp, NameSet(names[..0])) == dp;
      for i := 0 to |numbers|
        invariant id in o.Now() && At(o.Now(), id) == Minus(dp, NameSet(names[..i]))
        invariant Elsewhere(id, old(o.Now()), o.Now()) && OnlyDeletes(old(o.log), o.log, id)
        invariant i == 0 ==> o.log == old(o.log)
      {
        NameSetStep(names, i);
        OneNumber(dp, NameSet(names[..i]), names[i], numbers[i]);
        ghost var h := o.Now();
        o.DoPortDel(id, numbers[i]);
        OnlyThere(h, id, o.Now()[id]);
        StillElsewhere(id, old(o.Now()), h, o.Now());
      }
      assert names[..|numbers|] == names;
    }

    /** The loop over the ports: interfaces the datapath does not have, and ports left empty. */
    method DropUnseen(seen: set<Name>)
      requires Indexed()
      modifies this`ports, this`byName, this`byOfp
      ensures Indexed() && M() == Drop(old(M()), old(byName).Keys - seen)
    {
      hide Consistent;
      ghost var t, gone := M(), {};
      var todo := ports.Keys;
      DropNothing(t);
      assert Absent(t, seen, t.ports.Keys) == {} by { AllPlaced(t); }
      while todo != {}
        invariant todo <= t.ports.Keys && gone == Absent(t, seen, todo)
        invariant Indexed() && Consistent(t) && M() == Drop(t, gone)
      {
        var p :| p in todo;
        AbsentStep(t, seen, todo, p);
        DropTwice(t, gone, Unlisted(t.ports[p], seen));
        DropUnlisted(ports[p], seen);
        todo, gone := todo - {p}, gone + Unlisted(t.ports[p], seen);
      }
      assert gone == t.ifaces.Keys - seen;
    }

    // ----- creation -----

    /** iface_create, of a device the datapath accepts under a number of its own choice. */
    method IfaceCreate(o: Ofproto, c: Config, p: Name, n: Name) returns (ofp: nat)
      requires Valid(o) && hasOfproto && n !in byName
      modifies this`ports, this`byName, this`byOfp, o
      ensures Valid(o) && T(o) == CreateIface(old(T(o)), c, p, n, ofp)
      ensures Elsewhere(id, old(o.Now()), o.Now()) && o.log == old(o.log) + [AddPort(id, n, DpPort(ofp, c.typ(n)))]
    {
      hide Consistent, OfpIndex, DistinctNumbers, Replay, Elsewhere;
      ofp := o.DoPortAdd(id, n, c.typ(n));
      OnlyThere(old(o.Now()), id, o.Now()[id]);
      ListMade(ports, p, n);
      CreateConsistent(old(T(o)), c, p, n, ofp);
      IndexWith(byName, n, Iface(p, ofp, c.typ(n)));
      StillDistinct(old(T(o)).dp, n, DpPort(ofp, c.typ(n)));
      if p !in ports {
        ports := ports[p := []];
      }
      ports := ports[p := ports[p] + [n]];
      byName := byName[n := Iface(p, ofp, c.typ(n))];
      byOfp := byOfp + {(ofp, n)};
    }

    /**
    bridge_add_ports__: creates the wanted interfaces that are missing, except where
    creation is refused.
    */
    method AddPorts(o: Ofproto, c: Config, refused: set<(Name, Name)>)
      requires Valid(o) && hasOfproto && T(o).dp.Keys == byName.Keys
      modifies this`ports, this`byName, this`byOfp, o
      ensures Valid(o) && Grown(old(T(o)), T(o), c)
      ensures byName.Keys == old(byName).Keys + Accepted(c, refused)
      ensures Elsewhere(id, old(o.Now()), o.Now()) && OnlyAdds(old(o.log), o.log, id, WantedNames(c) - old(byName).Keys)
      ensures T(o) == old(T(o)) ==> o.log == old(o.log)
    {
      hide Consistent, Grown, Replay, Agree;
      ghost var t, names: set<Name> := T(o), {};
      GrownNone(t, c);
      var todo := c.ports.Keys;
      while todo != {}
        invariant todo <= c.ports.Keys && Valid(o) && Grown(t, T(o), c)
        invariant names == (set p, n | p in c.ports && p !in todo && n in c.ports[p] && (p, n) !in refused :: n)
        invariant byName.Keys == t.ifaces.Keys + names
        invariant Elsewhere(id, old(o.Now()), o.Now())
        invariant OnlyAdds(old(o.log), o.log, id, WantedNames(c) - t.ifaces.Keys)
        invariant byName.Keys == t.ifaces.Keys ==> o.log == old(o.log)
      {
        var p :| p in todo;
        AddList(o, c, p, refused, t, names, old(o.log));
        todo, names := todo - {p}, names + NotRefused(c.ports[p], p, refused);
      }
      assert names == Accepted(c, refused);
    }

    method AddList(
        o: Ofproto, c: Config, p: Name, refused: set<(Name, Name)>,
        ghost t: Tables, ghost names: set<Name>, ghost log: seq<Call>)
      requires Valid(o) && hasOfproto && p in c.ports && Grown(t, T(o), c)
      requires byName.Keys == t.ifaces.Keys + names && OnlyAdds(log, o.log, id, WantedNames(c) - t.ifaces.Keys)
      requires byName.Keys == t.ifaces.Keys ==> o.log == log
      modifies this`ports, this`byName, this`byOfp, o
      ensures Valid(o) && Grown(t, T(o), c)
      ensures byName.Keys == t.ifaces.Keys + (names + NotRefused(c.ports[p], p, refused))
      ensures Elsewhere(id, old(o.Now()), o.Now()) && OnlyAdds(log, o.log, id, WantedNames(c) - t.ifaces.Keys)
      ensures byName.Keys == t.ifaces.Keys ==> o.log == log
    {
      hide Consistent, Grown, Agree, Replay, Elsewhere, OnlyAdds, WantedNames;
      NothingElsewhere(id, o.Now());
      var list := c.ports[p];
      ghost var more: set<Name> := {};
      for i := 0 to |list|
        invariant Valid(o) && hasOfproto && Grown(t, T(o), c)
        invariant more == NotRefused(list[..i], p, refused) && byName.Keys == t.ifaces.Keys + (names + more)
        invariant Elsewhere(id, old(o.Now()), o.Now()) && OnlyAdds(log, o.log, id, WantedNames(c) - t.ifaces.Keys)
        invariant byName.Keys == t.ifaces.Keys ==> o.log == log
      {
        var n := list[i];
        NotRefusedStep(list, i, p, refused);
        if n !in byName && (p, n) !in refused {
          ghost var before, h, calls := T(o), o.Now(), o.log;
          var ofp := IfaceCreate(o, c, p, n);
          GrownMore(t, before, c, p, n, ofp);
          StillElsewhere(id, old(o.Now()), h, o.Now());
          OneMoreAdd(log, calls, id, c, t.ifaces.Keys, p, n, DpPort(ofp, c.typ(n)));
          assert byName.Keys == before.ifaces.Keys + {n};
        }
        more := NotRefused(list[..i + 1], p, refused);
      }
      assert list[..|list|] == list;
    }
  }

  /** All datapaths but this one are as they were. */
  ghost predicate Elsewhere(id: DpId, was: Holdings, now: Holdings) {
    forall d :: d != id ==> (d in now <==> d in was) && At(now, d) == At(was, d)
  }

  lemma NothingElsewhere(id: DpId, h: Holdings)
    ensures Elsewhere(id, h, h)
  {
  }

  lemma OnlyThere(h: Holdings, id: DpId, dp: Datapath)
    ensures Elsewhere(id, h, h[id := dp])
  {
  }

  lemma StillElsewhere(id: DpId, was: Holdings, h: Holdings, now: Holdings)
    requires Elsewhere(id, was, h) && Elsewhere(id, h, now)
    ensures Elsewhere(id, was, now)
  {
  }

  /** What was logged since deletes ports of this datapath. */
  ghost predicate OnlyDeletes(was: seq<Call>, now: seq<Call>, id: DpId) {
    was <= now && forall i :: |was| <= i < |now| ==> now[i].DelPort? && now[i].id == id
  }

  /** What was logged since adds ports of these names to this datapath. */
  ghost predicate OnlyAdds(was: seq<Call>, now: seq<Call>, id: DpId, names: set<Name>) {
    was <= now && forall i :: |was| <= i < |now| ==> now[i].AddPort? && now[i].id == id && now[i].name in names
  }

  lemma OneMoreAdd(
      was: seq<Call>, log: seq<Call>, id: DpId, c: Config, have: set<Name>, p: Name, n: Name, port: DpPort)
    requires OnlyAdds(was, log, id, WantedNames(c) - have) && p in c.ports && n in c.ports[p] && n !in have
    ensures OnlyAdds(was, log + [AddPort(id, n, port)], id, WantedNames(c) - have)
  {
    assert n in WantedNames(c);
  }

  lemma ListMade(ports: map<Name, seq<Name>>, p: Name, n: Name)
    ensures
      var made := if p in ports then ports else ports[p := []];
      made[p := made[p] + [n]] == ports[p := (if p in ports then ports[p] else []) + [n]]
  {
  }

  function Minus(dp: Datapath, names: set<Name>): Datapath {
    OnlyPorts(dp, dp.Keys - names)
  }

  lemma OneNumber(dp: Datapath, names: set<Name>, n: Name, ofp: nat)
    requires DistinctNumbers(dp) && n in dp && dp[n].ofp == ofp
    ensures WithoutNumber(Minus(dp, names), ofp) == Minus(dp, names + {n})
  {
  }

  lemma FewerDistinct(dp: Datapath, names: set<Name>)
    requires DistinctNumbers(dp)
    ensures DistinctNumbers(Minus(dp, names))
  {
  }

  lemma MemoryOnly(t: Tables)
    requires Consistent(t)
    ensures Consistent(t.(dp := map[]))
  {
  }

  function NotRefused(names: seq<Name>, p: Name, refused: set<(Name, Name)>): set<Name> {
    set n | n in names && (p, n) !in refused
  }

  lemma NotRefusedStep(names: seq<Name>, i: nat, p: Name, refused: set<(Name, Name)>)
    requires i < |names|
    ensures NotRefused(names[..i + 1], p, refused) ==
      NotRefused(names[..i], p, refused) + if (p, names[i]) in refused then {} else {names[i]}
    ensures names[i] in names
  {
    assert names[..i + 1] == names[..i] + [names[i]];
  }

  lemma StillDistinct(dp: Datapath, n: Name, port: DpPort)
    requires DistinctNumbers(dp) && forall m :: m in dp ==> dp[m].ofp != port.ofp
    ensures DistinctNumbers(dp[n := port])
  {
  }

  lemma IndexWith(ifaces: map<Name, Iface>, n: Name, i: Iface)
    requires n !in ifaces
    ensures OfpIndex(ifaces[n := i]) == OfpIndex(ifaces) + {(i.ofp, n)}
  {
    forall e | e in OfpIndex(ifaces) + {(i.ofp, n)} ensures e in OfpIndex(ifaces[n := i]) {
      assert e.1 in ifaces[n := i];
    }
  }

  // ----- facts used by the datapath loops -----

  /** The datapath has no part in it. */
  lemma ConsistentAnyway(t: Tables, d: Datapath)
    requires Consistent(t)
    ensures Consistent(t.(dp := d))
  {
  }

  lemma AllPlaced(t: Tables)
    requires Consistent(t)
    ensures forall n :: n in t.ifaces ==> t.ifaces[n].port in t.ports
  {
  }

  lemma NameSetAppend(s: seq<Name>, n: Name)
    ensures NameSet(s + [n]) == NameSet(s) + {n}
  {
  }

  /** `numbers` are the OpenFlow numbers of `names`. */
  ghost predicate Numbered(dp: Datapath, names: seq<Name>, numbers: seq<nat>) {
    |names| == |numbers| && forall i :: 0 <= i < |names| ==> names[i] in dp && dp[names[i]].ofp == numbers[i]
  }

  /** The datapath ports that cannot stay. */
  function Bad(t: Tables, c: Config, misconfigured: set<Name>): set<Name> {
    t.dp.Keys - Usable(t, c, misconfigured)
  }

  lemma DropAbsent(t: Tables, gone: set<Name>, n: Name)
    requires n !in t.ifaces
    ensures Drop(t, gone + {n}) == Drop(t, gone)
  {
    assert t.ifaces.Keys - (gone + {n}) == t.ifaces.Keys - gone;
  }

  /** Interfaces outside `seen` whose port is not in `todo`. */
  function Absent(t: Tables, seen: set<Name>, todo: set<Name>): set<Name> {
    set n | n in t.ifaces && t.ifaces[n].port !in todo && n !in seen
  }

  lemma AbsentMore(t: Tables, seen: set<Name>, todo: set<Name>, p: Name)
    requires Consistent(t) && p in todo && p in t.ports
    ensures Absent(t, seen, todo - {p}) == Absent(t, seen, todo) + Unlisted(t.ports[p], seen)
  {
    hide NoDup;
  }

  lemma AbsentStep(t: Tables, seen: set<Name>, todo: set<Name>, p: Name)
    requires Consistent(t) && p in todo && p in t.ports
    ensures Absent(t, seen, todo - {p}) == Absent(t, seen, todo) + Unlisted(t.ports[p], seen)
    ensures
      var now := Drop(t, Absent(t, seen, todo));
      && p in now.ports && now.ports[p] == t.ports[p] && NoDup(t.ports[p])
      && forall n :: n in t.ports[p] ==> n in now.ifaces
  {
    hide Filter, NoDup;
    AbsentMore(t, seen, todo, p);
    FilterAll(t.ports[p], t.ifaces.Keys - Absent(t, seen, todo));
  }

  /** The three loops together. */
  lemma Phases(t: Tables, c: Config, misconfigured: set<Name>, bad: set<Name>, d: Datapath)
    requires Consistent(t) && bad == Bad(t, c, misconfigured) && d == OnlyPorts(t.dp, t.dp.Keys - bad)
    ensures
      var t1 := Drop(t, bad).(dp := d);
      Drop(t1, t1.ifaces.Keys - t.dp.Keys) == BridgeTables.DeleteOrReconfigure(t, c, misconfigured)
  {
    var t1, keep := Drop(t, bad).(dp := d), Usable(t, c, misconfigured);
    DropTwice(t, bad, t1.ifaces.Keys - t.dp.Keys);
    assert t.ifaces.Keys - (bad + (t1.ifaces.Keys - t.dp.Keys)) == keep;
    assert d == OnlyPorts(t.dp, keep);
  }

  /** The interfaces of `p` that bridge_del_ports destroys. */
  function Leaving(t: Tables, c: Config, p: Name): set<Name>
    requires p in t.ports
  {
    if p in c.ports then Unlisted(t.ports[p], NameSet(c.ports[p]) - c.nulls) else NameSet(t.ports[p])
  }

  /** What it has destroyed when the ports in `todo` are still to come. */
  function GoneFrom(t: Tables, c: Config, todo: set<Name>): set<Name> {
    set n | n in t.ifaces && t.ifaces[n].port !in todo && n !in Listed(t, c)
  }

  lemma NothingGone(t: Tables, c: Config)
    requires Consistent(t)
    ensures GoneFrom(t, c, t.ports.Keys) == {}
  {
  }

  lemma AllGone(t: Tables, c: Config)
    ensures Drop(t, GoneFrom(t, c, {})) == Keep(t, Listed(t, c))
  {
    assert t.ifaces.Keys - GoneFrom(t, c, {}) == Listed(t, c);
  }

  lemma StillWhole(t: Tables, c: Config, todo: set<Name>, p: Name)
    requires Consistent(t) && p in todo && p in t.ports
    ensures
      var now := Drop(t, GoneFrom(t, c, todo));
      p in now.ports && now.ports[p] == t.ports[p]
  {
    FilterAll(t.ports[p], t.ifaces.Keys - GoneFrom(t, c, todo));
  }

  lemma GoneStep(t: Tables, c: Config, todo: set<Name>, p: Name)
    requires Consistent(t) && p in todo && p in t.ports
    ensures GoneFrom(t, c, todo - {p}) == GoneFrom(t, c, todo) + Leaving(t, c, p)
  {
  }

  function NameSet(s: seq<Name>): set<Name> {
    set n | n in s
  }

  lemma NameSetStep(s: seq<Name>, i: nat)
    requires i < |s|
    ensures NameSet(s[..i + 1]) == NameSet(s[..i]) + {s[i]}
  {
    assert s[..i + 1] == s[..i] + [s[i]];
  }

  /** The names in a list that are not in `wanted`. */
  function Unlisted(s: seq<Name>, wanted: set<Name>): set<Name> {
    set n | n in s && n !in wanted
  }

  lemma UnlistedStep(s: seq<Name>, i: nat, wanted: set<Name>)
    requires i < |s| && NoDup(s)
    ensures Unlisted(s[..i + 1], wanted) == Unlisted(s[..i], wanted) + if s[i] in wanted then {} else {s[i]}
    ensures s[i] in s && s[i] !in Unlisted(s[..i], wanted)
  {
    assert s[..i + 1] == s[..i] + [s[i]];
  }
}
