/**
The code that changes the layer-3 tables in place: src/vrf.c and the neighbor
functions of src/bridge.c.  Every method is proved to do to the tables what
L3Tables says the operation does, and to keep the VRF-wide nexthop index in
agreement with the routes.

A hash map that may hold several equal entries is a multiset here.  A loop over
a hash map takes the entries in any order.
*/
module L3Engine {
  import opened Common
  import opened L3Tables

  /** One element of ofproto_route.nexthops. */
  datatype OfpNexthop = OfpNexthop(id: Nexthop, state: NhState)

  /** What a list of nexthops amounts to for a provider that updates or inserts each. */
  function Sent(batch: seq<OfpNexthop>): Programming {
    if batch == [] then map[]
    else Sent(batch[..|batch| - 1])[batch[|batch| - 1].id := batch[|batch| - 1].state]
  }

  lemma SentAppend(batch: seq<OfpNexthop>, nh: OfpNexthop)
    ensures Sent(batch + [nh]) == Sent(batch)[nh.id := nh.state]
  {
    assert (batch + [nh])[..|batch|] == batch;
  }

  lemma SentNothing(batch: seq<OfpNexthop>)
    ensures Sent(batch) == map[] <==> batch == []
  {
    if batch != [] {
      assert batch[|batch| - 1].id in Sent(batch);
    }
  }

  lemma OneMore(neighbors: Neighbors, nhs: set<Nexthop>, nh: Nexthop)
    ensures States(neighbors, nhs + {nh}) == States(neighbors, nhs)[nh := StateOf(neighbors, nh)]
    ensures StrongStates(neighbors, nhs + {nh}) ==
      if Strong(neighbors, nh) then StrongStates(neighbors, nhs)[nh := StateOf(neighbors, nh)]
      else StrongStates(neighbors, nhs)
  {
  }

  lemma UsableKeysStep(rows: seq<NexthopRow>, i: nat)
    requires i < |rows|
    ensures UsableKeys(rows[..i + 1]) == UsableKeys(rows[..i]) + if rows[i].Usable() then [rows[i].Key()] else []
    ensures Wanted(rows[..i + 1]) == Wanted(rows[..i]) + if rows[i].Usable() then {rows[i].Key()} else {}
  {
    assert rows[..i + 1][..i] == rows[..i];
  }

  lemma UsableKeysPrefix(rows: seq<NexthopRow>, i: nat)
    requires i <= |rows|
    ensures UsableKeys(rows[..i]) <= UsableKeys(rows)
    decreases |rows| - i
  {
    if i < |rows| {
      UsableKeysStep(rows, i);
      UsableKeysPrefix(rows, i + 1);
    } else {
      assert rows[..i] == rows;
    }
  }

  lemma UsableIsCached(rows: seq<NexthopRow>, i: nat)
    requires i < |rows| && rows[i].Usable()
    ensures rows[i].Key() in multiset(UsableKeys(rows))
  {
    UsableKeysStep(rows, i);
    UsableKeysPrefix(rows, i + 1);
    assert rows[i].Key() == UsableKeys(rows[..i + 1])[|UsableKeys(rows[..i])|];
    assert rows[i].Key() in UsableKeys(rows);
  }

  lemma NothingPicked(neighbors: Neighbors)
    ensures Sent([]) == StrongStates(neighbors, Wanted([]))
  {
  }

  /** Looking an address up in the index finds each route as often as it holds that address. */
  ghost predicate IndexAgrees(index: multiset<(string, RouteKey)>, routes: Routes) {
    forall ip, k :: index[(ip, k)] == if k in routes then routes[k][ByIp(ip)] else 0
  }

  /** A host entry asked of the provider in the course of the `number`th neighbor operation. */
  datatype Attempt = Attempt(ip: string, mac: string, port: string, number: nat)

  /** Attempts come one after the other, each in an operation of its own among the first `asked`. */
  ghost predicate InTurn(tried: seq<Attempt>, asked: nat) {
    && (forall i :: 0 <= i < |tried| ==> tried[i].number < asked)
    && (forall i, j :: 0 <= i < j < |tried| ==> tried[i].number < tried[j].number)
  }

  class Vrf {
    const answers: nat -> Answers               // what the calls outside answer to each neighbor operation
    var routes: Routes                          // all_routes, each with its nexthops
    var index: multiset<(string, RouteKey)>     // all_nexthops: address and route it points back to
    var neighbors: Neighbors                    // all_neighbors
    var hosts: map<string, int>                 // the provider's host table
    var asic: Asic                              // the provider's route table
    var asked: nat                              // how many neighbor operations there were
    var tried: seq<Attempt>                     // the host entries asked of the provider

    ghost predicate Valid()
      reads this
    {
      IndexAgrees(index, routes) && InTurn(tried, asked)
    }

    ghost function Tables(): L3
      reads this
    {
      L3(routes, neighbors, hosts, asic)
    }

    constructor (answers: nat -> Answers)
      ensures Valid() && Tables() == EMPTY && tried == [] && this.answers == answers
    {
      this.answers := answers;
      routes, index, neighbors, hosts, asic, asked, tried := map[], multiset{}, map[], map[], map[], 0, [];
    }

    // ----- nexthops of one route -----

    /** vrf_nexthop_add, for route `k` which so far has `have`. */
    method NexthopAdd(k: RouteKey, have: multiset<Nexthop>, row: NexthopRow)
      returns (now: multiset<Nexthop>, nh: Option<Nexthop>)
      requires IndexAgrees(index, routes[k := have])
      modifies this`index
      ensures IndexAgrees(index, routes[k := now])
      ensures
        if row.Named() then nh == Some(row.Key()) && now == have + multiset{row.Key()}
        else nh == None && now == have
    {
      now, nh := have, None;
      if row.ip.Some? {
        now, nh := have + multiset{ByIp(row.ip.value)}, Some(ByIp(row.ip.value));
        index := index + multiset{(row.ip.value, k)};
      } else if row.port.Some? {
        now, nh := have + multiset{ByPort(row.port.value)}, Some(ByPort(row.port.value));
      }
    }

    /** vrf_nexthop_delete. */
    method NexthopDelete(k: RouteKey, have: multiset<Nexthop>, nh: Nexthop) returns (now: multiset<Nexthop>)
      requires IndexAgrees(index, routes[k := have]) && nh in have
      modifies this`index
      ensures IndexAgrees(index, routes[k := now])
      ensures now == have - multiset{nh}
    {
      now := have - multiset{nh};
      if nh.ByIp? {
        index := index - multiset{(nh.ip, k)};
      }
    }

    /** vrf_ofproto_set_nh. */
    method SetNh(nh: Nexthop) returns (ofp: OfpNexthop)
      ensures ofp == OfpNexthop(nh, StateOf(neighbors, nh))
    {
      if nh.ByPort? {
        ofp := OfpNexthop(nh, Unresolved);
      } else if nh.ip in neighbors && neighbors[nh.ip].egress > 0 {
        ofp := OfpNexthop(nh, Resolved(neighbors[nh.ip].egress));
      } else {
        ofp := OfpNexthop(nh, Unresolved);
      }
    }

    /** vrf_ofproto_update_resolved_nh. */
    method UpdateResolvedNh(batch: seq<OfpNexthop>, nh: Nexthop) returns (longer: seq<OfpNexthop>)
      ensures longer == if Strong(neighbors, nh) then batch + [OfpNexthop(nh, StateOf(neighbors, nh))] else batch
    {
      longer := batch;
      if nh.ByPort? {
        longer := batch + [OfpNexthop(nh, Unresolved)];
      } else if nh.ip in neighbors && neighbors[nh.ip].egress > 0 {
        longer := batch + [OfpNexthop(nh, Resolved(neighbors[nh.ip].egress))];
      }
    }

    /** vrf_ofproto_add_resolved_nh: caches the usable nexthops and picks those to program. */
    method AddResolvedNh(k: RouteKey, rows: seq<NexthopRow>) returns (have: multiset<Nexthop>, batch: seq<OfpNexthop>)
      requires Valid() && k !in routes && |rows| > 1
      modifies this`index
      ensures have == multiset(UsableKeys(rows)) && IndexAgrees(index, routes[k := have])
      ensures Sent(batch) == FirstBatch(neighbors, rows)
    {
      have := multiset{};
      for i := 0 to |rows|
        invariant have == multiset(UsableKeys(rows[..i])) && IndexAgrees(index, routes[k := have])
      {
        UsableKeysStep(rows, i);
        if rows[i].Selected() && (rows[i].ip.Some? || rows[i].port.Some?) {
          var nh;
          have, nh := NexthopAdd(k, have, rows[i]);
        }
      }
      assert rows[..|rows|] == rows;
      batch := PickStrong(have, rows);
      SentNothing(batch);
      if |batch| == 0 {
        assert forall nh :: nh in Wanted(rows) && Strong(neighbors, nh) ==> nh in Sent(batch);
        batch := PickOneAddress(have, rows);
      }
    }

    method PickStrong(have: multiset<Nexthop>, rows: seq<NexthopRow>) returns (batch: seq<OfpNexthop>)
      requires have == multiset(UsableKeys(rows))
      ensures Sent(batch) == StrongStates(neighbors, Wanted(rows))
    {
      hide UsableKeys, Sent, StrongStates, Wanted, Strong, StateOf;
      batch := [];
      NothingPicked(neighbors);
      assert rows[..0] == [];
      for i := 0 to |rows|
        invariant Sent(batch) == StrongStates(neighbors, Wanted(rows[..i]))
      {
        UsableKeysStep(rows, i);
        assert Wanted(rows[..i]) + {} == Wanted(rows[..i]);
        if rows[i].Selected() && (rows[i].ip.Some? || rows[i].port.Some?) {
          var nh := rows[i].Key();
          UsableIsCached(rows, i);
          if nh in have {
            SentAppend(batch, OfpNexthop(nh, StateOf(neighbors, nh)));
            OneMore(neighbors, Wanted(rows[..i]), nh);
            batch := UpdateResolvedNh(batch, nh);
          }
        }
      }
      assert rows[..|rows|] == rows;
    }

    /** With nothing strong in the row, the first usable nexthop. */
    method PickOneAddress(have: multiset<Nexthop>, rows: seq<NexthopRow>) returns (batch: seq<OfpNexthop>)
      requires have == multiset(UsableKeys(rows))
      requires forall nh :: nh in Wanted(rows) ==> !Strong(neighbors, nh)
      ensures Sent(batch) == if UsableKeys(rows) == [] then map[] else map[UsableKeys(rows)[0] := Unresolved]
    {
      batch := [];
      for i := 0 to |rows|
        invariant batch == [] && UsableKeys(rows[..i]) == []
      {
        UsableKeysStep(rows, i);
        UsableKeysPrefix(rows, i + 1);
        if rows[i].Usable() {
          assert rows[i].Key() == UsableKeys(rows)[0] && rows[i].Key() in Wanted(rows);
        }
        if rows[i].Selected() && rows[i].ip.Some? {
          var nh := ByIp(rows[i].ip.value);
          if nh in have {
            batch := [OfpNexthop(nh, Unresolved)];
            SentAppend([], batch[0]);
            return;
          }
        }
      }
      assert rows[..|rows|] == rows;
    }

    // ----- routes -----

    /** vrf_ofproto_route_add, which is not called without nexthops. */
    method OfprotoRouteAdd(prefix: string, batch: seq<OfpNexthop>)
      requires batch != []
      modifies this`asic
      ensures asic == Program(old(asic), prefix, Sent(batch))
    {
      SentNothing(batch);
      asic := asic[prefix := At(asic, prefix) + Sent(batch)];
    }

    /** The branch of vrf_route_add for a row with at most one nexthop. */
    method AddOnlyNh(k: RouteKey, rows: seq<NexthopRow>) returns (have: multiset<Nexthop>, batch: seq<OfpNexthop>)
      requires Valid() && k !in routes && |rows| <= 1
      modifies this`index
      ensures have == multiset(UsableKeys(rows)) && IndexAgrees(index, routes[k := have])
      ensures Sent(batch) == FirstBatch(neighbors, rows)
    {
      have, batch := multiset{}, [];
      for i := 0 to |rows|
        invariant have == multiset(UsableKeys(rows[..i])) && IndexAgrees(index, routes[k := have])
        invariant Sent(batch) == States(neighbors, Wanted(rows[..i]))
      {
        UsableKeysStep(rows, i);
        if rows[i].Selected() && (rows[i].ip.Some? || rows[i].port.Some?) {
          var nh;
          have, nh := NexthopAdd(k, have, rows[i]);
          if nh.Some? {
            var ofp := SetNh(nh.value);
            SentAppend(batch, ofp);
            OneMore(neighbors, Wanted(rows[..i]), nh.value);
            batch := batch + [ofp];
          }
        }
      }
      assert rows[..|rows|] == rows;
    }

    /** vrf_ofproto_route_delete for some of the nexthops, if there are any. */
    method OfprotoNexthopsDelete(prefix: string, gone: set<Nexthop>)
      modifies this`asic
      ensures asic == Unprogram(old(asic), prefix, gone)
    {
      if gone != {} && prefix in asic {
        asic := asic[prefix := asic[prefix] - gone];
      } else if prefix in asic {
        assert asic[prefix] - gone == asic[prefix] && asic == asic[prefix := asic[prefix]];
      }
    }

    /** vrf_route_add. */
    method RouteAdd(k: RouteKey, rows: seq<NexthopRow>)
      requires Valid() && k !in routes
      modifies this`routes, this`index, this`asic
      ensures Valid() && Tables() == AddRoute(old(Tables()), k, rows)
    {
      var have, batch;
      if |rows| > 1 {
        have, batch := AddResolvedNh(k, rows);
      } else {
        have, batch := AddOnlyNh(k, rows);
      }
      SentNothing(batch);
      if |batch| > 0 {
        OfprotoRouteAdd(k.prefix, batch);
      }
      routes := routes[k := have];
    }

    /** vrf_route_delete. */
    method RouteDelete(k: RouteKey)
      requires Valid() && k in routes
      modifies this`routes, this`index, this`asic
      ensures Valid() && Tables() == DeleteRoute(old(Tables()), k)
    {
      var have := routes[k];
      routes := routes - {k};
      var batch := [];
      while have != multiset{}
        invariant IndexAgrees(index, routes[k := have])
        invariant batch == [] ==> have == old(routes)[k]
        invariant batch != [] ==> old(routes)[k] != multiset{}
        invariant routes == old(routes) - {k}
        invariant neighbors == old(neighbors) && hosts == old(hosts) && asic == old(asic)
        decreases |have|
      {
        var nh :| nh in have;
        var ofp := SetNh(nh);
        have := NexthopDelete(k, have, nh);
        batch := batch + [ofp];
      }
      if |batch| > 0 {
        asic := asic - {k.prefix};
      }
    }

    /** vrf_route_modify. */
    method RouteModify(k: RouteKey, rows: seq<NexthopRow>)
      requires Valid() && k in routes
      modifies this`routes, this`index, this`asic
      ensures Valid() && Tables() == ModifyRoute(old(Tables()), k, rows)
    {
      var current := CollectNexthops(rows);
      var have, gone := TrimNexthops(k, current);
      OfprotoNexthopsDelete(k.prefix, gone);
      var batch;
      ExtraAfterTrim(routes[k], Wanted(rows));
      have, batch := AddNexthops(k, have, current, |rows| > 1);
      SentNothing(batch);
      if |batch| > 0 {
        OfprotoRouteAdd(k.prefix, batch);
      }
      routes := routes[k := have];
    }

    /** The usable nexthops of a row by key; the first of equal ones counts. */
    method CollectNexthops(rows: seq<NexthopRow>) returns (current: map<Nexthop, NexthopRow>)
      ensures current.Keys == Wanted(rows)
      ensures forall nh :: nh in current ==> current[nh].Named() && current[nh].Key() == nh
    {
      current := map[];
      for i := 0 to |rows|
        invariant current.Keys == Wanted(rows[..i])
        invariant forall nh :: nh in current ==> current[nh].Named() && current[nh].Key() == nh
      {
        UsableKeysStep(rows, i);
        if rows[i].Selected() && (rows[i].ip.Some? || rows[i].port.Some?) {
          if rows[i].Key() !in current {
            current := current[rows[i].Key() := rows[i]];
          }
        }
      }
      assert rows[..|rows|] == rows;
    }

    /** Deletes the cached nexthops the row does not ask for any more. */
    method TrimNexthops(k: RouteKey, current: map<Nexthop, NexthopRow>)
      returns (have: multiset<Nexthop>, gone: set<Nexthop>)
      requires Valid() && k in routes
      modifies this`index
      ensures IndexAgrees(index, routes[k := have])
      ensures have == KeepOnly(routes[k], current.Keys) && gone == Gone(routes[k], current.Keys)
    {
      assert routes == routes[k := routes[k]];
      var todo := routes[k];
      have, gone := routes[k], {};
      while todo != multiset{}
        invariant IndexAgrees(index, routes[k := have])
        invariant Trimmed(routes[k], current.Keys, todo, have, gone)
        decreases |todo|
      {
        var nh :| nh in todo;
        TrimStep(routes[k], current.Keys, todo, have, gone, nh);
        todo := todo - multiset{nh};
        if nh !in current {
          have := NexthopDelete(k, have, nh);
          gone := gone + {nh};
        }
      }
      TrimDone(routes[k], current.Keys, have, gone);
    }

    /** Caches the nexthops the row newly asks for and picks those to program. */
    method AddNexthops(k: RouteKey, had: multiset<Nexthop>, current: map<Nexthop, NexthopRow>, ecmp: bool)
      returns (have: multiset<Nexthop>, batch: seq<OfpNexthop>)
      requires IndexAgrees(index, routes[k := had])
      requires forall nh :: nh in current ==> current[nh].Named() && current[nh].Key() == nh
      modifies this`index
      ensures IndexAgrees(index, routes[k := have])
      ensures have == had + multiset(Extra(had, current.Keys))
      ensures Sent(batch) == AddedBatch(neighbors, Extra(had, current.Keys), ecmp)
    {
      var todo := current.Keys;
      have, batch := had, [];
      ghost var extra := {};
      while todo != {}
        invariant todo <= current.Keys && extra == Extra(had, current.Keys - todo)
        invariant IndexAgrees(index, routes[k := have])
        invariant have == had + multiset(extra)
        invariant Sent(batch) == AddedBatch(neighbors, extra, ecmp)
      {
        var nh :| nh in todo;
        assert current.Keys - (todo - {nh}) == current.Keys - todo + {nh};
        todo := todo - {nh};
        if nh !in have {
          have, batch := AddNexthop(k, have, current[nh], ecmp, batch, extra);
          extra := extra + {nh};
        }
      }
      assert current.Keys - todo == current.Keys;
    }

    method AddNexthop(
        k: RouteKey, had: multiset<Nexthop>, row: NexthopRow, ecmp: bool, sent: seq<OfpNexthop>,
        ghost extra: set<Nexthop>)
      returns (have: multiset<Nexthop>, batch: seq<OfpNexthop>)
      requires IndexAgrees(index, routes[k := had]) && row.Named()
      requires Sent(sent) == AddedBatch(neighbors, extra, ecmp)
      modifies this`index
      ensures IndexAgrees(index, routes[k := have]) && have == had + multiset{row.Key()}
      ensures Sent(batch) == AddedBatch(neighbors, extra + {row.Key()}, ecmp)
    {
      var nh;
      batch := sent;
      have, nh := NexthopAdd(k, had, row);
      if nh.Some? {
        OneMore(neighbors, extra, nh.value);
        SentAppend(batch, OfpNexthop(nh.value, StateOf(neighbors, nh.value)));
        if ecmp {
          batch := UpdateResolvedNh(batch, nh.value);
        } else {
          var ofp := SetNh(nh.value);
          batch := batch + [ofp];
        }
      }
    }

    // ----- neighbors -----

    /** vrf_ofproto_update_route_with_neighbor: reprograms `ip` wherever the index finds it. */
    method UpdateRoutesWithNeighbor(ip: string, state: NhState)
      requires Valid()
      modifies this`asic
      ensures asic == Retarget(old(asic), Users(routes, ip), ip, state)
    {
      var todo := index;
      ghost var done: set<RouteKey> := {};
      while todo != multiset{}
        invariant Visited(index, todo, done, ip)
        invariant asic == Retarget(old(asic), Prefixes(done), ip, state)
        decreases |todo|
      {
        var entry :| entry in todo;
        VisitStep(index, todo, done, ip, entry);
        todo := todo - multiset{entry};
        if entry.0 == ip {
          RetargetOneMore(old(asic), Prefixes(done), ip, state, entry.1.prefix);
          SentOne(OfpNexthop(ByIp(ip), state));
          SentNothing([OfpNexthop(ByIp(ip), state)]);
          OfprotoRouteAdd(entry.1.prefix, [OfpNexthop(ByIp(ip), state)]);
          done := done + {entry.1};
        }
      }
      AllVisited(index, routes, done, ip);
    }

    /** neighbor_set_l3_host_entry, and on success the update of the routes. */
    method SetHostEntry(ip: string, number: nat)
      requires Valid() && ip in neighbors && neighbors[ip].mac.Some? && neighbors[ip].port.Some?
      requires number < asked && InTurn(tried, number)
      modifies this`neighbors, this`hosts, this`asic, this`tried
      ensures Valid() && Tables() == ProgramHost(old(Tables()), ip, answers(number))
      ensures tried ==
        old(tried) + [Attempt(ip, old(neighbors)[ip].mac.value, old(neighbors)[ip].port.value, number)]
    {
      var a := answers(number);
      tried := tried + [Attempt(ip, neighbors[ip].mac.value, neighbors[ip].port.value, number)];
      if !a.newPortKnown {
        neighbors := neighbors - {ip};
      } else if a.added.Some? {
        neighbors := neighbors[ip := neighbors[ip].(egress := a.added.value)];
        hosts := hosts[ip := a.added.value];
        UpdateRoutesWithNeighbor(ip, Resolved(neighbors[ip].egress));
      } else {
        neighbors := neighbors - {ip};
      }
    }

    /** neighbor_delete_l3_host_entry. */
    method DeleteHostEntry(ip: string, a: Answers)
      requires ip in neighbors
      modifies this`neighbors, this`hosts
      ensures Tables() == DropHost(old(Tables()), ip, a)
    {
      if a.oldPortKnown {
        hosts := hosts - {ip};
        neighbors := neighbors[ip := neighbors[ip].(egress := -1)];
      }
    }

    /** neighbor_create. */
    method NeighborCreate(ip: string, row: NeighborRow)
      requires Valid() && ip !in neighbors
      modifies this`neighbors, this`hosts, this`asic, this`asked, this`tried
      ensures Valid() && asked == old(asked) + 1
      ensures Tables() == CreateNeighbor(old(Tables()), ip, row, answers(old(asked)))
      ensures tried == old(tried) +
        if CreateTries(row, answers(old(asked))) then [Attempt(ip, row.mac.value, row.port.value, old(asked))] else []
    {
      var number := asked;
      asked := asked + 1;
      var mac, port := None, None;
      if row.mac.Some? && |row.mac.value| > 0 {
        mac := row.mac;
      }
      if row.port.Some? && |row.port.value| > 0 {
        port := row.port;
      }
      neighbors := neighbors[ip := Neighbor(mac, port, -1)];
      if mac.Some? && port.Some? && answers(number).macParses {
        SetHostEntry(ip, number);
      }
    }

    /** neighbor_delete. */
    method NeighborDelete(ip: string)
      requires Valid() && ip in neighbors
      modifies this`neighbors, this`hosts, this`asic, this`asked
      ensures Valid() && asked == old(asked) + 1
      ensures Tables() == DeleteNeighbor(old(Tables()), ip, answers(old(asked)))
    {
      var number := asked;
      asked := asked + 1;
      UpdateRoutesWithNeighbor(ip, Unresolved);
      if neighbors[ip].egress != -1 {
        DeleteHostEntry(ip, answers(number));
      }
      neighbors := neighbors - {ip};
    }

    /** The first half of neighbor_modify: what has changed, and what the entry is to have. */
    method CompareRow(n: Neighbor, row: NeighborRow)
      returns (mac: Option<string>, port: Option<string>, deleteOld: bool, addNew: bool)
      ensures mac == NonEmpty(row.mac) && port == row.port
      ensures deleteOld == ((n.port.Some? && row.port != n.port) || (n.mac.Some? && mac != n.mac))
      ensures addNew == ((row.port.Some? && row.port != n.port) || (mac.Some? && mac != n.mac))
    {
      mac, port, deleteOld, addNew := n.mac, n.port, false, false;
      var portLeft, newPort := false, None;
      if row.port.Some? {
        if port.None? {
          port, addNew := row.port, true;
        }
        if port.value != row.port.value {
          portLeft, newPort, deleteOld, addNew := true, row.port, true, true;
        }
      } else if port.Some? {
        portLeft, deleteOld := true, true;
      }
      if row.mac.Some? && |row.mac.value| > 0 {
        if mac.None? {
          mac, addNew := row.mac, true;
        }
        if mac.value != row.mac.value {
          mac, deleteOld, addNew := row.mac, true, true;
        }
      } else if mac.Some? {
        mac, deleteOld := None, true;
      }
      if portLeft {
        port := None;
      }
      if newPort.Some? {
        port := newPort;
      }
    }

    /** neighbor_modify. */
    method NeighborModify(ip: string, row: NeighborRow)
      requires Valid() && ip in neighbors
      modifies this`neighbors, this`hosts, this`asic, this`asked, this`tried
      ensures Valid() && asked == old(asked) + 1
      ensures Tables() == ModifyNeighbor(old(Tables()), ip, row, answers(old(asked)))
      ensures tried == old(tried) +
        if ModifyTries(old(neighbors)[ip], row, answers(old(asked)))
        then [Attempt(ip, row.mac.value, row.port.value, old(asked))] else []
    {
      hide IndexAgrees, Retarget, ProgramHost, InTurn;
      StillInTurn(tried, asked);
      var number := asked;
      asked := asked + 1;
      var mac, port, deleteOld, addNew := CompareRow(neighbors[ip], row);
      if deleteOld && neighbors[ip].egress != -1 {
        UpdateRoutesWithNeighbor(ip, Unresolved);
        DeleteHostEntry(ip, answers(number));
      }
      neighbors := neighbors[ip := neighbors[ip].(mac := mac, port := port)];
      if addNew && port.Some? && mac.Some? && answers(number).macParses {
        SetHostEntry(ip, number);
      }
    }
  }

  lemma StillInTurn(tried: seq<Attempt>, asked: nat)
    requires InTurn(tried, asked)
    ensures InTurn(tried, asked + 1)
  {
  }

  /** How far UpdateRoutesWithNeighbor has come. */
  ghost predicate Visited(
    index: multiset<(string, RouteKey)>, todo: multiset<(string, RouteKey)>, done: set<RouteKey>, ip: string)
  {
    todo <= index && forall k :: k in done <==> todo[(ip, k)] < index[(ip, k)]
  }

  lemma VisitStep(
      index: multiset<(string, RouteKey)>, todo: multiset<(string, RouteKey)>, done: set<RouteKey>, ip: string,
      entry: (string, RouteKey))
    requires Visited(index, todo, done, ip) && entry in todo
    ensures
      var done' := if entry.0 == ip then done + {entry.1} else done;
      Visited(index, todo - multiset{entry}, done', ip)
    ensures Prefixes(done + {entry.1}) == Prefixes(done) + {entry.1.prefix}
  {
  }

  lemma AllVisited(index: multiset<(string, RouteKey)>, routes: Routes, done: set<RouteKey>, ip: string)
    requires IndexAgrees(index, routes) && Visited(index, multiset{}, done, ip)
    ensures Prefixes(done) == Users(routes, ip)
  {
    assert forall k :: k in done <==> k in routes && ByIp(ip) in routes[k];
  }

  /** How far TrimNexthops has come. */
  ghost predicate Trimmed(
    all: multiset<Nexthop>, want: set<Nexthop>, todo: multiset<Nexthop>, have: multiset<Nexthop>, gone: set<Nexthop>)
  {
    && todo <= all
    && (forall nh :: have[nh] == if nh in want then all[nh] else todo[nh])
    && (forall nh :: nh in gone <==> nh !in want && todo[nh] < all[nh])
  }

  lemma TrimStep(
      all: multiset<Nexthop>, want: set<Nexthop>, todo: multiset<Nexthop>, have: multiset<Nexthop>, gone: set<Nexthop>,
      nh: Nexthop)
    requires Trimmed(all, want, todo, have, gone) && nh in todo
    ensures nh in want ==> Trimmed(all, want, todo - multiset{nh}, have, gone)
    ensures nh !in want ==> nh in have && Trimmed(all, want, todo - multiset{nh}, have - multiset{nh}, gone + {nh})
  {
  }

  lemma TrimDone(all: multiset<Nexthop>, want: set<Nexthop>, have: multiset<Nexthop>, gone: set<Nexthop>)
    requires Trimmed(all, want, multiset{}, have, gone)
    ensures have == KeepOnly(all, want) && gone == Gone(all, want)
  {
  }

  lemma ExtraAfterTrim(have: multiset<Nexthop>, want: set<Nexthop>)
    ensures Extra(KeepOnly(have, want), want) == Extra(have, want)
  {
  }

  function Prefixes(keys: set<RouteKey>): set<string> {
    set k | k in keys :: k.prefix
  }

  lemma SentOne(nh: OfpNexthop)
    ensures Sent([nh]) == map[nh.id := nh.state]
  {
    SentAppend([], nh);
    assert [] + [nh] == [nh];
  }

  lemma RetargetOneMore(asic: Asic, users: set<string>, ip: string, state: NhState, p: string)
    ensures
      var now := Retarget(asic, users, ip, state);
      Retarget(asic, users + {p}, ip, state) == now[p := At(now, p) + map[ByIp(ip) := state]]
  {
    var now, next := Retarget(asic, users, ip, state), Retarget(asic, users + {p}, ip, state);
    assert next[p] == At(now, p) + map[ByIp(ip) := state];
    forall q | q in next && q != p ensures q in now && now[q] == next[q] {}
  }
}
