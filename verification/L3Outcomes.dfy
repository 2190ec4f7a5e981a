/**
What each operation on the layer-3 tables comes to, entry by entry, from the columns
of the row and the answers of the calls outside alone.
*/
module L3Outcomes {
  import opened Common
  import opened L3Tables
  import opened L3Safety
  import opened L3Theorems

  // ----- rows -----

  /** The row is selected and names `nh`: by its address, or by its port if it has no address. */
  predicate RowNames(row: NexthopRow, nh: Nexthop) {
    && row.selected != Some(false)
    && match nh
       case ByIp(ip) => row.ip == Some(ip)
       case ByPort(port) => row.ip == None && row.port == Some(port)
  }

  predicate Names(rows: seq<NexthopRow>, i: nat, nh: Nexthop)
    requires i < |rows|
  {
    RowNames(rows[i], nh)
  }

  ghost predicate NamedBy(rows: seq<NexthopRow>, nh: Nexthop) {
    exists i :: 0 <= i < |rows| && Names(rows, i, nh)
  }

  /** The first row that names anything names `nh`. */
  ghost predicate NamedFirst(rows: seq<NexthopRow>, nh: Nexthop) {
    exists i :: 0 <= i < |rows| && Names(rows, i, nh) && forall j, other :: 0 <= j < i ==> !Names(rows, j, other)
  }

  lemma NamesIsUsable(rows: seq<NexthopRow>, i: nat)
    requires i < |rows|
    ensures forall nh :: Names(rows, i, nh) <==> rows[i].Usable() && rows[i].Key() == nh
  {
  }

  lemma {:induction false} WantedExact(rows: seq<NexthopRow>)
    ensures forall nh :: nh in Wanted(rows) <==> NamedBy(rows, nh)
  {
    if rows != [] {
      var init, last := rows[..|rows| - 1], |rows| - 1;
      WantedExact(init);
      NamesIsUsable(rows, last);
      forall nh ensures nh in Wanted(rows) <==> NamedBy(rows, nh) {
        assert nh in Wanted(rows) <==> nh in Wanted(init) || Names(rows, last, nh);
        if NamedBy(init, nh) {
          var i :| 0 <= i < |init| && Names(init, i, nh);
          assert Names(rows, i, nh);
        }
        if NamedBy(rows, nh) {
          var i :| 0 <= i < |rows| && Names(rows, i, nh);
          assert i < last ==> Names(init, i, nh);
        }
      }
    }
  }

  lemma {:induction false} FirstKey(rows: seq<NexthopRow>, nh: Nexthop)
    ensures UsableKeys(rows) != [] && UsableKeys(rows)[0] == nh <==> NamedFirst(rows, nh)
  {
    if rows != [] {
      var init, last := rows[..|rows| - 1], |rows| - 1;
      FirstKey(init, nh);
      NamesIsUsable(rows, last);
      NothingNamed(init);
      forall i, other | 0 <= i < last ensures Names(rows, i, other) <==> Names(init, i, other) {}
      if UsableKeys(init) != [] {
        if NamedFirst(rows, nh) {
          var i :| 0 <= i < |rows| && Names(rows, i, nh) && forall j, other :: 0 <= j < i ==> !Names(rows, j, other);
          assert i != last;
          assert Names(init, i, nh);
        }
        if NamedFirst(init, nh) {
          var i :| 0 <= i < |init| && Names(init, i, nh) && forall j, other :: 0 <= j < i ==> !Names(init, j, other);
          assert Names(rows, i, nh);
        }
      } else {
        assert forall i, other :: 0 <= i < last ==> !Names(rows, i, other);
        assert Names(rows, last, nh) ==> NamedFirst(rows, nh);
      }
    }
  }

  lemma NothingNamed(rows: seq<NexthopRow>)
    ensures UsableKeys(rows) == [] <==> forall i, nh :: 0 <= i < |rows| ==> !Names(rows, i, nh)
  {
    NothingUsable(rows);
    forall i | 0 <= i < |rows| ensures rows[i].Usable() <==> exists nh :: Names(rows, i, nh) {
      NamesIsUsable(rows, i);
      if rows[i].Usable() {
        assert Names(rows, i, rows[i].Key());
      }
    }
  }

  // ----- what is programmed -----

  /** Under the prefix `nh` is programmed in this state. */
  ghost predicate Has(s: L3, prefix: string, nh: Nexthop, state: NhState) {
    prefix in s.asic && nh in s.asic[prefix] && s.asic[prefix][nh] == state
  }

  /** An address is sent with the egress id of its neighbor if that has one; anything else as unresolved. */
  function StateSent(neighbors: Neighbors, nh: Nexthop): NhState {
    if nh.ByIp? && nh.ip in neighbors && neighbors[nh.ip].egress > 0 then Resolved(neighbors[nh.ip].egress)
    else Unresolved
  }

  /** A port, or an address whose neighbor has an egress id. */
  predicate Reachable(neighbors: Neighbors, nh: Nexthop) {
    nh.ByPort? || (nh.ip in neighbors && neighbors[nh.ip].egress > 0)
  }

  /** What is under other prefixes stays. */
  ghost predicate OnlyUnder(s: L3, t: L3, prefix: string) {
    forall p, nh, state :: p != prefix ==> (Has(t, p, nh, state) <==> Has(s, p, nh, state))
  }

  lemma HasAt(s: L3, prefix: string)
    ensures forall nh, state :: Has(s, prefix, nh, state) <==>
      nh in At(s.asic, prefix) && At(s.asic, prefix)[nh] == state
  {
  }

  /** A new route with several rows is programmed with what is reachable, or else with its first nexthop. */
  ghost predicate SentFirst(neighbors: Neighbors, rows: seq<NexthopRow>, nh: Nexthop) {
    && NamedBy(rows, nh)
    && (|rows| > 1 ==>
          || Reachable(neighbors, nh)
          || (NamedFirst(rows, nh) && forall other :: NamedBy(rows, other) ==> !Reachable(neighbors, other)))
  }

  lemma FirstBatchExact(neighbors: Neighbors, rows: seq<NexthopRow>)
    ensures forall nh :: nh in FirstBatch(neighbors, rows) <==> SentFirst(neighbors, rows, nh)
    ensures forall nh :: nh in FirstBatch(neighbors, rows) ==>
      FirstBatch(neighbors, rows)[nh] == StateSent(neighbors, nh)
  {
    hide UsableKeys, NamedBy, NamedFirst, Wanted;
    var batch, strong := FirstBatch(neighbors, rows), StrongStates(neighbors, Wanted(rows));
    WantedExact(rows);
    assert forall nh :: Strong(neighbors, nh) <==> Reachable(neighbors, nh);
    assert strong == map[] <==> forall nh :: NamedBy(rows, nh) ==> !Reachable(neighbors, nh) by {
      assert forall nh :: nh in strong <==> NamedBy(rows, nh) && Reachable(neighbors, nh);
      assert strong == map[] <==> strong.Keys == {};
    }
    forall nh ensures UsableKeys(rows) != [] && UsableKeys(rows)[0] == nh <==> NamedFirst(rows, nh) {
      FirstKey(rows, nh);
    }
    FirstIsWanted(rows);
  }

  lemma FirstIsWanted(rows: seq<NexthopRow>)
    ensures UsableKeys(rows) != [] ==> UsableKeys(rows)[0] in Wanted(rows)
  {
  }

  /** vrf_route_add. */
  lemma AddRouteOutcome(s: L3, k: RouteKey, rows: seq<NexthopRow>)
    ensures
      var t := AddRoute(s, k, rows);
      && t.neighbors == s.neighbors && t.hosts == s.hosts && OnlyUnder(s, t, k.prefix)
      && t.routes.Keys == s.routes.Keys + {k} && (forall nh :: nh in t.routes[k] <==> NamedBy(rows, nh))
      && (forall k' :: k' in s.routes && k' != k ==> t.routes[k'] == s.routes[k'])
      && forall nh, state :: Has(t, k.prefix, nh, state) <==>
           if SentFirst(s.neighbors, rows, nh) then state == StateSent(s.neighbors, nh)
           else Has(s, k.prefix, nh, state)
  {
    hide FirstBatch, UsableKeys, SentFirst, NamedBy;
    var t, batch := AddRoute(s, k, rows), FirstBatch(s.neighbors, rows);
    FirstBatchExact(s.neighbors, rows);
    WantedExact(rows);
    HasAt(s, k.prefix);
    HasAt(t, k.prefix);
    assert At(t.asic, k.prefix) == At(s.asic, k.prefix) + batch;
    assert forall nh :: nh in multiset(UsableKeys(rows)) <==> nh in Wanted(rows);
  }

  /** A nexthop a change adds to a route is sent if it is reachable, or if the row has no other. */
  ghost predicate SentLater(s: L3, k: RouteKey, rows: seq<NexthopRow>, nh: Nexthop)
    requires k in s.routes
  {
    NamedBy(rows, nh) && nh !in s.routes[k] && (|rows| > 1 ==> Reachable(s.neighbors, nh))
  }

  /** vrf_route_modify. */
  lemma ModifyRouteOutcome(s: L3, k: RouteKey, rows: seq<NexthopRow>)
    requires k in s.routes
    ensures
      var t := ModifyRoute(s, k, rows);
      && t.neighbors == s.neighbors && t.hosts == s.hosts && OnlyUnder(s, t, k.prefix)
      && t.routes.Keys == s.routes.Keys && (forall nh :: nh in t.routes[k] <==> NamedBy(rows, nh))
      && (forall k' :: k' in s.routes && k' != k ==> t.routes[k'] == s.routes[k'])
      && forall nh, state :: Has(t, k.prefix, nh, state) <==>
           if SentLater(s, k, rows, nh) then state == StateSent(s.neighbors, nh)
           else Has(s, k.prefix, nh, state) && !(nh in s.routes[k] && !NamedBy(rows, nh))
  {
    hide NamedBy, OnlyUnder, ModifyRoute, SentLater;
    WantedExact(rows);
    ModifyElsewhere(s, k, rows);
    ModifyProgramming(s, k, rows);
  }

  lemma ModifyProgramming(s: L3, k: RouteKey, rows: seq<NexthopRow>)
    requires k in s.routes
    ensures
      var t := ModifyRoute(s, k, rows);
      forall nh, state :: Has(t, k.prefix, nh, state) <==>
        if SentLater(s, k, rows, nh) then state == StateSent(s.neighbors, nh)
        else Has(s, k.prefix, nh, state) && !(nh in s.routes[k] && !NamedBy(rows, nh))
  {
    hide UsableKeys, NamedBy, Wanted, Program, Unprogram;
    var t, want := ModifyRoute(s, k, rows), Wanted(rows);
    var gone, extra := Gone(s.routes[k], want), Extra(s.routes[k], want);
    var batch := AddedBatch(s.neighbors, extra, |rows| > 1);
    WantedExact(rows);
    HasAt(s, k.prefix);
    HasAt(t, k.prefix);
    ReplacedProgramming(s.asic, k.prefix, gone, batch);
    assert forall nh :: nh in batch <==> SentLater(s, k, rows, nh);
  }

  lemma ModifyElsewhere(s: L3, k: RouteKey, rows: seq<NexthopRow>)
    requires k in s.routes
    ensures
      var t := ModifyRoute(s, k, rows);
      && t.neighbors == s.neighbors && t.hosts == s.hosts && OnlyUnder(s, t, k.prefix)
      && t.routes.Keys == s.routes.Keys && (forall nh :: nh in t.routes[k] <==> nh in Wanted(rows))
      && (forall k' :: k' in s.routes && k' != k ==> t.routes[k'] == s.routes[k'])
  {
    hide AddedBatch, Wanted;
    ModifiedCache(s, k, rows);
  }

  /** vrf_route_delete: the provider drops the whole prefix, if the route had nexthops. */
  lemma DeleteRouteOutcome(s: L3, k: RouteKey)
    requires k in s.routes
    ensures
      var t := DeleteRoute(s, k);
      && t.neighbors == s.neighbors && t.hosts == s.hosts && OnlyUnder(s, t, k.prefix)
      && t.routes == s.routes - {k}
      && forall nh, state :: Has(t, k.prefix, nh, state) <==>
           Has(s, k.prefix, nh, state) && forall other :: other !in s.routes[k]
  {
    assert s.routes[k] == multiset{} <==> forall other :: other !in s.routes[k];
  }

  // ----- neighbors -----

  /** Some route cached under the prefix has the address as a nexthop. */
  ghost predicate UsedUnder(s: L3, prefix: string, ip: string) {
    exists k :: k in s.routes && k.prefix == prefix && ByIp(ip) in s.routes[k]
  }

  /** Exactly the routes that use the address have it programmed in this state; all else is programmed as before. */
  ghost predicate Marked(s: L3, t: L3, ip: string, mark: NhState) {
    forall p, nh, state :: Has(t, p, nh, state) <==>
      if nh == ByIp(ip) && UsedUnder(s, p, ip) then state == mark else Has(s, p, nh, state)
  }

  lemma RetargetMarks(s: L3, t: L3, ip: string, mark: NhState)
    requires t.asic == Retarget(s.asic, Users(s.routes, ip), ip, mark)
    ensures Marked(s, t, ip, mark)
  {
    forall p ensures UsedUnder(s, p, ip) <==> p in Users(s.routes, ip) {}
  }

  lemma MarkedOver(s: L3, m: L3, t: L3, ip: string, first: NhState, mark: NhState)
    requires m.routes == s.routes && Marked(s, m, ip, first) && Marked(m, t, ip, mark)
    ensures Marked(s, t, ip, mark)
  {
    forall p ensures UsedUnder(m, p, ip) <==> UsedUnder(s, p, ip) {}
  }

  /** Every address but this one keeps its entry and its host entry, and the routes keep their nexthops. */
  ghost predicate OnlyNeighbor(s: L3, t: L3, ip: string) {
    t.routes == s.routes && t.neighbors - {ip} == s.neighbors - {ip} && t.hosts - {ip} == s.hosts - {ip}
  }

  ghost predicate SameProgramming(s: L3, t: L3) {
    forall p, nh, state :: Has(t, p, nh, state) <==> Has(s, p, nh, state)
  }

  /** The address has a host entry with this egress id, and every route using it forwards to it. */
  ghost predicate Serves(s: L3, t: L3, ip: string, e: Egress) {
    && ip in t.neighbors && t.neighbors[ip].egress == e
    && ip in t.hosts && t.hosts[ip] == e
    && Marked(s, t, ip, Resolved(e))
  }

  /** neighbor_create: programmed exactly if the row has a MAC address that parses and a port, and both
      the lookup of the port and the provider agree; a refused entry is dropped again. */
  lemma CreateNeighborOutcome(s: L3, ip: string, row: NeighborRow, a: Answers)
    requires ip !in s.neighbors
    ensures
      var t := CreateNeighbor(s, ip, row, a);
      var wanted := row.mac.Some? && row.mac.value != "" && row.port.Some? && row.port.value != "" && a.macParses;
      && OnlyNeighbor(s, t, ip)
      && (ip in t.neighbors <==> wanted ==> a.newPortKnown && a.added.Some?)
      && (ip in t.neighbors ==>
            && (forall mac :: t.neighbors[ip].mac == Some(mac) <==> row.mac == Some(mac) && mac != "")
            && (forall port :: t.neighbors[ip].port == Some(port) <==> row.port == Some(port) && port != ""))
      && (wanted && a.newPortKnown && a.added.Some? ==> Serves(s, t, ip, a.added.value))
      && (!(wanted && a.newPortKnown && a.added.Some?) ==> t.hosts == s.hosts && SameProgramming(s, t))
      && (!wanted ==> t.neighbors[ip].egress == -1)
  {
    var t := CreateNeighbor(s, ip, row, a);
    if CreateTries(row, a) && a.newPortKnown && a.added.Some? {
      RetargetMarks(s, t, ip, Resolved(a.added.value));
    }
  }

  /** The columns differ from the entry. An empty MAC address counts as none. */
  predicate Differs(n: Neighbor, row: NeighborRow) {
    row.port != n.port || NonEmpty(row.mac) != n.mac
  }

  /** What the entry was programmed with is gone. */
  predicate Outdated(n: Neighbor, row: NeighborRow) {
    n.egress != -1 && ((n.port.Some? && row.port != n.port) || (n.mac.Some? && NonEmpty(row.mac) != n.mac))
  }

  /** A row that asks for nothing new changes nothing. */
  lemma UnchangedNeighbor(s: L3, ip: string, row: NeighborRow, a: Answers)
    requires ip in s.neighbors && !Differs(s.neighbors[ip], row)
    ensures ModifyNeighbor(s, ip, row, a) == s
  {
    assert s.neighbors[ip := s.neighbors[ip]] == s.neighbors;
  }

  /** neighbor_modify with a changed row that has a port and a MAC address that parses: the entry is
      programmed as the provider answers, whatever it was before, or dropped. */
  lemma ReprogrammedNeighbor(s: L3, ip: string, row: NeighborRow, a: Answers)
    requires ip in s.neighbors && Differs(s.neighbors[ip], row)
    requires row.port.Some? && row.mac.Some? && row.mac.value != "" && a.macParses
    ensures
      var t := ModifyNeighbor(s, ip, row, a);
      && OnlyNeighbor(s, t, ip)
      && (ip in t.neighbors <==> a.newPortKnown && a.added.Some?)
      && (ip in t.neighbors ==>
            && t.neighbors[ip].mac == row.mac && t.neighbors[ip].port == row.port
            && Serves(s, t, ip, a.added.value))
      && (ip !in t.neighbors ==>
            && (if Outdated(s.neighbors[ip], row) then Marked(s, t, ip, Unresolved) else SameProgramming(s, t))
            && t.hosts == if Outdated(s.neighbors[ip], row) && a.oldPortKnown then s.hosts - {ip} else s.hosts)
  {
    hide Marked, SameProgramming, ModifyNeighbor, Unresolve;
    var n, t := s.neighbors[ip], ModifyNeighbor(s, ip, row, a);
    ReprogrammedTables(s, ip, row, a);
    if a.newPortKnown && a.added.Some? {
      ReprogrammedRoutes(s, t, ip, Outdated(n, row), Resolved(a.added.value));
    } else if Outdated(n, row) {
      RetargetMarks(s, t, ip, Unresolved) by {
        UnresolveIs(s, ip);
      }
    } else {
      SameAsic(s, t);
    }
  }

  lemma UnresolveIs(s: L3, ip: string)
    ensures Unresolve(s, ip) == s.(asic := Retarget(s.asic, Users(s.routes, ip), ip, Unresolved))
  {
  }

  lemma SameAsic(s: L3, t: L3)
    requires t.asic == s.asic
    ensures SameProgramming(s, t)
  {
    forall p, nh, state ensures Has(t, p, nh, state) <==> Has(s, p, nh, state) {}
  }

  lemma ReprogrammedTables(s: L3, ip: string, row: NeighborRow, a: Answers)
    requires ip in s.neighbors && Differs(s.neighbors[ip], row)
    requires row.port.Some? && row.mac.Some? && row.mac.value != "" && a.macParses
    ensures
      var t := ModifyNeighbor(s, ip, row, a);
      var outdated := Outdated(s.neighbors[ip], row);
      var m := if outdated then Unresolve(s, ip) else s;
      && OnlyNeighbor(s, t, ip)
      && if a.newPortKnown && a.added.Some? then
           && ip in t.neighbors && t.neighbors[ip] == Neighbor(row.mac, row.port, a.added.value)
           && ip in t.hosts && t.hosts[ip] == a.added.value
           && t.asic == Retarget(m.asic, Users(s.routes, ip), ip, Resolved(a.added.value))
         else
           && ip !in t.neighbors && t.asic == m.asic
           && t.hosts == if outdated && a.oldPortKnown then s.hosts - {ip} else s.hosts
  {
    hide Retarget, Users;
  }

  lemma ReprogrammedRoutes(s: L3, t: L3, ip: string, outdated: bool, mark: NhState)
    requires t.asic == Retarget((if outdated then Unresolve(s, ip) else s).asic, Users(s.routes, ip), ip, mark)
    ensures Marked(s, t, ip, mark)
  {
    hide Marked;
    var m := if outdated then Unresolve(s, ip) else s;
    RetargetMarks(m, t, ip, mark);
    if outdated {
      RetargetMarks(s, m, ip, Unresolved);
      MarkedOver(s, m, t, ip, Unresolved, mark);
    }
  }

  /** neighbor_modify with a changed row that lacks a port, or a MAC address that parses: nothing is
      programmed, and what was programmed is taken back if the old port can be found. */
  lemma StrippedNeighbor(s: L3, ip: string, row: NeighborRow, a: Answers)
    requires ip in s.neighbors && Differs(s.neighbors[ip], row)
    requires !(row.port.Some? && row.mac.Some? && row.mac.value != "" && a.macParses)
    ensures
      var n, t := s.neighbors[ip], ModifyNeighbor(s, ip, row, a);
      var dropped := Outdated(n, row) && a.oldPortKnown;
      && OnlyNeighbor(s, t, ip)
      && ip in t.neighbors && t.neighbors[ip].port == row.port && t.neighbors[ip].mac == NonEmpty(row.mac)
      && t.neighbors[ip].egress == (if dropped then -1 else n.egress)
      && t.hosts == (if dropped then s.hosts - {ip} else s.hosts)
      && if Outdated(n, row) then Marked(s, t, ip, Unresolved) else SameProgramming(s, t)
  {
    hide Marked;
    if Outdated(s.neighbors[ip], row) {
      RetargetMarks(s, ModifyNeighbor(s, ip, row, a), ip, Unresolved);
    }
  }

  /** neighbor_delete: every route using the address is told it is unresolved, and the host entry is
      taken back if there was one and its port can be found. */
  lemma DeleteNeighborOutcome(s: L3, ip: string, a: Answers)
    requires ip in s.neighbors
    ensures
      var t := DeleteNeighbor(s, ip, a);
      && OnlyNeighbor(s, t, ip) && ip !in t.neighbors
      && t.hosts == (if s.neighbors[ip].egress != -1 && a.oldPortKnown then s.hosts - {ip} else s.hosts)
      && Marked(s, t, ip, Unresolved)
  {
    hide Marked;
    RetargetMarks(s, DeleteNeighbor(s, ip, a), ip, Unresolved);
  }
}
