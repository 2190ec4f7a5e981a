/**
The main results about the layer-3 tables: what the provider holds after any
run, what the first programming of a route sends, and what goes wrong, exactly
when, outside the conditions under which the operations are called.
*/
module L3Theorems {
  import opened Common
  import opened L3Tables
  import opened L3Safety

  /** `ip` is programmed under `prefix` as reachable through `egress`. */
  ghost predicate Forwards(asic: Asic, prefix: string, ip: string, egress: int) {
    ByIp(ip) in At(asic, prefix) && At(asic, prefix)[ByIp(ip)] == Resolved(egress)
  }

  /** The tables ask for exactly that. */
  ghost predicate ShouldForward(routes: Routes, neighbors: Neighbors, prefix: string, ip: string, egress: int) {
    Uses(routes, prefix, ByIp(ip)) && IsResolved(neighbors, ip) && neighbors[ip].egress == egress
  }

  lemma InvMeansForwarding(s: L3, prefix: string, ip: string, egress: int)
    requires Inv(s)
    ensures Forwards(s.asic, prefix, ip, egress) <==> ShouldForward(s.routes, s.neighbors, prefix, ip, egress)
  {
    if Uses(s.routes, prefix, ByIp(ip)) {
      var k :| k in s.routes && k.prefix == prefix && ByIp(ip) in s.routes[k];
      assert EntryOk(s.neighbors, ByIp(ip), At(s.asic, prefix));
    }
  }

  lemma InvMeansPorts(s: L3, prefix: string, port: string)
    requires Inv(s)
    ensures ByPort(port) in At(s.asic, prefix) <==> Uses(s.routes, prefix, ByPort(port))
  {
    if Uses(s.routes, prefix, ByPort(port)) {
      var k :| k in s.routes && k.prefix == prefix && ByPort(port) in s.routes[k];
      assert EntryOk(s.neighbors, ByPort(port), At(s.asic, prefix));
    }
  }

  /**
  After every run from start-up: an address forwards through an egress id exactly
  when a cached route uses it and the neighbor table holds it with that id; a port
  is programmed exactly when a cached route uses it; nothing else is programmed;
  and the host table holds exactly the programmed neighbors.
  */
  lemma EveryRunAgrees(ops: seq<Op>, t: L3)
    requires Run(EMPTY, ops, t)
    ensures forall prefix, ip, egress ::
      Forwards(t.asic, prefix, ip, egress) <==> ShouldForward(t.routes, t.neighbors, prefix, ip, egress)
    ensures forall prefix, port :: ByPort(port) in At(t.asic, prefix) <==> Uses(t.routes, prefix, ByPort(port))
    ensures forall prefix, port :: ByPort(port) in At(t.asic, prefix) ==> At(t.asic, prefix)[ByPort(port)] == Unresolved
    ensures forall prefix, nh :: nh in At(t.asic, prefix) ==> Uses(t.routes, prefix, nh)
    ensures HostsAgree(t.neighbors, t.hosts)
  {
    RunKeeps(EMPTY, ops, t);
    forall prefix, ip, egress
      ensures Forwards(t.asic, prefix, ip, egress) <==> ShouldForward(t.routes, t.neighbors, prefix, ip, egress)
    {
      InvMeansForwarding(t, prefix, ip, egress);
    }
    forall prefix, port
      ensures ByPort(port) in At(t.asic, prefix) <==> Uses(t.routes, prefix, ByPort(port))
    {
      InvMeansPorts(t, prefix, port);
    }
  }

  /** The order of past events leaves no trace in what forwards. */
  lemma HistoryDoesNotMatter(ops: seq<Op>, t: L3, ops': seq<Op>, t': L3)
    requires Run(EMPTY, ops, t) && Run(EMPTY, ops', t')
    requires t.neighbors == t'.neighbors
    requires forall prefix, nh :: Uses(t.routes, prefix, nh) <==> Uses(t'.routes, prefix, nh)
    ensures forall prefix, ip, egress ::
      Forwards(t.asic, prefix, ip, egress) <==> Forwards(t'.asic, prefix, ip, egress)
    ensures forall prefix, port :: ByPort(port) in At(t.asic, prefix) <==> ByPort(port) in At(t'.asic, prefix)
    ensures t.hosts == t'.hosts
  {
    EveryRunAgrees(ops, t);
    EveryRunAgrees(ops', t');
    forall prefix, ip, egress
      ensures Forwards(t.asic, prefix, ip, egress) <==> Forwards(t'.asic, prefix, ip, egress)
    {
      assert ShouldForward(t.routes, t.neighbors, prefix, ip, egress)
        <==> ShouldForward(t'.routes, t'.neighbors, prefix, ip, egress);
    }
  }

  /**
  The first programming of a route with several nexthop rows sends exactly the
  strong nexthops; without any, exactly one unresolved address when there is one.
  With at most one row it sends that nexthop whatever its state.  Either way
  something is sent exactly when the row has a usable nexthop.
  */
  lemma FirstProgramming(neighbors: Neighbors, rows: seq<NexthopRow>)
    ensures
      var batch, want := FirstBatch(neighbors, rows), Wanted(rows);
      && (batch == map[] <==> forall i :: 0 <= i < |rows| ==> !rows[i].Usable())
      && (forall nh :: nh in want && Strong(neighbors, nh) ==> nh in batch)
      && (forall nh :: nh in batch ==> nh in want && batch[nh] == StateOf(neighbors, nh))
      && (|rows| > 1 && (exists nh :: nh in want && Strong(neighbors, nh)) ==>
            forall nh :: nh in batch ==> Strong(neighbors, nh))
      && (|rows| > 1 && (forall nh :: nh in want ==> !Strong(neighbors, nh)) && want != {} ==>
            exists ip :: ByIp(ip) in want && batch == map[ByIp(ip) := Unresolved])
      && (|rows| <= 1 ==> batch.Keys == want)
  {
    var batch, keys := FirstBatch(neighbors, rows), UsableKeys(rows);
    NothingUsable(rows);
    assert keys != [] ==> keys[0] in Wanted(rows);
    var strong := StrongStates(neighbors, Wanted(rows));
    assert forall nh :: nh in strong <==> nh in Wanted(rows) && Strong(neighbors, nh);
    assert batch == map[] <==> batch.Keys == {};
    assert |rows| <= 1 ==> batch.Keys == Wanted(rows);
    if |rows| > 1 && strong == map[] && keys != [] {
      assert !Strong(neighbors, keys[0]);
      assert batch == map[ByIp(keys[0].ip) := Unresolved];
    }
  }

  lemma {:induction false} NothingUsable(rows: seq<NexthopRow>)
    ensures UsableKeys(rows) == [] <==> forall i :: 0 <= i < |rows| ==> !rows[i].Usable()
  {
    if rows != [] {
      var init := rows[..|rows| - 1];
      NothingUsable(init);
      assert forall i :: 0 <= i < |init| ==> init[i] == rows[i];
    }
  }

  // ----- outside the calling conditions -----

  /**
  Deleting a route keeps the others programmed exactly when it had nothing to
  delete or no other route of the same prefix needs anything programmed: the
  provider is told to drop the whole prefix.
  */
  lemma DeleteRouteExact(s: L3, k: RouteKey)
    requires Complete(s) && k in s.routes
    ensures Complete(DeleteRoute(s, k)) <==>
      || s.routes[k] == multiset{}
      || forall k', nh :: k' in s.routes && k' != k && k'.prefix == k.prefix && nh in s.routes[k'] ==>
           !Strong(s.neighbors, nh)
  {
    var t := DeleteRoute(s, k);
    if s.routes[k] != multiset{} {
      if k', nh :| k' in s.routes && k' != k && k'.prefix == k.prefix && nh in s.routes[k'] && Strong(s.neighbors, nh) {
        assert k' in t.routes && nh in t.routes[k'] && !EntryOk(t.neighbors, nh, At(t.asic, k'.prefix));
      } else {
        forall k', nh | k' in t.routes && nh in t.routes[k'] ensures EntryOk(t.neighbors, nh, At(t.asic, k'.prefix)) {
          assert EntryOk(s.neighbors, nh, At(s.asic, k'.prefix));
        }
      }
    }
  }

  /**
  A prefix that changes protocol: adding the new route before deleting the old
  one leaves the new one programmed exactly when it has nothing that needs to
  be; deleting first is always right.
  */
  lemma ProtocolSwitch(s: L3, leaving: RouteKey, coming: RouteKey, rows: seq<NexthopRow>)
    requires Inv(s) && leaving in s.routes && s.routes[leaving] != multiset{}
    requires coming !in s.routes && coming.prefix == leaving.prefix
    ensures Complete(DeleteRoute(AddRoute(s, coming, rows), leaving)) <==>
      forall nh :: nh in Wanted(rows) ==> !Strong(s.neighbors, nh)
    ensures Inv(AddRoute(DeleteRoute(s, leaving), coming, rows))
  {
    var t := AddRoute(s, coming, rows);
    FirstBatchSuits(s.neighbors, rows);
    AddOverShared(s, coming, multiset(UsableKeys(rows)), FirstBatch(s.neighbors, rows));
    DeleteRouteExact(t, leaving);
    assert forall nh :: nh in t.routes[coming] <==> nh in Wanted(rows);
    DeleteRouteKeeps(s, leaving);
    AddRouteKeeps(DeleteRoute(s, leaving), coming, rows);
  }

  /** For instance a static route giving way to a BGP route through a port. */
  lemma ProtocolSwitchLosesRoute()
    ensures
      var leaving, coming := RouteKey("static", "10.0.0.0/8"), RouteKey("bgp", "10.0.0.0/8");
      var rows := [NexthopRow(None, Some("eth1"), None)];
      var s := AddRoute(EMPTY, leaving, rows);
      Inv(s) && !Complete(DeleteRoute(AddRoute(s, coming, rows), leaving))
  {
    var leaving, coming := RouteKey("static", "10.0.0.0/8"), RouteKey("bgp", "10.0.0.0/8");
    var rows := [NexthopRow(None, Some("eth1"), None)];
    var s := AddRoute(EMPTY, leaving, rows);
    AddRouteKeeps(EMPTY, leaving, rows);
    assert rows[..0] == [] && UsableKeys(rows) == [ByPort("eth1")];
    assert ByPort("eth1") in Wanted(rows) && Strong(s.neighbors, ByPort("eth1"));
    assert "static"[0] != "bgp"[0];
    ProtocolSwitch(s, leaving, coming, rows);
  }

  lemma AddOverShared(s: L3, k: RouteKey, have: multiset<Nexthop>, batch: Programming)
    requires Complete(s) && Sound(s.routes, s.asic) && k !in s.routes && Suits(s.neighbors, have, batch)
    ensures Complete(s.(routes := s.routes[k := have], asic := Program(s.asic, k.prefix, batch)))
  {
    var t := s.(routes := s.routes[k := have], asic := Program(s.asic, k.prefix, batch));
    assert At(t.asic, k.prefix) == At(s.asic, k.prefix) + batch;
    forall k', nh | k' in t.routes && nh in t.routes[k'] ensures EntryOk(t.neighbors, nh, At(t.asic, k'.prefix)) {
      if k' == k {
        AlreadyRight(s, k.prefix, nh);
      } else {
        assert EntryOk(s.neighbors, nh, At(s.asic, k'.prefix));
        assert k'.prefix != k.prefix ==> At(t.asic, k'.prefix) == At(s.asic, k'.prefix);
      }
    }
  }

  lemma AlreadyRight(s: L3, prefix: string, nh: Nexthop)
    requires Complete(s) && Sound(s.routes, s.asic)
    ensures nh in At(s.asic, prefix) ==> EntryOk(s.neighbors, nh, At(s.asic, prefix))
  {
    if nh in At(s.asic, prefix) {
      var k :| k in s.routes && k.prefix == prefix && nh in s.routes[k];
      assert EntryOk(s.neighbors, nh, At(s.asic, k.prefix));
    }
  }

  /** The host table stays in step with a deletion exactly when the port could be found. */
  lemma DeleteNeighborExact(s: L3, ip: string, a: Answers)
    requires Inv(s) && ip in s.neighbors
    ensures var t := DeleteNeighbor(s, ip, a);
      HostsAgree(t.neighbors, t.hosts) <==> (s.neighbors[ip].Programmed() ==> a.oldPortKnown)
  {
    var t := DeleteNeighbor(s, ip, a);
    assert t.neighbors == s.neighbors - {ip};
    assert t.hosts == if s.neighbors[ip].Programmed() && a.oldPortKnown then s.hosts - {ip} else s.hosts;
  }

  /** For instance a programmed neighbor whose port has gone: its host entry stays. */
  lemma DeletedHostStays()
    ensures
      var a := Answers(false, true, true, None);
      var s := L3(map[], map["1.1.1.1" := Neighbor(Some("aa"), Some("eth1"), 5)], map["1.1.1.1" := 5], map[]);
      var t := DeleteNeighbor(s, "1.1.1.1", a);
      Inv(s) && "1.1.1.1" in t.hosts && "1.1.1.1" !in t.neighbors
  {
  }

  /** A modification that cannot find the old port and does not program the entry anew. */
  ghost predicate Stuck(s: L3, ip: string, row: NeighborRow, a: Answers)
    requires ip in s.neighbors
  {
    var n, mac := s.neighbors[ip], NonEmpty(row.mac);
    && n.Programmed() && (row.port != n.port || mac != n.mac) && !a.oldPortKnown
    && !(row.port.Some? && mac.Some? && a.macParses)
  }

  /** Then, and only then, routes using the neighbor disagree with the neighbor table. */
  lemma ModifyNeighborExact(s: L3, ip: string, row: NeighborRow, a: Answers)
    requires Inv(s) && ip in s.neighbors
    ensures Complete(ModifyNeighbor(s, ip, row, a)) <==> !(Stuck(s, ip, row, a) && Users(s.routes, ip) != {})
  {
    var t := ModifyNeighbor(s, ip, row, a);
    if s.neighbors[ip].Programmed() ==> a.oldPortKnown {
      ModifyNeighborKeeps(s, ip, row, a);
    } else {
      ModifyWithoutPort(s, ip, row, a);
    }
  }

  /** The old entry is still in the host table and the cache entry is dropped because the new one is refused. */
  ghost predicate Orphaned(s: L3, ip: string, row: NeighborRow, a: Answers)
    requires ip in s.neighbors
  {
    var n, mac := s.neighbors[ip], NonEmpty(row.mac);
    && n.Programmed() && (row.port != n.port || mac != n.mac) && !a.oldPortKnown
    && row.port.Some? && mac.Some? && a.macParses && !(a.newPortKnown && a.added.Some?)
  }

  /** Then, and only then, the host table disagrees with the neighbor table. */
  lemma ModifyHostExact(s: L3, ip: string, row: NeighborRow, a: Answers)
    requires Inv(s) && ip in s.neighbors
    ensures
      var t := ModifyNeighbor(s, ip, row, a);
      HostsAgree(t.neighbors, t.hosts) <==> !Orphaned(s, ip, row, a)
  {
    var t := ModifyNeighbor(s, ip, row, a);
    if s.neighbors[ip].Programmed() ==> a.oldPortKnown {
      ModifyNeighborKeeps(s, ip, row, a);
    } else {
      assert HostsAgree(t.neighbors, t.hosts) <==>
        (ip in t.hosts <==> ip in t.neighbors && t.neighbors[ip].Programmed());
    }
  }

  /** For instance a neighbor that moves from a port that has gone to one that is not there yet. */
  lemma ModifiedHostStays()
    ensures
      var a := Answers(false, false, true, None);
      var s := L3(map[], map["1.1.1.1" := Neighbor(Some("aa"), Some("eth1"), 5)], map["1.1.1.1" := 5], map[]);
      var t := ModifyNeighbor(s, "1.1.1.1", NeighborRow(Some("aa"), Some("eth2")), a);
      Inv(s) && "1.1.1.1" in t.hosts && "1.1.1.1" !in t.neighbors
  {
    assert "eth1"[3] != "eth2"[3];
  }

  /** For instance a neighbor that loses its port after that has gone, under a route that uses it. */
  lemma ModifiedRouteUnresolved()
    ensures
      var a := Answers(false, false, true, None);
      var ip, k := "1.1.1.1", RouteKey("bgp", "10.0.0.0/8");
      var s := L3(map[k := multiset{ByIp(ip)}], map[ip := Neighbor(Some("aa"), Some("eth1"), 5)], map[ip := 5],
                  map[k.prefix := map[ByIp(ip) := Resolved(5)]]);
      Inv(s) && !Complete(ModifyNeighbor(s, ip, NeighborRow(Some("aa"), None), a))
  {
    var a := Answers(false, false, true, None);
    var ip, k := "1.1.1.1", RouteKey("bgp", "10.0.0.0/8");
    var s := L3(map[k := multiset{ByIp(ip)}], map[ip := Neighbor(Some("aa"), Some("eth1"), 5)], map[ip := 5],
                map[k.prefix := map[ByIp(ip) := Resolved(5)]]);
    assert Uses(s.routes, k.prefix, ByIp(ip)) && k.prefix in Users(s.routes, ip);
    ModifyNeighborExact(s, ip, NeighborRow(Some("aa"), None), a);
  }

  lemma ModifyWithoutPort(s: L3, ip: string, row: NeighborRow, a: Answers)
    requires Inv(s) && ip in s.neighbors && s.neighbors[ip].Programmed() && !a.oldPortKnown
    ensures Complete(ModifyNeighbor(s, ip, row, a)) <==> !(Stuck(s, ip, row, a) && Users(s.routes, ip) != {})
  {
    var t, n, mac := ModifyNeighbor(s, ip, row, a), s.neighbors[ip], NonEmpty(row.mac);
    if row.port == n.port && mac == n.mac {
      assert t == s;
    } else if row.port.Some? && mac.Some? && a.macParses {
      ReprogrammedOverStale(s, ip, row, a);
    } else {
      LeftStale(s, t, ip);
    }
  }

  lemma ReprogrammedOverStale(s: L3, ip: string, row: NeighborRow, a: Answers)
    requires Inv(s) && ip in s.neighbors && s.neighbors[ip].Programmed() && !a.oldPortKnown
    requires row.port != s.neighbors[ip].port || NonEmpty(row.mac) != s.neighbors[ip].mac
    requires row.port.Some? && NonEmpty(row.mac).Some? && a.macParses
    ensures Complete(ModifyNeighbor(s, ip, row, a))
  {
    var users := Users(s.routes, ip);
    var n := s.neighbors[ip].(mac := NonEmpty(row.mac), port := row.port);
    var s1 := Unresolve(s, ip).(neighbors := s.neighbors[ip := n]);
    var t := ProgramHost(s1, ip, a);
    assert t == ModifyNeighbor(s, ip, row, a);
    var state := if a.newPortKnown && a.added.Some? then Resolved(a.added.value) else Unresolved;
    assert t.asic == Retarget(s.asic, users, ip, state) by {
      RetargetTwice(s.asic, users, ip, Unresolved, state);
    }
    RetargetKeeps(s, t.neighbors, ip, state);
    assert Complete(s.(neighbors := t.neighbors, asic := t.asic));
  }

  lemma RetargetTwice(asic: Asic, users: set<string>, ip: string, first: NhState, second: NhState)
    ensures Retarget(Retarget(asic, users, ip, first), users, ip, second) == Retarget(asic, users, ip, second)
  {
    var once := Retarget(asic, users, ip, first);
    assert forall p :: p in users ==> At(once, p)[ByIp(ip) := second] == At(asic, p)[ByIp(ip) := second];
  }

  /** The users are unresolved but the entry keeps its egress id. */
  lemma LeftStale(s: L3, t: L3, ip: string)
    requires Complete(s) && ip in s.neighbors && s.neighbors[ip].Programmed()
    requires t.routes == s.routes && t.asic == Retarget(s.asic, Users(s.routes, ip), ip, Unresolved)
    requires t.neighbors - {ip} == s.neighbors - {ip}
    requires ip in t.neighbors && t.neighbors[ip].Programmed()
    ensures Complete(t) <==> Users(s.routes, ip) == {}
  {
    var users := Users(s.routes, ip);
    if users == {} {
      StaleUnused(s, t, ip);
    } else {
      var p :| p in users;
      var k :| k in s.routes && ByIp(ip) in s.routes[k] && k.prefix == p;
      assert At(t.asic, p)[ByIp(ip)] == Unresolved;
      assert !EntryOk(t.neighbors, ByIp(ip), At(t.asic, p));
    }
  }

  lemma StaleUnused(s: L3, t: L3, ip: string)
    requires Complete(s) && t.routes == s.routes && Users(s.routes, ip) == {}
    requires t.asic == Retarget(s.asic, {}, ip, Unresolved)
    requires t.neighbors - {ip} == s.neighbors - {ip}
    ensures Complete(t)
  {
    assert t.asic == s.asic;
    SameStates(s.neighbors, t.neighbors, ip);
    forall k, nh | k in t.routes && nh in t.routes[k] ensures EntryOk(t.neighbors, nh, At(t.asic, k.prefix)) {
      assert EntryOk(s.neighbors, nh, At(s.asic, k.prefix));
      assert nh == ByIp(ip) ==> k.prefix in Users(s.routes, ip);
    }
  }
}
