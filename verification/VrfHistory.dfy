/**
A VRF through any number of reconfigurations: neighbors, routes and nexthops follow
the database, and what forwards is said by the database rows and by which host
entries the provider has accepted, not by how things came about.
*/
module VrfHistory {
  import opened Common
  import opened L3Tables
  import opened L3Safety
  import opened L3Theorems
  import opened L3Engine
  import opened RouteSync
  import opened RouteBatch
  import opened RouteReconfigure
  import L3Outcomes
  import N = NeighborReconfigure

  /** The tables of the database that concern a VRF. */
  datatype Snapshot = Snapshot(db: Db, neighbors: N.Table)

  /** What is reported about a batch of changes. */
  datatype Report = Report(routes: Changes, neighbors: N.Changes)

  const BLANK := Snapshot(Db(map[], map[]), map[])

  ghost predicate Sane(name: string, snap: Snapshot) {
    WellFormed(snap.db) && N.UniqueAddresses(snap.neighbors) && PrefixesApart(LiveKeys(snap.db, name))
  }

  /** The MAC address and port of a neighbor row, as far as they matter. */
  ghost predicate SameRow(a: NeighborRow, b: NeighborRow) {
    NonEmpty(a.mac) == NonEmpty(b.mac) && NonEmpty(a.port) == NonEmpty(b.port)
  }

  /** A neighbor row that replaces another of the same address has its MAC address and port. */
  ghost predicate NeighborsKept(was: N.Table, now: N.Table, c: N.Changes) {
    forall u, u' :: u in now && u in c.inserted && u' in was && was[u'].ip == now[u].ip ==>
      SameRow(was[u'].row, now[u].row)
  }

  /**
  A batch the code copes with, by the database alone: the report covers it, key
  strings are distinct, no row is mistaken for another, no row is replaced under its
  key by a different one, and no prefix changes protocol in the wrong order.
  */
  ghost predicate Fair(name: string, was: Snapshot, now: Snapshot, r: Report) {
    && Sane(name, was) && Sane(name, now)
    && Reported(was.db, now.db, r.routes) && N.Reported(was.neighbors, now.neighbors, r.neighbors)
    && HashesApart(LiveKeys(was.db, name) + LiveKeys(now.db, name)) && NotMistaken(now.db, name, r.routes)
    && NoStaleReinsertion(Rebuild(was.db, name), now.db, name, r.routes)
    && NeighborsKept(was.neighbors, now.neighbors, r.neighbors)
    && Orderly(LiveKeys(was.db, name), LiveKeys(now.db, name), r.routes)
  }

  /** The VRF is as the database has it, and so is the provider. */
  ghost predicate InSync(s: L3, name: string, snap: Snapshot) {
    && Sane(name, snap) && Inv(s)
    && ViewOf(s.routes) == Rebuild(snap.db, name) && N.Mirrors(s.neighbors, snap.neighbors)
  }

  // ----- what forwards -----

  /** The `i`th nexthop row of a route row names the nexthop. */
  ghost predicate NamesAt(db: Db, u: Uuid, i: nat, nh: Nexthop) {
    && u in db.routes && i < |db.routes[u].nexthops| && db.routes[u].nexthops[i] in db.nexthops
    && L3Outcomes.RowNames(db.nexthops[db.routes[u].nexthops[i]], nh)
  }

  /** Some selected route row of the VRF for the prefix has a selected nexthop row that names the nexthop. */
  ghost predicate RowUses(db: Db, name: string, prefix: string, nh: Nexthop) {
    exists u, i: nat :: NamesAt(db, u, i, nh) &&
      db.routes[u].vrf == name && db.routes[u].selected == Some(true) && db.routes[u].key.prefix == prefix
  }

  lemma RowWants(db: Db, u: Uuid, nh: Nexthop)
    requires WellFormed(db) && u in db.routes
    ensures nh in Wanted(NexthopRows(db, u)) <==> exists i: nat :: NamesAt(db, u, i, nh)
  {
    hide Wanted;
    var ids, rows := db.routes[u].nexthops, NexthopRows(db, u);
    L3Outcomes.WantedExact(rows);
    forall i: nat | i < |ids| ensures L3Outcomes.Names(rows, i, nh) <==> NamesAt(db, u, i, nh) {
      assert ids[i] in ids;
    }
  }

  lemma RowsAreUsed(s: L3, name: string, db: Db, prefix: string, nh: Nexthop)
    requires WellFormed(db) && ViewOf(s.routes) == Rebuild(db, name)
    ensures Uses(s.routes, prefix, nh) <==> RowUses(db, name, prefix, nh)
  {
    hide Wanted, NexthopRows, Rebuild;
    var v := ViewOf(s.routes);
    RebuildKeys(db, name);
    if Uses(s.routes, prefix, nh) {
      var k :| k in s.routes && k.prefix == prefix && nh in s.routes[k];
      assert k in v && nh in v[k];
      var u := RowOf(db, name, k);
      RebuildAt(db, name, u);
      RowWants(db, u, nh);
      var i: nat :| NamesAt(db, u, i, nh);
    }
    if RowUses(db, name, prefix, nh) {
      var u, i: nat :| NamesAt(db, u, i, nh) &&
        db.routes[u].vrf == name && db.routes[u].selected == Some(true) && db.routes[u].key.prefix == prefix;
      RowWants(db, u, nh);
      RebuildAt(db, name, u);
      var k := db.routes[u].key;
      assert k in v && nh in v[k];
    }
  }

  /**
  An address forwards through an egress id exactly when a selected row uses it and
  the provider has accepted a host entry with that id; a port is programmed exactly
  when a selected row uses it; nothing else is; and host entries are of neighbor
  rows that have a MAC address.
  */
  lemma ForwardsAsConfigured(s: L3, name: string, snap: Snapshot)
    requires InSync(s, name, snap)
    ensures forall prefix, ip, egress ::
      Forwards(s.asic, prefix, ip, egress) <==>
        RowUses(snap.db, name, prefix, ByIp(ip)) && ip in s.hosts && s.hosts[ip] == egress
    ensures forall prefix, port ::
      ByPort(port) in At(s.asic, prefix) <==> RowUses(snap.db, name, prefix, ByPort(port))
    ensures forall prefix, nh :: nh in At(s.asic, prefix) ==> RowUses(snap.db, name, prefix, nh)
    ensures forall ip :: ip in s.hosts ==>
      exists u :: u in snap.neighbors && snap.neighbors[u].ip == ip && NonEmpty(snap.neighbors[u].row.mac).Some?
  {
    hide RowUses, Uses, Complete, Rebuild;
    forall prefix, nh ensures Uses(s.routes, prefix, nh) <==> RowUses(snap.db, name, prefix, nh) {
      RowsAreUsed(s, name, snap.db, prefix, nh);
    }
    forall prefix, ip, egress
      ensures Forwards(s.asic, prefix, ip, egress) <==>
        RowUses(snap.db, name, prefix, ByIp(ip)) && ip in s.hosts && s.hosts[ip] == egress
    {
      InvMeansForwarding(s, prefix, ip, egress);
    }
    forall prefix, port
      ensures ByPort(port) in At(s.asic, prefix) <==> RowUses(snap.db, name, prefix, ByPort(port))
    {
      InvMeansPorts(s, prefix, port);
    }
    forall ip | ip in s.hosts
      ensures exists u :: u in snap.neighbors && snap.neighbors[u].ip == ip && NonEmpty(snap.neighbors[u].row.mac).Some?
    {
      assert ip in s.neighbors && s.neighbors[ip].mac.Some?;
      var u :| u in snap.neighbors && snap.neighbors[u].ip == ip;
      assert N.SameAs(s.neighbors[ip], snap.neighbors[u].row);
    }
  }

  /** The same database and the same accepted host entries: the same forwarding, whatever came before. */
  lemma SameForwarding(s: L3, t: L3, name: string, snap: Snapshot)
    requires InSync(s, name, snap) && InSync(t, name, snap) && s.hosts == t.hosts
    ensures forall prefix, ip, egress ::
      Forwards(s.asic, prefix, ip, egress) <==> Forwards(t.asic, prefix, ip, egress)
    ensures forall prefix, port :: ByPort(port) in At(s.asic, prefix) <==> ByPort(port) in At(t.asic, prefix)
  {
    hide InSync, Forwards, RowUses;
    ForwardsAsConfigured(s, name, snap);
    ForwardsAsConfigured(t, name, snap);
  }

  // ----- one batch after the other -----

  lemma KeptIsFresh(cached: Neighbors, was: N.Table, now: N.Table, c: N.Changes)
    requires N.Mirrors(cached, was) && NeighborsKept(was, now, c)
    ensures N.NoStaleReinsertion(cached, now, c)
  {
    forall u | u in now && u in c.inserted && now[u].ip in cached ensures N.SameAs(cached[now[u].ip], now[u].row) {
      var u' :| u' in was && was[u'].ip == now[u].ip;
      assert N.SameAs(cached[was[u'].ip], was[u'].row) && SameRow(was[u'].row, now[u].row);
    }
  }

  /**
  A row that is new, or flagged with other columns than were cached, is done: if it
  has a MAC address that parses and a port, a host entry was asked for in this batch,
  and the host table has it with the id that was answered, or not at all if it was
  turned down.  The entry of any other row is left alone.
  */
  ghost predicate Provided(
    c: N.Changes, cached: Neighbors, vrf: Vrf, from: nat, first: nat, u: N.Uuid, d: N.DbNeighbor)
    reads vrf
  {
    && N.RowDone(c, cached, vrf.neighbors, N.Since(vrf, from, first), u, d)
    && (d.ip in vrf.hosts <==> d.ip in vrf.neighbors && vrf.neighbors[d.ip].Programmed())
    && (d.ip in vrf.hosts ==> vrf.hosts[d.ip] == vrf.neighbors[d.ip].egress)
  }

  /** The three functions bridge_reconfigure calls for a VRF. */
  method Reconfigure(vrf: Vrf, name: string, ghost was: Snapshot, now: Snapshot, r: Report)
    requires vrf.Valid() && InSync(vrf.Tables(), name, was) && Fair(name, was, now, r) && N.PortsKnown(vrf.answers)
    modifies vrf
    ensures vrf.Valid() && InSync(vrf.Tables(), name, now) && old(vrf.tried) <= vrf.tried
    ensures N.AnyChange(r.neighbors) ==>
      forall u :: u in now.neighbors ==>
        Provided(r.neighbors, old(vrf.neighbors), vrf, |old(vrf.tried)|, old(vrf.asked), u, now.neighbors[u])
  {
    hide Inv, Rebuild, HashesApart, NotMistaken, NoStaleReinsertion, Orderly, PrefixesApart, WellFormed;
    hide N.Mirrors, N.Refused, N.RowDone, N.Since, HostsAgree, Provided, Quiet, Narrow;
    KeptIsFresh(vrf.neighbors, was.neighbors, now.neighbors, r.neighbors);
    N.ReconfigureNeighbors(vrf, was.neighbors, now.neighbors, r.neighbors);
    ghost var calls := N.Calls(vrf.answers, vrf.tried, |old(vrf.tried)|, vrf.asked, old(vrf.asked));
    SinceThen(vrf, |old(vrf.tried)|, old(vrf.asked), calls);
    SyncRoutes(vrf, name, was.db, now.db, r.routes);
    HostsFollow(vrf.Tables());
    if N.AnyChange(r.neighbors) {
      SinceThen(vrf, |old(vrf.tried)|, old(vrf.asked), calls);
      forall u | u in now.neighbors
        ensures Provided(r.neighbors, old(vrf.neighbors), vrf, |old(vrf.tried)|, old(vrf.asked), u, now.neighbors[u])
      {
        RowProvided(r.neighbors, old(vrf.neighbors), vrf, |old(vrf.tried)|, old(vrf.asked), u, now.neighbors[u]);
      }
    }
  }

  lemma SinceThen(vrf: Vrf, from: nat, first: nat, calls: N.Calls)
    requires calls == N.Calls(vrf.answers, vrf.tried, from, vrf.asked, first)
    ensures N.Since(vrf, from, first) == calls
  {
  }

  lemma RowProvided(c: N.Changes, cached: Neighbors, vrf: Vrf, from: nat, first: nat, u: N.Uuid, d: N.DbNeighbor)
    requires N.RowDone(c, cached, vrf.neighbors, N.Since(vrf, from, first), u, d)
    requires HostsAgree(vrf.neighbors, vrf.hosts)
    ensures Provided(c, cached, vrf, from, first, u, d)
  {
    hide N.RowDone;
  }

  lemma HostsFollow(s: L3)
    requires Inv(s)
    ensures HostsAgree(s.neighbors, s.hosts)
  {
  }

  lemma BlankInSync(name: string)
    ensures InSync(EMPTY, name, BLANK)
  {
    var db := BLANK.db;
    assert LiveRows(db, name) == {} && LiveKeys(db, name) == {};
    RebuildKeys(db, name);
    assert Rebuild(db, name) == map[];
  }

  ghost predicate FairHistory(name: string, snaps: seq<Snapshot>, reports: seq<Report>) {
    |reports| == |snaps| && forall i :: 0 <= i < |snaps| ==> Fair(name, Before(snaps, i), snaps[i], reports[i])
  }

  /** The database before the `i`th batch. */
  function Before(snaps: seq<Snapshot>, i: nat): Snapshot
    requires i <= |snaps|
  {
    if i == 0 then BLANK else snaps[i - 1]
  }

  /** From start-up through any history of such batches the VRF is as the last database has it. */
  method Follow(name: string, snaps: seq<Snapshot>, reports: seq<Report>, answers: nat -> Answers) returns (vrf: Vrf)
    requires FairHistory(name, snaps, reports) && N.PortsKnown(answers)
    ensures vrf.Valid() && InSync(vrf.Tables(), name, Before(snaps, |snaps|))
  {
    hide InSync, Fair, N.PortsKnown;
    vrf := new Vrf(answers);
    BlankInSync(name);
    for i := 0 to |snaps|
      invariant fresh(vrf) && vrf.Valid() && vrf.answers == answers && InSync(vrf.Tables(), name, Before(snaps, i))
    {
      Reconfigure(vrf, name, Before(snaps, i), snaps[i], reports[i]);
    }
  }
}
