/**
What every interleaving of route and neighbor operations keeps, and what the
provider's tables therefore are at every moment.
*/
module L3Safety {
  import opened Common
  import opened L3Tables

  // ----- the invariant -----

  /** The provider is told only the prefix, so two cached routes may not share one. */
  ghost predicate OnePerPrefix(routes: Routes) {
    forall k, k' :: k in routes && k' in routes && k.prefix == k'.prefix ==> k == k'
  }

  /** A strong nexthop is programmed with its state; a weak one at most as unresolved. */
  ghost predicate EntryOk(neighbors: Neighbors, nh: Nexthop, programmed: Programming) {
    if Strong(neighbors, nh) then nh in programmed && programmed[nh] == StateOf(neighbors, nh)
    else nh in programmed ==> programmed[nh] == Unresolved
  }

  ghost predicate Complete(s: L3) {
    forall k, nh :: k in s.routes && nh in s.routes[k] ==> EntryOk(s.neighbors, nh, At(s.asic, k.prefix))
  }

  ghost predicate Uses(routes: Routes, prefix: string, nh: Nexthop) {
    exists k :: k in routes && k.prefix == prefix && nh in routes[k]
  }

  ghost predicate Sound(routes: Routes, asic: Asic) {
    forall p, nh :: p in asic && nh in asic[p] ==> Uses(routes, p, nh)
  }

  ghost predicate HostsAgree(neighbors: Neighbors, hosts: map<string, int>) {
    && (forall ip :: ip in hosts <==> ip in neighbors && neighbors[ip].Programmed())
    && (forall ip :: ip in hosts ==> hosts[ip] == neighbors[ip].egress)
  }

  ghost predicate NeighborsOk(neighbors: Neighbors) {
    forall ip :: ip in neighbors ==>
      var n := neighbors[ip];
      n.egress == -1 || (n.Programmed() && n.mac.Some? && n.port.Some?)
  }

  ghost predicate Inv(s: L3) {
    && OnePerPrefix(s.routes)
    && Complete(s)
    && Sound(s.routes, s.asic)
    && HostsAgree(s.neighbors, s.hosts)
    && NeighborsOk(s.neighbors)
  }

  // ----- runs -----

  datatype Op =
    | RouteAdded(k: RouteKey, rows: seq<NexthopRow>)
    | RouteModified(k: RouteKey, rows: seq<NexthopRow>)
    | RouteDeleted(k: RouteKey)
    | NeighborCreated(ip: string, row: NeighborRow, a: Answers)
    | NeighborModified(ip: string, row: NeighborRow, a: Answers)
    | NeighborDeleted(ip: string, a: Answers)

  ghost predicate PrefixFree(routes: Routes, prefix: string) {
    forall k :: k in routes ==> k.prefix != prefix
  }

  /** What the callers look up before each operation, one protocol for each prefix at a time,
      and the port of a programmed neighbor still being there. */
  ghost predicate Enabled(s: L3, op: Op) {
    match op
    case RouteAdded(k, _) => PrefixFree(s.routes, k.prefix)
    case RouteModified(k, _) => k in s.routes
    case RouteDeleted(k) => k in s.routes
    case NeighborCreated(ip, _, _) => ip !in s.neighbors
    case NeighborModified(ip, _, a) =>
      ip in s.neighbors && (s.neighbors[ip].Programmed() ==> a.oldPortKnown)
    case NeighborDeleted(ip, a) =>
      ip in s.neighbors && (s.neighbors[ip].Programmed() ==> a.oldPortKnown)
  }

  ghost function Apply(s: L3, op: Op): L3
    requires Enabled(s, op)
  {
    match op
    case RouteAdded(k, rows) => AddRoute(s, k, rows)
    case RouteModified(k, rows) => ModifyRoute(s, k, rows)
    case RouteDeleted(k) => DeleteRoute(s, k)
    case NeighborCreated(ip, row, a) => CreateNeighbor(s, ip, row, a)
    case NeighborModified(ip, row, a) => ModifyNeighbor(s, ip, row, a)
    case NeighborDeleted(ip, a) => DeleteNeighbor(s, ip, a)
  }

  /** `ops` leads from `s` to `t`. */
  ghost predicate Run(s: L3, ops: seq<Op>, t: L3)
    decreases |ops|
  {
    if ops == [] then s == t
    else Enabled(s, ops[0]) && Run(Apply(s, ops[0]), ops[1..], t)
  }

  // ----- each operation keeps the invariant -----

  /** A first batch holds only nexthops of the row, and is right for each of them. */
  lemma FirstBatchOk(neighbors: Neighbors, rows: seq<NexthopRow>)
    ensures forall nh :: nh in Wanted(rows) ==> EntryOk(neighbors, nh, FirstBatch(neighbors, rows))
    ensures forall nh :: nh in FirstBatch(neighbors, rows) ==>
      nh in Wanted(rows) && FirstBatch(neighbors, rows)[nh] == StateOf(neighbors, nh)
  {
    var strong := StrongStates(neighbors, Wanted(rows));
    if strong == map[] && UsableKeys(rows) != [] {
      assert forall nh :: nh in Wanted(rows) ==> nh in strong || !Strong(neighbors, nh);
      assert UsableKeys(rows)[0] in Wanted(rows);
    }
  }

  /** `batch` suits a route with the nexthops `have`. */
  ghost predicate Suits(neighbors: Neighbors, have: multiset<Nexthop>, batch: Programming) {
    && (forall nh :: nh in have ==> EntryOk(neighbors, nh, batch))
    && (forall nh :: nh in batch ==> nh in have && batch[nh] == StateOf(neighbors, nh))
  }

  lemma FirstBatchSuits(neighbors: Neighbors, rows: seq<NexthopRow>)
    ensures Suits(neighbors, multiset(UsableKeys(rows)), FirstBatch(neighbors, rows))
  {
    FirstBatchOk(neighbors, rows);
    assert forall nh :: nh in multiset(UsableKeys(rows)) <==> nh in Wanted(rows);
  }

  lemma AddRouteKeeps(s: L3, k: RouteKey, rows: seq<NexthopRow>)
    requires Inv(s) && PrefixFree(s.routes, k.prefix)
    ensures Inv(AddRoute(s, k, rows))
  {
    FirstBatchSuits(s.neighbors, rows);
    AddKeeps(s, k, multiset(UsableKeys(rows)), FirstBatch(s.neighbors, rows));
  }

  lemma AddKeeps(s: L3, k: RouteKey, have: multiset<Nexthop>, batch: Programming)
    requires Inv(s) && PrefixFree(s.routes, k.prefix) && Suits(s.neighbors, have, batch)
    ensures Inv(s.(routes := s.routes[k := have], asic := Program(s.asic, k.prefix, batch)))
  {
    hide Complete, Sound, HostsAgree, NeighborsOk, EntryOk, Program;
    var t := s.(routes := s.routes[k := have], asic := Program(s.asic, k.prefix, batch));
    NothingProgrammed(s, k.prefix);
    ProgramFree(s.asic, k.prefix, batch);
    assert t.routes - {k} == s.routes - {k};
    RouteReplaced(s, t, k);
  }

  lemma ProgramFree(asic: Asic, p: string, batch: Programming)
    requires At(asic, p) == map[]
    ensures At(Program(asic, p, batch), p) == batch && Program(asic, p, batch) - {p} == asic - {p}
  {
    assert map[] + batch == batch;
  }

  /** Replacing one route and its programming keeps the others right. */
  lemma RouteReplaced(s: L3, t: L3, k: RouteKey)
    requires Inv(s) && k in t.routes
    requires t.routes - {k} == s.routes - {k} && OnePerPrefix(t.routes)
    requires t.asic - {k.prefix} == s.asic - {k.prefix}
    requires t.neighbors == s.neighbors && t.hosts == s.hosts
    requires forall nh :: nh in t.routes[k] ==> EntryOk(t.neighbors, nh, At(t.asic, k.prefix))
    requires forall nh :: nh in At(t.asic, k.prefix) ==> nh in t.routes[k]
    ensures Inv(t)
  {
    forall k', nh | k' in t.routes && nh in t.routes[k'] && k' != k
      ensures EntryOk(t.neighbors, nh, At(t.asic, k'.prefix))
    {
      assert k' in t.routes - {k} && (t.routes - {k})[k'] == (s.routes - {k})[k'];
      SameProgramming(s.asic, t.asic, k.prefix, k'.prefix);
      assert EntryOk(s.neighbors, nh, At(s.asic, k'.prefix));
    }
    forall p, nh | p in t.asic && nh in t.asic[p] ensures Uses(t.routes, p, nh) {
      if p == k.prefix {
        assert nh in t.routes[k];
      } else {
        SameProgramming(s.asic, t.asic, k.prefix, p);
        var k' :| k' in s.routes && k'.prefix == p && nh in s.routes[k'];
        assert k' in s.routes - {k} && (t.routes - {k})[k'] == (s.routes - {k})[k'];
      }
    }
  }

  lemma SameProgramming(a: Asic, b: Asic, changed: string, p: string)
    requires a - {changed} == b - {changed} && p != changed
    ensures At(a, p) == At(b, p) && (p in a <==> p in b)
  {
    assert (p in a - {changed}) == (p in b - {changed});
    if p in a { assert (a - {changed})[p] == (b - {changed})[p]; }
  }

  lemma NothingProgrammed(s: L3, prefix: string)
    requires Sound(s.routes, s.asic) && PrefixFree(s.routes, prefix)
    ensures At(s.asic, prefix) == map[]
  {
    assert forall nh :: nh in At(s.asic, prefix) ==> Uses(s.routes, prefix, nh);
  }

  lemma DeleteRouteKeeps(s: L3, k: RouteKey)
    requires Inv(s) && k in s.routes
    ensures Inv(DeleteRoute(s, k))
  {
    var t := DeleteRoute(s, k);
    forall p, nh | p in t.asic && nh in t.asic[p] ensures Uses(t.routes, p, nh) {
      var k' :| k' in s.routes && k'.prefix == p && nh in s.routes[k'];
      assert k' in t.routes;
    }
  }

  lemma ModifyRouteKeeps(s: L3, k: RouteKey, rows: seq<NexthopRow>)
    requires Inv(s) && k in s.routes
    ensures Inv(ModifyRoute(s, k, rows))
  {
    var t := ModifyRoute(s, k, rows);
    OnlyOwnNexthops(s, k);
    assert forall nh :: nh in s.routes[k] ==> EntryOk(s.neighbors, nh, At(s.asic, k.prefix));
    ModifiedEntries(s.neighbors, s.routes[k], Wanted(rows), At(s.asic, k.prefix), |rows| > 1);
    ModifiedCache(s, k, rows);
    ModifiedProgramming(s, k, rows);
    RouteReplaced(s, t, k);
  }

  lemma ModifiedEntries(
      neighbors: Neighbors, have: multiset<Nexthop>, want: set<Nexthop>, before: Programming, ecmp: bool)
    requires forall nh :: nh in have ==> EntryOk(neighbors, nh, before)
    requires forall nh :: nh in before ==> nh in have
    ensures
      var after := before - Gone(have, want) + AddedBatch(neighbors, Extra(have, want), ecmp);
      && (forall nh :: nh in want ==> EntryOk(neighbors, nh, after))
      && (forall nh :: nh in after ==> nh in want)
  {
  }

  /** What a modification leaves cached and programmed. */
  lemma ModifiedCache(s: L3, k: RouteKey, rows: seq<NexthopRow>)
    requires k in s.routes
    ensures
      var t := ModifyRoute(s, k, rows);
      && (forall nh :: nh in t.routes[k] <==> nh in Wanted(rows))
      && t.routes - {k} == s.routes - {k}
  {
  }

  lemma ModifiedProgramming(s: L3, k: RouteKey, rows: seq<NexthopRow>)
    requires k in s.routes
    ensures
      var t := ModifyRoute(s, k, rows);
      && t.asic - {k.prefix} == s.asic - {k.prefix}
      && At(t.asic, k.prefix) == At(s.asic, k.prefix) - Gone(s.routes[k], Wanted(rows))
           + AddedBatch(s.neighbors, Extra(s.routes[k], Wanted(rows)), |rows| > 1)
  {
    var batch := AddedBatch(s.neighbors, Extra(s.routes[k], Wanted(rows)), |rows| > 1);
    ReplacedProgramming(s.asic, k.prefix, Gone(s.routes[k], Wanted(rows)), batch);
  }

  lemma ReplacedProgramming(asic: Asic, prefix: string, gone: set<Nexthop>, batch: Programming)
    ensures
      var after := Program(Unprogram(asic, prefix, gone), prefix, batch);
      && after - {prefix} == asic - {prefix}
      && At(after, prefix) == At(asic, prefix) - gone + batch
  {
  }

  lemma OnlyOwnNexthops(s: L3, k: RouteKey)
    requires Inv(s) && k in s.routes
    ensures forall nh :: nh in At(s.asic, k.prefix) ==> nh in s.routes[k]
  {
    forall nh | nh in At(s.asic, k.prefix) ensures nh in s.routes[k] {
      assert Uses(s.routes, k.prefix, nh);
    }
  }

  /** Changing the state of one neighbor's address in all its users keeps the routes right. */
  lemma RetargetKeeps(s: L3, neighbors: Neighbors, ip: string, state: NhState)
    requires OnePerPrefix(s.routes) && Complete(s) && Sound(s.routes, s.asic)
    requires neighbors - {ip} == s.neighbors - {ip}
    requires state == StateOf(neighbors, ByIp(ip))
    ensures Complete(s.(neighbors := neighbors, asic := Retarget(s.asic, Users(s.routes, ip), ip, state)))
    ensures Sound(s.routes, Retarget(s.asic, Users(s.routes, ip), ip, state))
  {
    var asic := Retarget(s.asic, Users(s.routes, ip), ip, state);
    SameStates(s.neighbors, neighbors, ip);
    forall k, nh | k in s.routes && nh in s.routes[k] ensures EntryOk(neighbors, nh, At(asic, k.prefix)) {
      assert nh == ByIp(ip) ==> k.prefix in Users(s.routes, ip);
      assert nh != ByIp(ip) ==> EntryOk(s.neighbors, nh, At(s.asic, k.prefix));
    }
    forall p, nh | p in asic && nh in asic[p] ensures Uses(s.routes, p, nh) {
      if nh == ByIp(ip) && p in Users(s.routes, ip) {
        var k :| k in s.routes && ByIp(ip) in s.routes[k] && k.prefix == p;
      } else {
        assert p in s.asic && nh in s.asic[p];
      }
    }
  }

  lemma SameElsewhere(a: Neighbors, b: Neighbors, ip: string)
    requires a - {ip} == b - {ip}
    ensures forall x :: x != ip ==> (x in b <==> x in a)
    ensures forall x :: x != ip && x in a ==> b[x] == a[x]
  {
    forall x | x != ip ensures (x in b <==> x in a) && (x in a ==> b[x] == a[x]) {
      assert (x in a - {ip}) == (x in b - {ip});
      if x in a { assert (a - {ip})[x] == (b - {ip})[x]; }
    }
  }

  lemma SameStates(a: Neighbors, b: Neighbors, ip: string)
    requires a - {ip} == b - {ip}
    ensures forall nh :: nh != ByIp(ip) ==> Strong(a, nh) == Strong(b, nh) && StateOf(a, nh) == StateOf(b, nh)
  {
    SameElsewhere(a, b, ip);
  }

  /** A neighbor that was unresolved and stays so leaves the routes right. */
  lemma StillUnresolved(s: L3, neighbors: Neighbors, ip: string)
    requires Complete(s)
    requires neighbors - {ip} == s.neighbors - {ip}
    requires !IsResolved(s.neighbors, ip) && !IsResolved(neighbors, ip)
    ensures Complete(s.(neighbors := neighbors))
  {
    SameStates(s.neighbors, neighbors, ip);
    forall k, nh | k in s.routes && nh in s.routes[k] ensures EntryOk(neighbors, nh, At(s.asic, k.prefix)) {
      assert EntryOk(s.neighbors, nh, At(s.asic, k.prefix));
    }
  }

  /** From an unprogrammed entry, programming it or giving it up keeps the invariant. */
  lemma ProgramHostKeeps(s: L3, ip: string, a: Answers)
    requires Inv(s) && ip in s.neighbors
    requires s.neighbors[ip].egress == -1 && s.neighbors[ip].mac.Some? && s.neighbors[ip].port.Some?
    ensures Inv(ProgramHost(s, ip, a))
  {
    var t := ProgramHost(s, ip, a);
    if a.newPortKnown && a.added.Some? {
      RetargetKeeps(s, t.neighbors, ip, Resolved(a.added.value));
    } else {
      StillUnresolved(s, t.neighbors, ip);
    }
  }

  lemma UnprogrammedEntryKeeps(s: L3, ip: string, n: Neighbor)
    requires Inv(s) && !IsResolved(s.neighbors, ip) && n.egress == -1
    ensures Inv(s.(neighbors := s.neighbors[ip := n]))
  {
    StillUnresolved(s, s.neighbors[ip := n], ip);
  }

  lemma CreateNeighborKeeps(s: L3, ip: string, row: NeighborRow, a: Answers)
    requires Inv(s) && ip !in s.neighbors
    ensures Inv(CreateNeighbor(s, ip, row, a))
  {
    var n := Neighbor(NonEmpty(row.mac), NonEmpty(row.port), -1);
    UnprogrammedEntryKeeps(s, ip, n);
    if n.mac.Some? && n.port.Some? && a.macParses {
      ProgramHostKeeps(s.(neighbors := s.neighbors[ip := n]), ip, a);
    }
  }

  /** Unresolving the users of a programmed neighbor and dropping its host entry. */
  lemma DropHostKeeps(s: L3, ip: string, a: Answers)
    requires Inv(s) && ip in s.neighbors && a.oldPortKnown
    ensures Inv(DropHost(Unresolve(s, ip), ip, a))
  {
    RetargetKeeps(s, s.neighbors[ip := s.neighbors[ip].(egress := -1)], ip, Unresolved);
  }

  lemma DeleteNeighborKeeps(s: L3, ip: string, a: Answers)
    requires Inv(s) && ip in s.neighbors
    requires s.neighbors[ip].Programmed() ==> a.oldPortKnown
    ensures Inv(DeleteNeighbor(s, ip, a))
  {
    var t := DeleteNeighbor(s, ip, a);
    assert t.neighbors == s.neighbors - {ip};
    RetargetKeeps(s, t.neighbors, ip, Unresolved);
    assert t.hosts == s.hosts - {ip};
  }

  lemma ModifyNeighborKeeps(s: L3, ip: string, row: NeighborRow, a: Answers)
    requires Inv(s) && ip in s.neighbors
    requires s.neighbors[ip].Programmed() ==> a.oldPortKnown
    ensures Inv(ModifyNeighbor(s, ip, row, a))
  {
    hide Complete, Sound, OnePerPrefix, HostsAgree, ProgramHost, Retarget;
    var n, mac := s.neighbors[ip], NonEmpty(row.mac);
    var portChanged := n.port.Some? && row.port != n.port;
    var macChanged := n.mac.Some? && mac != n.mac;
    if n.egress != -1 {
      if portChanged || macChanged {
        DropHostKeeps(s, ip, a);
        ReprogramKeeps(DropHost(Unresolve(s, ip), ip, a), ip, row, a);
      } else {
        assert n == n.(mac := mac, port := row.port);
        assert ModifyNeighbor(s, ip, row, a) == s;
      }
    } else {
      ReprogramKeeps(s, ip, row, a);
    }
  }

  /** The second half of a modification, on an entry that is not programmed any more. */
  lemma ReprogramKeeps(s: L3, ip: string, row: NeighborRow, a: Answers)
    requires Inv(s) && ip in s.neighbors && s.neighbors[ip].egress == -1
    ensures
      var n' := s.neighbors[ip].(mac := NonEmpty(row.mac), port := row.port);
      var t := s.(neighbors := s.neighbors[ip := n']);
      Inv(t) && (n'.mac.Some? && n'.port.Some? ==> Inv(ProgramHost(t, ip, a)))
  {
    var n' := s.neighbors[ip].(mac := NonEmpty(row.mac), port := row.port);
    UnprogrammedEntryKeeps(s, ip, n');
    if n'.mac.Some? && n'.port.Some? {
      ProgramHostKeeps(s.(neighbors := s.neighbors[ip := n']), ip, a);
    }
  }

  lemma StepKeeps(s: L3, op: Op)
    requires Inv(s) && Enabled(s, op)
    ensures Inv(Apply(s, op))
  {
    match op
    case RouteAdded(k, rows) => AddRouteKeeps(s, k, rows);
    case RouteModified(k, rows) => ModifyRouteKeeps(s, k, rows);
    case RouteDeleted(k) => DeleteRouteKeeps(s, k);
    case NeighborCreated(ip, row, a) => CreateNeighborKeeps(s, ip, row, a);
    case NeighborModified(ip, row, a) => ModifyNeighborKeeps(s, ip, row, a);
    case NeighborDeleted(ip, a) => DeleteNeighborKeeps(s, ip, a);
  }

  lemma {:induction false} RunKeeps(s: L3, ops: seq<Op>, t: L3)
    requires Inv(s) && Run(s, ops, t)
    ensures Inv(t)
    decreases |ops|
  {
    if ops != [] {
      StepKeeps(s, ops[0]);
      RunKeeps(Apply(s, ops[0]), ops[1..], t);
    }
  }
}
