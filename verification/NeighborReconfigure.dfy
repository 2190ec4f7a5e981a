/**
vrf_reconfigure_neighbors (src/bridge.c): the neighbor cache brought into line
with the Neighbor table from change flags, while the provider may refuse any
host entry.
*/
module NeighborReconfigure {
  import opened Common
  import opened L3Tables
  import opened L3Safety
  import opened L3Engine
  import L3Outcomes

  type Uuid = nat

  datatype DbNeighbor = DbNeighbor(ip: string, row: NeighborRow)

  /** The rows of the one VRF. */
  type Table = map<Uuid, DbNeighbor>

  datatype Changes = Changes(inserted: set<Uuid>, modified: set<Uuid>, anyDeleted: bool)

  ghost predicate UniqueAddresses(t: Table) {
    forall u, u' :: u in t && u' in t && t[u].ip == t[u'].ip ==> u == u'
  }

  function Addresses(t: Table): set<string> {
    set u | u in t :: t[u].ip
  }

  /** The flags cover the difference between two tables. */
  ghost predicate Reported(was: Table, now: Table, c: Changes) {
    && c.inserted == now.Keys - was.Keys
    && (c.anyDeleted <==> was.Keys - now.Keys != {})
    && (forall u :: u in was && u in now ==>
          was[u].ip == now[u].ip && (was[u] != now[u] ==> u in c.modified))
  }

  /** The cached entry has the MAC address and port of the row; an empty string is as good as none. */
  predicate SameAs(n: Neighbor, row: NeighborRow) {
    n.mac == NonEmpty(row.mac) && NonEmpty(n.port) == NonEmpty(row.port)
  }

  /** Every cached neighbor is in the table, with its MAC address and port. */
  ghost predicate Mirrors(neighbors: Neighbors, t: Table) {
    && neighbors.Keys <= Addresses(t)
    && forall u :: u in t && t[u].ip in neighbors ==> SameAs(neighbors[t[u].ip], t[u].row)
  }

  /** A row inserted in this batch for an address that was cached has what is cached. */
  ghost predicate NoStaleReinsertion(neighbors: Neighbors, t: Table, c: Changes) {
    forall u :: u in t && u in c.inserted && t[u].ip in neighbors ==> SameAs(neighbors[t[u].ip], t[u].row)
  }

  // ----- single operations -----

  /** Whether an attempt to program a host entry goes through. */
  predicate Accepts(a: Answers) { a.newPortKnown && a.added.Some? }

  /** All cached entries but that of `ip` are the same. */
  ghost predicate OnlyAt(ip: string, before: Neighbors, after: Neighbors) {
    after - {ip} == before - {ip}
  }

  /** The lookup of a port an entry was programmed on never fails. */
  ghost predicate PortsKnown(answers: nat -> Answers) {
    forall i :: answers(i).oldPortKnown
  }

  /** The attempt was for the row, with its MAC address and port, and was turned down. */
  ghost predicate TurnedDown(answers: nat -> Answers, at: Attempt, d: DbNeighbor) {
    && at.ip == d.ip && NonEmpty(d.row.mac) == Some(at.mac) && d.row.port == Some(at.port)
    && answers(at.number).macParses && !Accepts(answers(at.number))
  }

  /** Some attempt from the `from`th on was for the row and was turned down. */
  ghost predicate Refused(answers: nat -> Answers, tried: seq<Attempt>, from: nat, d: DbNeighbor) {
    exists k :: from <= k < |tried| && TurnedDown(answers, tried[k], d)
  }

  lemma StillRefused(answers: nat -> Answers, tried: seq<Attempt>, more: seq<Attempt>, from: nat, d: DbNeighbor)
    requires tried <= more && Refused(answers, tried, from, d)
    ensures Refused(answers, more, from, d)
  {
    var k :| from <= k < |tried| && TurnedDown(answers, tried[k], d);
    assert more[k] == tried[k];
  }

  method Drop(vrf: Vrf, ip: string)
    requires vrf.Valid() && ip in vrf.neighbors
    modifies vrf
    ensures vrf.Valid() && vrf.neighbors == old(vrf.neighbors) - {ip} && vrf.routes == old(vrf.routes)
    ensures vrf.tried == old(vrf.tried) && vrf.asked == old(vrf.asked) + 1
    ensures old(Inv(vrf.Tables())) && PortsKnown(vrf.answers) ==> Inv(vrf.Tables())
  {
    hide Inv, IndexAgrees, InTurn;
    if Inv(vrf.Tables()) && PortsKnown(vrf.answers) {
      DeleteNeighborKeeps(vrf.Tables(), ip, vrf.answers(vrf.asked));
    }
    vrf.NeighborDelete(ip);
  }

  /** The row has a MAC address and a port. */
  predicate Full(row: NeighborRow) {
    NonEmpty(row.mac).Some? && NonEmpty(row.port).Some?
  }

  /** What the answers to an operation make of the entry of a full row. */
  ghost predicate AsAnswered(neighbors: Neighbors, ip: string, a: Answers) {
    if a.macParses && !Accepts(a) then ip !in neighbors
    else ip in neighbors && (a.macParses ==> neighbors[ip].egress == a.added.value)
  }

  /** What an operation for `row` leaves of the cache, the entry being as the row has it unless it was turned down. */
  ghost predicate Entered(s: L3, t: L3, d: DbNeighbor, a: Answers, tries: bool) {
    && t.routes == s.routes && OnlyAt(d.ip, s.neighbors, t.neighbors)
    && (if d.ip in t.neighbors then SameAs(t.neighbors[d.ip], d.row)
        else tries && NonEmpty(d.row.mac).Some? && d.row.port.Some? && a.macParses && !Accepts(a))
    && (Full(d.row) ==> (tries <==> a.macParses) && AsAnswered(t.neighbors, d.ip, a))
  }

  lemma Created(s: L3, d: DbNeighbor, a: Answers)
    ensures Entered(s, CreateNeighbor(s, d.ip, d.row, a), d, a, CreateTries(d.row, a))
  {
  }

  lemma Modified(s: L3, d: DbNeighbor, a: Answers)
    requires d.ip in s.neighbors && L3Outcomes.Differs(s.neighbors[d.ip], d.row)
    ensures Entered(s, ModifyNeighbor(s, d.ip, d.row, a), d, a, ModifyTries(s.neighbors[d.ip], d.row, a))
  {
  }

  /** The row is cached as it stands, or programming it was attempted and refused. */
  ghost predicate Settled(
    answers: nat -> Answers, neighbors: Neighbors, d: DbNeighbor, tried: seq<Attempt>, from: nat)
  {
    if d.ip in neighbors then SameAs(neighbors[d.ip], d.row) else Refused(answers, tried, from, d)
  }

  lemma LastRefused(answers: nat -> Answers, tried: seq<Attempt>, d: DbNeighbor, number: nat)
    requires NonEmpty(d.row.mac).Some? && d.row.port.Some?
    requires answers(number).macParses && !Accepts(answers(number))
    ensures
      var at := Attempt(d.ip, d.row.mac.value, d.row.port.value, number);
      forall from :: 0 <= from <= |tried| ==> Refused(answers, tried + [at], from, d)
  {
    var at := Attempt(d.ip, d.row.mac.value, d.row.port.value, number);
    assert (tried + [at])[|tried|] == at && TurnedDown(answers, at, d);
  }

  /** What was asked in this call: the attempts from the `from`th, the operations from the `first` on. */
  datatype Calls = Calls(answers: nat -> Answers, tried: seq<Attempt>, from: nat, asked: nat, first: nat)

  ghost function Since(vrf: Vrf, from: nat, first: nat): Calls
    reads vrf
  {
    Calls(vrf.answers, vrf.tried, from, vrf.asked, first)
  }

  ghost predicate Later(c: Calls, c': Calls) {
    c' == c.(tried := c'.tried, asked := c'.asked) && c.tried <= c'.tried && c.asked <= c'.asked
  }

  ghost predicate Attempted(c: Calls, at: Attempt) {
    exists k :: c.from <= k < |c.tried| && c.tried[k] == at
  }

  /** The operation with this number was for the row, and the entry is as it was answered. */
  ghost predicate ServedBy(c: Calls, neighbors: Neighbors, d: DbNeighbor, number: nat) {
    && c.first <= number < c.asked && AsAnswered(neighbors, d.ip, c.answers(number))
    && (c.answers(number).macParses ==>
          Full(d.row) && Attempted(c, Attempt(d.ip, d.row.mac.value, d.row.port.value, number)))
  }

  /**
  The row is cached as it stands, or programming it was attempted and refused.  If
  it has a MAC address that parses and a port, a host entry with these was asked of
  the provider; it is cached if that was accepted, with the id that was answered.
  */
  ghost predicate Done(c: Calls, neighbors: Neighbors, d: DbNeighbor) {
    && Settled(c.answers, neighbors, d, c.tried, c.from)
    && (Full(d.row) ==> exists number: nat :: ServedBy(c, neighbors, d, number))
  }

  lemma StillDone(c: Calls, c': Calls, before: Neighbors, after: Neighbors, d: DbNeighbor)
    requires Done(c, before, d) && Same(d.ip, before, after) && Later(c, c')
    ensures Done(c', after, d)
  {
    if d.ip !in before {
      StillRefused(c.answers, c.tried, c'.tried, c.from, d);
    }
    if Full(d.row) {
      var number: nat :| ServedBy(c, before, d, number);
      if c.answers(number).macParses {
        var at := Attempt(d.ip, d.row.mac.value, d.row.port.value, number);
        var k :| c.from <= k < |c.tried| && c.tried[k] == at;
        assert c'.tried[k] == at;
      }
      assert ServedBy(c', after, d, number);
    }
  }

  /** The last operation was for the row. */
  lemma JustDone(c: Calls, tried: seq<Attempt>, s: L3, t: L3, d: DbNeighbor, tries: bool)
    requires c.first < c.asked && c.from <= |tried| && Entered(s, t, d, c.answers(c.asked - 1), tries)
    requires tries ==> d.row.mac.Some? && d.row.port.Some?
    requires c.tried == tried +
      if tries then [Attempt(d.ip, d.row.mac.value, d.row.port.value, c.asked - 1)] else []
    ensures Done(c, t.neighbors, d)
  {
    hide Refused, SameAs, Accepts;
    var number := c.asked - 1;
    if d.ip !in t.neighbors {
      LastRefused(c.answers, tried, d, number);
    }
    if Full(d.row) {
      if c.answers(number).macParses {
        assert c.tried[|tried|] == Attempt(d.ip, d.row.mac.value, d.row.port.value, number);
      }
      assert ServedBy(c, t.neighbors, d, number);
    }
  }

  method Create(vrf: Vrf, d: DbNeighbor, ghost from: nat, ghost first: nat)
    requires vrf.Valid() && d.ip !in vrf.neighbors && from <= |vrf.tried| && first <= vrf.asked
    modifies vrf
    ensures vrf.Valid() && vrf.routes == old(vrf.routes) && Later(old(Since(vrf, from, first)), Since(vrf, from, first))
    ensures old(Inv(vrf.Tables())) ==> Inv(vrf.Tables())
    ensures OnlyAt(d.ip, old(vrf.neighbors), vrf.neighbors)
    ensures Done(Since(vrf, from, first), vrf.neighbors, d)
  {
    hide Inv, CreateNeighbor, IndexAgrees, InTurn, OnlyAt, SameAs, Refused, Accepts, AsAnswered, Done;
    ghost var s, a := vrf.Tables(), vrf.answers(vrf.asked);
    Created(s, d, a);
    if Inv(s) {
      CreateNeighborKeeps(s, d.ip, d.row, a);
    }
    vrf.NeighborCreate(d.ip, d.row);
    JustDone(Since(vrf, from, first), old(vrf.tried), s, vrf.Tables(), d, CreateTries(d.row, a));
  }

  method Modify(vrf: Vrf, d: DbNeighbor, ghost from: nat, ghost first: nat)
    requires vrf.Valid() && d.ip in vrf.neighbors && from <= |vrf.tried| && first <= vrf.asked
    modifies vrf
    ensures vrf.Valid() && vrf.routes == old(vrf.routes) && Later(old(Since(vrf, from, first)), Since(vrf, from, first))
    ensures old(Inv(vrf.Tables())) && PortsKnown(vrf.answers) ==> Inv(vrf.Tables())
    ensures OnlyAt(d.ip, old(vrf.neighbors), vrf.neighbors)
    ensures
      if L3Outcomes.Differs(old(vrf.neighbors)[d.ip], d.row) then Done(Since(vrf, from, first), vrf.neighbors, d)
      else vrf.Tables() == old(vrf.Tables())
  {
    hide Inv, ModifyNeighbor, IndexAgrees, InTurn, OnlyAt, SameAs, Refused, Accepts, AsAnswered, Done;
    hide L3Outcomes.Differs;
    ghost var s, a := vrf.Tables(), vrf.answers(vrf.asked);
    if Inv(s) && PortsKnown(vrf.answers) {
      ModifyNeighborKeeps(s, d.ip, d.row, a);
    }
    vrf.NeighborModify(d.ip, d.row);
    if L3Outcomes.Differs(s.neighbors[d.ip], d.row) {
      Modified(s, d, a);
      JustDone(Since(vrf, from, first), old(vrf.tried), s, vrf.Tables(), d, ModifyTries(s.neighbors[d.ip], d.row, a));
    } else {
      L3Outcomes.UnchangedNeighbor(s, d.ip, d.row, a);
      Nowhere(d.ip, s.neighbors);
    }
  }

  lemma Nowhere(ip: string, neighbors: Neighbors)
    ensures OnlyAt(ip, neighbors, neighbors)
  {
  }

  // ----- the passes -----

  function Only(neighbors: Neighbors, ips: set<string>): Neighbors {
    map ip | ip in neighbors && ip in ips :: neighbors[ip]
  }

  method DeletePass(vrf: Vrf, t: Table)
    requires vrf.Valid()
    modifies vrf
    ensures vrf.Valid() && vrf.routes == old(vrf.routes) && vrf.tried == old(vrf.tried) && vrf.asked >= old(vrf.asked)
    ensures old(Inv(vrf.Tables())) && PortsKnown(vrf.answers) ==> Inv(vrf.Tables())
    ensures vrf.neighbors == Only(old(vrf.neighbors), Addresses(t))
  {
    hide Inv, PortsKnown;
    var current := Addresses(t);
    var todo := vrf.neighbors.Keys;
    ghost var before := vrf.neighbors;
    while todo != {}
      invariant vrf.Valid() && vrf.routes == old(vrf.routes)
      invariant vrf.tried == old(vrf.tried) && vrf.asked >= old(vrf.asked)
      invariant old(Inv(vrf.Tables())) && PortsKnown(vrf.answers) ==> Inv(vrf.Tables())
      invariant todo <= before.Keys && vrf.neighbors == Only(before, todo + current)
    {
      var ip :| ip in todo;
      todo := todo - {ip};
      if ip !in current {
        Drop(vrf, ip);
      }
    }
  }

  ghost predicate Same(ip: string, before: Neighbors, after: Neighbors) {
    (ip in after <==> ip in before) && (ip in before ==> after[ip] == before[ip])
  }

  /** What was cached stays; every other row is settled. */
  ghost predicate Added(t: Table, before: Neighbors, after: Neighbors, c: Calls) {
    forall u :: u in t ==> if t[u].ip in before then Same(t[u].ip, before, after) else Done(c, after, t[u])
  }

  /** How far AddPass has come. */
  ghost predicate Adding(t: Table, todo: set<Uuid>, before: Neighbors, now: Neighbors, c: Calls) {
    && now.Keys <= Addresses(t)
    && forall u :: u in t ==>
         if t[u].ip in before || u in todo then Same(t[u].ip, before, now) else Done(c, now, t[u])
  }

  lemma AddingStep(
      t: Table, todo: set<Uuid>, u: Uuid, before: Neighbors, prev: Neighbors, now: Neighbors, c: Calls, c': Calls)
    requires UniqueAddresses(t) && u in t && u in todo && t[u].ip !in prev
    requires Adding(t, todo, before, prev, c) && OnlyAt(t[u].ip, prev, now)
    requires Later(c, c') && Done(c', now, t[u])
    ensures Adding(t, todo - {u}, before, now, c')
  {
    hide Done;
    SameElsewhere(prev, now, t[u].ip);
    assert t[u].ip in Addresses(t);
    forall v | v in t && v != u && Done(c, prev, t[v]) ensures Done(c', now, t[v]) {
      StillDone(c, c', prev, now, t[v]);
    }
  }

  method AddPass(vrf: Vrf, t: Table, ghost from: nat, ghost first: nat)
    requires vrf.Valid() && UniqueAddresses(t) && vrf.neighbors.Keys <= Addresses(t)
    requires from <= |vrf.tried| && first <= vrf.asked
    modifies vrf
    ensures vrf.Valid() && vrf.routes == old(vrf.routes) && vrf.neighbors.Keys <= Addresses(t)
    ensures old(Inv(vrf.Tables())) ==> Inv(vrf.Tables())
    ensures Later(old(Since(vrf, from, first)), Since(vrf, from, first))
    ensures Added(t, old(vrf.neighbors), vrf.neighbors, Since(vrf, from, first))
  {
    hide Inv, OnlyAt, Done;
    var todo := t.Keys;
    ghost var before := vrf.neighbors;
    while todo != {}
      invariant vrf.Valid() && vrf.routes == old(vrf.routes) && todo <= t.Keys
      invariant old(Inv(vrf.Tables())) ==> Inv(vrf.Tables())
      invariant Later(old(Since(vrf, from, first)), Since(vrf, from, first))
      invariant Adding(t, todo, before, vrf.neighbors, Since(vrf, from, first))
    {
      var u :| u in todo;
      if t[u].ip !in vrf.neighbors {
        ghost var prev, c := vrf.neighbors, Since(vrf, from, first);
        Create(vrf, t[u], from, first);
        AddingStep(t, todo, u, before, prev, vrf.neighbors, c, Since(vrf, from, first));
      }
      todo := todo - {u};
    }
  }

  predicate Flagged(c: Changes, u: Uuid) { u in c.modified && u !in c.inserted }

  /** The row is flagged as modified, and differs from what is cached for it. */
  predicate Changed(c: Changes, neighbors: Neighbors, u: Uuid, d: DbNeighbor) {
    Flagged(c, u) && d.ip in neighbors && L3Outcomes.Differs(neighbors[d.ip], d.row)
  }

  /** How far ModifyPass has come. */
  ghost predicate Progress(t: Table, c: Changes, todo: set<Uuid>, before: Neighbors, now: Neighbors, calls: Calls) {
    && now.Keys <= before.Keys
    && forall u :: u in t ==>
         if u !in todo && Changed(c, before, u, t[u]) then Done(calls, now, t[u]) else Same(t[u].ip, before, now)
  }

  lemma ProgressStep(
      t: Table, c: Changes, todo: set<Uuid>, u: Uuid, before: Neighbors, prev: Neighbors, now: Neighbors,
      calls: Calls, calls': Calls)
    requires UniqueAddresses(t) && u in t && u in todo && t[u].ip in prev
    requires Progress(t, c, todo, before, prev, calls) && OnlyAt(t[u].ip, prev, now) && Later(calls, calls')
    requires if Changed(c, before, u, t[u]) then Done(calls', now, t[u]) else now == prev
    ensures Progress(t, c, todo - {u}, before, now, calls')
  {
    hide Done, Changed;
    SameElsewhere(prev, now, t[u].ip);
    forall v | v in t && v != u && Done(calls, prev, t[v]) ensures Done(calls', now, t[v]) {
      StillDone(calls, calls', prev, now, t[v]);
    }
  }

  method ModifyPass(vrf: Vrf, t: Table, c: Changes, ghost from: nat, ghost first: nat)
    requires vrf.Valid() && UniqueAddresses(t) && from <= |vrf.tried| && first <= vrf.asked
    modifies vrf
    ensures vrf.Valid() && vrf.routes == old(vrf.routes)
    ensures old(Inv(vrf.Tables())) && PortsKnown(vrf.answers) ==> Inv(vrf.Tables())
    ensures Later(old(Since(vrf, from, first)), Since(vrf, from, first))
    ensures Progress(t, c, {}, old(vrf.neighbors), vrf.neighbors, Since(vrf, from, first))
  {
    hide Inv, OnlyAt, PortsKnown, Done, L3Outcomes.Differs;
    var todo := t.Keys;
    ghost var before := vrf.neighbors;
    while todo != {}
      invariant vrf.Valid() && vrf.routes == old(vrf.routes) && todo <= t.Keys
      invariant old(Inv(vrf.Tables())) && PortsKnown(vrf.answers) ==> Inv(vrf.Tables())
      invariant Later(old(Since(vrf, from, first)), Since(vrf, from, first))
      invariant Progress(t, c, todo, before, vrf.neighbors, Since(vrf, from, first))
    {
      var u :| u in todo;
      if u in c.modified && u !in c.inserted && t[u].ip in vrf.neighbors {
        ghost var prev, calls := vrf.neighbors, Since(vrf, from, first);
        Modify(vrf, t[u], from, first);
        ProgressStep(t, c, todo, u, before, prev, vrf.neighbors, calls, Since(vrf, from, first));
      }
      todo := todo - {u};
    }
  }

  // ----- the whole function -----

  /**
  What a batch makes of one row: a new one, or one flagged with other columns than
  are cached, is done; the entry of any other is left alone.
  */
  ghost predicate RowDone(c: Changes, n0: Neighbors, n: Neighbors, calls: Calls, u: Uuid, d: DbNeighbor) {
    if d.ip !in n0 || Changed(c, n0, u, d) then Done(calls, n, d) else Same(d.ip, n0, n)
  }

  /**
  vrf_reconfigure_neighbors, from a cache that mirrors the table as it was: no
  address outside the table is cached; if anything changed, for every new or changed
  row that has a MAC address that parses and a port a host entry with these was
  asked of the provider in this call, the entry has the id it answered, and is gone
  if it was turned down; all other entries are left alone; and the entries have the
  MAC addresses and ports of their rows exactly when no row was replaced by another
  for the same address with different ones.
  */
  method ReconfigureNeighbors(vrf: Vrf, ghost was: Table, t: Table, c: Changes)
    requires vrf.Valid() && UniqueAddresses(was) && UniqueAddresses(t) && Reported(was, t, c)
    requires Mirrors(vrf.neighbors, was)
    modifies vrf
    ensures vrf.Valid() && vrf.routes == old(vrf.routes) && old(vrf.tried) <= vrf.tried
    ensures old(Inv(vrf.Tables())) && PortsKnown(vrf.answers) ==> Inv(vrf.Tables())
    ensures vrf.neighbors.Keys <= Addresses(t)
    ensures AnyChange(c) ==>
      forall u :: u in t ==>
        RowDone(c, old(vrf.neighbors), vrf.neighbors, Since(vrf, |old(vrf.tried)|, old(vrf.asked)), u, t[u])
    ensures AnyChange(c) ==>
      forall u :: u in t && t[u].ip !in vrf.neighbors ==>
        Refused(vrf.answers, vrf.tried, |old(vrf.tried)|, t[u])
    ensures !AnyChange(c) && t != map[] ==> vrf.Tables() == old(vrf.Tables()) && vrf.tried == old(vrf.tried)
    ensures Mirrors(vrf.neighbors, t) <==> NoStaleReinsertion(old(vrf.neighbors), t, c)
  {
    hide Inv, PortsKnown, RowDone;
    if t == map[] {
      DeletePass(vrf, t);
      return;
    }
    if c.modified == {} && !c.anyDeleted && c.inserted == {} {
      assert Addresses(was) <= Addresses(t);
      return;
    }
    ThreePasses(vrf, was, t, c);
  }

  predicate AnyChange(c: Changes) {
    c.inserted != {} || c.anyDeleted || c.modified != {}
  }

  method ThreePasses(vrf: Vrf, ghost was: Table, t: Table, c: Changes)
    requires vrf.Valid() && UniqueAddresses(was) && UniqueAddresses(t) && Reported(was, t, c)
    requires Mirrors(vrf.neighbors, was)
    modifies vrf
    ensures vrf.Valid() && vrf.routes == old(vrf.routes) && old(vrf.tried) <= vrf.tried
    ensures old(Inv(vrf.Tables())) && PortsKnown(vrf.answers) ==> Inv(vrf.Tables())
    ensures vrf.neighbors.Keys <= Addresses(t)
    ensures forall u :: u in t ==>
      RowDone(c, old(vrf.neighbors), vrf.neighbors, Since(vrf, |old(vrf.tried)|, old(vrf.asked)), u, t[u])
    ensures forall u :: u in t && t[u].ip !in vrf.neighbors ==>
      Refused(vrf.answers, vrf.tried, |old(vrf.tried)|, t[u])
    ensures Mirrors(vrf.neighbors, t) <==> NoStaleReinsertion(old(vrf.neighbors), t, c)
  {
    hide Inv, PortsKnown, Done, Mirrors, NoStaleReinsertion, Reported, UniqueAddresses, Refused, RowDone, Changed;
    ghost var n0, from, first := vrf.neighbors, |vrf.tried|, vrf.asked;
    DeletePass(vrf, t);
    assert vrf.neighbors.Keys <= Addresses(t);
    AddPass(vrf, t, from, first);
    ghost var n2, calls := vrf.neighbors, Since(vrf, from, first);
    if c.modified != {} {
      ModifyPass(vrf, t, c, from, first);
    } else {
      NothingFlagged(t, c, n2, calls);
    }
    forall u | u in t ensures RowDone(c, n0, vrf.neighbors, Since(vrf, from, first), u, t[u]) {
      RowByRow(t, c, n0, n2, vrf.neighbors, calls, Since(vrf, from, first), u);
    }
    Synced(was, t, c, n0, vrf.neighbors, Since(vrf, from, first));
  }

  lemma NothingFlagged(t: Table, c: Changes, neighbors: Neighbors, calls: Calls)
    requires c.modified == {}
    ensures Progress(t, c, {}, neighbors, neighbors, calls)
  {
    hide Done;
  }

  lemma RowByRow(
      t: Table, c: Changes, n0: Neighbors, n2: Neighbors, n3: Neighbors, calls: Calls, calls': Calls, u: Uuid)
    requires u in t && Later(calls, calls')
    requires Added(t, Only(n0, Addresses(t)), n2, calls) && Progress(t, c, {}, n2, n3, calls')
    ensures RowDone(c, n0, n3, calls', u, t[u])
  {
    hide Done, L3Outcomes.Differs;
    assert t[u].ip in Addresses(t);
    if t[u].ip !in n0 && !Changed(c, n2, u, t[u]) {
      StillDone(calls, calls', n2, n3, t[u]);
    }
  }

  lemma Synced(was: Table, t: Table, c: Changes, n0: Neighbors, n: Neighbors, calls: Calls)
    requires Reported(was, t, c) && Mirrors(n0, was) && n.Keys <= Addresses(t)
    requires forall u :: u in t ==> RowDone(c, n0, n, calls, u, t[u])
    ensures forall u :: u in t && t[u].ip !in n ==> Refused(calls.answers, calls.tried, calls.from, t[u])
    ensures Mirrors(n, t) <==> NoStaleReinsertion(n0, t, c)
  {
    hide Done, Refused, Reported, RowDone, Mirrors;
    forall u | u in t ensures RowEnded(t, c, n0, n, calls, u) {
      RowSynced(was, t, c, n0, n, calls, u);
    }
    MirrorsEnded(t, c, n0, n, calls);
  }

  /** What the passes leave of one row. */
  ghost predicate RowEnded(t: Table, c: Changes, n0: Neighbors, n: Neighbors, calls: Calls, u: Uuid)
    requires u in t
  {
    && (Stale(t, c, n0, u) ==> t[u].ip in n)
    && if t[u].ip in n then SameAs(n[t[u].ip], t[u].row) <==> !Stale(t, c, n0, u)
       else Refused(calls.answers, calls.tried, calls.from, t[u])
  }

  lemma MirrorsEnded(t: Table, c: Changes, n0: Neighbors, n: Neighbors, calls: Calls)
    requires n.Keys <= Addresses(t) && forall u :: u in t ==> RowEnded(t, c, n0, n, calls, u)
    ensures Mirrors(n, t) <==> NoStaleReinsertion(n0, t, c)
  {
    hide Refused;
    if NoStaleReinsertion(n0, t, c) {
      assert forall u :: u in t ==> RowEnded(t, c, n0, n, calls, u) && !Stale(t, c, n0, u);
    } else {
      var u :| u in t && u in c.inserted && t[u].ip in n0 && !SameAs(n0[t[u].ip], t[u].row);
      assert RowEnded(t, c, n0, n, calls, u) && Stale(t, c, n0, u);
    }
  }

  /** For instance a neighbor deleted and inserted again with another MAC address in one batch. */
  lemma ReinsertionGoesUnnoticed()
    ensures
      var was := map[1 := DbNeighbor("1.1.1.1", NeighborRow(Some("aa"), None))];
      var now := map[2 := DbNeighbor("1.1.1.1", NeighborRow(Some("bb"), None))];
      var cached := map["1.1.1.1" := Neighbor(Some("aa"), None, -1)];
      var c := Changes({2}, {}, true);
      Reported(was, now, c) && Mirrors(cached, was) && !NoStaleReinsertion(cached, now, c)
  {
    var was := map[1 := DbNeighbor("1.1.1.1", NeighborRow(Some("aa"), None))];
    var now := map[2 := DbNeighbor("1.1.1.1", NeighborRow(Some("bb"), None))];
    var c := Changes({2}, {}, true);
    assert 1 in was && was[1].ip in Addresses(was) && 1 in was.Keys - now.Keys;
    assert 2 in now && 2 in c.inserted && "aa"[0] != "bb"[0];
  }

  ghost predicate Stale(t: Table, c: Changes, neighbors: Neighbors, u: Uuid)
    requires u in t
  {
    u in c.inserted && t[u].ip in neighbors && !SameAs(neighbors[t[u].ip], t[u].row)
  }

  lemma RowSynced(was: Table, t: Table, c: Changes, n0: Neighbors, n: Neighbors, calls: Calls, u: Uuid)
    requires Reported(was, t, c) && Mirrors(n0, was) && u in t && RowDone(c, n0, n, calls, u, t[u])
    ensures RowEnded(t, c, n0, n, calls, u)
  {
    hide Refused;
    if u !in c.inserted && t[u].ip in n0 && !Flagged(c, u) {
      assert was[u] == t[u];
    }
  }
}
