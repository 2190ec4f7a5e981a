/**
The layer-3 tables of one VRF (include/vrf.h) and what each operation of
src/vrf.c and of the neighbor half of src/bridge.c does to them, as values.

A route row names nexthops by IP address or by port.  The cache keeps the
selected nexthops of every selected route; `asic` is what the provider has been
told: for each prefix, the nexthops programmed under it and their state.
*/
module L3Tables {
  import opened Common

  datatype RouteKey = RouteKey(from: string, prefix: string)

  /** A cached nexthop: an IP address or a port, never both. */
  datatype Nexthop = ByIp(ip: string) | ByPort(port: string)

  /** A row of the Nexthop table; `port` is the first of its ports. */
  datatype NexthopRow = NexthopRow(ip: Option<string>, port: Option<string>, selected: Option<bool>) {
    /** Unless the column says otherwise. */
    predicate Selected() { selected.None? || selected.value }

    predicate Named() { ip.Some? || port.Some? }

    predicate Usable() { Selected() && Named() }

    function Key(): Nexthop
      requires Named()
    {
      if ip.Some? then ByIp(ip.value) else ByPort(port.value)
    }
  }

  /** A row of the Neighbor table. */
  datatype NeighborRow = NeighborRow(mac: Option<string>, port: Option<string>)

  /** A cached neighbor; `egress` is -1 until the provider hands out an id. */
  datatype Neighbor = Neighbor(mac: Option<string>, port: Option<string>, egress: int) {
    predicate Programmed() { egress > 0 }
  }

  /** The ids a provider hands out for a host entry it accepts. */
  type Egress = e: int | e > 0 witness 1

  datatype NhState = Resolved(egress: int) | Unresolved

  type Routes = map<RouteKey, multiset<Nexthop>>
  type Neighbors = map<string, Neighbor>
  type Programming = map<Nexthop, NhState>
  type Asic = map<string, Programming>

  datatype L3 = L3(routes: Routes, neighbors: Neighbors, hosts: map<string, int>, asic: Asic)

  const EMPTY := L3(map[], map[], map[], map[])

  // ----- the provider's route table -----

  function At(asic: Asic, prefix: string): Programming {
    if prefix in asic then asic[prefix] else map[]
  }

  /** OFPROTO_ROUTE_ADD; never sent without nexthops. */
  function Program(asic: Asic, prefix: string, batch: Programming): Asic {
    if batch == map[] then asic else asic[prefix := At(asic, prefix) + batch]
  }

  /** OFPROTO_ROUTE_DELETE_NH. */
  function Unprogram(asic: Asic, prefix: string, gone: set<Nexthop>): Asic {
    if prefix in asic then asic[prefix := asic[prefix] - gone] else asic
  }

  // ----- nexthops of a row -----

  /** The nexthops a row asks for, in row order. */
  function UsableKeys(rows: seq<NexthopRow>): seq<Nexthop> {
    if rows == [] then []
    else
      var last := |rows| - 1;
      UsableKeys(rows[..last]) + if rows[last].Usable() then [rows[last].Key()] else []
  }

  function Wanted(rows: seq<NexthopRow>): set<Nexthop> {
    set nh | nh in UsableKeys(rows)
  }

  predicate IsResolved(neighbors: Neighbors, ip: string) {
    ip in neighbors && neighbors[ip].Programmed()
  }

  function StateOf(neighbors: Neighbors, nh: Nexthop): NhState {
    if nh.ByIp? && IsResolved(neighbors, nh.ip) then Resolved(neighbors[nh.ip].egress) else Unresolved
  }

  /** Port nexthops and resolved IP nexthops: what an ECMP route always programs. */
  predicate Strong(neighbors: Neighbors, nh: Nexthop) {
    nh.ByPort? || IsResolved(neighbors, nh.ip)
  }

  function States(neighbors: Neighbors, nhs: set<Nexthop>): Programming {
    map nh | nh in nhs :: StateOf(neighbors, nh)
  }

  function StrongStates(neighbors: Neighbors, nhs: set<Nexthop>): Programming {
    map nh | nh in nhs && Strong(neighbors, nh) :: StateOf(neighbors, nh)
  }

  /** The first programming of a route: see FirstProgramming for what it amounts to. */
  function FirstBatch(neighbors: Neighbors, rows: seq<NexthopRow>): Programming {
    var keys := UsableKeys(rows);
    if |rows| <= 1 then States(neighbors, Wanted(rows))
    else
      var strong := StrongStates(neighbors, Wanted(rows));
      if strong == map[] && keys != [] then map[keys[0] := Unresolved] else strong
  }

  /** What is sent for the nexthops a change to the row adds. */
  function AddedBatch(neighbors: Neighbors, extra: set<Nexthop>, ecmp: bool): Programming {
    if ecmp then StrongStates(neighbors, extra) else States(neighbors, extra)
  }

  /** The occurrences in `m` of members of `keep`. */
  ghost function KeepOnly(m: multiset<Nexthop>, keep: set<Nexthop>): (r: multiset<Nexthop>)
    ensures forall nh :: r[nh] == if nh in keep then m[nh] else 0
    decreases |m|
  {
    if m == multiset{} then multiset{}
    else
      var nh :| nh in m;
      KeepOnly(m - multiset{nh}, keep) + if nh in keep then multiset{nh} else multiset{}
  }

  // ----- route operations -----

  function AddRoute(s: L3, k: RouteKey, rows: seq<NexthopRow>): L3 {
    s.(routes := s.routes[k := multiset(UsableKeys(rows))],
       asic := Program(s.asic, k.prefix, FirstBatch(s.neighbors, rows)))
  }

  function DeleteRoute(s: L3, k: RouteKey): L3
    requires k in s.routes
  {
    s.(routes := s.routes - {k},
       asic := if s.routes[k] == multiset{} then s.asic else s.asic - {k.prefix})
  }

  function Gone(have: multiset<Nexthop>, want: set<Nexthop>): set<Nexthop> {
    set nh | nh in have && nh !in want
  }

  function Extra(have: multiset<Nexthop>, want: set<Nexthop>): set<Nexthop> {
    set nh | nh in want && nh !in have
  }

  ghost function ModifyRoute(s: L3, k: RouteKey, rows: seq<NexthopRow>): L3
    requires k in s.routes
  {
    var have, want := s.routes[k], Wanted(rows);
    var extra := Extra(have, want);
    var trimmed := Unprogram(s.asic, k.prefix, Gone(have, want));
    s.(routes := s.routes[k := KeepOnly(have, want) + multiset(extra)],
       asic := Program(trimmed, k.prefix, AddedBatch(s.neighbors, extra, |rows| > 1)))
  }

  // ----- neighbor operations -----

  /** The prefixes of the routes that use `ip`. */
  function Users(routes: Routes, ip: string): set<string> {
    set k | k in routes && ByIp(ip) in routes[k] :: k.prefix
  }

  function Retarget(asic: Asic, users: set<string>, ip: string, state: NhState): Asic {
    map p | p in asic.Keys + users :: if p in users then At(asic, p)[ByIp(ip) := state] else asic[p]
  }

  /** What calls outside this module answer during one neighbor operation. */
  datatype Answers = Answers(
    oldPortKnown: bool,       // port_lookup finds the port the entry was programmed on
    newPortKnown: bool,       // port_lookup finds the port to program it on
    macParses: bool,          // ether_aton accepts the MAC address
    added: Option<Egress>)    // what ofproto_add_l3_host_entry returns

  function NonEmpty(s: Option<string>): Option<string> {
    if s.Some? && s.value != "" then s else None
  }

  /** neighbor_set_l3_host_entry followed by the update of the routes using the neighbor. */
  function ProgramHost(s: L3, ip: string, a: Answers): L3
    requires ip in s.neighbors
  {
    if a.newPortKnown && a.added.Some? then
      var e := a.added.value;
      s.(neighbors := s.neighbors[ip := s.neighbors[ip].(egress := e)],
         hosts := s.hosts[ip := e],
         asic := Retarget(s.asic, Users(s.routes, ip), ip, Resolved(e)))
    else
      s.(neighbors := s.neighbors - {ip})
  }

  /** Whether a new neighbor is programmed. */
  predicate CreateTries(row: NeighborRow, a: Answers) {
    NonEmpty(row.mac).Some? && NonEmpty(row.port).Some? && a.macParses
  }

  /** Whether a change programs the entry anew. */
  predicate ModifyTries(n: Neighbor, row: NeighborRow, a: Answers) {
    var mac := NonEmpty(row.mac);
    && ((row.port.Some? && row.port != n.port) || (mac.Some? && mac != n.mac))
    && row.port.Some? && mac.Some? && a.macParses
  }

  function CreateNeighbor(s: L3, ip: string, row: NeighborRow, a: Answers): L3 {
    var n := Neighbor(NonEmpty(row.mac), NonEmpty(row.port), -1);
    var s1 := s.(neighbors := s.neighbors[ip := n]);
    if CreateTries(row, a) then ProgramHost(s1, ip, a) else s1
  }

  /** neighbor_delete_l3_host_entry: nothing happens unless the old port is still there. */
  function DropHost(s: L3, ip: string, a: Answers): L3
    requires ip in s.neighbors
  {
    if a.oldPortKnown then
      s.(neighbors := s.neighbors[ip := s.neighbors[ip].(egress := -1)], hosts := s.hosts - {ip})
    else s
  }

  function Unresolve(s: L3, ip: string): L3 {
    s.(asic := Retarget(s.asic, Users(s.routes, ip), ip, Unresolved))
  }

  function DeleteNeighbor(s: L3, ip: string, a: Answers): L3
    requires ip in s.neighbors
  {
    var s1 := Unresolve(s, ip);
    var s2 := if s.neighbors[ip].egress != -1 then DropHost(s1, ip, a) else s1;
    s2.(neighbors := s2.neighbors - {ip})
  }

  function ModifyNeighbor(s: L3, ip: string, row: NeighborRow, a: Answers): L3
    requires ip in s.neighbors
  {
    var n, mac := s.neighbors[ip], NonEmpty(row.mac);
    var portChanged := n.port.Some? && row.port != n.port;
    var macChanged := n.mac.Some? && mac != n.mac;
    var s1 := if (portChanged || macChanged) && n.egress != -1 then DropHost(Unresolve(s, ip), ip, a) else s;
    var s2 := s1.(neighbors := s1.neighbors[ip := s1.neighbors[ip].(mac := mac, port := row.port)]);
    if ModifyTries(n, row, a) then ProgramHost(s2, ip, a) else s2
  }
}
