# OpenSwitch switchd: reconciliation model

ops-switchd keeps three pictures of a switch in step: the configuration
database, the tables of the daemon, and what the datapath or ASIC provider was
told. It never rebuilds; it follows change flags. These files model that code,
as built with `OPS` and `OPS_TEMP`, and prove that what the incremental code
leaves is what a rebuild would leave, over every sequence of events; and, where
it is not, exactly when it is not.

Code that updates tables in place is a class with the tables as fields, and each
method is proved equal to a function on table values. The theorems are about
these functions and about all runs of them: what each of them comes to, entry by
entry, from the rows and answers alone, and what any sequence of them keeps. The datapaths are the state of one
provider object, which is nothing but the log of the calls made on it; host entries
are asked of the provider in one place, which logs them.

| files | what they model |
|---|---|
| `L3Tables`, `L3Engine`, `L3Outcomes`, `L3Safety`, `L3Theorems` | routes, nexthops and neighbors of a VRF, and the provider's route and host tables (`src/vrf.c`, the neighbor functions of `src/bridge.c`) |
| `RouteSync`, `RouteBatch`, `RouteReconfigure`, `NeighborReconfigure`, `VrfHistory` | route, nexthop and neighbor reconfiguration from change flags, and any history of it |
| `BridgeTables`, `BridgeEngine`, `BridgeTheorems` | ports, interfaces and the datapath of one bridge or VRF |
| `Datapaths`, `SwitchReconfigure` | the phases of `bridge_reconfigure` over all of them |
| `HwAddr`, `Paths`, `Vlans`, `StatusUpdates` | smaller parts of `src/bridge.c` |
| `BufferMonitor`, `BufferHistory`, `StatsMailbox` | the threads of `src/bufmon.c` and `src/system-stats.c` |
| `Callbacks`, `PluginInit` | callback lists and plugin initialization |

## What is assumed

- A hash map is a map, a multiset or a set; a loop over one takes the entries in
  any order. What the database layer, the provider, `netdev`, the clock and
  `ether_aton` answer are parameters, arbitrary unless said otherwise below.
- The provider treats a route addition as update-or-insert for each nexthop, its
  route actions succeed, an accepted host entry has an egress id above zero, and
  deleting one resets the id to -1 (include/vrf.h:40-50). Host additions and
  device creation may be refused; deleting a datapath port succeeds, and a datapath
  that is created starts empty.
- A nexthop has an address or a port, not both (src/vrf.c:68), and no port is
  named like an address.
- That every agreement with the provider is kept is proved for operations called
  when no cached route of another protocol has the prefix to be added, since the
  provider is told the prefix and not the protocol (src/vrf.c:141-142), and when
  the port of a programmed neighbor can still be looked up. What happens otherwise
  is stated by `DeleteRouteExact`, `ProtocolSwitch`, `DeleteNeighborExact`,
  `ModifyNeighborExact` and `ModifyHostExact`; the caches and the nexthop index are
  right either way.
- The neighbor table is that of one VRF, since the loops at src/bridge.c:7178-7201
  do not compare VRFs.
- Changing a device moves the connectivity sequence number.

## What the code does not do

For each of these one lemma or method says exactly when the code does keep its
promise, and another gives an input at which it does not.

- A route, or a neighbor, deleted and inserted again with the same key in one
  batch keeps its old nexthops, or MAC address and port: the row is flagged as
  inserted, so the modify pass skips it, and the key is cached, so the add pass
  skips it (`RouteSync.SyncExact`, `NeighborReconfigure.ReconfigureNeighbors`).
- The nexthop pass does not compare VRFs: a row of another VRF with the same
  protocol and prefix and a changed nexthop is taken for the route of this one
  (`RouteSync.EveryOrderExact`).
- When a prefix moves from one protocol to another and the new route is added
  before the old one is dropped, dropping it removes the prefix from the provider
  (`L3Theorems.ProtocolSwitch`). Over a whole batch that depends on the order of the
  rows only if both are modified ones (`RouteReconfigure.ReconfigureRoutes`,
  `RouteBatch.BatchExact`, `RouteReconfigure.SwitchedBatch`).
- A neighbor whose port has gone keeps its host entry when it is deleted, or when
  it is to move and is refused; and routes through it disagree with the neighbor
  table when it is not programmed anew (`L3Theorems.DeleteNeighborExact`,
  `L3Theorems.ModifyHostExact`, `L3Theorems.ModifyNeighborExact`).
- An interface of type "null" that got in is destroyed and created again by every
  pass (`BridgeTheorems.DeletesQuiet`).
- A VLAN that keeps its name and changes its VID keeps the old VID in the table and,
  if enabled, in hardware (`Vlans.ConfiguredExact`, `Vlans.HardwareExact`).
- The status of an interface created by a reconfiguration that fails to commit can
  be missing for good, although the comment at src/bridge.c:4290-4291 says that a
  retry is always set: a status transaction in flight clears the request when it
  succeeds, and the first reconfiguration makes none
  (`StatusUpdates.FailedReconfigurationExact`).
- A collection period of more than some 596 hours does not fit the product with
  1000, and may come to less than the five seconds the code otherwise enforces
  (`BufferMonitor.SpacingExact`; signed overflow is taken to wrap).
- A statistics snapshot handed out after statistics were enabled may have been
  collected from before (`StatsMailbox.CollectedSinceExact`).
- Route rows are collected under the string "from:prefix" cut to 63 characters, so
  that of two rows with one string only one is found (`RouteSync.FoundExact`,
  `RouteSync.StartupExact`).

## Model

| member | source | states |
|---|---|---|
| `L3Theorems.EveryRunAgrees` | src/vrf.c:37-714 | after every sequence of route and neighbor operations from start-up: an address forwards through an egress id if and only if a cached route uses it and the neighbor table holds it with that id; a port is programmed if and only if a cached route uses it; nothing else is programmed; the host table holds exactly the programmed neighbors |
| `L3Theorems.HistoryDoesNotMatter` | src/vrf.c:37-69 | two runs that end with the same neighbors and the same nexthops per prefix end with the same forwarding, ports and hosts, whatever the order of events |
| `L3Theorems.FirstProgramming` | src/vrf.c:279-376 | what the first programming of a route sends: with several nexthop rows exactly the port and resolved nexthops, or without any exactly one unresolved address; with at most one row that nexthop; something if and only if a row is usable |
| `L3Theorems.NothingUsable` | src/vrf.c:72-82 | no nexthop is asked for if and only if no row is both selected and named |
| `L3Theorems.DeleteRouteExact` | src/vrf.c:522-554 | deleting a route leaves all others programmed if and only if it had no nexthops or no other route of its prefix has a port or resolved nexthop |
| `L3Theorems.ProtocolSwitch` | src/vrf.c:860-908 | a new route of the same prefix added before the old one is deleted stays programmed if and only if it has nothing to program; deleting first keeps every agreement |
| `L3Theorems.ProtocolSwitchLosesRoute` | src/vrf.c:860-908 | a static route giving way to a BGP route through a port ends without the port programmed |
| `L3Theorems.DeleteNeighborExact` | src/bridge.c:6930-6947 | the host table agrees with the neighbors after a deletion if and only if the port of a programmed entry could be looked up |
| `L3Theorems.DeletedHostStays` | src/bridge.c:6822-6853 | a programmed neighbor deleted after its port has gone leaves its host entry |
| `L3Theorems.ModifyNeighborExact` | src/bridge.c:6949-7054 | routes agree with the neighbor table after a modification unless it could not find the old port, did not program the entry anew, and some route uses it; and only then not |
| `L3Theorems.ModifyHostExact` | src/bridge.c:6949-7054 | the host table agrees with the neighbors after a modification unless a programmed entry changed, its old port could not be found, and programming it anew was attempted and refused; and only then not |
| `L3Theorems.ModifiedHostStays` | src/bridge.c:6949-7054 | a neighbor moved from a port that has gone to one that is not there leaves its host entry without a cache entry |
| `L3Theorems.ModifiedRouteUnresolved` | src/bridge.c:6949-7054 | a neighbor that loses a port that has gone leaves the route through it unresolved while the cache says resolved |
| `L3Safety.AddRouteKeeps` | src/vrf.c:557-623 | adding a route of a free prefix keeps the agreement of routes, neighbors, hosts and provider |
| `L3Safety.DeleteRouteKeeps` | src/vrf.c:522-554 | deleting a route keeps it |
| `L3Safety.ModifyRouteKeeps` | src/vrf.c:625-714 | modifying a route keeps it |
| `L3Safety.CreateNeighborKeeps` | src/bridge.c:6870-6928 | creating a neighbor keeps it, whether or not the provider accepts the host entry |
| `L3Safety.DeleteNeighborKeeps` | src/bridge.c:6930-6947 | deleting a neighbor keeps it |
| `L3Safety.ModifyNeighborKeeps` | src/bridge.c:6949-7054 | modifying a neighbor keeps it through every combination of port and MAC address appearing, changing and disappearing |
| `L3Safety.FirstBatchSuits` | src/vrf.c:279-376 | the first programming of a route holds only nexthops of the row and has the right state for each |
| `L3Safety.RunKeeps` | src/vrf.c:37-69 | every run of operations keeps the agreement |
| `L3Engine.Vrf.constructor` | include/vrf.h:30-37 | a new VRF has empty tables and an index that agrees with them |
| `L3Engine.Vrf.NexthopAdd` | src/vrf.c:464-502 | the route gains the nexthop of a row; addresses and not ports enter the VRF-wide index, which keeps agreeing with the routes |
| `L3Engine.Vrf.NexthopDelete` | src/vrf.c:440-461 | the route loses one nexthop and the index the same one |
| `L3Engine.Vrf.SetNh` | src/vrf.c:410-436 | a nexthop is sent as resolved with its egress id if and only if the neighbor table has a programmed entry for it |
| `L3Engine.Vrf.UpdateResolvedNh` | src/vrf.c:381-407 | a nexthop is appended if and only if it is a port or resolved |
| `L3Engine.Vrf.AddResolvedNh` | src/vrf.c:279-376 | the usable nexthops are cached and the batch is that of FirstProgramming |
| `L3Engine.Vrf.OfprotoRouteAdd` | src/vrf.c:132-206 | the provider has the nexthops sent under the prefix, besides those it had |
| `L3Engine.Vrf.OfprotoNexthopsDelete` | src/vrf.c:208-242 | the provider loses just these nexthops of the prefix |
| `L3Engine.Vrf.RouteAdd` | src/vrf.c:557-623 | the tables become those of AddRoute and the index agrees with them |
| `L3Engine.Vrf.RouteDelete` | src/vrf.c:522-554 | the tables become those of DeleteRoute and the index agrees with them |
| `L3Engine.Vrf.RouteModify` | src/vrf.c:625-714 | the tables become those of ModifyRoute, nexthops the row no longer wants leaving cache, index and provider, and the index agrees; ModifyRouteOutcome says what that is |
| `L3Engine.Vrf.CollectNexthops` | src/vrf.c:642-655 | the usable nexthops of a row by key |
| `L3Engine.Vrf.TrimNexthops` | src/vrf.c:670-682 | exactly the cached nexthops that are not wanted are removed and listed |
| `L3Engine.Vrf.AddNexthops` | src/vrf.c:687-708 | exactly the wanted nexthops not cached are added, and those to program are sent |
| `L3Engine.Vrf.UpdateRoutesWithNeighbor` | src/vrf.c:244-275 | walking the index reprograms the address under the prefix of every route that uses it, and nothing else |
| `L3Engine.Vrf.SetHostEntry` | src/bridge.c:6782-6820 | the entry is asked of the provider, and that is logged; on success the neighbor has its egress id, the host table the entry and all using routes the state; otherwise the neighbor is dropped from the cache |
| `L3Engine.Vrf.DeleteHostEntry` | src/bridge.c:6822-6853 | host entry and egress id go if and only if the port is found |
| `L3Engine.Vrf.NeighborCreate` | src/bridge.c:6870-6928 | the tables become those of CreateNeighbor; a host entry is asked for exactly if there are a MAC address that parses and a port; CreateNeighborOutcome says what comes of it |
| `L3Engine.Vrf.NeighborDelete` | src/bridge.c:6930-6947 | the tables become those of DeleteNeighbor: using routes are unresolved first; DeleteNeighborOutcome says what that is |
| `L3Engine.Vrf.CompareRow` | src/bridge.c:6949-7022 | from the row: the MAC address and port the entry is to have, whether the old host entry is to go and whether a new one is to be asked for |
| `L3Engine.Vrf.NeighborModify` | src/bridge.c:6949-7054 | the tables become those of ModifyNeighbor; a host entry is asked for exactly if MAC address or port are new and both are there; UnchangedNeighbor, ReprogrammedNeighbor and StrippedNeighbor say what comes of it |
| `L3Outcomes.WantedExact` | src/vrf.c:72-82 | the nexthops of a route are those some selected nexthop row names, by its address, or by its port if it has none |
| `L3Outcomes.FirstKey` | src/vrf.c:341-376 | the first of them is that of the first such row |
| `L3Outcomes.FirstBatchExact` | src/vrf.c:280-376 | a new route is sent with one row its nexthop, with several exactly the reachable ones, or the first if none is; each with the egress id of its neighbor or as unresolved |
| `L3Outcomes.AddRouteOutcome` | src/vrf.c:557-620 | for every nexthop, whether and how the prefix has it after an addition, from the rows and the neighbors; nothing under other prefixes, no other route, neighbor or host entry changes |
| `L3Outcomes.ModifyRouteOutcome` | src/vrf.c:625-714 | for every nexthop, whether and how the prefix has it after a change: a new one if it is reachable or the row has no other, an old one unless no row names it any more; all else stays |
| `L3Outcomes.DeleteRouteOutcome` | src/vrf.c:522-554 | the route goes, and the whole prefix if it had nexthops; all else stays |
| `L3Outcomes.CreateNeighborOutcome` | src/bridge.c:6870-6928 | from the row and the answers alone: the entry stays unless refused; with a MAC address that parses and a port, accepted, entry, host table and every using route have the id that was answered, and else nothing is programmed |
| `L3Outcomes.UnchangedNeighbor` | src/bridge.c:6949-7054 | a row with the MAC address and port of the entry changes nothing |
| `L3Outcomes.ReprogrammedNeighbor` | src/bridge.c:6949-7054 | a changed row with a port and a MAC address that parses: if it is accepted, entry, host table and every using route have the id that was answered, whatever the entry was before; if not, the entry is gone, and what it was programmed with is taken back |
| `L3Outcomes.StrippedNeighbor` | src/bridge.c:6949-7054 | a changed row without these: the entry has what is left, its host entry is taken back if the old port is found, and using routes are unresolved |
| `L3Outcomes.DeleteNeighborOutcome` | src/bridge.c:6930-6947 | every route using the address has it as unresolved, the host entry goes if its port is found, and nothing else changes |
| `RouteSync.SyncExact` | src/vrf.c:802-973 | from a cache equal to the old database, flags that cover the difference and key strings that are distinct, the three passes leave exactly the selected routes of the new database; and with the nexthop pass, in every order of the rows, exactly their selected nexthops, if and only if no row was replaced under its key by one asking for others and no row of another VRF is mistaken |
| `RouteSync.ReinsertionGoesUnnoticed` | src/vrf.c:873-908 | any route deleted and inserted again with another address as nexthop does not end as a rebuild |
| `RouteSync.RightRoutes` | src/vrf.c:802-932 | the keys cached after the three passes are those of the selected rows of the VRF |
| `RouteSync.RightNexthops` | src/vrf.c:802-932 | each cached route no changed nexthop row concerns has the nexthops of its row, except a reinserted one, which keeps its old ones |
| `RouteSync.RestExact` | src/vrf.c:802-932 | those routes are all right if and only if no row was replaced under its key by one asking for others |
| `RouteSync.EveryOrderExact` | src/vrf.c:940-973 | the nexthop pass over the rows of all VRFs, each once, ends with a rebuild in every order of the rows, if and only if no changed row asks for other nexthops than the live row of its key and the other routes were right before |
| `RouteSync.TouchedExact` | src/vrf.c:940-973 | where no row is mistaken the order does not matter: the pass ends with a rebuild if and only if the routes it does not concern were right |
| `RouteSync.TakenForAnother` | src/vrf.c:957-972 | a changed nexthop of a route of another VRF with the same protocol and prefix does not always leave a rebuild |
| `RouteSync.RebuildAt` | src/vrf.c:833-845 | a selected row is in the rebuilt cache with its usable nexthops |
| `RouteSync.HashInjective` | src/vrf.c:95-99 | protocol and prefix can be read back from the key string if no protocol name has a colon and nothing is cut off |
| `RouteSync.ShortKeysApart` | include/vrf.h:27 | a set of keys without colons in protocol names that fit in 63 characters has distinct strings |
| `RouteSync.ColonCollides` | src/vrf.c:95-99 | with a colon in the protocol name two keys have one string |
| `RouteSync.LongCollides` | src/vrf.c:95-99 | prefixes that differ only beyond the cut have one string |
| `RouteSync.FoundExact` | src/vrf.c:833-845 | of a choice of one key per string all keys are found if and only if no two of them have one string |
| `RouteSync.StartupExact` | src/vrf.c:833-882 | with all rows new and an empty cache, exactly the rows found are cached, which is a rebuild if and only if key strings are distinct |
| `RouteSync.CollidingRouteLost` | src/vrf.c:833-882 | of two selected routes with one key string exactly one is cached |
| `RouteBatch.BatchExact` | src/vrf.c:884-908 | after the modify pass every cached route is programmed as it should be, if and only if no row made the provider drop a route with nexthops while the wanted one of its prefix, with something to program, was cached before the pass or by an earlier row |
| `RouteBatch.Along` | src/vrf.c:884-908 | the tables of one prefix followed through the pass: which of its routes are cached when, and from which row on its programming is lost |
| `RouteBatch.ReadyAfterInsert` | src/vrf.c:860-882 | after the delete and insert passes at most one route of a prefix is to go, and the one to come beside it is as it is wanted |
| `RouteReconfigure.Collect` | src/vrf.c:833-845 | one selected row of the VRF is found for each key string; all of them if and only if the strings are distinct |
| `RouteReconfigure.DeletePass` | src/vrf.c:860-871 | exactly the cached routes whose key string is not found are dropped, with every agreement kept |
| `RouteReconfigure.InsertPass` | src/vrf.c:873-882 | exactly the rows found and not cached are added; every agreement is kept if no prefix is shared |
| `RouteReconfigure.ModifyPass` | src/vrf.c:884-908 | the tables become those of the pass over the modified rows in the order they come, each once; their keys have what a rebuild gives them and all others are untouched; every agreement is kept if no prefix is shared |
| `RouteReconfigure.ReconfigureRoutes` | src/vrf.c:802-932 | for every batch the cache becomes what the three passes compute from the rows found, and the index agrees with it; the provider agrees unless a prefix is added while another protocol has it cached; with one wanted route per prefix it has every cached route if and only if no row lost one in the order they came; prefixes of no route dropped, added or modified are left alone |
| `RouteReconfigure.InsertedSwitchLost` | src/vrf.c:873-908 | a route unselected in a batch with inserted and without deleted rows makes the provider lose the wanted one of its prefix in every order |
| `RouteReconfigure.ModifiedSwitchLost` | src/vrf.c:884-908 | where both rows are modified ones, it does if the row of the wanted route comes first |
| `RouteReconfigure.SwitchedBatch` | src/vrf.c:873-908 | a static route giving way to an inserted BGP route through the same port is such a batch |
| `RouteReconfigure.ReconfigureNexthops` | src/vrf.c:940-973 | the cache becomes that of the nexthop pass in the order the rows of all VRFs come, with every agreement kept and other prefixes left alone |
| `RouteReconfigure.IsTouched` | src/vrf.c:781-800 | true if and only if some nexthop row of the route was modified and not inserted |
| `RouteReconfigure.SyncRoutes` | src/vrf.c:802-973 | the two functions as written reach the result of SyncExact, protocol switches included; the provider agrees unless a prefix is added while another protocol has it cached; what is cached and programmed for a prefix whose rows nothing happened to is left alone |
| `NeighborReconfigure.ReconfigureNeighbors` | src/bridge.c:7119-7206 | no address outside the table is cached; after a change, for every new or changed row with a MAC address that parses and a port a host entry with these was asked of the provider in this call, and the entry has the id it answered or is gone if it was turned down; all other entries are left alone; a row that is not cached was turned down in this call; MAC addresses and ports are those of the rows if and only if no row was replaced by another with different ones; routes and provider keep agreeing if the ports of programmed entries are found |
| `NeighborReconfigure.DeletePass` | src/bridge.c:7166-7174 | exactly the neighbors whose address left the table are dropped |
| `NeighborReconfigure.AddPass` | src/bridge.c:7176-7183 | cached entries stay; every other row is cached as it stands and as its attempt in this call was answered, or was turned down |
| `NeighborReconfigure.ModifyPass` | src/bridge.c:7185-7202 | flagged rows that differ from their entry are cached as they stand and as their attempt in this call was answered, or were turned down; all others are untouched |
| `NeighborReconfigure.ReinsertionGoesUnnoticed` | src/bridge.c:7176-7202 | a neighbor deleted and inserted again with another MAC address meets the condition under which the old one stays |
| `VrfHistory.Follow` | src/bridge.c:1223-1227 | from start-up through any history of batches, conditions on the database alone, the cache mirrors the last database and the provider agrees with it |
| `VrfHistory.Reconfigure` | src/bridge.c:1223-1227 | one batch: neighbors, then routes, then nexthops, keep the VRF as the database has it; the host table has an entry for every new or changed row with a port and a MAC address that parses, with the id its accepted attempt of this batch was answered with, and none if that was turned down |
| `VrfHistory.ForwardsAsConfigured` | src/vrf.c:37-69 | then an address forwards through an egress id if and only if a selected route row uses it and the provider accepted its host entry with that id; a port is programmed if and only if a selected row uses it; nothing else is; host entries are of neighbor rows with a MAC address |
| `VrfHistory.SameForwarding` | src/vrf.c:37-69 | the same database and the same accepted host entries give the same forwarding, whatever came before |
| `VrfHistory.RowWants` | src/vrf.c:72-93 | a route row wants a nexthop if and only if one of its nexthop rows is selected and names it |
| `BridgeTheorems.PassSettles` | src/bridge.c:1307-1611 | after a pass the datapath and the tables hold the same interfaces: the wanted ones, less those that were missing and refused; each under a wanted port that lists it, with the wanted type; the lists of ports are the old ones with the new interfaces at their ends |
| `BridgeTheorems.DeletesAgree` | src/bridge.c:1307-1444 | after the deletions the datapath holds exactly the interfaces of the tables, all wanted and of the wanted type, whatever it held before |
| `BridgeTheorems.DeletesQuiet` | src/bridge.c:1307-1444 | where every interface is in place, the deletions of the next pass take nothing away if and only if none is of type "null" and none fails to be configured |
| `BridgeTheorems.SecondPassIsQuiet` | src/bridge.c:1307-1611 | then, if nothing is missing that would not be refused again, the only state another pass can end in is the one it started from, port lists included |
| `BridgeTheorems.PassThenQuiet` | src/bridge.c:1307-1611 | after any pass with any refusals, the same pass again ends where it started, if no such interface got in |
| `BridgeTheorems.NullInterfaceComesAndGoes` | src/bridge.c:5440-5466 | every "null" interface in place is taken out of the datapath by the next pass and is in it afterwards if and only if its creation is not refused |
| `BridgeTheorems.NullInterfaceExample` | src/bridge.c:5440-5466 | one port with one "null" interface makes the next pass do work |
| `BridgeTables.KeepConsistent` | src/bridge.c:5739-5777 | taking away any interfaces, and the ports left empty, keeps ports and interfaces in agreement |
| `BridgeTables.CreateConsistent` | src/bridge.c:2902-2987 | creating an interface keeps it |
| `BridgeEngine.Bridge.constructor` | src/bridge.c:4478-4513 | a new bridge is empty, without a datapath, and its indexes agree |
| `BridgeEngine.Bridge.Unlink` | src/bridge.c:5739-5764 | the interface leaves the list, the name index and the number index; only the list of its port may become empty |
| `BridgeEngine.Bridge.PortDestroy` | src/bridge.c:5468-5487 | the port goes with exactly its interfaces and all indexes agree |
| `BridgeEngine.Bridge.IfaceDestroy` | src/bridge.c:5766-5777 | exactly this interface goes, and its port if it was the last; no port is left empty |
| `BridgeEngine.Bridge.PortDelIfaces` | src/bridge.c:5440-5466 | exactly the interfaces of the port that are not wanted, or are "null", go |
| `BridgeEngine.Bridge.DelPorts` | src/bridge.c:4769-4854 | exactly the interfaces a wanted port lists stay, with the type the database gives them; StaysExact says which get through both deletions |
| `BridgeTheorems.StaysExact` | src/bridge.c:4769-4854 | an interface gets through the deletions, in tables and datapath, if and only if its port is wanted and lists it, it is not of type "null", can be configured, and is in the datapath with the wanted type unless that is not compared; it keeps its port and number, and datapath entry, and has the wanted type |
| `BridgeTheorems.StayInOrder` | src/bridge.c:1308-1444 | the lists of ports keep what stays in order, and a port goes if and only if nothing of it stays |
| `BridgeEngine.Bridge.RetypeAll` | src/bridge.c:4786-4809 | every interface some wanted port lists takes the type of the database, and no other changes |
| `BridgeEngine.Bridge.DeleteOrReconfigure` | src/bridge.c:1307-1576 | tables and datapath keep exactly the interfaces both have, of the same type and configurable, by calls that delete ports of this datapath, and none if nothing is to go |
| `BridgeEngine.Bridge.DropUnusable` | src/bridge.c:1334-1410 | the datapath ports that cannot stay are exactly those listed, by name and by number, and their interfaces are gone |
| `BridgeEngine.Bridge.DeleteNumbers` | src/bridge.c:1411-1413 | deleting by number, one call each, takes out exactly the named ports of this datapath |
| `BridgeEngine.Bridge.DropUnseen` | src/bridge.c:1416-1443 | exactly the interfaces the datapath does not have go, with the ports left empty |
| `BridgeEngine.Bridge.IfaceCreate` | src/bridge.c:2902-2987 | one call puts the interface into the datapath under a number of its own; it is at the end of the list of its port and in all indexes |
| `BridgeEngine.Bridge.AddPorts` | src/bridge.c:1578-1628 | what was there stays, in its place; the new interfaces are exactly the missing wanted ones not refused under some port listing them, each at the end of the list of such a port; the calls add wanted names to this datapath, and there are none if nothing is new |
| `Datapaths.Ofproto.constructor` | src/bridge.c:1259-1278 | the datapaths there are at the start, and no calls |
| `Datapaths.Ofproto.DoCreate` | src/bridge.c:999-1032 | the call is logged and the datapath is there, empty |
| `Datapaths.Ofproto.DoDestroy` | src/bridge.c:1279-1292 | the call is logged and the datapath is gone |
| `Datapaths.Ofproto.DoPortDel` | src/bridge.c:1411-1413 | the call is logged and the datapath has lost the port of that number |
| `Datapaths.Ofproto.DoPortAdd` | src/bridge.c:2868-2880 | the call is logged and the datapath has the port under a number that was free |
| `Datapaths.DeletesBeforeAdds` | src/bridge.c:950-961 | if calls from some point of the log on first only take away, down to what is wanted, and then only add what is wanted, no name is held by two datapaths after any of them |
| `Datapaths.AddBeforeDelete` | src/bridge.c:950-961 | with an addition before the deletion elsewhere a moving name is held twice |
| `Datapaths.HeldAllAlong` | src/bridge.c:950-961 | what is there after calls that add nothing, and is not added again by calls that only add, is there under its number after every one of them, and none of them deletes it or destroys its datapath |
| `SwitchReconfigure.Reconfigure` | src/bridge.c:914-1057 | in the state after every single call made since, which is all the datapaths are, no name is held by two datapaths, also while interfaces move between bridges and VRFs; each bridge and VRF with a datapath has gone through a complete pass, the others are gone, and no other datapath is left; an interface that StaysExact keeps has its port and number in the end, is in its datapath under that number after every call, and no call deletes it; where nothing is to do the only calls destroy strays |
| `SwitchReconfigure.ReconfigureTwice` | src/bridge.c:914-1057 | a second reconfiguration with the same wishes and refusals adds nothing to the log of calls and changes no table, unless a wanted interface is of type "null" or fails to be configured |
| `SwitchReconfigure.TakeAway` | src/bridge.c:914-991 | every table and datapath is brought down to what is wanted by calls that only take away |
| `SwitchReconfigure.DeleteInMemory` | src/bridge.c:914-948 | every bridge and VRF loses what it does not want before any datapath is touched |
| `SwitchReconfigure.DestroyStrays` | src/bridge.c:1259-1295 | exactly the datapaths of no bridge or VRF, or of the wrong type, are destroyed |
| `SwitchReconfigure.IsOwned` | src/bridge.c:1279-1292 | whether a bridge or VRF has that name and type |
| `SwitchReconfigure.DeleteInDatapaths` | src/bridge.c:963-991 | every datapath is brought down to its tables by calls that only take away |
| `SwitchReconfigure.CreateOfprotos` | src/bridge.c:994-1033 | missing datapaths appear where that succeeds; the bridges and VRFs for which it fails are gone, and had nothing |
| `SwitchReconfigure.AddToDatapaths` | src/bridge.c:1034-1058 | every datapath gains exactly the missing interfaces not refused, by calls that only add wanted names it does not have |
| `HwAddr.FindLocalHwAddr` | src/bridge.c:3070-3178 | the address is the least among those representing ports that are unicast, universal, not on the list of reserved ones and not zero, and comes with an interface it was taken from; or it is the default without one |
| `HwAddr.OneChoice` | src/bridge.c:3070-3178 | the order in which ports are looked at does not matter for the address |
| `HwAddr.Representative` | src/bridge.c:3109-3155 | a port is represented by its configured address or that of its first interface, unless that is the local port or has none or the port is not in the VLAN of the fake bridge; the first interface exists |
| `HwAddr.Owner` | src/bridge.c:3111-3120 | the interface reported for a configured address is the last of the port whose device has it, if any |
| `HwAddr.First` | src/bridge.c:3122-3132 | the interface found comes first in alphabetical order |
| `HwAddr.OneFirst` | src/bridge.c:3122-3132 | only one interface does |
| `HwAddr.LessExact` | src/bridge.c:3122-3132 | a name comes before another if and only if at the first difference it has ended or has the smaller character |
| `HwAddr.OctetsExact` | src/bridge.c:3157-3168 | multicast and local addresses are told by the low bits of the first octet, and addresses compare from the first octet on |
| `Paths.EqualPathnames` | src/bridge.c:4943-4971 | terminates; with a stop beyond the second path it is true if and only if both are equal after collapsing runs of slashes; with a stop within it, if and only if what precedes the stop collapses to a prefix |
| `Paths.CollapsePlain` | src/bridge.c:4943-4971 | a path without repeated slashes is what it collapses to |
| `Paths.CollapseMerges` | src/bridge.c:4943-4971 | leaving out a slash before another does not change what a path collapses to |
| `Vlans.ConfiguredExact` | src/bridge.c:5338-5416 | from a table that mirrors the old rows a pass mirrors the new ones if and only if VLANs that stay keep their VID; and it enables the wanted VIDs if and only if those that enabled VLANs came with are the wanted ones |
| `Vlans.HardwareExact` | src/bridge.c:5338-5416 | in hardware exactly the wanted VIDs are enabled, in every order of the VLANs, if and only if no VID is both switched on and off and those enabled before, less the leaving and disabled, with the newly enabled, are them |
| `Vlans.StableHardware` | src/bridge.c:5338-5416 | so it is with distinct VIDs that stay as they are, also when one name goes and another comes with its VID |
| `Vlans.TableIsHardware` | src/bridge.c:5338-5416 | where no two VLANs have one VID, before and after, the hardware has exactly the enabled VIDs of the table |
| `Vlans.ChangedVidGoesUnnoticed` | src/bridge.c:5374-5381 | an enabled VLAN that keeps its name and gets another VID does not have it enabled in table or hardware |
| `Vlans.EveryPassExact` | src/bridge.c:5338-5416 | after any number of passes the VIDs enabled in table and hardware are those the last rows ask for |
| `Vlans.Bridge.constructor` | src/bridge.c:4478-4513 | a new bridge has no VLANs, none enabled |
| `Vlans.Bridge.ConfigureVlans` | src/bridge.c:5338-5416 | the table becomes that of the three loops, and the hardware one that Programmed allows: what is switched on or off only is, what is not switched stays less what left |
| `Vlans.Bridge.DeleteOld` | src/bridge.c:5356-5372 | VLANs without a row go, and their VIDs from the hardware |
| `Vlans.Bridge.AddNew` | src/bridge.c:5374-5381 | VLANs with a new name appear, disabled |
| `Vlans.Bridge.CheckChanges` | src/bridge.c:5383-5413 | flagged VLANs are enabled as their rows say in the table, and switched in hardware where that differs |
| `Vlans.CollectedExact` | src/bridge.c:5346-5354 | of several rows with one name the first counts |
| `Vlans.VlanExact` | src/bridge.c:5338-5416 | after a pass a VLAN is there if and only if some row has its name, with the VID it had or that of the first such row; enabled as that row says if it is flagged, else as it was |
| `StatusUpdates.NothingLost` | src/bridge.c:4020-4144 | in every reachable state a status transaction is in flight, a retry is pending, nothing was recorded, or the last success started from the recorded number; the process sleeps on that number only when the current one is covered |
| `StatusUpdates.AsleepUpToDate` | src/bridge.c:4020-4144 | unless a reconfiguration failed at a risky moment, the database then has the status of every device |
| `StatusUpdates.FailedReconfigurationExact` | src/bridge.c:4282-4298 | interfaces created by a reconfiguration that fails to commit always get their status written if and only if no status transaction is in flight and it is not the first without a retry pending |
| `StatusUpdates.LostForGood` | src/bridge.c:4282-4298 | otherwise two successful updates lead to sleep without it |
| `StatusUpdates.LostExample` | src/bridge.c:4282-4298 | a failed reconfiguration during the first update loses the status of its interface |
| `StatusUpdates.CoveredRun` | src/bridge.c:4020-4095 | every run keeps the relation between recorded number, transaction, retry and last success |
| `StatusUpdates.RunKeeps` | src/bridge.c:4020-4095 | runs without such a failure keep besides that what was seen is in the database or on its way there |
| `StatusUpdates.Updater.constructor` | src/bridge.c:208-239 | nothing is recorded, in flight or pending |
| `StatusUpdates.Updater.RunStatusUpdate` | src/bridge.c:4020-4095 | one step of the machine, keeping its invariants; UpdateOutcome says what that is |
| `StatusUpdates.UpdateOutcome` | src/bridge.c:4020-4095 | a transaction begins if and only if none is in flight and the number moved or a retry is pending; on success exactly what it has is written and the retry is over, on an error a retry is pending, on neither it stays in flight |
| `StatusUpdates.TwoSuccessesSettle` | src/bridge.c:4020-4095 | from any reachable state two successful updates put the process to sleep, with everything written |
| `StatusUpdates.Updater.Refresh` | src/bridge.c:3292-3311 | of the interfaces it does not skip, exactly those whose device changed, or all on a retry, are written; those count as seen |
| `StatusUpdates.Updater.Wait` | src/bridge.c:4123-4144 | it waits for nothing if and only if the lock is not held, for the transaction if and only if one is in flight, for the timer if and only if none is and a retry is pending, and otherwise for the recorded sequence number; that is the current one if and only if nothing is left to do, and then the last success covers it |
| `StatsMailbox.EverySnapshotAccountedFor` | src/system-stats.c:538-642 | over all interleavings of both threads every published snapshot was delivered once, discarded once or is in the slot; each delivered one was the latest and published after statistics were last enabled |
| `StatsMailbox.CollectedSinceExact` | src/system-stats.c:538-642 | when statistics are enabled, in any reachable state, nothing whose collection began before is handed out afterwards by any run, if and only if the worker is not in the middle of a collection |
| `StatsMailbox.CollectedEarlier` | src/system-stats.c:616-634 | otherwise the worker publishes it and the next call hands it out |
| `StatsMailbox.CollectedEarlierExample` | src/system-stats.c:616-634 | statistics disabled during a collection and enabled again hand out what was begun under the first enabling |
| `StatsMailbox.RunKeeps` | src/system-stats.c:538-642 | every interleaving keeps the account of snapshots |
| `StatsMailbox.WhatBecomesOfIt` | src/system-stats.c:566-634 | a published snapshot stays until it is taken, handed out if and only if statistics are enabled by then, or discarded when another is published or statistics are enabled first |
| `StatsMailbox.Mailbox.constructor` | src/system-stats.c:527-532 | statistics are off and the slot is empty |
| `StatsMailbox.Mailbox.SystemStatsEnable` | src/system-stats.c:538-556 | one step of the machine: enabling discards what is in the slot |
| `StatsMailbox.Mailbox.SystemStatsRun` | src/system-stats.c:566-585 | what is handed out is the latest snapshot, published since statistics were enabled; a disabled slot is emptied |
| `StatsMailbox.Mailbox.DiscardStats` | src/system-stats.c:597-605 | the slot is emptied into the discarded ones |
| `StatsMailbox.Mailbox.ThreadCheck` | src/system-stats.c:616-620 | one step of the machine: a collection begins |
| `StatsMailbox.Mailbox.ThreadPublish` | src/system-stats.c:630-634 | one step of the machine: the previous snapshot is discarded and the new one in the slot |
| `BufferMonitor.RatesAreLimited` | src/bufmon.c:523-601 | for every clock that goes forward, every sequence of wake-ups and every period: processed triggers at least 100 ms apart, resets more than 60 s apart, at most the limit between resets and twice the limit in any minute |
| `BufferMonitor.CollectionsAreSpaced` | src/bufmon.c:285-323 | with no interval under five seconds every periodic collection is at least five seconds after any collection before it |
| `BufferMonitor.AtMostTwice` | src/bufmon.c:561-596 | resets more than a minute apart and at most the limit between them give at most twice the limit in a minute |
| `BufferMonitor.IntervalExact` | src/bufmon.c:314 | the poll interval is the period in milliseconds if and only if the product fits in 32 bits |
| `BufferMonitor.SpacingExact` | src/bufmon.c:285-323 | under a period the five seconds hold for every clock and all wake-ups if and only if the product cut to 32 bits is not under five seconds |
| `BufferMonitor.ShortInterval` | src/bufmon.c:314 | 4294968 seconds are polled every 704 milliseconds |
| `BufferMonitor.ConfiguredPeriod` | src/bufmon.c:350-356 | the period is what is asked for or five seconds, whichever is more |
| `BufferMonitor.Monitor.constructor` | src/bufmon.c:527-532 | as the thread starts |
| `BufferMonitor.Monitor.Trigger` | src/bufmon.c:561-577 | a notification is counted, and taken up if and only if the limit is not passed and 100 ms are over |
| `BufferMonitor.Monitor.Timeout` | src/bufmon.c:578-596 | the count starts again if and only if more than 60 s are over; ThreadExplained says when, and what that means for later notifications |
| `BufferMonitor.Monitor.RunStatsUpdate` | src/bufmon.c:285-323 | counters are collected if and only if monitoring is on and this was a trigger that counts, or periodic collection is on and due |
| `BufferMonitor.Monitor.AwaitCollection` | src/bufmon.c:551-597 | the inner loop consumes wake-ups as the whole thread does, up to one that may collect |
| `BufferMonitor.Monitor.StatsThread` | src/bufmon.c:523-601 | the loops compute what Thread computes over the wake-ups, so its log has the distances and limits |
| `BufferHistory.ThreadExplained` | src/bufmon.c:523-601 | for any wake-ups and any clock, told from the wake-ups alone: a notification is in the log as processed if and only if at most the limit of notifications came since the last reset, it included, and 100 ms are over since the last one processed; the count is reset if and only if the timer fires more than 60 s after the last reset; counters are collected if and only if a processed notification asks for it or the period is over; and triggers are disabled if and only if one was turned down since the last reset |
| `BufferHistory.ExplainedOnce` | src/bufmon.c:523-601 | what came of the wake-ups is determined by that |
| `BufferHistory.NotifiedMore` | src/bufmon.c:561-596 | how the number of notifications since the last reset grows and starts again |
| `Callbacks.InsertNode` | plugins/reconfigure-blocks.c:85-124 | into a stable sort of what was registered the walk always finds a place, so the error at its end is never returned, and the list is again the stable sort |
| `Callbacks.OneStableSort` | plugins/reconfigure-blocks.c:85-124 | there is only one stable sort of a history |
| `Callbacks.Blocks.constructor` | plugins/reconfigure-blocks.c:33-34 | nothing is registered |
| `Callbacks.Blocks.Init` | plugins/reconfigure-blocks.c:126-142 | every block has a list |
| `Callbacks.Blocks.Register` | plugins/reconfigure-blocks.c:44-80 | accepted if and only if there is a handler and the block exists; each list stays the stable sort of all accepted registrations |
| `Callbacks.Blocks.Execute` | plugins/reconfigure-blocks.c:147-184 | each registered callback is called once, in stable order of priority; none in an error |
| `PluginInit.Initialize` | plugins/plugins.c:130-185 | every plugin with an init function has phases 0 to n-1 in order, n being the times it is listed or 1; others none; a phase is how often the plugin was initialized before; listed calls come first in list order and no listed plugin after them |
| `PluginInit.InitListed` | plugins/plugins.c:142-166 | after the listed ones each plugin has been through as many phases as it was listed |
| `PluginInit.PhasesExact` | plugins/plugins.c:142-166 | phases that count from zero for each plugin are how often it was initialized before |
| `PluginInit.ListedExact` | plugins/plugins.c:142-166 | the listed plugins are the list, in order, without what cannot be initialized |

## Left out

- L3Engine.Vrf.OfprotoRouteAdd: the error status written back to the database for each nexthop is not modelled.
- BufferMonitor.Monitor.Trigger: the count of notifications is unbounded, where the code has an `int`.
- SwitchReconfigure.Reconfigure: port collection, bundles, mirrors, QoS, sFlow, bridge addresses and plugin callbacks of `bridge_reconfigure` are not modelled.
- StatsMailbox.Mailbox.SystemStatsEnable: starting the thread, the latch and the condition variable are not modelled; each critical section is one step.
- RouteReconfigure.ReconfigureRoutes: for two selected routes of one prefix only cache and index are followed; DeleteRouteExact says exactly when deleting one loses the other.
- NeighborReconfigure.ReconfigureNeighbors: for a programmed neighbor whose port is gone only the cache is followed; DeleteNeighborExact, ModifyNeighborExact and ModifyHostExact say exactly when provider and cache part.
- ECMP hash configuration, the fixed-size nexthop array, and the address family of routes and neighbors.
- Hit bits of neighbors, neighbor deletion with a port or a VRF, and cleanup when a VRF is destroyed (src/vrf.c:928-931).
- Bridge and VRF names with a slash, which the filter and the add loop treat differently (src/bridge.c:2700, src/bridge.c:2721).
- Loss of the database lock, which destroys all bridges (src/bridge.c:4188-4214).
- Buffer monitor counter lists, whose count and copy loops differ (src/bufmon.c:122, src/bufmon.c:177).
- `src/subsystem.c`, plugin loading and YAML parsing, the MAC learning plugin, the command line, statistics copying: wrappers and single-branch code.
- Code under `#ifndef OPS_TEMP`, which this build does not compile; memory management and logging.
- The run and stats callback lists, which repeat the reconfigure ones.
