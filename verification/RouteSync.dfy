/**
vrf_reconfigure_routes and vrf_reconfigure_nexthops (src/vrf.c) as functions of
the cache and of the change flags, compared with building the cache anew from
the database.
*/
module RouteSync {
  import opened Common
  import opened L3Tables

  type Uuid = nat

  datatype RouteRow = RouteRow(vrf: string, key: RouteKey, selected: Option<bool>, nexthops: seq<Uuid>) {
    /** Only if the column says so. */
    predicate Selected() { selected == Some(true) }
  }

  datatype Db = Db(routes: map<Uuid, RouteRow>, nexthops: map<Uuid, NexthopRow>)

  /** What the database layer reports about one batch of changes. */
  datatype Changes = Changes(
    inserted: set<Uuid>, modified: set<Uuid>, anyDeleted: bool,
    nhInserted: set<Uuid>, nhModified: set<Uuid>)

  /** The cache, each route with the set of its nexthops. */
  type View = map<RouteKey, set<Nexthop>>

  function NexthopSet(m: multiset<Nexthop>): set<Nexthop> {
    set nh | nh in m
  }

  function ViewOf(routes: Routes): View {
    map k | k in routes :: NexthopSet(routes[k])
  }

  /** References are intact and a VRF has one row for each protocol and prefix. */
  ghost predicate WellFormed(db: Db) {
    && (forall u, id :: u in db.routes && id in db.routes[u].nexthops ==> id in db.nexthops)
    && (forall u, u' :: u in db.routes && u' in db.routes && u != u' && db.routes[u].vrf == db.routes[u'].vrf ==>
          db.routes[u].key != db.routes[u'].key)
  }

  function NexthopRows(db: Db, u: Uuid): seq<NexthopRow>
    requires WellFormed(db) && u in db.routes
  {
    var ids := db.routes[u].nexthops;
    seq(|ids|, i requires 0 <= i < |ids| => assert ids[i] in ids; db.nexthops[ids[i]])
  }

  /** The rows the cache of `vrf` should hold. */
  predicate Live(db: Db, vrf: string, u: Uuid) {
    u in db.routes && db.routes[u].Selected() && db.routes[u].vrf == vrf
  }

  function LiveRows(db: Db, vrf: string): set<Uuid> {
    set u | u in db.routes && Live(db, vrf, u)
  }

  function LiveKeys(db: Db, vrf: string): set<RouteKey> {
    set u | u in LiveRows(db, vrf) :: db.routes[u].key
  }

  ghost function RowOf(db: Db, vrf: string, k: RouteKey): (u: Uuid)
    requires k in LiveKeys(db, vrf)
    ensures Live(db, vrf, u) && db.routes[u].key == k
  {
    var u :| Live(db, vrf, u) && db.routes[u].key == k; u
  }

  /** The cache built from scratch. */
  ghost function Rebuild(db: Db, vrf: string): View
    requires WellFormed(db)
  {
    map k | k in LiveKeys(db, vrf) :: Wanted(NexthopRows(db, RowOf(db, vrf, k)))
  }

  lemma RebuildKeys(db: Db, vrf: string)
    requires WellFormed(db)
    ensures Rebuild(db, vrf).Keys == LiveKeys(db, vrf)
  {
  }

  lemma RebuildAt(db: Db, vrf: string, u: Uuid)
    requires WellFormed(db) && Live(db, vrf, u)
    ensures db.routes[u].key in Rebuild(db, vrf)
    ensures Rebuild(db, vrf)[db.routes[u].key] == Wanted(NexthopRows(db, u))
  {
    assert u in LiveRows(db, vrf);
    var k := db.routes[u].key;
    assert RowOf(db, vrf, k) == u;
  }

  // ----- change flags -----

  /** The flags cover the difference; the key and the VRF of a route row are immutable. */
  ghost predicate Reported(was: Db, now: Db, c: Changes) {
    && c.inserted == now.routes.Keys - was.routes.Keys
    && (c.anyDeleted <==> was.routes.Keys - now.routes.Keys != {})
    && (forall u :: u in was.routes && u in now.routes ==>
          && was.routes[u].key == now.routes[u].key && was.routes[u].vrf == now.routes[u].vrf
          && (was.routes[u] != now.routes[u] ==> u in c.modified))
    && c.nhInserted == now.nexthops.Keys - was.nexthops.Keys
    && (forall id :: id in was.nexthops && id in now.nexthops && was.nexthops[id] != now.nexthops[id] ==>
          id in c.nhModified)
    && c.modified <= now.routes.Keys && c.nhModified <= now.nexthops.Keys
  }

  /** Rows of `vrf` the modify pass looks at. */
  function ModifiedRows(db: Db, vrf: string, c: Changes): set<Uuid> {
    set u | u in db.routes && db.routes[u].vrf == vrf && u in c.modified && u !in c.inserted
  }

  /** is_route_nh_rows_modified. */
  predicate NexthopTouched(db: Db, c: Changes, u: Uuid) {
    u in db.routes && exists id :: id in db.routes[u].nexthops && id in c.nhModified && id !in c.nhInserted
  }

  /** Rows the nexthop pass looks at, of whatever VRF. */
  function TouchedRows(db: Db, c: Changes): set<Uuid> {
    set u | u in db.routes && NexthopTouched(db, c, u)
  }

  function KeysOf(db: Db, rows: set<Uuid>): set<RouteKey>
    requires rows <= db.routes.Keys
  {
    set u | u in rows :: db.routes[u].key
  }

  // ----- the key under which database rows are collected -----

  const HASH_MAX := 63    // VRF_ROUTE_HASH_MAXSIZE less the terminator

  /** vrf_route_hash. */
  function RouteHash(k: RouteKey): string {
    var s := k.from + ":" + k.prefix;
    if |s| <= HASH_MAX then s else s[..HASH_MAX]
  }

  /** Rows are told apart by their keys if no protocol name has a colon and nothing is cut off. */
  lemma HashInjective(k: RouteKey, k': RouteKey)
    requires ':' !in k.from && ':' !in k'.from
    requires |k.from| + 1 + |k.prefix| <= HASH_MAX && |k'.from| + 1 + |k'.prefix| <= HASH_MAX
    requires RouteHash(k) == RouteHash(k')
    ensures k == k'
  {
    var s := RouteHash(k);
    assert s[|k.from|] == ':' && s[|k'.from|] == ':';
    assert forall i :: 0 <= i < |k.from| ==> s[i] == k.from[i];
    assert forall i :: 0 <= i < |k'.from| ==> s[i] == k'.from[i];
    assert k.from == s[..|k.from|] && k'.from == s[..|k'.from|];
    assert k.prefix == s[|k.from| + 1..] && k'.prefix == s[|k'.from| + 1..];
  }

  /** With a colon in the protocol name they are not. */
  lemma ColonCollides(a: string, b: string, c: string)
    ensures RouteHash(RouteKey(a + ":" + b, c)) == RouteHash(RouteKey(a, b + ":" + c))
  {
    assert a + ":" + b + ":" + c == a + ":" + (b + ":" + c);
  }

  /** Nor are prefixes that differ only beyond the cut. */
  lemma LongCollides(from: string, common: string, a: string, b: string)
    requires |from| + 1 + |common| >= HASH_MAX
    ensures RouteHash(RouteKey(from, common + a)) == RouteHash(RouteKey(from, common + b))
  {
    var head := from + ":" + common;
    assert from + ":" + (common + a) == head + a && from + ":" + (common + b) == head + b;
    assert (head + a)[..HASH_MAX] == head[..HASH_MAX] == (head + b)[..HASH_MAX];
    assert |head + a| == HASH_MAX ==> head + a == (head + a)[..HASH_MAX];
    assert |head + b| == HASH_MAX ==> head + b == (head + b)[..HASH_MAX];
  }

  ghost predicate HashesApart(keys: set<RouteKey>) {
    forall k, k' :: k in keys && k' in keys && RouteHash(k) == RouteHash(k') ==> k == k'
  }

  /** Protocol names without a colon and keys that fit are enough. */
  lemma ShortKeysApart(keys: set<RouteKey>)
    requires forall k :: k in keys ==> ':' !in k.from && |k.from| + 1 + |k.prefix| <= HASH_MAX
    ensures HashesApart(keys)
  {
    forall k, k' | k in keys && k' in keys && RouteHash(k) == RouteHash(k') ensures k == k' {
      HashInjective(k, k');
    }
  }

  function Strings(keys: set<RouteKey>): set<string> {
    set k | k in keys :: RouteHash(k)
  }

  /** `found` has one of the keys in `live` for each of their strings. */
  ghost predicate Chosen(live: set<RouteKey>, found: set<RouteKey>) {
    found <= live && HashesApart(found) && Strings(found) == Strings(live)
  }

  /** All keys are found if and only if their strings are distinct. */
  lemma FoundExact(live: set<RouteKey>, found: set<RouteKey>)
    requires Chosen(live, found)
    ensures found == live <==> HashesApart(live)
  {
    if HashesApart(live) {
      forall k | k in live ensures k in found {
        assert RouteHash(k) in Strings(live);
        var k' :| k' in found && RouteHash(k') == RouteHash(k);
      }
    }
  }

  lemma {:induction false} SomeChoice(live: set<RouteKey>) returns (found: set<RouteKey>)
    ensures Chosen(live, found)
  {
    found := {};
    if live != {} {
      var k :| k in live;
      var f := SomeChoice(live - {k});
      assert Strings(live) == Strings(live - {k}) + {RouteHash(k)} by { assert live == live - {k} + {k}; }
      if RouteHash(k) in Strings(f) {
        found := f;
      } else {
        found := f + {k};
        assert Strings(found) == Strings(f) + {RouteHash(k)};
      }
    }
  }

  // ----- the passes -----

  function Restrict(v: View, keys: set<RouteKey>): View {
    map k | k in v && k in keys :: v[k]
  }

  /** A cached route stays if its string is that of a row that was found. */
  function AfterDelete(v: View, found: set<RouteKey>, c: Changes): View {
    if c.anyDeleted then map k | k in v && RouteHash(k) in Strings(found) :: v[k] else v
  }

  function AfterInsert(v: View, want: View, found: set<RouteKey>, c: Changes): View {
    if c.inserted != {} then Restrict(want, found) + v else v
  }

  function AfterModify(v: View, want: View, keys: set<RouteKey>): View {
    (v - keys) + Restrict(want, keys)
  }

  /** The three passes over the Route table, `keys` being those of modified rows. */
  function ThreePasses(v: View, want: View, found: set<RouteKey>, keys: set<RouteKey>, c: Changes): View {
    AfterModify(AfterInsert(AfterDelete(v, found, c), want, found, c), want, keys)
  }

  ghost function RoutesPass(v: View, db: Db, vrf: string, c: Changes, found: set<RouteKey>): View
    requires WellFormed(db)
  {
    if db.routes == map[] then map[]
    else ThreePasses(v, Rebuild(db, vrf), found, KeysOf(db, ModifiedRows(db, vrf, c)), c)
  }

  /** The nexthop pass at one row. */
  function TouchOne(v: View, db: Db, u: Uuid): View
    requires WellFormed(db) && u in db.routes
  {
    if db.routes[u].key in v then v[db.routes[u].key := Wanted(NexthopRows(db, u))] else v
  }

  /** The nexthop pass over touched rows, in the order they come. */
  function TouchAll(v: View, db: Db, order: seq<Uuid>): View
    requires WellFormed(db) && forall u :: u in order ==> u in db.routes
  {
    if order == [] then v else TouchOne(TouchAll(v, db, order[..|order| - 1]), db, order[|order| - 1])
  }

  /** `order` is one in which the rows may come, each once. */
  ghost predicate Enumerates(order: seq<Uuid>, rows: set<Uuid>) {
    && (forall u :: u in order <==> u in rows)
    && (forall i, j :: 0 <= i < j < |order| ==> order[i] != order[j])
  }

  lemma {:induction false} SomeOrder(rows: set<Uuid>) returns (order: seq<Uuid>)
    ensures Enumerates(order, rows)
  {
    order := [];
    if rows != {} {
      var u :| u in rows;
      order := SomeOrder(rows - {u});
      order := order + [u];
    }
  }

  /** No touched row, of this VRF or another, asks for other nexthops than the live row of its key. */
  ghost predicate NotMistaken(db: Db, vrf: string, c: Changes)
    requires WellFormed(db)
  {
    forall u :: u in TouchedRows(db, c) && db.routes[u].key in LiveKeys(db, vrf) ==>
      Wanted(NexthopRows(db, u)) == Rebuild(db, vrf)[db.routes[u].key]
  }

  ghost predicate KeyTouched(db: Db, c: Changes, k: RouteKey) {
    exists u :: u in TouchedRows(db, c) && db.routes[u].key == k
  }

  /** A route has what some touched row of its key asks for, or else what it had. */
  lemma {:induction false} TouchAllAt(v: View, db: Db, order: seq<Uuid>, k: RouteKey)
    requires WellFormed(db) && (forall u :: u in order ==> u in db.routes) && k in v
    ensures TouchAll(v, db, order).Keys == v.Keys
    ensures
      || (TouchAll(v, db, order)[k] == v[k] && forall u :: u in order ==> db.routes[u].key != k)
      || exists u :: u in order && db.routes[u].key == k && TouchAll(v, db, order)[k] == Wanted(NexthopRows(db, u))
  {
    if order != [] {
      TouchAllAt(v, db, order[..|order| - 1], k);
    }
  }

  lemma {:induction false} TouchAllKeys(v: View, db: Db, order: seq<Uuid>)
    requires WellFormed(db) && forall u :: u in order ==> u in db.routes
    ensures TouchAll(v, db, order).Keys == v.Keys
  {
    if order != [] {
      TouchAllKeys(v, db, order[..|order| - 1]);
    }
  }

  lemma TouchAllLast(v: View, db: Db, order: seq<Uuid>, u: Uuid)
    requires WellFormed(db) && (forall r :: r in order ==> r in db.routes) && u in db.routes && db.routes[u].key in v
    ensures
      var got := TouchAll(v, db, order + [u]);
      got.Keys == v.Keys && got[db.routes[u].key] == Wanted(NexthopRows(db, u))
  {
    TouchAllKeys(v, db, order);
    assert (order + [u])[..|order|] == order;
  }

  /** What no touched row concerns is already as it should be. */
  ghost predicate RestRight(v: View, db: Db, vrf: string, c: Changes)
    requires WellFormed(db)
  {
    forall k :: k in v && k in LiveKeys(db, vrf) && !KeyTouched(db, c, k) ==> v[k] == Rebuild(db, vrf)[k]
  }

  /** The nexthop pass, in one order, when no row is mistaken for another. */
  lemma TouchedExact(v: View, db: Db, vrf: string, c: Changes, order: seq<Uuid>)
    requires WellFormed(db) && v.Keys == LiveKeys(db, vrf) && NotMistaken(db, vrf, c)
    requires Enumerates(order, TouchedRows(db, c))
    ensures TouchAll(v, db, order) == Rebuild(db, vrf) <==> RestRight(v, db, vrf, c)
  {
    hide Rebuild, TouchAll;
    var got, want := TouchAll(v, db, order), Rebuild(db, vrf);
    RebuildKeys(db, vrf);
    TouchAllKeys(v, db, order);
    forall k | k in v ensures got[k] == if KeyTouched(db, c, k) then want[k] else v[k] {
      TouchAllAt(v, db, order, k);
    }
    if RestRight(v, db, vrf, c) {
      assert forall k :: k in want ==> got[k] == want[k];
    } else {
      var k :| k in v && k in LiveKeys(db, vrf) && !KeyTouched(db, c, k) && v[k] != want[k];
      assert got[k] != want[k];
    }
  }

  /** The nexthop pass ends with the cache of a rebuild, in whatever order the rows come. */
  ghost predicate AlwaysRebuilt(v: View, db: Db, vrf: string, c: Changes)
    requires WellFormed(db)
  {
    forall order :: Enumerates(order, TouchedRows(db, c)) ==> TouchAll(v, db, order) == Rebuild(db, vrf)
  }

  /**
  The nexthop pass looks at the rows of every VRF.  In every order of the rows it
  ends with the cache of a rebuild, if and only if no touched row asks for other
  nexthops than the live row of its key and the other routes were right before.
  */
  lemma EveryOrderExact(v: View, db: Db, vrf: string, c: Changes)
    requires WellFormed(db) && v.Keys == LiveKeys(db, vrf)
    ensures AlwaysRebuilt(v, db, vrf, c) <==> NotMistaken(db, vrf, c) && RestRight(v, db, vrf, c)
  {
    hide Rebuild, TouchAll, RestRight, NotMistaken, LiveKeys;
    if NotMistaken(db, vrf, c) {
      forall order | Enumerates(order, TouchedRows(db, c))
        ensures TouchAll(v, db, order) == Rebuild(db, vrf) <==> RestRight(v, db, vrf, c)
      {
        TouchedExact(v, db, vrf, c, order);
      }
      var order := SomeOrder(TouchedRows(db, c));
      assert TouchAll(v, db, order) == Rebuild(db, vrf) <==> RestRight(v, db, vrf, c);
    } else {
      Mistaken(v, db, vrf, c);
    }
  }

  /** The order in which the mistaken row comes last. */
  lemma Mistaken(v: View, db: Db, vrf: string, c: Changes)
    requires WellFormed(db) && v.Keys == LiveKeys(db, vrf) && !NotMistaken(db, vrf, c)
    ensures !AlwaysRebuilt(v, db, vrf, c)
  {
    hide Rebuild, TouchAll;
    RebuildKeys(db, vrf);
    var u :| u in TouchedRows(db, c) && db.routes[u].key in LiveKeys(db, vrf) &&
      Wanted(NexthopRows(db, u)) != Rebuild(db, vrf)[db.routes[u].key];
    var order := SomeOrder(TouchedRows(db, c) - {u});
    assert Enumerates(order + [u], TouchedRows(db, c));
    TouchAllLast(v, db, order, u);
  }

  /** For instance a nexthop of a route of another VRF that has the same protocol and prefix. */
  lemma TakenForAnother(k: RouteKey, ip: string, ip': string)
    requires ip != ip'
    ensures
      var db := Db(
        map[1 := RouteRow("red", k, Some(true), [10]), 2 := RouteRow("blue", k, Some(true), [11])],
        map[10 := NexthopRow(Some(ip), None, None), 11 := NexthopRow(Some(ip'), None, None)]);
      var c := Changes({}, {}, false, {}, {11});
      WellFormed(db) && !AlwaysRebuilt(Rebuild(db, "red"), db, "red", c)
  {
    hide Rebuild, AlwaysRebuilt, LiveKeys;
    var db := Db(
      map[1 := RouteRow("red", k, Some(true), [10]), 2 := RouteRow("blue", k, Some(true), [11])],
      map[10 := NexthopRow(Some(ip), None, None), 11 := NexthopRow(Some(ip'), None, None)]);
    var c := Changes({}, {}, false, {}, {11});
    assert "red"[0] != "blue"[0];
    assert 11 in db.routes[2].nexthops && 2 in TouchedRows(db, c);
    OneNexthop(db, 1, ip);
    OneNexthop(db, 2, ip');
    RebuildAt(db, "red", 1);
    RebuildKeys(db, "red");
    assert ByIp(ip) != ByIp(ip') && !NotMistaken(db, "red", c);
    Mistaken(Rebuild(db, "red"), db, "red", c);
  }

  // ----- incremental against rebuild -----

  /** A live row that was inserted in this batch although its key was cached already. */
  ghost predicate Reinserted(v: View, db: Db, vrf: string, c: Changes, u: Uuid) {
    Live(db, vrf, u) && u in c.inserted && db.routes[u].key in v
  }

  /** Reinserted rows still ask for what is cached, or the nexthop pass deals with their key. */
  ghost predicate NoStaleReinsertion(v: View, db: Db, vrf: string, c: Changes)
    requires WellFormed(db)
  {
    forall u :: Reinserted(v, db, vrf, c, u) && !KeyTouched(db, c, db.routes[u].key) ==>
      v[db.routes[u].key] == Wanted(NexthopRows(db, u))
  }

  /**
  From a cache equal to the old database, whose keys and those of the new one have
  distinct strings, the two passes leave exactly the routes of the new database.
  They leave exactly what a rebuild would, in every order of the rows, if and only
  if no row was replaced by a new one of the same key that asks for something else,
  and no row of another VRF with a changed nexthop is mistaken for one of this.
  */
  lemma SyncExact(was: Db, now: Db, vrf: string, c: Changes, found: set<RouteKey>)
    requires WellFormed(was) && WellFormed(now) && Reported(was, now, c)
    requires Chosen(LiveKeys(now, vrf), found) && HashesApart(LiveKeys(was, vrf) + LiveKeys(now, vrf))
    ensures
      var v := Rebuild(was, vrf);
      && RoutesPass(v, now, vrf, c, found).Keys == Rebuild(now, vrf).Keys
      && (AlwaysRebuilt(RoutesPass(v, now, vrf, c, found), now, vrf, c) <==>
            NoStaleReinsertion(v, now, vrf, c) && NotMistaken(now, vrf, c))
  {
    var v1 := RoutesPass(Rebuild(was, vrf), now, vrf, c, found);
    RightRoutes(was, now, vrf, c, found);
    RebuildKeys(now, vrf);
    RestExact(was, now, vrf, c, found);
    EveryOrderExact(v1, now, vrf, c);
  }

  /** After the three passes the routes that no touched row concerns are right, unless a row was replaced. */
  lemma RestExact(was: Db, now: Db, vrf: string, c: Changes, found: set<RouteKey>)
    requires WellFormed(was) && WellFormed(now) && Reported(was, now, c)
    requires Chosen(LiveKeys(now, vrf), found) && HashesApart(LiveKeys(was, vrf) + LiveKeys(now, vrf))
    ensures RestRight(RoutesPass(Rebuild(was, vrf), now, vrf, c, found), now, vrf, c) <==>
      NoStaleReinsertion(Rebuild(was, vrf), now, vrf, c)
  {
    hide RoutesPass, Rebuild;
    var v, v1 := Rebuild(was, vrf), RoutesPass(Rebuild(was, vrf), now, vrf, c, found);
    RightRoutes(was, now, vrf, c, found);
    forall u | Live(now, vrf, u) && !KeyTouched(now, c, now.routes[u].key)
      ensures PassedAt(v, v1, now, vrf, c, u)
    {
      RightNexthops(was, now, vrf, c, found, u);
    }
    RestEverywhere(v, v1, now, vrf, c);
  }

  /** What the three passes leave of the row `u`, whose key is not touched. */
  ghost predicate PassedAt(v: View, got: View, db: Db, vrf: string, c: Changes, u: Uuid)
    requires WellFormed(db) && Live(db, vrf, u)
  {
    var k := db.routes[u].key;
    k in got && got[k] == if Reinserted(v, db, vrf, c, u) then v[k] else Wanted(NexthopRows(db, u))
  }

  lemma RestEverywhere(v: View, got: View, db: Db, vrf: string, c: Changes)
    requires WellFormed(db) && got.Keys == LiveKeys(db, vrf)
    requires forall u :: Live(db, vrf, u) && !KeyTouched(db, c, db.routes[u].key) ==> PassedAt(v, got, db, vrf, c, u)
    ensures RestRight(got, db, vrf, c) <==> NoStaleReinsertion(v, db, vrf, c)
  {
    if NoStaleReinsertion(v, db, vrf, c) {
      forall k | k in got && !KeyTouched(db, c, k) ensures got[k] == Rebuild(db, vrf)[k] {
        var u := RowOf(db, vrf, k);
        assert PassedAt(v, got, db, vrf, c, u);
        RebuildAt(db, vrf, u);
      }
    } else {
      var u :| Reinserted(v, db, vrf, c, u) && !KeyTouched(db, c, db.routes[u].key) &&
        v[db.routes[u].key] != Wanted(NexthopRows(db, u));
      assert PassedAt(v, got, db, vrf, c, u);
      RebuildAt(db, vrf, u);
    }
  }

  /** With distinct strings all rows are found, and cached routes stay exactly if they are wanted. */
  lemma ApartPasses(v: View, want: View, found: set<RouteKey>, c: Changes)
    requires HashesApart(v.Keys + want.Keys) && Chosen(want.Keys, found)
    ensures found == want.Keys
    ensures AfterDelete(v, found, c) == if c.anyDeleted then Restrict(v, want.Keys) else v
    ensures AfterInsert(v, want, found, c) == if c.inserted != {} then want + v else v
  {
    FoundExact(want.Keys, found);
    forall k | k in v && RouteHash(k) in Strings(found) ensures k in want {
      var k' :| k' in found && RouteHash(k') == RouteHash(k);
    }
    assert Restrict(want, want.Keys) == want;
  }

  /** The three passes when strings are distinct. */
  function PlainPasses(v: View, want: View, keys: set<RouteKey>, c: Changes): View {
    var v1 := if c.anyDeleted then Restrict(v, want.Keys) else v;
    AfterModify(if c.inserted != {} then want + v1 else v1, want, keys)
  }

  lemma PassIsPlain(v: View, db: Db, vrf: string, c: Changes, found: set<RouteKey>)
    requires WellFormed(db) && db.routes != map[]
    requires HashesApart(v.Keys + LiveKeys(db, vrf)) && Chosen(LiveKeys(db, vrf), found)
    ensures RoutesPass(v, db, vrf, c, found) ==
      PlainPasses(v, Rebuild(db, vrf), KeysOf(db, ModifiedRows(db, vrf, c)), c)
  {
    hide Rebuild, AfterModify, AfterDelete, AfterInsert, KeysOf, ModifiedRows, Chosen, LiveKeys;
    var want := Rebuild(db, vrf);
    RebuildKeys(db, vrf);
    ApartPasses(v, want, found, c);
    var v1 := AfterDelete(v, found, c);
    assert v1.Keys <= v.Keys;
    ApartPasses(v1, want, found, c);
  }

  lemma RightRoutes(was: Db, now: Db, vrf: string, c: Changes, found: set<RouteKey>)
    requires WellFormed(was) && WellFormed(now) && Reported(was, now, c)
    requires Chosen(LiveKeys(now, vrf), found) && HashesApart(LiveKeys(was, vrf) + LiveKeys(now, vrf))
    ensures RoutesPass(Rebuild(was, vrf), now, vrf, c, found).Keys == LiveKeys(now, vrf)
  {
    hide Rebuild, PlainPasses, KeysOf, ModifiedRows, HashesApart, Chosen, ThreePasses;
    if now.routes == map[] {
      assert LiveRows(now, vrf) == {};
    } else {
      RebuildKeys(was, vrf);
      PassIsPlain(Rebuild(was, vrf), now, vrf, c, found);
      PlainRoutes(was, now, vrf, c);
    }
  }

  lemma PlainRoutes(was: Db, now: Db, vrf: string, c: Changes)
    requires WellFormed(was) && WellFormed(now) && Reported(was, now, c)
    ensures PlainPasses(Rebuild(was, vrf), Rebuild(now, vrf), KeysOf(now, ModifiedRows(now, vrf, c)), c).Keys ==
      LiveKeys(now, vrf)
  {
    hide Rebuild, KeysOf, LiveKeys;
    RebuildKeys(was, vrf);
    RebuildKeys(now, vrf);
    var got := PlainPasses(Rebuild(was, vrf), Rebuild(now, vrf), KeysOf(now, ModifiedRows(now, vrf, c)), c);
    forall k ensures k in got <==> k in LiveKeys(now, vrf) {
      if k in LiveKeys(now, vrf) {
        LiveIsKept(was, now, vrf, c, RowOf(now, vrf, k));
      } else if k in LiveKeys(was, vrf) {
        DeadIsDropped(was, now, vrf, c, RowOf(was, vrf, k));
      }
    }
  }

  lemma LiveIsKept(was: Db, now: Db, vrf: string, c: Changes, u: Uuid)
    requires WellFormed(was) && WellFormed(now) && Reported(was, now, c) && Live(now, vrf, u)
    ensures now.routes[u].key in
      PlainPasses(Rebuild(was, vrf), Rebuild(now, vrf), KeysOf(now, ModifiedRows(now, vrf, c)), c)
  {
    RebuildAt(now, vrf, u);
    if u !in c.inserted {
      if Live(was, vrf, u) {
        RebuildAt(was, vrf, u);
      } else {
        assert u in ModifiedRows(now, vrf, c);
      }
    }
  }

  lemma DeadIsDropped(was: Db, now: Db, vrf: string, c: Changes, u: Uuid)
    requires WellFormed(was) && WellFormed(now) && Reported(was, now, c)
    requires Live(was, vrf, u) && was.routes[u].key !in LiveKeys(now, vrf)
    ensures was.routes[u].key !in
      PlainPasses(Rebuild(was, vrf), Rebuild(now, vrf), KeysOf(now, ModifiedRows(now, vrf, c)), c)
  {
    if u in now.routes {
      assert u in ModifiedRows(now, vrf, c);
    } else {
      assert u in was.routes.Keys - now.routes.Keys;
    }
  }

  lemma RightNexthops(was: Db, now: Db, vrf: string, c: Changes, found: set<RouteKey>, u: Uuid)
    requires WellFormed(was) && WellFormed(now) && Reported(was, now, c)
    requires Chosen(LiveKeys(now, vrf), found) && HashesApart(LiveKeys(was, vrf) + LiveKeys(now, vrf))
    requires Live(now, vrf, u) && !KeyTouched(now, c, now.routes[u].key)
    requires now.routes[u].key in RoutesPass(Rebuild(was, vrf), now, vrf, c, found)
    ensures PassedAt(Rebuild(was, vrf), RoutesPass(Rebuild(was, vrf), now, vrf, c, found), now, vrf, c, u)
  {
    hide PlainPasses, RoutesPass;
    var v := Rebuild(was, vrf);
    PassIsPlain(v, now, vrf, c, found);
    PlainPassAt(v, now, vrf, c, u);
    OwnKeyTouched(now, c, u);
    if u !in c.inserted && u !in c.modified {
      assert Live(was, vrf, u);
      RebuildAt(was, vrf, u);
      Unchanged(was, now, c, u);
    }
  }

  lemma OwnKeyTouched(db: Db, c: Changes, u: Uuid)
    requires u in db.routes
    ensures NexthopTouched(db, c, u) ==> KeyTouched(db, c, db.routes[u].key)
  {
    assert NexthopTouched(db, c, u) ==> u in TouchedRows(db, c);
  }

  lemma PlainPassAt(v: View, db: Db, vrf: string, c: Changes, u: Uuid)
    requires WellFormed(db) && Live(db, vrf, u)
    requires db.routes[u].key in PlainPasses(v, Rebuild(db, vrf), KeysOf(db, ModifiedRows(db, vrf, c)), c)
    ensures
      var k := db.routes[u].key;
      PlainPasses(v, Rebuild(db, vrf), KeysOf(db, ModifiedRows(db, vrf, c)), c)[k] ==
        if u in ModifiedRows(db, vrf, c) || k !in v then Wanted(NexthopRows(db, u)) else v[k]
  {
    RebuildAt(db, vrf, u);
    OwnRowOnly(db, vrf, ModifiedRows(db, vrf, c), u);
  }

  /** Among rows of one VRF, a key is that of one row. */
  lemma OwnRowOnly(db: Db, vrf: string, rows: set<Uuid>, u: Uuid)
    requires WellFormed(db) && Live(db, vrf, u)
    requires rows <= db.routes.Keys && forall r :: r in rows ==> db.routes[r].vrf == vrf
    ensures db.routes[u].key in KeysOf(db, rows) <==> u in rows
  {
  }

  /** A row untouched in every respect asks for what it asked for. */
  lemma Unchanged(was: Db, now: Db, c: Changes, u: Uuid)
    requires WellFormed(was) && WellFormed(now) && Reported(was, now, c)
    requires u in was.routes && u in now.routes && was.routes[u] == now.routes[u]
    requires !NexthopTouched(now, c, u)
    ensures NexthopRows(was, u) == NexthopRows(now, u)
  {
    forall i | 0 <= i < |was.routes[u].nexthops| ensures NexthopRows(was, u)[i] == NexthopRows(now, u)[i] {
      var id := was.routes[u].nexthops[i];
      assert id in was.routes[u].nexthops && id in now.routes[u].nexthops;
    }
  }

  /** A database with one route and one nexthop. */
  function OneRoute(u: Uuid, k: RouteKey, id: Uuid, ip: string): Db {
    Db(map[u := RouteRow("red", k, Some(true), [id])], map[id := NexthopRow(Some(ip), None, None)])
  }

  lemma OneRouteRebuilt(u: Uuid, k: RouteKey, id: Uuid, ip: string)
    ensures
      var db := OneRoute(u, k, id, ip);
      WellFormed(db) && Live(db, "red", u) && LiveKeys(db, "red") == {k} && Wanted(NexthopRows(db, u)) == {ByIp(ip)} &&
        k in Rebuild(db, "red") && Rebuild(db, "red")[k] == {ByIp(ip)}
  {
    var db := OneRoute(u, k, id, ip);
    OneNexthop(db, u, ip);
    RebuildAt(db, "red", u);
    OneLive(db, "red", u);
  }

  lemma Replaced(k: RouteKey, ip: string, ip': string)
    ensures
      var was, now, c := OneRoute(1, k, 10, ip), OneRoute(2, k, 11, ip'), Changes({2}, {}, true, {11}, {});
      Reported(was, now, c) && TouchedRows(now, c) == {}
  {
    assert 1 in OneRoute(1, k, 10, ip).routes.Keys - OneRoute(2, k, 11, ip').routes.Keys;
  }

  /** For instance a route deleted and inserted again, with another nexthop, in one batch. */
  lemma ReinsertionGoesUnnoticed(k: RouteKey, ip: string, ip': string)
    requires ip != ip'
    ensures
      var was, now, c := OneRoute(1, k, 10, ip), OneRoute(2, k, 11, ip'), Changes({2}, {}, true, {11}, {});
      && WellFormed(was) && WellFormed(now) && Reported(was, now, c)
      && !AlwaysRebuilt(RoutesPass(Rebuild(was, "red"), now, "red", c, {k}), now, "red", c)
  {
    hide Rebuild, RoutesPass, WellFormed, Reported, AlwaysRebuilt, LiveKeys, TouchedRows, NexthopRows, Wanted;
    var was, now, c := OneRoute(1, k, 10, ip), OneRoute(2, k, 11, ip'), Changes({2}, {}, true, {11}, {});
    OneRouteRebuilt(1, k, 10, ip);
    OneRouteRebuilt(2, k, 11, ip');
    Replaced(k, ip, ip');
    assert ByIp(ip) != ByIp(ip') && Reinserted(Rebuild(was, "red"), now, "red", c, 2) && !KeyTouched(now, c, k);
    SyncExact(was, now, "red", c, {k});
  }

  lemma OneLive(db: Db, vrf: string, u: Uuid)
    requires Live(db, vrf, u) && db.routes.Keys == {u}
    ensures LiveKeys(db, vrf) == {db.routes[u].key}
  {
    assert LiveRows(db, vrf) == {u};
  }

  /** At start-up, all rows being new, the cache is that of a rebuild if and only if the strings are distinct. */
  lemma StartupExact(db: Db, vrf: string, c: Changes, found: set<RouteKey>)
    requires WellFormed(db) && db.routes != map[] && Chosen(LiveKeys(db, vrf), found)
    requires c.inserted == db.routes.Keys && ModifiedRows(db, vrf, c) == {}
    ensures RoutesPass(map[], db, vrf, c, found) == Rebuild(db, vrf) <==> HashesApart(LiveKeys(db, vrf))
    ensures RoutesPass(map[], db, vrf, c, found).Keys == found
  {
    hide Rebuild, HashesApart, Strings, LiveKeys;
    var want := Rebuild(db, vrf);
    FoundExact(LiveKeys(db, vrf), found);
    RebuildKeys(db, vrf);
    assert RoutesPass(map[], db, vrf, c, found) == Restrict(want, found);
    assert Restrict(want, found).Keys == found;
    assert found == want.Keys ==> Restrict(want, found) == want;
  }

  /** Of two keys with one string one is found. */
  lemma OneFound(k: RouteKey, k': RouteKey, found: set<RouteKey>)
    requires RouteHash(k) == RouteHash(k') && Chosen({k, k'}, found)
    ensures found == {k} || found == {k'}
  {
    hide RouteHash;
    assert RouteHash(k) in Strings({k, k'});
    var x :| x in found;
    assert forall y :: y in found ==> y == x;
  }

  /** For instance two selected routes with one string, of which one is never added. */
  lemma CollidingRouteLost(found: set<RouteKey>)
    requires Chosen({RouteKey("a:b", "c"), RouteKey("a", "b:c")}, found)
    ensures
      var k, k' := RouteKey("a:b", "c"), RouteKey("a", "b:c");
      var db := Db(map[1 := RouteRow("red", k, Some(true), []), 2 := RouteRow("red", k', Some(true), [])], map[]);
      var cached := RoutesPass(map[], db, "red", Changes({1, 2}, {}, false, {}, {}), found).Keys;
      WellFormed(db) && k != k' && LiveKeys(db, "red") == {k, k'} && (cached == {k} || cached == {k'})
  {
    hide RouteHash, RoutesPass, Rebuild, Chosen;
    var k, k' := RouteKey("a:b", "c"), RouteKey("a", "b:c");
    var db := Db(map[1 := RouteRow("red", k, Some(true), []), 2 := RouteRow("red", k', Some(true), [])], map[]);
    assert |k.from| != |k'.from|;
    TwoLive(db, "red");
    StartupExact(db, "red", Changes({1, 2}, {}, false, {}, {}), found);
    ColonCollides("a", "b", "c");
    assert "a" + ":" + "b" == "a:b" && "b" + ":" + "c" == "b:c";
    OneFound(k, k', found);
  }

  lemma TwoLive(db: Db, vrf: string)
    requires db.routes.Keys == {1, 2} && Live(db, vrf, 1) && Live(db, vrf, 2)
    ensures LiveKeys(db, vrf) == {db.routes[1].key, db.routes[2].key}
  {
    assert LiveRows(db, vrf) == {1, 2};
  }

  lemma OneNexthop(db: Db, u: Uuid, ip: string)
    requires WellFormed(db) && u in db.routes && |db.routes[u].nexthops| == 1
    requires NexthopRows(db, u)[0] == NexthopRow(Some(ip), None, None)
    ensures Wanted(NexthopRows(db, u)) == {ByIp(ip)}
  {
    var rows := NexthopRows(db, u);
    assert rows[..0] == [] && UsableKeys(rows) == [ByIp(ip)];
  }
}
