/**
vrf_reconfigure_routes and vrf_reconfigure_nexthops as the loops they are.  Each
is proved to leave the cache that RouteSync computes; and, where no prefix changes
protocol in the wrong order, to keep the provider's tables in agreement.
*/
module RouteReconfigure {
  import opened Common
  import opened L3Tables
  import opened L3Safety
  import opened L3Engine
  import opened RouteSync
  import opened RouteBatch

  // ----- single operations, seen from the cache -----

  lemma DeleteView(s: L3, k: RouteKey)
    requires k in s.routes
    ensures ViewOf(DeleteRoute(s, k).routes) == ViewOf(s.routes) - {k}
  {
  }

  lemma AddView(s: L3, k: RouteKey, rows: seq<NexthopRow>)
    ensures ViewOf(AddRoute(s, k, rows).routes) == ViewOf(s.routes)[k := Wanted(rows)]
  {
    assert NexthopSet(multiset(UsableKeys(rows))) == Wanted(rows);
  }

  lemma ModifyView(s: L3, k: RouteKey, rows: seq<NexthopRow>)
    requires k in s.routes
    ensures ViewOf(ModifyRoute(s, k, rows).routes) == ViewOf(s.routes)[k := Wanted(rows)]
  {
    ModifiedCache(s, k, rows);
    var t := ModifyRoute(s, k, rows);
    assert NexthopSet(t.routes[k]) == Wanted(rows);
  }

  lemma ViewKeys(routes: Routes)
    ensures ViewOf(routes).Keys == routes.Keys
  {
  }

  method Drop(vrf: Vrf, k: RouteKey)
    requires vrf.Valid() && k in vrf.routes
    modifies vrf`routes, vrf`index, vrf`asic
    ensures vrf.Valid() && vrf.Tables() == DeleteRoute(old(vrf.Tables()), k)
    ensures ViewOf(vrf.routes) == old(ViewOf(vrf.routes)) - {k} && OnlyKey(old(vrf.Tables()), vrf.Tables(), k)
    ensures old(Inv(vrf.Tables())) ==> Inv(vrf.Tables())
  {
    hide Inv, OnlyKey;
    DeletesThere(vrf.Tables(), k);
    if Inv(vrf.Tables()) {
      DeleteRouteKeeps(vrf.Tables(), k);
    }
    DeleteView(vrf.Tables(), k);
    vrf.RouteDelete(k);
  }

  method Add(vrf: Vrf, k: RouteKey, rows: seq<NexthopRow>)
    requires vrf.Valid() && k !in vrf.routes
    modifies vrf`routes, vrf`index, vrf`asic
    ensures vrf.Valid() && vrf.Tables() == AddRoute(old(vrf.Tables()), k, rows)
    ensures ViewOf(vrf.routes) == old(ViewOf(vrf.routes))[k := Wanted(rows)]
    ensures OnlyKey(old(vrf.Tables()), vrf.Tables(), k)
    ensures old(Inv(vrf.Tables()) && PrefixFree(vrf.routes, k.prefix)) ==> Inv(vrf.Tables())
    ensures old(Loose(vrf.Tables())) ==> Loose(vrf.Tables())
  {
    hide Inv, Loose, AddRoute, OnlyKey;
    AddsThere(vrf.Tables(), k, rows);
    if Inv(vrf.Tables()) && PrefixFree(vrf.routes, k.prefix) {
      AddRouteKeeps(vrf.Tables(), k, rows);
    }
    if Loose(vrf.Tables()) {
      AddLoose(vrf.Tables(), k, rows);
    }
    AddView(vrf.Tables(), k, rows);
    vrf.RouteAdd(k, rows);
  }

  method Modify(vrf: Vrf, k: RouteKey, rows: seq<NexthopRow>)
    requires vrf.Valid() && k in vrf.routes
    modifies vrf`routes, vrf`index, vrf`asic
    ensures vrf.Valid() && vrf.Tables() == ModifyRoute(old(vrf.Tables()), k, rows)
    ensures ViewOf(vrf.routes) == old(ViewOf(vrf.routes))[k := Wanted(rows)]
    ensures OnlyKey(old(vrf.Tables()), vrf.Tables(), k)
    ensures old(Inv(vrf.Tables())) ==> Inv(vrf.Tables())
  {
    hide Inv, OnlyKey;
    ModifiesThere(vrf.Tables(), k, rows);
    if Inv(vrf.Tables()) {
      ModifyRouteKeeps(vrf.Tables(), k, rows);
    }
    ModifyView(vrf.Tables(), k, rows);
    vrf.RouteModify(k, rows);
  }

  // ----- the passes of vrf_reconfigure_routes -----

  /** A live row as the code reaches it through its hash string. */
  datatype Row = Row(key: RouteKey, nexthops: seq<NexthopRow>)

  /** `current` holds rows that `want` asks for, by hash string, one for each string. */
  ghost predicate Gathered(want: View, current: map<string, Row>) {
    && (forall h :: h in current ==>
          var r := current[h];
          RouteHash(r.key) == h && r.key in want && want[r.key] == Wanted(r.nexthops))
    && (forall k :: k in want ==> RouteHash(k) in current)
  }

  /** The keys of the rows. */
  function KeysIn(current: map<string, Row>): set<RouteKey> {
    set h | h in current :: current[h].key
  }

  lemma GatheredChoice(want: View, current: map<string, Row>)
    requires Gathered(want, current)
    ensures Chosen(want.Keys, KeysIn(current)) && Strings(KeysIn(current)) == current.Keys
  {
    hide RouteHash;
    var found := KeysIn(current);
    assert forall h :: h in current ==> current[h].key in found;
    assert forall k :: k in found ==> k in want && RouteHash(k) in current && current[RouteHash(k)].key == k;
    assert forall h :: h in current ==> h in Strings(want.Keys);
  }

  /** All live rows are found if and only if no two of them have one string. */
  method Collect(name: string, db: Db) returns (current: map<string, Row>)
    requires WellFormed(db)
    ensures Gathered(Rebuild(db, name), current)
    ensures KeysIn(current) == LiveKeys(db, name) <==> HashesApart(LiveKeys(db, name))
  {
    hide RouteHash;
    current := map[];
    var todo := db.routes.Keys;
    ghost var want := Rebuild(db, name);
    while todo != {}
      invariant todo <= db.routes.Keys
      invariant forall h :: h in current ==>
        var r := current[h];
        RouteHash(r.key) == h && r.key in want && want[r.key] == Wanted(r.nexthops)
      invariant forall u :: Live(db, name, u) && u !in todo ==> RouteHash(db.routes[u].key) in current
    {
      var u :| u in todo;
      todo := todo - {u};
      if db.routes[u].Selected() && db.routes[u].vrf == name {
        RebuildAt(db, name, u);
        var h := RouteHash(db.routes[u].key);
        if h !in current {
          current := current[h := Row(db.routes[u].key, NexthopRows(db, u))];
        }
      }
    }
    forall k | k in want ensures RouteHash(k) in current {
      assert RouteHash(db.routes[RowOf(db, name, k)].key) in current;
    }
    RebuildKeys(db, name);
    GatheredChoice(want, current);
    FoundExact(want.Keys, KeysIn(current));
  }

  /** Deletes the cached routes whose string is not found. */
  method DeletePass(vrf: Vrf, current: map<string, Row>)
    requires vrf.Valid()
    modifies vrf`routes, vrf`index, vrf`asic
    ensures vrf.Valid() && ViewOf(vrf.routes) == KeepStrings(old(ViewOf(vrf.routes)), current.Keys)
    ensures Beyond(old(vrf.Tables()), vrf.Tables(), old(vrf.routes).Keys - vrf.routes.Keys)
    ensures old(Inv(vrf.Tables())) ==> Inv(vrf.Tables())
  {
    hide Inv, RouteHash, Beyond, OnlyKey, DeleteRoute;
    var todo := vrf.routes.Keys;
    ghost var v0, keep := ViewOf(vrf.routes), (set k | k in vrf.routes && RouteHash(k) in current);
    RestrictAll(v0, todo + keep);
    NothingBeyond(vrf.Tables(), v0.Keys - (todo + keep));
    while todo != {}
      invariant todo <= v0.Keys
      invariant vrf.Valid() && ViewOf(vrf.routes) == Restrict(v0, todo + keep)
      invariant Beyond(old(vrf.Tables()), vrf.Tables(), v0.Keys - (todo + keep))
      invariant old(Inv(vrf.Tables())) ==> Inv(vrf.Tables())
    {
      var k :| k in todo;
      RestrictLess(v0, todo, keep, k);
      ViewKeys(vrf.routes);
      ghost var s := vrf.Tables();
      if RouteHash(k) !in current {
        Drop(vrf, k);
      }
      DroppedStep(old(vrf.Tables()), s, vrf.Tables(), v0.Keys, todo, keep, k);
      todo := todo - {k};
    }
    assert todo + keep == keep;
    DroppedKeys(old(vrf.routes), vrf.routes, keep);
  }

  lemma DroppedStep(
      s0: L3, s: L3, t: L3, all: set<RouteKey>, todo: set<RouteKey>, keep: set<RouteKey>, k: RouteKey)
    requires Beyond(s0, s, all - (todo + keep)) && k in todo && todo <= all
    requires if k in keep then t == s else OnlyKey(s, t, k)
    ensures Beyond(s0, t, all - (todo - {k} + keep))
  {
    hide Beyond, OnlyKey;
    if k in keep {
      assert todo - {k} + keep == todo + keep;
    } else {
      BeyondStep(s0, s, t, all - (todo + keep), k);
      assert all - (todo - {k} + keep) == all - (todo + keep) + {k};
    }
  }

  lemma DroppedKeys(was: Routes, now: Routes, keep: set<RouteKey>)
    requires ViewOf(now) == Restrict(ViewOf(was), keep)
    ensures was.Keys - now.Keys == ViewOf(was).Keys - keep
  {
    ViewKeys(was);
    ViewKeys(now);
  }

  function KeepStrings(v: View, strings: set<string>): View {
    map k | k in v && RouteHash(k) in strings :: v[k]
  }

  /** Adds the rows that were found and are not cached. */
  method InsertPass(vrf: Vrf, current: map<string, Row>, ghost want: View)
    requires vrf.Valid() && Gathered(want, current)
    modifies vrf`routes, vrf`index, vrf`asic
    ensures vrf.Valid() && ViewOf(vrf.routes) == Restrict(want, KeysIn(current)) + old(ViewOf(vrf.routes))
    ensures Beyond(old(vrf.Tables()), vrf.Tables(), vrf.routes.Keys - old(vrf.routes).Keys)
    ensures old(Loose(vrf.Tables())) ==> Loose(vrf.Tables())
    ensures old(Inv(vrf.Tables())) && PrefixesApart(old(vrf.routes).Keys + want.Keys) ==> Inv(vrf.Tables())
  {
    hide Inv, Loose, PrefixesApart, RouteHash, Beyond, OnlyKey;
    var todo := current.Keys;
    ghost var v0 := ViewOf(vrf.routes);
    ghost var orderly := Inv(vrf.Tables()) && PrefixesApart(v0.Keys + want.Keys);
    ghost var done: set<RouteKey> := {};
    ViewKeys(vrf.routes);
    NothingBeyond(vrf.Tables(), done - v0.Keys);
    while todo != {}
      invariant todo <= current.Keys && done <= KeysIn(current)
      invariant forall h :: h in current && h !in todo ==> current[h].key in done
      invariant vrf.Valid() && ViewOf(vrf.routes) == Restrict(want, done) + v0
      invariant Beyond(old(vrf.Tables()), vrf.Tables(), done - v0.Keys)
      invariant old(Loose(vrf.Tables())) ==> Loose(vrf.Tables())
      invariant orderly ==> PrefixesApart(v0.Keys + want.Keys) && Inv(vrf.Tables())
    {
      var h :| h in todo;
      ghost var s, k := vrf.Tables(), current[h].key;
      InsertOne(vrf, current[h], want, v0, done);
      InsertedStep(old(vrf.Tables()), s, vrf.Tables(), v0, want, done, k);
      todo, done := todo - {h}, done + {k};
    }
    assert done == KeysIn(current);
    InsertedKeys(vrf.routes, v0, want, done);
  }

  lemma InsertedStep(s0: L3, s: L3, t: L3, v0: View, want: View, done: set<RouteKey>, k: RouteKey)
    requires Beyond(s0, s, done - v0.Keys) && ViewOf(s.routes) == Restrict(want, done) + v0
    requires if k in s.routes then t == s else OnlyKey(s, t, k)
    ensures Beyond(s0, t, done + {k} - v0.Keys)
  {
    hide Beyond, OnlyKey;
    ViewKeys(s.routes);
    if k in s.routes {
      assert done + {k} - v0.Keys == done - v0.Keys;
    } else {
      BeyondStep(s0, s, t, done - v0.Keys, k);
      assert done + {k} - v0.Keys == done - v0.Keys + {k};
    }
  }

  lemma InsertedKeys(routes: Routes, v0: View, want: View, done: set<RouteKey>)
    requires ViewOf(routes) == Restrict(want, done) + v0 && done <= want.Keys
    ensures routes.Keys - v0.Keys == done - v0.Keys
  {
    ViewKeys(routes);
  }

  method InsertOne(vrf: Vrf, row: Row, ghost want: View, ghost v0: View, ghost done: set<RouteKey>)
    requires vrf.Valid() && row.key in want && want[row.key] == Wanted(row.nexthops)
    requires ViewOf(vrf.routes) == Restrict(want, done) + v0
    modifies vrf`routes, vrf`index, vrf`asic
    ensures vrf.Valid() && ViewOf(vrf.routes) == Restrict(want, done + {row.key}) + v0
    ensures
      if row.key in old(vrf.routes) then vrf.Tables() == old(vrf.Tables())
      else OnlyKey(old(vrf.Tables()), vrf.Tables(), row.key)
    ensures old(Inv(vrf.Tables())) && PrefixesApart(v0.Keys + want.Keys) ==> Inv(vrf.Tables())
    ensures old(Loose(vrf.Tables())) ==> Loose(vrf.Tables())
  {
    hide Inv, Loose, OnlyKey, AddRoute;
    RestrictMore(want, v0, done, row.key);
    ViewKeys(vrf.routes);
    assert vrf.routes.Keys <= v0.Keys + want.Keys;
    if row.key !in vrf.routes {
      Add(vrf, row.key, row.nexthops);
    }
  }

  lemma RestrictLess(v: View, todo: set<RouteKey>, live: set<RouteKey>, k: RouteKey)
    requires k in todo && k in v
    ensures k in Restrict(v, todo + live)
    ensures k in live ==> Restrict(v, todo - {k} + live) == Restrict(v, todo + live)
    ensures k !in live ==> Restrict(v, todo - {k} + live) == Restrict(v, todo + live) - {k}
  {
  }

  lemma RestrictAll(v: View, keys: set<RouteKey>)
    requires v.Keys <= keys
    ensures Restrict(v, keys) == v
  {
  }

  lemma RestrictMore(want: View, v: View, done: set<RouteKey>, k: RouteKey)
    requires k in want
    ensures k in v || k in done ==> Restrict(want, done + {k}) + v == Restrict(want, done) + v
    ensures k !in v ==> Restrict(want, done + {k}) + v == (Restrict(want, done) + v)[k := want[k]]
  {
  }

  lemma RebuildAsks(db: Db, name: string, u: Uuid)
    requires WellFormed(db) && u in db.routes && db.routes[u].vrf == name
    ensures AsksFor(db, u, Rebuild(db, name))
  {
    if db.routes[u].Selected() {
      RebuildAt(db, name, u);
    } else if db.routes[u].key in LiveKeys(db, name) {
      var _ := RowOf(db, name, db.routes[u].key);
    }
  }

  /** Brings the routes of modified rows into line, one after the other. */
  method ModifyPass(vrf: Vrf, name: string, db: Db, c: Changes, ghost want: View) returns (ghost order: seq<Uuid>)
    requires vrf.Valid() && WellFormed(db)
    requires forall u :: u in db.routes && db.routes[u].vrf == name ==> AsksFor(db, u, want)
    modifies vrf`routes, vrf`index, vrf`asic
    ensures vrf.Valid() && Enumerates(order, ModifiedRows(db, name, c))
    ensures vrf.Tables() == ModifyAll(old(vrf.Tables()), db, order)
    ensures ViewOf(vrf.routes) == AfterModify(old(ViewOf(vrf.routes)), want, KeysOf(db, ModifiedRows(db, name, c)))
    ensures old(Inv(vrf.Tables())) && PrefixesApart(old(vrf.routes).Keys + want.Keys) ==> Inv(vrf.Tables())
  {
    hide Inv, PrefixesApart, RowStep, ModifyAll, KeysOf;
    var todo := db.routes.Keys;
    ghost var v0 := ViewOf(vrf.routes);
    ghost var orderly := Inv(vrf.Tables()) && PrefixesApart(v0.Keys + want.Keys);
    ghost var done: set<RouteKey> := {};
    order := [];
    ViewKeys(vrf.routes);
    NothingYet(vrf.Tables(), db, v0, want, name, c);
    while todo != {}
      invariant todo <= db.routes.Keys && Enumerates(order, ModifiedRows(db, name, c) - todo)
      invariant done == KeysOf(db, ModifiedRows(db, name, c) - todo)
      invariant vrf.Valid() && ViewOf(vrf.routes) == (v0 - done) + Restrict(want, done)
      invariant vrf.Tables() == ModifyAll(old(vrf.Tables()), db, order)
      invariant orderly ==> PrefixesApart(v0.Keys + want.Keys) && Inv(vrf.Tables())
    {
      var u :| u in todo;
      var k := db.routes[u].key;
      if db.routes[u].vrf == name && u in c.modified && u !in c.inserted {
        OneMoreRow(db, name, c, todo, u);
        assert AsksFor(db, u, want);
        ModifyAllAppend(old(vrf.Tables()), db, order, u);
        ModifyOne(vrf, k, NexthopRows(db, u), db.routes[u].Selected(), want, v0, done);
        done, order := done + {k}, order + [u];
      } else {
        assert ModifiedRows(db, name, c) - (todo - {u}) == ModifiedRows(db, name, c) - todo;
      }
      todo := todo - {u};
    }
    assert ModifiedRows(db, name, c) - todo == ModifiedRows(db, name, c);
  }

  lemma NothingYet(s: L3, db: Db, v: View, want: View, name: string, c: Changes)
    requires WellFormed(db)
    ensures ModifyAll(s, db, []) == s && (v - {}) + Restrict(want, {}) == v
    ensures ModifiedRows(db, name, c) - db.routes.Keys == {} && KeysOf(db, {}) == {}
  {
  }

  lemma OneMoreRow(db: Db, name: string, c: Changes, todo: set<Uuid>, u: Uuid)
    requires todo <= db.routes.Keys && u in todo && u in ModifiedRows(db, name, c)
    ensures ModifiedRows(db, name, c) - (todo - {u}) == ModifiedRows(db, name, c) - todo + {u}
    ensures KeysOf(db, ModifiedRows(db, name, c) - (todo - {u})) ==
      KeysOf(db, ModifiedRows(db, name, c) - todo) + {db.routes[u].key}
  {
    assert ModifiedRows(db, name, c) - (todo - {u}) == ModifiedRows(db, name, c) - todo + {u};
  }

  method ModifyOne(
      vrf: Vrf, k: RouteKey, rows: seq<NexthopRow>, selected: bool,
      ghost want: View, ghost v0: View, ghost done: set<RouteKey>)
    requires vrf.Valid()
    requires if selected then k in want && want[k] == Wanted(rows) else k !in want
    requires ViewOf(vrf.routes) == (v0 - done) + Restrict(want, done)
    modifies vrf`routes, vrf`index, vrf`asic
    ensures vrf.Valid() && ViewOf(vrf.routes) == (v0 - (done + {k})) + Restrict(want, done + {k})
    ensures vrf.Tables() == RowStep(old(vrf.Tables()), k, rows, selected)
    ensures old(Inv(vrf.Tables())) && PrefixesApart(v0.Keys + want.Keys) ==> Inv(vrf.Tables())
  {
    hide Inv, AddRoute, ModifyRoute, DeleteRoute;
    ReplaceMore(want, v0, done, k);
    ViewKeys(vrf.routes);
    assert vrf.routes.Keys <= v0.Keys + want.Keys;
    if selected {
      if k in vrf.routes {
        Modify(vrf, k, rows);
      } else {
        Add(vrf, k, rows);
      }
    } else if k in vrf.routes {
      Drop(vrf, k);
    }
  }

  lemma ReplaceMore(want: View, v: View, done: set<RouteKey>, k: RouteKey)
    ensures
      var now, next := (v - done) + Restrict(want, done), (v - (done + {k})) + Restrict(want, done + {k});
      if k in want then next == now[k := want[k]] else next == now - {k}
  {
  }

  // ----- the two functions -----

  /**
  No prefix is to be added while another protocol's route of it is cached.  Routes
  are added before those dropped by the modify pass, but after those dropped by the
  delete pass.
  */
  ghost predicate Orderly(have: set<RouteKey>, live: set<RouteKey>, c: Changes) {
    PrefixesApart(have + live) || (c.anyDeleted && PrefixesApart(live) && HashesApart(have + live))
  }

  /** What is cached when the modify pass begins. */
  ghost function BeforeModify(v: View, db: Db, name: string, c: Changes, found: set<RouteKey>): View
    requires WellFormed(db)
  {
    AfterInsert(AfterDelete(v, found, c), Rebuild(db, name), found, c)
  }

  /** The keys the passes drop, add or look at. */
  ghost function Moved(v: View, want: View, found: set<RouteKey>, modified: set<RouteKey>, c: Changes): set<RouteKey> {
    var v1 := AfterDelete(v, found, c);
    (v.Keys - v1.Keys) + (AfterInsert(v1, want, found, c).Keys - v1.Keys) + modified
  }

  /** All of them if the table is empty. */
  ghost function MovedKeys(v: View, db: Db, name: string, c: Changes, found: set<RouteKey>): set<RouteKey>
    requires WellFormed(db)
  {
    if db.routes == map[] then v.Keys
    else Moved(v, Rebuild(db, name), found, KeysOf(db, ModifiedRows(db, name, c)), c)
  }

  /**
  vrf_reconfigure_routes: the cache is that of the three passes, whichever of
  several rows with one hash string was found, and the index agrees with it.  The
  provider's tables do if no prefix changes protocol in the wrong order.  If no two
  wanted routes share a prefix they have every cached route, if and only if none was
  lost in the order the modified rows came.  Prefixes of no route that is dropped,
  added or modified are left alone.
  */
  method ReconfigureRoutes(vrf: Vrf, name: string, db: Db, c: Changes)
    returns (ghost found: set<RouteKey>, ghost order: seq<Uuid>)
    requires vrf.Valid() && WellFormed(db)
    modifies vrf`routes, vrf`index, vrf`asic
    ensures vrf.Valid() && Chosen(LiveKeys(db, name), found)
    ensures Enumerates(order, ModifiedRows(db, name, c))
    ensures ViewOf(vrf.routes) == RoutesPass(old(ViewOf(vrf.routes)), db, name, c, found)
    ensures Beyond(old(vrf.Tables()), vrf.Tables(), MovedKeys(old(ViewOf(vrf.routes)), db, name, c, found))
    ensures old(Inv(vrf.Tables())) && Orderly(old(vrf.routes).Keys, LiveKeys(db, name), c) ==> Inv(vrf.Tables())
    ensures old(Inv(vrf.Tables())) && PrefixesApart(LiveKeys(db, name)) ==>
      (Complete(vrf.Tables()) <==>
         NoLoss(BeforeModify(old(ViewOf(vrf.routes)), db, name, c, found), Rebuild(db, name), vrf.neighbors, db, order))
  {
    hide Inv, Orderly, Chosen, Complete, NoLoss, PrefixesApart, BeforeModify, Rebuild, Beyond, Moved;
    found := SomeChoice(LiveKeys(db, name));
    order := [];
    if Inv(vrf.Tables()) { InvComplete(vrf.Tables()); }
    NoRowsNoLoss(BeforeModify(ViewOf(vrf.routes), db, name, c, found), Rebuild(db, name), vrf.neighbors, db);
    if db.routes == map[] {
      ViewKeys(vrf.routes);
      DropAll(vrf);
      if Inv(vrf.Tables()) { InvComplete(vrf.Tables()); }
      return;
    }
    if c.modified == {} && !c.anyDeleted && c.inserted == {} {
      NothingChanged(ViewOf(vrf.routes), db, name, c, found);
      NothingBeyond(vrf.Tables(), MovedKeys(ViewOf(vrf.routes), db, name, c, found));
      return;
    }
    RebuildKeys(db, name);
    var current := Collect(name, db);
    found := KeysIn(current);
    GatheredChoice(Rebuild(db, name), current);
    forall u | u in db.routes && db.routes[u].vrf == name ensures AsksFor(db, u, Rebuild(db, name)) {
      RebuildAsks(db, name, u);
    }
    BeforeModifyIs(ViewOf(vrf.routes), db, name, c, found);
    order := RunPasses(vrf, name, db, c, current, Rebuild(db, name));
  }

  /**
  A route with nexthops that is unselected in a batch with inserted rows and none
  deleted is dropped after the wanted one of its prefix was added, in every order.
  */
  lemma InsertedSwitchLost(
      v: View, db: Db, name: string, c: Changes, found: set<RouteKey>, order: seq<Uuid>, neighbors: Neighbors,
      u: Uuid, b: RouteKey)
    requires WellFormed(db) && !c.anyDeleted && c.inserted != {} && Enumerates(order, ModifiedRows(db, name, c))
    requires u in ModifiedRows(db, name, c) && !db.routes[u].Selected()
    requires db.routes[u].key in v && v[db.routes[u].key] != {}
    requires b in found && b in Rebuild(db, name) && b.prefix == db.routes[u].key.prefix
    requires HasStrong(neighbors, Rebuild(db, name)[b])
    ensures !NoLoss(BeforeModify(v, db, name, c, found), Rebuild(db, name), neighbors, db, order)
  {
    hide Rebuild, HasStrong;
    var j :| 0 <= j < |order| && order[j] == u;
    assert LossAt(BeforeModify(v, db, name, c, found), Rebuild(db, name), neighbors, db, order, j);
  }

  /** Where both rows are modified ones, it is lost if the row of the wanted route comes first. */
  lemma ModifiedSwitchLost(
      v: View, db: Db, name: string, c: Changes, found: set<RouteKey>, order: seq<Uuid>, neighbors: Neighbors,
      i: nat, j: nat)
    requires WellFormed(db) && !c.anyDeleted && c.inserted == {} && Enumerates(order, ModifiedRows(db, name, c))
    requires i < j < |order| && order[i] in db.routes && order[j] in db.routes && !db.routes[order[j]].Selected()
    requires db.routes[order[j]].key in v && v[db.routes[order[j]].key] != {}
    requires db.routes[order[i]].key in Rebuild(db, name)
    requires db.routes[order[i]].key.prefix == db.routes[order[j]].key.prefix
    requires HasStrong(neighbors, Rebuild(db, name)[db.routes[order[i]].key])
    ensures !NoLoss(BeforeModify(v, db, name, c, found), Rebuild(db, name), neighbors, db, order)
  {
    hide Rebuild, HasStrong;
    assert forall r :: r in order ==> r in db.routes;
    assert forall r :: r in order[..j] ==> r in order;
    assert order[i] in order[..j] && KeyIn(db, order[..j], db.routes[order[i]].key);
    assert LossAt(BeforeModify(v, db, name, c, found), Rebuild(db, name), neighbors, db, order, j);
  }

  /** For instance a static route that gives way to a new BGP route through the same port. */
  lemma SwitchedBatch(order: seq<Uuid>)
    requires Enumerates(order, {1})
    ensures
      var a, b := RouteKey("static", "10.0.0.0/8"), RouteKey("bgp", "10.0.0.0/8");
      var nexthops := map[10 := NexthopRow(None, Some("eth1"), None)];
      var was := Db(map[1 := RouteRow("red", a, Some(true), [10])], nexthops);
      var now := Db(
        map[1 := RouteRow("red", a, Some(false), [10]), 2 := RouteRow("red", b, Some(true), [10])], nexthops);
      var c := Changes({2}, {1}, false, {}, {});
      && WellFormed(was) && WellFormed(now) && Reported(was, now, c) && ModifiedRows(now, "red", c) == {1}
      && !NoLoss(BeforeModify(Rebuild(was, "red"), now, "red", c, {b}), Rebuild(now, "red"), map[], now, order)
  {
    hide Rebuild, NoLoss, BeforeModify;
    var a, b := RouteKey("static", "10.0.0.0/8"), RouteKey("bgp", "10.0.0.0/8");
    var nexthops := map[10 := NexthopRow(None, Some("eth1"), None)];
    var was := Db(map[1 := RouteRow("red", a, Some(true), [10])], nexthops);
    var now := Db(
      map[1 := RouteRow("red", a, Some(false), [10]), 2 := RouteRow("red", b, Some(true), [10])], nexthops);
    var c := Changes({2}, {1}, false, {}, {});
    assert "static"[0] != "bgp"[0];
    RebuildAt(was, "red", 1);
    RebuildAt(now, "red", 2);
    OnePort(was, 1, "eth1");
    OnePort(now, 2, "eth1");
    assert Strong(map[], ByPort("eth1")) && ByPort("eth1") in Rebuild(now, "red")[b];
    InsertedSwitchLost(Rebuild(was, "red"), now, "red", c, {b}, order, map[], 1, b);
  }

  lemma OnePort(db: Db, u: Uuid, port: string)
    requires WellFormed(db) && u in db.routes && |db.routes[u].nexthops| == 1
    requires NexthopRows(db, u)[0] == NexthopRow(None, Some(port), None)
    ensures Wanted(NexthopRows(db, u)) == {ByPort(port)}
  {
    var rows := NexthopRows(db, u);
    assert rows[..0] == [] && UsableKeys(rows) == [ByPort(port)];
  }

  lemma BeforeModifyIs(v: View, db: Db, name: string, c: Changes, found: set<RouteKey>)
    requires WellFormed(db)
    ensures BeforeModify(v, db, name, c, found) == AfterInsert(AfterDelete(v, found, c), Rebuild(db, name), found, c)
  {
  }

  lemma InvComplete(s: L3)
    requires Inv(s)
    ensures Complete(s) && OnePerPrefix(s.routes) && Loose(s)
  {
  }

  lemma NoRowsNoLoss(v: View, want: View, neighbors: Neighbors, db: Db)
    ensures NoLoss(v, want, neighbors, db, [])
  {
  }

  lemma NothingChanged(v: View, db: Db, name: string, c: Changes, found: set<RouteKey>)
    requires WellFormed(db) && db.routes != map[] && c.modified == {} && !c.anyDeleted && c.inserted == {}
    ensures RoutesPass(v, db, name, c, found) == v
  {
    assert ModifiedRows(db, name, c) == {};
    NoneModified(v, Rebuild(db, name));
  }

  method RunPasses(vrf: Vrf, name: string, db: Db, c: Changes, current: map<string, Row>, ghost want: View)
    returns (ghost order: seq<Uuid>)
    requires vrf.Valid() && WellFormed(db) && Gathered(want, current)
    requires forall u :: u in db.routes && db.routes[u].vrf == name ==> AsksFor(db, u, want)
    modifies vrf`routes, vrf`index, vrf`asic
    ensures vrf.Valid() && Enumerates(order, ModifiedRows(db, name, c))
    ensures ViewOf(vrf.routes) ==
      ThreePasses(old(ViewOf(vrf.routes)), want, KeysIn(current), KeysOf(db, ModifiedRows(db, name, c)), c)
    ensures Beyond(old(vrf.Tables()), vrf.Tables(),
                   Moved(old(ViewOf(vrf.routes)), want, KeysIn(current), KeysOf(db, ModifiedRows(db, name, c)), c))
    ensures old(Inv(vrf.Tables())) && Orderly(old(vrf.routes).Keys, want.Keys, c) ==> Inv(vrf.Tables())
    ensures old(Inv(vrf.Tables())) && PrefixesApart(want.Keys) ==>
      var v1 := AfterInsert(AfterDelete(old(ViewOf(vrf.routes)), KeysIn(current), c), want, KeysIn(current), c);
      Complete(vrf.Tables()) <==> NoLoss(v1, want, vrf.neighbors, db, order)
  {
    hide Inv, Orderly, Gathered, AfterDelete, AfterInsert, AfterModify, AsksFor, PrefixesApart, Loose, Complete, NoLoss;
    hide ModifyAll, Ready, OnePerPrefix, Rows, Beyond, KeysOf;
    ghost var s0 := vrf.Tables();
    ViewKeys(vrf.routes);
    if Inv(s0) { InvComplete(s0); }
    DeleteIfAny(vrf, c, current, want);
    ghost var s1, v1 := vrf.Tables(), ViewOf(vrf.routes);
    ViewKeys(vrf.routes);
    if Inv(s0) { InvComplete(vrf.Tables()); }
    InsertIfAny(vrf, c, current, want);
    ghost var s := vrf.Tables();
    ViewKeys(vrf.routes);
    BeyondBoth(s0, s1, s, s0.routes.Keys - s1.routes.Keys, s.routes.Keys - s1.routes.Keys);
    order := ModifyIfAny(vrf, name, db, c, want);
    ModifiedBeyond(s, db, name, c, order);
    BeyondBoth(s0, s, vrf.Tables(), (s0.routes.Keys - s1.routes.Keys) + (s.routes.Keys - s1.routes.Keys),
               KeysOf(db, ModifiedRows(db, name, c)));
    if Inv(s0) && PrefixesApart(want.Keys) {
      DeletedKeys(ViewOf(s0.routes), KeysIn(current), c);
      ReadyAfterInsert(s0.routes, s, want, v1, KeysIn(current), c);
      OwnRows(db, name, c, order, want);
      BatchExact(s, want, db, order);
    }
  }

  lemma ModifiedBeyond(s: L3, db: Db, name: string, c: Changes, order: seq<Uuid>)
    requires WellFormed(db) && Enumerates(order, ModifiedRows(db, name, c))
    ensures Beyond(s, ModifyAll(s, db, order), KeysOf(db, ModifiedRows(db, name, c)))
  {
    ModifyAllBeyond(s, db, order, KeysOf(db, ModifiedRows(db, name, c)));
  }

  lemma DeletedKeys(v: View, found: set<RouteKey>, c: Changes)
    ensures AfterDelete(v, found, c).Keys <= v.Keys
  {
  }

  lemma OwnRows(db: Db, name: string, c: Changes, order: seq<Uuid>, want: View)
    requires WellFormed(db) && Enumerates(order, ModifiedRows(db, name, c))
    requires forall u :: u in db.routes && db.routes[u].vrf == name ==> AsksFor(db, u, want)
    ensures Rows(db, order, want)
  {
    hide AsksFor;
    forall i, j | 0 <= i < j < |order| ensures db.routes[order[i]].key != db.routes[order[j]].key {
      assert order[i] in ModifiedRows(db, name, c) && order[j] in ModifiedRows(db, name, c);
    }
  }

  /** What is cached after the delete pass can be added to. */
  lemma OrderlyAfterDelete(v: View, want: View, found: set<RouteKey>, c: Changes)
    requires Chosen(want.Keys, found) && Orderly(v.Keys, want.Keys, c)
    ensures PrefixesApart(AfterDelete(v, found, c).Keys + want.Keys)
  {
    hide RouteHash;
    var v1 := AfterDelete(v, found, c);
    assert v1.Keys <= v.Keys;
    if !PrefixesApart(v.Keys + want.Keys) {
      ApartPasses(v, want, found, c);
      assert v1.Keys + want.Keys == want.Keys;
    }
  }

  method DeleteIfAny(vrf: Vrf, c: Changes, current: map<string, Row>, ghost want: View)
    requires vrf.Valid() && Gathered(want, current)
    modifies vrf`routes, vrf`index, vrf`asic
    ensures vrf.Valid() && ViewOf(vrf.routes) == AfterDelete(old(ViewOf(vrf.routes)), KeysIn(current), c)
    ensures Beyond(old(vrf.Tables()), vrf.Tables(), old(vrf.routes).Keys - vrf.routes.Keys)
    ensures old(Inv(vrf.Tables())) ==> Inv(vrf.Tables())
    ensures old(Inv(vrf.Tables())) && Orderly(old(vrf.routes).Keys, want.Keys, c) ==>
      Inv(vrf.Tables()) && PrefixesApart(vrf.routes.Keys + want.Keys)
  {
    hide Inv, PrefixesApart, RouteHash, Orderly, Gathered, Beyond;
    NothingBeyond(vrf.Tables(), vrf.routes.Keys - vrf.routes.Keys);
    ghost var v := ViewOf(vrf.routes);
    ViewKeys(vrf.routes);
    GatheredChoice(want, current);
    if Orderly(v.Keys, want.Keys, c) {
      OrderlyAfterDelete(v, want, KeysIn(current), c);
    }
    if c.anyDeleted {
      DeletePass(vrf, current);
    }
    ViewKeys(vrf.routes);
  }

  method InsertIfAny(vrf: Vrf, c: Changes, current: map<string, Row>, ghost want: View)
    requires vrf.Valid() && Gathered(want, current)
    modifies vrf`routes, vrf`index, vrf`asic
    ensures vrf.Valid() && ViewOf(vrf.routes) == AfterInsert(old(ViewOf(vrf.routes)), want, KeysIn(current), c)
    ensures Beyond(old(vrf.Tables()), vrf.Tables(), vrf.routes.Keys - old(vrf.routes).Keys)
    ensures old(Loose(vrf.Tables())) ==> Loose(vrf.Tables())
    ensures old(Inv(vrf.Tables())) && PrefixesApart(old(vrf.routes).Keys + want.Keys) ==>
      Inv(vrf.Tables()) && PrefixesApart(vrf.routes.Keys + want.Keys)
  {
    hide Inv, Loose, RouteHash, Gathered, Beyond;
    NothingBeyond(vrf.Tables(), vrf.routes.Keys - vrf.routes.Keys);
    ViewKeys(vrf.routes);
    if c.inserted != {} {
      InsertPass(vrf, current, want);
    }
    ViewKeys(vrf.routes);
    assert vrf.routes.Keys + want.Keys == old(vrf.routes).Keys + want.Keys;
  }

  method ModifyIfAny(vrf: Vrf, name: string, db: Db, c: Changes, ghost want: View) returns (ghost order: seq<Uuid>)
    requires vrf.Valid() && WellFormed(db)
    requires forall u :: u in db.routes && db.routes[u].vrf == name ==> AsksFor(db, u, want)
    modifies vrf`routes, vrf`index, vrf`asic
    ensures vrf.Valid() && Enumerates(order, ModifiedRows(db, name, c))
    ensures vrf.Tables() == ModifyAll(old(vrf.Tables()), db, order)
    ensures ViewOf(vrf.routes) == AfterModify(old(ViewOf(vrf.routes)), want, KeysOf(db, ModifiedRows(db, name, c)))
    ensures old(Inv(vrf.Tables())) && PrefixesApart(old(vrf.routes).Keys + want.Keys) ==> Inv(vrf.Tables())
  {
    hide Inv, PrefixesApart;
    if c.modified != {} {
      order := ModifyPass(vrf, name, db, c, want);
    } else {
      order := [];
      assert ModifiedRows(db, name, c) == {};
      NoneModified(ViewOf(vrf.routes), want);
    }
  }

  lemma NoneModified(v: View, want: View)
    ensures AfterModify(v, want, {}) == v
  {
  }

  method DropAll(vrf: Vrf)
    requires vrf.Valid()
    modifies vrf`routes, vrf`index, vrf`asic
    ensures vrf.Valid() && ViewOf(vrf.routes) == map[] && Beyond(old(vrf.Tables()), vrf.Tables(), old(vrf.routes).Keys)
    ensures old(Inv(vrf.Tables())) ==> Inv(vrf.Tables())
  {
    hide Inv, Beyond, OnlyKey, DeleteRoute;
    ghost var keys := vrf.routes.Keys;
    NothingBeyond(vrf.Tables(), keys);
    while vrf.routes.Keys != {}
      invariant vrf.Valid() && vrf.routes.Keys <= keys && Beyond(old(vrf.Tables()), vrf.Tables(), keys)
      invariant old(Inv(vrf.Tables())) ==> Inv(vrf.Tables())
      decreases |vrf.routes.Keys|
    {
      var k :| k in vrf.routes.Keys;
      ghost var s, v := vrf.Tables(), ViewOf(vrf.routes);
      ViewKeys(vrf.routes);
      Drop(vrf, k);
      ViewKeys(vrf.routes);
      BeyondStep(old(vrf.Tables()), s, vrf.Tables(), keys, k);
      assert keys + {k} == keys;
      assert vrf.routes.Keys == v.Keys - {k};
    }
  }

  /**
  vrf_reconfigure_nexthops, which looks at the rows of every VRF: the cache is that
  of the nexthop pass in the order the rows came, and every agreement is kept.
  */
  method ReconfigureNexthops(vrf: Vrf, db: Db, c: Changes) returns (ghost order: seq<Uuid>)
    requires vrf.Valid() && WellFormed(db)
    modifies vrf`routes, vrf`index, vrf`asic
    ensures vrf.Valid() && Enumerates(order, TouchedRows(db, c))
    ensures ViewOf(vrf.routes) == TouchAll(old(ViewOf(vrf.routes)), db, order)
    ensures Beyond(old(vrf.Tables()), vrf.Tables(), KeysOf(db, TouchedRows(db, c)))
    ensures old(Inv(vrf.Tables())) ==> Inv(vrf.Tables())
  {
    hide Inv, TouchAll, TouchOne, NexthopRows, Wanted, NexthopTouched, Beyond, OnlyKey, ModifyRoute;
    order := [];
    ghost var keys := KeysOf(db, TouchedRows(db, c));
    NothingBeyond(vrf.Tables(), keys);
    NoneYet(ViewOf(vrf.routes), db, c);
    if db.nexthops == map[] || c.nhModified == {} {
      NoneTouched(db, c);
      return;
    }
    var todo := db.routes.Keys;
    ghost var v0 := ViewOf(vrf.routes);
    while todo != {}
      invariant todo <= db.routes.Keys && Enumerates(order, TouchedRows(db, c) - todo)
      invariant vrf.Valid() && ViewOf(vrf.routes) == TouchAll(v0, db, order)
      invariant Beyond(old(vrf.Tables()), vrf.Tables(), keys)
      invariant old(Inv(vrf.Tables())) ==> Inv(vrf.Tables())
    {
      var u :| u in todo;
      var k := db.routes[u].key;
      var touched := IsTouched(db, c, u);
      ViewKeys(vrf.routes);
      TouchedHasNexthops(db, c, u);
      if |db.routes[u].nexthops| > 0 && touched {
        TouchAllAppend(v0, db, order, u);
        TouchOneIs(ViewOf(vrf.routes), db, u);
        order := order + [u];
        if k in vrf.routes {
          ghost var s := vrf.Tables();
          Modify(vrf, k, NexthopRows(db, u));
          assert k in keys && keys + {k} == keys;
          BeyondStep(old(vrf.Tables()), s, vrf.Tables(), keys, k);
        }
      }
      todo := todo - {u};
    }
  }

  lemma NoneYet(v: View, db: Db, c: Changes)
    requires WellFormed(db)
    ensures TouchAll(v, db, []) == v && Enumerates([], TouchedRows(db, c) - db.routes.Keys)
  {
  }

  lemma TouchAllAppend(v: View, db: Db, order: seq<Uuid>, u: Uuid)
    requires WellFormed(db) && (forall r :: r in order ==> r in db.routes) && u in db.routes
    ensures TouchAll(v, db, order + [u]) == TouchOne(TouchAll(v, db, order), db, u)
  {
    assert (order + [u])[..|order|] == order;
  }

  lemma TouchOneIs(v: View, db: Db, u: Uuid)
    requires WellFormed(db) && u in db.routes
    ensures TouchOne(v, db, u) ==
      if db.routes[u].key in v then v[db.routes[u].key := Wanted(NexthopRows(db, u))] else v
  {
  }

  lemma TouchedHasNexthops(db: Db, c: Changes, u: Uuid)
    requires u in db.routes
    ensures NexthopTouched(db, c, u) ==> |db.routes[u].nexthops| > 0
    ensures u in TouchedRows(db, c) <==> NexthopTouched(db, c, u)
  {
  }

  lemma NoneTouched(db: Db, c: Changes)
    requires WellFormed(db) && (db.nexthops == map[] || c.nhModified == {})
    ensures TouchedRows(db, c) == {}
  {
    forall u | u in db.routes ensures !NexthopTouched(db, c, u) {
      assert forall id :: id in db.routes[u].nexthops ==> id in db.nexthops;
    }
  }

  /** is_route_nh_rows_modified. */
  method IsTouched(db: Db, c: Changes, u: Uuid) returns (touched: bool)
    requires u in db.routes
    ensures touched == NexthopTouched(db, c, u)
  {
    var ids := db.routes[u].nexthops;
    for i := 0 to |ids|
      invariant forall j :: 0 <= j < i ==> !(ids[j] in c.nhModified && ids[j] !in c.nhInserted)
    {
      if ids[i] in c.nhModified && ids[i] !in c.nhInserted {
        return true;
      }
    }
    return false;
  }

  /** No route row of the VRF for this prefix came, went or changed, and none of any VRF has a changed nexthop. */
  ghost predicate Quiet(was: Db, now: Db, name: string, c: Changes, p: string) {
    && (forall u :: u in was.routes && was.routes[u].vrf == name && was.routes[u].key.prefix == p ==> u in now.routes)
    && (forall u :: u in now.routes && now.routes[u].vrf == name && now.routes[u].key.prefix == p ==>
          u in was.routes && u !in c.modified)
    && (forall u :: u in now.routes && now.routes[u].key.prefix == p ==> !NexthopTouched(now, c, u))
  }

  lemma QuietRows(was: Db, now: Db, name: string, c: Changes, p: string)
    requires Reported(was, now, c) && Quiet(was, now, name, c, p)
    ensures forall k: RouteKey :: k.prefix == p ==> (k in LiveKeys(was, name) <==> k in LiveKeys(now, name))
    ensures forall k :: k in KeysOf(now, ModifiedRows(now, name, c)) ==> k.prefix != p
    ensures forall k :: k in KeysOf(now, TouchedRows(now, c)) ==> k.prefix != p
  {
    hide NexthopTouched;
    forall k: RouteKey | k.prefix == p ensures k in LiveKeys(was, name) <==> k in LiveKeys(now, name) {
      if k in LiveKeys(was, name) {
        var u := RowOf(was, name, k);
        assert was.routes[u] == now.routes[u] && u in LiveRows(now, name);
      }
      if k in LiveKeys(now, name) {
        var u := RowOf(now, name, k);
        assert was.routes[u] == now.routes[u] && u in LiveRows(was, name);
      }
    }
  }

  lemma QuietMoves(was: Db, now: Db, name: string, c: Changes, found: set<RouteKey>, p: string)
    requires WellFormed(was) && WellFormed(now) && Reported(was, now, c) && Quiet(was, now, name, c, p)
    requires HashesApart(LiveKeys(was, name) + LiveKeys(now, name)) && Chosen(LiveKeys(now, name), found)
    ensures forall k :: k in MovedKeys(Rebuild(was, name), now, name, c, found) + KeysOf(now, TouchedRows(now, c)) ==>
      k.prefix != p
  {
    hide Quiet, Reported, HashesApart, Chosen, Rebuild, NexthopTouched, LiveKeys, AfterInsert;
    QuietRows(was, now, name, c, p);
    RebuildKeys(was, name);
    RebuildKeys(now, name);
    var v, want := Rebuild(was, name), Rebuild(now, name);
    ApartPasses(v, want, found, c);
    var v1 := AfterDelete(v, found, c);
    AfterInsertKeys(v1, want, found, c);
    if now.routes == map[] {
      assert forall k :: k !in LiveKeys(now, name) by { NoLiveKeys(now, name); }
    }
  }

  lemma AfterInsertKeys(v: View, want: View, found: set<RouteKey>, c: Changes)
    ensures AfterInsert(v, want, found, c).Keys <= v.Keys + want.Keys
  {
  }

  lemma NoLiveKeys(db: Db, name: string)
    requires db.routes == map[]
    ensures LiveKeys(db, name) == {}
  {
  }

  /**
  Both functions, on a cache that mirrors the database as it was.  With key strings
  distinct the cache ends up with the routes of the database as it is; and where no
  row of another VRF is mistaken, with the nexthops of a rebuild exactly when no
  route was replaced under its key by one asking for others.  Whether a prefix
  changes protocol matters only for the provider's tables.  What is cached and
  programmed for a prefix nothing happened to is left alone.
  */
  method SyncRoutes(vrf: Vrf, name: string, ghost was: Db, now: Db, c: Changes)
    requires vrf.Valid() && WellFormed(was) && WellFormed(now) && Reported(was, now, c)
    requires ViewOf(vrf.routes) == Rebuild(was, name)
    modifies vrf`routes, vrf`index, vrf`asic
    ensures vrf.Valid()
    ensures HashesApart(LiveKeys(was, name) + LiveKeys(now, name)) ==>
      && ViewOf(vrf.routes).Keys == Rebuild(now, name).Keys
      && (NotMistaken(now, name, c) ==>
            (ViewOf(vrf.routes) == Rebuild(now, name) <==> NoStaleReinsertion(Rebuild(was, name), now, name, c)))
    ensures HashesApart(LiveKeys(was, name) + LiveKeys(now, name)) ==>
      forall p :: Quiet(was, now, name, c, p) ==> Narrow(vrf.Tables(), p) == Narrow(old(vrf.Tables()), p)
    ensures old(Inv(vrf.Tables())) && Orderly(LiveKeys(was, name), LiveKeys(now, name), c) ==> Inv(vrf.Tables())
  {
    hide Inv, Orderly, Chosen, RoutesPass, Rebuild, HashesApart, NotMistaken, NoStaleReinsertion, Quiet, Narrow;
    hide MovedKeys, KeysOf;
    RebuildKeys(was, name);
    RebuildKeys(now, name);
    ViewKeys(vrf.routes);
    ghost var found, rows := ReconfigureRoutes(vrf, name, now, c);
    ghost var v1 := ViewOf(vrf.routes);
    ghost var s1 := vrf.Tables();
    ghost var order := ReconfigureNexthops(vrf, now, c);
    ghost var moved, touched :=
      MovedKeys(Rebuild(was, name), now, name, c, found), KeysOf(now, TouchedRows(now, c));
    BeyondBoth(old(vrf.Tables()), s1, vrf.Tables(), moved, touched);
    if HashesApart(LiveKeys(was, name) + LiveKeys(now, name)) {
      forall p | Quiet(was, now, name, c, p) ensures Narrow(vrf.Tables(), p) == Narrow(old(vrf.Tables()), p) {
        QuietMoves(was, now, name, c, found, p);
      }
    }
    if HashesApart(LiveKeys(was, name) + LiveKeys(now, name)) {
      RightRoutes(was, now, name, c, found);
      TouchAllKeys(v1, now, order);
      if NotMistaken(now, name, c) {
        TouchedExact(v1, now, name, c, order);
        RestExact(was, now, name, c, found);
      }
    }
  }
}
