/**
What a batch of route changes leaves in the provider: the modify pass of
vrf_reconfigure_routes (src/vrf.c) as a function of the order in which the rows
come, and exactly when it makes the provider lose a route.
*/
module RouteBatch {
  import opened Common
  import opened L3Tables
  import opened L3Safety
  import opened L3Theorems
  import opened RouteSync

  ghost predicate PrefixesApart(keys: set<RouteKey>) {
    forall k, k' :: k in keys && k' in keys && k.prefix == k'.prefix ==> k == k'
  }

  /** What the modify pass does for a row of key `k`. */
  ghost function RowStep(s: L3, k: RouteKey, rows: seq<NexthopRow>, selected: bool): L3 {
    if selected then if k in s.routes then ModifyRoute(s, k, rows) else AddRoute(s, k, rows)
    else if k in s.routes then DeleteRoute(s, k)
    else s
  }

  ghost function ModifyRow(s: L3, db: Db, u: Uuid): L3
    requires WellFormed(db) && u in db.routes
  {
    RowStep(s, db.routes[u].key, NexthopRows(db, u), db.routes[u].Selected())
  }

  /** The modify pass over rows in the order they come. */
  ghost function ModifyAll(s: L3, db: Db, order: seq<Uuid>): L3
    requires WellFormed(db) && forall u :: u in order ==> u in db.routes
  {
    if order == [] then s else ModifyRow(ModifyAll(s, db, order[..|order| - 1]), db, order[|order| - 1])
  }

  lemma ModifyAllAppend(s: L3, db: Db, order: seq<Uuid>, u: Uuid)
    requires WellFormed(db) && (forall r :: r in order ==> r in db.routes) && u in db.routes
    ensures ModifyAll(s, db, order + [u]) == ModifyRow(ModifyAll(s, db, order), db, u)
  {
    assert (order + [u])[..|order|] == order;
  }

  /** `want` has the row's nexthops if it is selected, and otherwise not its key. */
  ghost predicate AsksFor(db: Db, u: Uuid, want: View)
    requires WellFormed(db) && u in db.routes
  {
    var k := db.routes[u].key;
    if db.routes[u].Selected() then k in want && want[k] == Wanted(NexthopRows(db, u)) else k !in want
  }

  // ----- the condition -----

  ghost predicate HasStrong(neighbors: Neighbors, nhs: set<Nexthop>) {
    exists nh :: nh in nhs && Strong(neighbors, nh)
  }

  /**
  The `j`th row is a route with nexthops that is dropped while a wanted route of its
  prefix, with something to program, is cached: it was before the pass, or a row for
  it came earlier.
  */
  ghost predicate LossAt(v: View, want: View, neighbors: Neighbors, db: Db, order: seq<Uuid>, j: nat)
    requires j < |order| && forall u :: u in order ==> u in db.routes
  {
    var a := db.routes[order[j]].key;
    && !db.routes[order[j]].Selected() && a in v && v[a] != {}
    && exists b ::
         && b in want && b.prefix == a.prefix && HasStrong(neighbors, want[b])
         && (b in v || KeyIn(db, order[..j], b))
  }

  ghost predicate KeyIn(db: Db, rows: seq<Uuid>, k: RouteKey)
    requires forall u :: u in rows ==> u in db.routes
  {
    exists u :: u in rows && db.routes[u].key == k
  }

  ghost predicate NoLoss(v: View, want: View, neighbors: Neighbors, db: Db, order: seq<Uuid>)
    requires forall u :: u in order ==> u in db.routes
  {
    forall j :: 0 <= j < |order| ==> !LossAt(v, want, neighbors, db, order, j)
  }

  // ----- one prefix at a time -----

  /** The tables as far as they concern one prefix. */
  function Narrow(s: L3, p: string): L3 {
    s.(routes := map k | k in s.routes && k.prefix == p :: s.routes[k],
       asic := map q | q in s.asic && q == p :: s.asic[q])
  }

  lemma NarrowComplete(s: L3)
    ensures Complete(s) <==> forall p :: Complete(Narrow(s, p))
  {
    if Complete(s) {
      forall p, k, nh | k in Narrow(s, p).routes && nh in Narrow(s, p).routes[k]
        ensures EntryOk(s.neighbors, nh, At(Narrow(s, p).asic, k.prefix))
      {
        assert EntryOk(s.neighbors, nh, At(s.asic, k.prefix));
      }
    }
    if forall p :: Complete(Narrow(s, p)) {
      forall k, nh | k in s.routes && nh in s.routes[k] ensures EntryOk(s.neighbors, nh, At(s.asic, k.prefix)) {
        var n := Narrow(s, k.prefix);
        assert Complete(n) && k in n.routes && n.routes[k] == s.routes[k];
        assert EntryOk(n.neighbors, nh, At(n.asic, k.prefix));
      }
    }
  }

  lemma NarrowSound(s: L3, p: string)
    requires Sound(s.routes, s.asic)
    ensures Sound(Narrow(s, p).routes, Narrow(s, p).asic)
  {
    var n := Narrow(s, p);
    forall q, nh | q in n.asic && nh in n.asic[q] ensures Uses(n.routes, q, nh) {
      var k :| k in s.routes && k.prefix == q && nh in s.routes[k];
      assert k in n.routes;
    }
  }

  lemma NarrowAdd(s: L3, k: RouteKey, rows: seq<NexthopRow>)
    ensures Narrow(AddRoute(s, k, rows), k.prefix) == AddRoute(Narrow(s, k.prefix), k, rows)
  {
    hide FirstBatch, UsableKeys, Program;
    var p, n, t := k.prefix, Narrow(s, k.prefix), AddRoute(s, k, rows);
    NarrowProgram(s.asic, p, FirstBatch(s.neighbors, rows));
    assert Narrow(t, p).routes == AddRoute(n, k, rows).routes;
    assert Narrow(t, p).asic == AddRoute(n, k, rows).asic;
  }

  lemma NarrowProgram(asic: Asic, p: string, batch: Programming)
    ensures OnlyPrefix(Program(asic, p, batch), p) == Program(OnlyPrefix(asic, p), p, batch)
  {
    assert At(OnlyPrefix(asic, p), p) == At(asic, p);
  }

  lemma NarrowDelete(s: L3, k: RouteKey)
    requires k in s.routes
    ensures k in Narrow(s, k.prefix).routes && Narrow(s, k.prefix).routes[k] == s.routes[k]
    ensures Narrow(DeleteRoute(s, k), k.prefix) == DeleteRoute(Narrow(s, k.prefix), k)
  {
    var n, t := Narrow(s, k.prefix), DeleteRoute(s, k);
    assert Narrow(t, k.prefix).routes == DeleteRoute(n, k).routes;
    assert Narrow(t, k.prefix).asic == DeleteRoute(n, k).asic;
  }

  lemma NarrowModify(s: L3, k: RouteKey, rows: seq<NexthopRow>)
    requires k in s.routes
    ensures k in Narrow(s, k.prefix).routes && Narrow(s, k.prefix).routes[k] == s.routes[k]
    ensures Narrow(ModifyRoute(s, k, rows), k.prefix) == ModifyRoute(Narrow(s, k.prefix), k, rows)
  {
    var p, n, t := k.prefix, Narrow(s, k.prefix), ModifyRoute(s, k, rows);
    var gone := Gone(s.routes[k], Wanted(rows));
    var batch := AddedBatch(s.neighbors, Extra(s.routes[k], Wanted(rows)), |rows| > 1);
    NarrowTrim(s.asic, p, gone, batch);
    assert Narrow(t, p).routes == ModifyRoute(n, k, rows).routes;
    assert Narrow(t, p).asic == ModifyRoute(n, k, rows).asic;
  }

  function OnlyPrefix(asic: Asic, p: string): Asic {
    map q | q in asic && q == p :: asic[q]
  }

  lemma NarrowTrim(asic: Asic, p: string, gone: set<Nexthop>, batch: Programming)
    ensures OnlyPrefix(Program(Unprogram(asic, p, gone), p, batch), p) ==
      Program(Unprogram(OnlyPrefix(asic, p), p, gone), p, batch)
  {
    hide Program;
    NarrowProgram(Unprogram(asic, p, gone), p, batch);
    assert OnlyPrefix(Unprogram(asic, p, gone), p) == Unprogram(OnlyPrefix(asic, p), p, gone);
  }

  /** Two states that differ only at one key and its prefix are the same as far as others are concerned. */
  lemma SameNarrow(s: L3, t: L3, k: RouteKey, p: string)
    requires OnlyKey(s, t, k) && k.prefix != p
    ensures Narrow(t, p) == Narrow(s, p)
  {
    forall k': RouteKey | k'.prefix == p ensures k' in t.routes <==> k' in s.routes
      ensures k' in s.routes ==> t.routes[k'] == s.routes[k']
    {
      assert (k' in t.routes - {k}) == (k' in s.routes - {k});
      if k' in s.routes { assert (t.routes - {k})[k'] == (s.routes - {k})[k']; }
    }
    SameProgramming(s.asic, t.asic, k.prefix, p);
    assert Narrow(t, p).routes == Narrow(s, p).routes && Narrow(t, p).asic == Narrow(s, p).asic;
  }

  ghost predicate OnlyKey(s: L3, t: L3, k: RouteKey) {
    && t.routes - {k} == s.routes - {k} && t.asic - {k.prefix} == s.asic - {k.prefix}
    && t.neighbors == s.neighbors && t.hosts == s.hosts
  }

  lemma ProgramsThere(asic: Asic, p: string, gone: set<Nexthop>, batch: Programming)
    ensures Program(asic, p, batch) - {p} == asic - {p}
    ensures Program(Unprogram(asic, p, gone), p, batch) - {p} == asic - {p}
  {
    assert Unprogram(asic, p, gone) - {p} == asic - {p};
  }

  lemma AddsThere(s: L3, k: RouteKey, rows: seq<NexthopRow>)
    ensures OnlyKey(s, AddRoute(s, k, rows), k)
  {
    hide FirstBatch, UsableKeys, Program;
    ProgramsThere(s.asic, k.prefix, {}, FirstBatch(s.neighbors, rows));
  }

  lemma ModifiesThere(s: L3, k: RouteKey, rows: seq<NexthopRow>)
    requires k in s.routes
    ensures OnlyKey(s, ModifyRoute(s, k, rows), k)
  {
    hide AddedBatch, Gone, Extra, Wanted, Program, Unprogram;
    var want := Wanted(rows);
    var extra := Extra(s.routes[k], want);
    ProgramsThere(s.asic, k.prefix, Gone(s.routes[k], want), AddedBatch(s.neighbors, extra, |rows| > 1));
  }

  lemma DeletesThere(s: L3, k: RouteKey)
    requires k in s.routes
    ensures OnlyKey(s, DeleteRoute(s, k), k)
  {
  }

  /** An operation on a key changes nothing else. */
  lemma OnlyThatKey(s: L3, db: Db, u: Uuid)
    requires WellFormed(db) && u in db.routes
    ensures OnlyKey(s, ModifyRow(s, db, u), db.routes[u].key)
  {
    hide AddRoute, ModifyRoute, DeleteRoute;
    var k, rows := db.routes[u].key, NexthopRows(db, u);
    AddsThere(s, k, rows);
    if k in s.routes {
      ModifiesThere(s, k, rows);
      DeletesThere(s, k);
    }
  }

  /** Only prefixes of these keys are affected. */
  ghost predicate Beyond(s: L3, t: L3, keys: set<RouteKey>) {
    forall p :: (forall k :: k in keys ==> k.prefix != p) ==> Narrow(t, p) == Narrow(s, p)
  }

  lemma NothingBeyond(s: L3, keys: set<RouteKey>)
    ensures Beyond(s, s, keys)
  {
  }

  lemma BeyondStep(s: L3, m: L3, t: L3, keys: set<RouteKey>, k: RouteKey)
    requires Beyond(s, m, keys) && OnlyKey(m, t, k)
    ensures Beyond(s, t, keys + {k})
  {
    hide Narrow;
    forall p | forall k' :: k' in keys + {k} ==> k'.prefix != p ensures Narrow(t, p) == Narrow(s, p) {
      assert k in keys + {k};
      SameNarrow(m, t, k, p);
      assert forall k' :: k' in keys ==> k' in keys + {k};
    }
  }

  lemma BeyondBoth(s: L3, m: L3, t: L3, a: set<RouteKey>, b: set<RouteKey>)
    requires Beyond(s, m, a) && Beyond(m, t, b)
    ensures Beyond(s, t, a + b)
  {
    hide Narrow;
    forall p | forall k :: k in a + b ==> k.prefix != p ensures Narrow(t, p) == Narrow(s, p) {
      assert forall k :: k in a ==> k in a + b;
      assert forall k :: k in b ==> k in a + b;
    }
  }

  lemma {:induction false} ModifyAllBeyond(s: L3, db: Db, order: seq<Uuid>, keys: set<RouteKey>)
    requires WellFormed(db) && forall u :: u in order ==> u in db.routes && db.routes[u].key in keys
    ensures Beyond(s, ModifyAll(s, db, order), keys)
  {
    hide Beyond, ModifyRow;
    if order == [] {
      NothingBeyond(s, keys);
    } else {
      var init, u := order[..|order| - 1], order[|order| - 1];
      ModifyAllBeyond(s, db, init, keys);
      var m, k := ModifyAll(s, db, init), db.routes[u].key;
      OnlyThatKey(m, db, u);
      BeyondStep(s, m, ModifyRow(m, db, u), keys, k);
      assert keys + {k} == keys;
    }
  }

  lemma NarrowOther(s: L3, db: Db, u: Uuid, p: string)
    requires WellFormed(db) && u in db.routes && db.routes[u].key.prefix != p
    ensures Narrow(ModifyRow(s, db, u), p) == Narrow(s, p)
  {
    hide ModifyRow;
    OnlyThatKey(s, db, u);
    SameNarrow(s, ModifyRow(s, db, u), db.routes[u].key, p);
  }

  /** The pass at a row of the prefix, seen from there. */
  lemma NarrowOwn(s: L3, db: Db, u: Uuid)
    requires WellFormed(db) && u in db.routes
    ensures
      var p := db.routes[u].key.prefix;
      Narrow(ModifyRow(s, db, u), p) == ModifyRow(Narrow(s, p), db, u)
  {
    hide AddRoute, DeleteRoute, ModifyRoute;
    var k, rows := db.routes[u].key, NexthopRows(db, u);
    assert k in Narrow(s, k.prefix).routes <==> k in s.routes;
    if k in s.routes {
      NarrowModify(s, k, rows);
      NarrowDelete(s, k);
    } else {
      NarrowAdd(s, k, rows);
    }
  }

  // ----- along the order -----

  /** What the tables of one prefix are like before or after some rows of the pass. */
  ghost predicate Whole(n: L3) {
    Sound(n.routes, n.asic) && HostsAgree(n.neighbors, n.hosts) && NeighborsOk(n.neighbors)
  }

  ghost predicate OfPrefix(n: L3, p: string) {
    forall k :: k in n.routes ==> k.prefix == p
  }

  /** A wanted route that shares its prefix with another is as it is wanted. */
  ghost predicate Shared(n: L3, want: View) {
    && (forall a, a' :: a in n.routes && a !in want && a' in n.routes && a' !in want ==> a == a')
    && (forall a, b :: a in n.routes && a !in want && b in n.routes && b in want ==>
          NexthopSet(n.routes[b]) == want[b])
  }

  /** Where the provider has lost it, the wanted route is alone and as it is wanted. */
  ghost predicate Lost(n: L3, want: View) {
    && !Complete(n)
    && forall b :: b in n.routes ==> b in want && NexthopSet(n.routes[b]) == want[b]
  }

  ghost predicate Track(n: L3, want: View, p: string, lost: bool) {
    Whole(n) && OfPrefix(n, p) && Shared(n, want) && if lost then Lost(n, want) else Complete(n)
  }

  lemma NothingToChange(have: multiset<Nexthop>, want: set<Nexthop>)
    requires NexthopSet(have) == want
    ensures Gone(have, want) == {} && Extra(have, want) == {}
    ensures KeepOnly(have, want) + multiset(Extra(have, want)) == have
  {
    assert forall nh :: nh in have <==> nh in NexthopSet(have);
    assert multiset(Extra(have, want)) == multiset{};
    assert KeepOnly(have, want) == have;
  }

  lemma NothingSent(asic: Asic, p: string, neighbors: Neighbors, ecmp: bool)
    ensures Program(Unprogram(asic, p, {}), p, AddedBatch(neighbors, {}, ecmp)) == asic
  {
    assert AddedBatch(neighbors, {}, ecmp) == map[];
    if p in asic {
      assert asic[p] - {} == asic[p];
      assert asic[p := asic[p]] == asic;
    }
  }

  /** Nothing happens to a route that is as it is wanted. */
  lemma ModifyNothing(s: L3, k: RouteKey, rows: seq<NexthopRow>)
    requires k in s.routes && NexthopSet(s.routes[k]) == Wanted(rows)
    ensures ModifyRoute(s, k, rows) == s
  {
    hide Wanted, Gone, Extra, Program, Unprogram, AddedBatch;
    NothingToChange(s.routes[k], Wanted(rows));
    NothingSent(s.asic, k.prefix, s.neighbors, |rows| > 1);
    assert s.routes[k := s.routes[k]] == s.routes;
  }

  /** Adding a route of any prefix programs nothing that is not cached. */
  lemma AddSound(s: L3, k: RouteKey, rows: seq<NexthopRow>)
    requires Sound(s.routes, s.asic) && k !in s.routes
    ensures Sound(AddRoute(s, k, rows).routes, AddRoute(s, k, rows).asic)
  {
    FirstBatchSuits(s.neighbors, rows);
    ProgramSound(s.routes, s.asic, k, multiset(UsableKeys(rows)), FirstBatch(s.neighbors, rows));
  }

  lemma ProgramSound(routes: Routes, asic: Asic, k: RouteKey, have: multiset<Nexthop>, batch: Programming)
    requires Sound(routes, asic) && k !in routes && forall nh :: nh in batch ==> nh in have
    ensures Sound(routes[k := have], Program(asic, k.prefix, batch))
  {
    var now := routes[k := have];
    forall p, nh | p in Program(asic, k.prefix, batch) && nh in Program(asic, k.prefix, batch)[p]
      ensures Uses(now, p, nh)
    {
      if p == k.prefix && nh in batch {
        assert k in now && nh in now[k];
      } else {
        var k' :| k' in routes && k'.prefix == p && nh in routes[k'];
        assert k' in now && nh in now[k'];
      }
    }
  }

  lemma AddComplete(s: L3, k: RouteKey, rows: seq<NexthopRow>)
    requires Complete(s) && Sound(s.routes, s.asic) && k !in s.routes
    ensures Complete(AddRoute(s, k, rows))
  {
    FirstBatchSuits(s.neighbors, rows);
    AddOverShared(s, k, multiset(UsableKeys(rows)), FirstBatch(s.neighbors, rows));
  }

  /** A row that is selected. */
  lemma StepSelected(n: L3, want: View, p: string, lost: bool, k: RouteKey, rows: seq<NexthopRow>)
    requires Track(n, want, p, lost) && PrefixesApart(want.Keys)
    requires k in want && k.prefix == p && want[k] == Wanted(rows)
    ensures
      var t := if k in n.routes then ModifyRoute(n, k, rows) else AddRoute(n, k, rows);
      Track(t, want, p, lost) && t.routes.Keys == n.routes.Keys + {k}
  {
    hide Whole, Complete, Wanted, ModifyRoute, AddRoute;
    if k !in n.routes {
      NotLostYet(n, want, p, k);
      StepAdded(n, want, p, k, rows);
    } else if lost || exists a :: a in n.routes && a !in want {
      ModifyNothing(n, k, rows);
    } else {
      StepModified(n, want, p, k, rows);
    }
  }

  lemma StepAdded(n: L3, want: View, p: string, k: RouteKey, rows: seq<NexthopRow>)
    requires Track(n, want, p, false) && PrefixesApart(want.Keys) && k !in n.routes
    requires k in want && k.prefix == p && want[k] == Wanted(rows)
    ensures Track(AddRoute(n, k, rows), want, p, false) && AddRoute(n, k, rows).routes.Keys == n.routes.Keys + {k}
  {
    hide Complete, Sound, HostsAgree, NeighborsOk, FirstBatch, UsableKeys;
    AddComplete(n, k, rows);
    AddSound(n, k, rows);
    AddedSet(rows);
  }

  lemma AddedSet(rows: seq<NexthopRow>)
    ensures NexthopSet(multiset(UsableKeys(rows))) == Wanted(rows)
  {
  }

  lemma StepModified(n: L3, want: View, p: string, k: RouteKey, rows: seq<NexthopRow>)
    requires Track(n, want, p, false) && PrefixesApart(want.Keys) && k in n.routes
    requires k in want && k.prefix == p && want[k] == Wanted(rows) && forall a :: a in n.routes ==> a in want
    ensures Track(ModifyRoute(n, k, rows), want, p, false) && ModifyRoute(n, k, rows).routes.Keys == n.routes.Keys + {k}
  {
    hide Complete, Sound, HostsAgree, NeighborsOk, Gone, Extra, AddedBatch, Program, Unprogram, Wanted;
    assert forall a :: a in n.routes ==> a == k;
    ModifyRouteKeeps(n, k, rows);
  }

  lemma NotLostYet(n: L3, want: View, p: string, k: RouteKey)
    requires OfPrefix(n, p) && PrefixesApart(want.Keys) && k in want && k.prefix == p && k !in n.routes
    ensures !Lost(n, want)
  {
  }

  /** A row that is not selected any more, but cached. */
  lemma StepDropped(n: L3, want: View, p: string, lost: bool, k: RouteKey)
    requires Track(n, want, p, lost) && PrefixesApart(want.Keys) && k in n.routes && k !in want
    ensures !lost
    ensures
      var t := DeleteRoute(n, k);
      var loses :=
        n.routes[k] != multiset{} && exists b :: b in n.routes && b in want && HasStrong(n.neighbors, want[b]);
      Track(t, want, p, loses)
  {
    var t := DeleteRoute(n, k);
    assert !lost;
    DeleteRouteExact(n, k);
    DroppedSound(n, k);
    assert forall b :: b in n.routes && b != k ==> b in want && NexthopSet(n.routes[b]) == want[b];
    assert forall b, nh :: b in n.routes ==> (nh in n.routes[b] <==> nh in NexthopSet(n.routes[b]));
  }

  lemma DroppedSound(n: L3, k: RouteKey)
    requires Sound(n.routes, n.asic) && k in n.routes
    ensures n.routes[k] != multiset{} && (forall b :: b in n.routes ==> b.prefix == k.prefix) ==>
      Sound(DeleteRoute(n, k).routes, DeleteRoute(n, k).asic)
    ensures n.routes[k] == multiset{} ==> Sound(DeleteRoute(n, k).routes, DeleteRoute(n, k).asic)
  {
    var t := DeleteRoute(n, k);
    forall p, nh | p in t.asic && nh in t.asic[p] && (n.routes[k] == multiset{} || p != k.prefix)
      ensures Uses(t.routes, p, nh)
    {
      var k' :| k' in n.routes && k'.prefix == p && nh in n.routes[k'];
      assert k' != k && k' in t.routes;
    }
  }

  // ----- the whole pass -----

  /** The rows of a pass: each asks for what is wanted, and has a key of its own. */
  ghost predicate Rows(db: Db, order: seq<Uuid>, want: View)
    requires WellFormed(db)
  {
    && (forall u :: u in order ==> u in db.routes && AsksFor(db, u, want))
    && (forall i, j :: 0 <= i < j < |order| ==> db.routes[order[i]].key != db.routes[order[j]].key)
  }

  /** Some row of the prefix makes the provider lose it. */
  ghost predicate LostBy(v: View, want: View, neighbors: Neighbors, db: Db, order: seq<Uuid>, p: string)
    requires forall u :: u in order ==> u in db.routes
  {
    exists j :: 0 <= j < |order| && db.routes[order[j]].key.prefix == p && LossAt(v, want, neighbors, db, order, j)
  }

  /** Which routes of the prefix are cached: those to go until their row comes, those to come from then on. */
  ghost predicate CachedBy(s: L3, n: L3, want: View, db: Db, order: seq<Uuid>, p: string)
    requires forall u :: u in order ==> u in db.routes
  {
    && (forall k: RouteKey :: k.prefix == p && k !in want ==>
          && (k in n.routes <==> k in s.routes && !KeyIn(db, order, k))
          && (k in n.routes ==> n.routes[k] == s.routes[k]))
    && (forall k: RouteKey :: k.prefix == p && k in want ==> (k in n.routes <==> k in s.routes || KeyIn(db, order, k)))
  }

  /** All agreements but that no two routes share a prefix. */
  ghost predicate Loose(s: L3) {
    Complete(s) && Sound(s.routes, s.asic) && HostsAgree(s.neighbors, s.hosts) && NeighborsOk(s.neighbors)
  }

  lemma AddLoose(s: L3, k: RouteKey, rows: seq<NexthopRow>)
    requires Loose(s) && k !in s.routes
    ensures Loose(AddRoute(s, k, rows))
  {
    hide Complete, Sound, FirstBatch, UsableKeys;
    AddComplete(s, k, rows);
    AddSound(s, k, rows);
  }

  /** After the delete and insert passes they are, if no two wanted routes share a prefix. */
  lemma ReadyAfterInsert(had: Routes, s: L3, want: View, v1: View, found: set<RouteKey>, c: Changes)
    requires OnePerPrefix(had) && Loose(s) && PrefixesApart(want.Keys) && v1.Keys <= had.Keys
    requires ViewOf(s.routes) == AfterInsert(v1, want, found, c)
    ensures Ready(s, want)
  {
    hide Loose;
    var v := ViewOf(s.routes);
    assert v.Keys == s.routes.Keys;
    forall a | a in s.routes && a !in want ensures a in had {
      assert a in v;
    }
    forall a, b | a in s.routes && a !in want && b in s.routes && b in want && a.prefix == b.prefix
      ensures NexthopSet(s.routes[b]) == want[b]
    {
      assert b !in had;
      assert v[b] == NexthopSet(s.routes[b]);
    }
  }

  /** What the tables must be like before the pass. */
  ghost predicate Ready(s: L3, want: View) {
    && Loose(s) && PrefixesApart(want.Keys)
    && (forall a, a' :: a in s.routes && a !in want && a' in s.routes && a' !in want && a.prefix == a'.prefix ==>
          a == a')
    && (forall a, b :: a in s.routes && a !in want && b in s.routes && b in want && a.prefix == b.prefix ==>
          NexthopSet(s.routes[b]) == want[b])
  }

  lemma TrackStarts(s: L3, want: View, p: string)
    requires Ready(s, want)
    ensures Track(Narrow(s, p), want, p, false)
  {
    hide Complete, Sound;
    NarrowComplete(s);
    NarrowSound(s, p);
  }

  lemma KeyInAppend(db: Db, order: seq<Uuid>, u: Uuid, k: RouteKey)
    requires (forall r :: r in order ==> r in db.routes) && u in db.routes
    ensures KeyIn(db, order + [u], k) <==> KeyIn(db, order, k) || db.routes[u].key == k
  {
    if db.routes[u].key == k {
      assert u in order + [u];
    } else if KeyIn(db, order, k) {
      var r :| r in order && db.routes[r].key == k;
      assert r in order + [u];
    }
  }

  /** Only the last row can add to what is lost. */
  lemma LostByAppend(v: View, want: View, neighbors: Neighbors, db: Db, order: seq<Uuid>, u: Uuid, p: string)
    requires (forall r :: r in order ==> r in db.routes) && u in db.routes
    ensures LostBy(v, want, neighbors, db, order + [u], p) <==>
      || LostBy(v, want, neighbors, db, order, p)
      || (db.routes[u].key.prefix == p && LossAt(v, want, neighbors, db, order + [u], |order|))
  {
    hide LossAt;
    var longer := order + [u];
    forall j | 0 <= j < |order|
      ensures LossAt(v, want, neighbors, db, longer, j) <==> LossAt(v, want, neighbors, db, order, j)
    {
      LossSame(v, want, neighbors, db, longer, order, j);
    }
    if LostBy(v, want, neighbors, db, order, p) {
      var j :| 0 <= j < |order| && db.routes[order[j]].key.prefix == p && LossAt(v, want, neighbors, db, order, j);
      assert longer[j] == order[j] && LossAt(v, want, neighbors, db, longer, j);
    }
  }

  lemma LossSame(v: View, want: View, neighbors: Neighbors, db: Db, a: seq<Uuid>, b: seq<Uuid>, j: nat)
    requires (forall r :: r in a ==> r in db.routes) && (forall r :: r in b ==> r in db.routes)
    requires j < |a| && j < |b| && a[..j] == b[..j] && a[j] == b[j]
    ensures LossAt(v, want, neighbors, db, a, j) <==> LossAt(v, want, neighbors, db, b, j)
  {
  }

  /** One prefix followed through the pass. */
  lemma {:induction false} Along(s: L3, want: View, db: Db, order: seq<Uuid>, p: string)
    requires WellFormed(db) && Rows(db, order, want) && Ready(s, want)
    ensures
      var n := Narrow(ModifyAll(s, db, order), p);
      && CachedBy(s, n, want, db, order, p) && n.neighbors == s.neighbors
      && Track(n, want, p, LostBy(ViewOf(s.routes), want, s.neighbors, db, order, p))
    decreases |order|
  {
    hide Track, Ready, LostBy, ModifyRow, CachedBy, Rows;
    if order == [] {
      TrackStarts(s, want, p);
      NoRows(s, want, db, p);
    } else {
      var init, u := order[..|order| - 1], order[|order| - 1];
      assert order == init + [u];
      FewerRows(db, init, u, want);
      Along(s, want, db, init, p);
      AlongStep(s, ModifyAll(s, db, init), want, db, init, u, p);
    }
  }

  lemma NoRows(s: L3, want: View, db: Db, p: string)
    ensures !LostBy(ViewOf(s.routes), want, s.neighbors, db, [], p) && CachedBy(s, Narrow(s, p), want, db, [], p)
  {
  }

  lemma FewerRows(db: Db, init: seq<Uuid>, u: Uuid, want: View)
    requires WellFormed(db) && Rows(db, init + [u], want)
    ensures Rows(db, init, want) && u in db.routes && AsksFor(db, u, want) && !KeyIn(db, init, db.routes[u].key)
  {
    var order := init + [u];
    assert forall i :: 0 <= i < |init| ==> order[i] == init[i];
    assert order[|init|] == u && u in order;
    assert forall r :: r in init ==> r in order;
    forall r | r in init ensures db.routes[r].key != db.routes[u].key {
      var i :| 0 <= i < |init| && init[i] == r;
      assert db.routes[order[i]].key != db.routes[order[|init|]].key;
    }
  }

  lemma AlongStep(s: L3, m: L3, want: View, db: Db, init: seq<Uuid>, u: Uuid, p: string)
    requires WellFormed(db) && Rows(db, init, want) && u in db.routes && AsksFor(db, u, want) && Ready(s, want)
    requires !KeyIn(db, init, db.routes[u].key)
    requires CachedBy(s, Narrow(m, p), want, db, init, p) && m.neighbors == s.neighbors
    requires Track(Narrow(m, p), want, p, LostBy(ViewOf(s.routes), want, s.neighbors, db, init, p))
    ensures
      var n := Narrow(ModifyRow(m, db, u), p);
      && CachedBy(s, n, want, db, init + [u], p) && n.neighbors == s.neighbors
      && Track(n, want, p, LostBy(ViewOf(s.routes), want, s.neighbors, db, init + [u], p))
  {
    hide Track, LostBy, ModifyRow, Narrow, LossAt, Ready;
    LostByAppend(ViewOf(s.routes), want, s.neighbors, db, init, u, p);
    forall k ensures KeyIn(db, init + [u], k) <==> KeyIn(db, init, k) || db.routes[u].key == k {
      KeyInAppend(db, init, u, k);
    }
    if db.routes[u].key.prefix != p {
      NarrowOther(m, db, u, p);
      OtherCached(s, Narrow(m, p), want, db, init, u, p);
      assert Narrow(m, p).neighbors == s.neighbors by { NarrowNeighbors(m, p); }
    } else {
      NarrowOwn(m, db, u);
      NarrowNeighbors(m, p);
      OwnStep(s, Narrow(m, p), want, db, init, u, p);
    }
  }

  lemma NarrowNeighbors(s: L3, p: string)
    ensures Narrow(s, p).neighbors == s.neighbors
  {
  }

  lemma OtherCached(s: L3, n: L3, want: View, db: Db, init: seq<Uuid>, u: Uuid, p: string)
    requires (forall r :: r in init ==> r in db.routes) && u in db.routes && db.routes[u].key.prefix != p
    requires CachedBy(s, n, want, db, init, p)
    requires forall k :: KeyIn(db, init + [u], k) <==> KeyIn(db, init, k) || db.routes[u].key == k
    ensures CachedBy(s, n, want, db, init + [u], p)
  {
  }

  lemma OwnStep(s: L3, n: L3, want: View, db: Db, init: seq<Uuid>, u: Uuid, p: string)
    requires WellFormed(db) && Rows(db, init, want) && u in db.routes && AsksFor(db, u, want) && Ready(s, want)
    requires !KeyIn(db, init, db.routes[u].key) && db.routes[u].key.prefix == p
    requires forall k :: KeyIn(db, init + [u], k) <==> KeyIn(db, init, k) || db.routes[u].key == k
    requires CachedBy(s, n, want, db, init, p) && n.neighbors == s.neighbors
    requires Track(n, want, p, LostBy(ViewOf(s.routes), want, s.neighbors, db, init, p))
    requires LostBy(ViewOf(s.routes), want, s.neighbors, db, init + [u], p) <==>
      || LostBy(ViewOf(s.routes), want, s.neighbors, db, init, p)
      || LossAt(ViewOf(s.routes), want, s.neighbors, db, init + [u], |init|)
    ensures
      var t := ModifyRow(n, db, u);
      && CachedBy(s, t, want, db, init + [u], p) && t.neighbors == s.neighbors
      && Track(t, want, p, LostBy(ViewOf(s.routes), want, s.neighbors, db, init + [u], p))
  {
    hide Track, LostBy, LossAt, CachedBy, ModifyRow, Ready, KeyIn;
    OwnTrack(s, n, want, db, init, u, p);
    OnlyThatKey(n, db, u);
    OwnCached(s, n, ModifyRow(n, db, u), want, db, init, u, p);
  }

  lemma OwnCached(s: L3, n: L3, t: L3, want: View, db: Db, init: seq<Uuid>, u: Uuid, p: string)
    requires (forall r :: r in init ==> r in db.routes) && u in db.routes && OnlyKey(n, t, db.routes[u].key)
    requires db.routes[u].key in t.routes <==> db.routes[u].key in want
    requires forall k :: KeyIn(db, init + [u], k) <==> KeyIn(db, init, k) || db.routes[u].key == k
    requires CachedBy(s, n, want, db, init, p)
    ensures CachedBy(s, t, want, db, init + [u], p)
  {
    hide KeyIn;
    SameOthers(n, t, db.routes[u].key);
  }

  lemma OwnTrack(s: L3, n: L3, want: View, db: Db, init: seq<Uuid>, u: Uuid, p: string)
    requires WellFormed(db) && Rows(db, init, want) && u in db.routes && AsksFor(db, u, want) && Ready(s, want)
    requires !KeyIn(db, init, db.routes[u].key) && db.routes[u].key.prefix == p
    requires CachedBy(s, n, want, db, init, p) && n.neighbors == s.neighbors
    requires Track(n, want, p, LostBy(ViewOf(s.routes), want, s.neighbors, db, init, p))
    requires LostBy(ViewOf(s.routes), want, s.neighbors, db, init + [u], p) <==>
      || LostBy(ViewOf(s.routes), want, s.neighbors, db, init, p)
      || LossAt(ViewOf(s.routes), want, s.neighbors, db, init + [u], |init|)
    ensures
      var t := ModifyRow(n, db, u);
      && Track(t, want, p, LostBy(ViewOf(s.routes), want, s.neighbors, db, init + [u], p))
      && (db.routes[u].key in t.routes <==> db.routes[u].key in want)
  {
    hide Track, LostBy, AddRoute, ModifyRoute, DeleteRoute, LossAt, KeyIn, Wanted, NexthopRows;
    var k, rows := db.routes[u].key, NexthopRows(db, u);
    var lost := LostBy(ViewOf(s.routes), want, s.neighbors, db, init, p);
    if db.routes[u].Selected() {
      StepSelected(n, want, p, lost, k, rows);
      SelectedIsNoLoss(ViewOf(s.routes), want, s.neighbors, db, init, u);
    } else if k in n.routes {
      StepDropped(n, want, p, lost, k);
      DroppedKeys(n, k);
      LossHere(s, n, want, db, init, u, p, lost);
    } else {
      UncachedIsNoLoss(ViewOf(s.routes), want, s.neighbors, db, init, u);
    }
  }

  lemma DroppedKeys(n: L3, k: RouteKey)
    requires k in n.routes
    ensures DeleteRoute(n, k).routes == n.routes - {k}
  {
  }

  lemma SameOthers(n: L3, t: L3, k: RouteKey)
    requires OnlyKey(n, t, k)
    ensures forall k' :: k' != k ==> (k' in t.routes <==> k' in n.routes)
    ensures forall k' :: k' != k && k' in n.routes ==> t.routes[k'] == n.routes[k']
  {
    forall k' | k' != k
      ensures (k' in t.routes <==> k' in n.routes) && (k' in n.routes ==> t.routes[k'] == n.routes[k'])
    {
      assert (k' in t.routes - {k}) == (k' in n.routes - {k});
      if k' in n.routes { assert (t.routes - {k})[k'] == (n.routes - {k})[k']; }
    }
  }

  lemma SelectedIsNoLoss(v: View, want: View, neighbors: Neighbors, db: Db, init: seq<Uuid>, u: Uuid)
    requires (forall r :: r in init ==> r in db.routes) && u in db.routes && db.routes[u].Selected()
    ensures !LossAt(v, want, neighbors, db, init + [u], |init|)
  {
  }

  lemma UncachedIsNoLoss(v: View, want: View, neighbors: Neighbors, db: Db, init: seq<Uuid>, u: Uuid)
    requires (forall r :: r in init ==> r in db.routes) && u in db.routes && db.routes[u].key !in v
    ensures !LossAt(v, want, neighbors, db, init + [u], |init|)
  {
  }

  /** Dropping a cached route loses another exactly when LossAt says so. */
  lemma LossHere(s: L3, n: L3, want: View, db: Db, init: seq<Uuid>, u: Uuid, p: string, lost: bool)
    requires (forall r :: r in init ==> r in db.routes) && u in db.routes && !db.routes[u].Selected()
    requires Track(n, want, p, lost) && n.neighbors == s.neighbors && db.routes[u].key.prefix == p
    requires CachedBy(s, n, want, db, init, p) && db.routes[u].key in n.routes && db.routes[u].key !in want
    ensures LossAt(ViewOf(s.routes), want, s.neighbors, db, init + [u], |init|) <==>
      && n.routes[db.routes[u].key] != multiset{}
      && exists b :: b in n.routes && b in want && HasStrong(n.neighbors, want[b])
  {
    hide Whole, Complete, Shared, HasStrong, KeyIn;
    var k, order := db.routes[u].key, init + [u];
    assert order[..|init|] == init && order[|init|] == u;
    assert n.routes[k] != multiset{} <==> ViewOf(s.routes)[k] != {} by { EmptySet(n.routes[k]); }
    if b :| b in n.routes && b in want && HasStrong(n.neighbors, want[b]) {
      assert b.prefix == p && (b in ViewOf(s.routes) || KeyIn(db, order[..|init|], b));
    }
  }

  lemma EmptySet(m: multiset<Nexthop>)
    ensures NexthopSet(m) == {} <==> m == multiset{}
  {
    if m != multiset{} {
      var nh :| nh in m;
      assert nh in NexthopSet(m);
    }
  }

  /**
  After the modify pass every cached route is programmed as it should be, if and only
  if no route with nexthops was dropped while the wanted one of its prefix, with
  something to program, was cached.
  */
  lemma BatchExact(s: L3, want: View, db: Db, order: seq<Uuid>)
    requires WellFormed(db) && Rows(db, order, want) && Ready(s, want)
    ensures Complete(ModifyAll(s, db, order)) <==> NoLoss(ViewOf(s.routes), want, s.neighbors, db, order)
  {
    hide Ready, Narrow, Complete, LossAt;
    var t := ModifyAll(s, db, order);
    NarrowComplete(t);
    forall p ensures Complete(Narrow(t, p)) <==> !LostBy(ViewOf(s.routes), want, s.neighbors, db, order, p) {
      Along(s, want, db, order, p);
    }
    if !NoLoss(ViewOf(s.routes), want, s.neighbors, db, order) {
      var j :| 0 <= j < |order| && LossAt(ViewOf(s.routes), want, s.neighbors, db, order, j);
      assert LostBy(ViewOf(s.routes), want, s.neighbors, db, order, db.routes[order[j]].key.prefix);
    }
  }
}
