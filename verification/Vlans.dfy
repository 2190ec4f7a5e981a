/** bridge_configure_vlans (src/bridge.c): the VLANs of a bridge from database rows and change flags. */
module Vlans {
  import opened Common

  const ENABLE_TRUE := "true"

  /** A row; `changed` if it was inserted or modified in this batch. */
  datatype Row = Row(name: string, vid: nat, hwEnable: Option<string>, changed: bool) {
    predicate Enabled() { hwEnable == Some(ENABLE_TRUE) }
  }

  datatype Vlan = Vlan(vid: nat, enable: bool)

  type Table = map<string, Vlan>
  type Rows = map<string, Row>

  /** The rows by name; of several with one name the first counts. */
  function Collected(rows: seq<Row>): Rows {
    if rows == [] then map[]
    else
      var init, last := Collected(rows[..|rows| - 1]), rows[|rows| - 1];
      if last.name in init then init else init[last.name := last]
  }

  ghost predicate FirstNamed(rows: seq<Row>, i: nat, name: string) {
    i < |rows| && rows[i].name == name && forall j :: 0 <= j < i ==> rows[j].name != name
  }

  lemma {:induction false} CollectedExact(rows: seq<Row>)
    ensures forall n :: n in Collected(rows) <==> exists i: nat :: FirstNamed(rows, i, n)
    ensures forall n, i: nat :: FirstNamed(rows, i, n) ==> n in Collected(rows) && Collected(rows)[n] == rows[i]
  {
    if rows != [] {
      var init, last := rows[..|rows| - 1], |rows| - 1;
      CollectedExact(init);
      forall n, i: nat ensures FirstNamed(init, i, n) <==> FirstNamed(rows, i, n) && i < last {}
      forall n ensures n in Collected(rows) <==> exists i: nat :: FirstNamed(rows, i, n) {
        if n in Collected(init) {
          var i: nat :| FirstNamed(init, i, n);
          assert FirstNamed(rows, i, n);
        } else if n == rows[last].name {
          NotNamed(init, n);
          assert FirstNamed(rows, last, n);
        }
      }
    }
  }

  /** A name some row has is the name of a first one. */
  lemma {:induction false} NotNamed(rows: seq<Row>, n: string)
    requires forall i: nat :: !FirstNamed(rows, i, n)
    ensures forall i :: 0 <= i < |rows| ==> rows[i].name != n
  {
    for i := 0 to |rows|
      invariant forall j :: 0 <= j < i ==> rows[j].name != n
    {
      assert !FirstNamed(rows, i, n);
    }
  }

  /**
  What a VLAN ends up as: it is there if some row has its name, with the VID it had or
  else that of the first such row; it is enabled as that row says if the row is
  flagged, else as it was, and a new one is not.
  */
  lemma VlanExact(t: Table, rows: seq<Row>, n: string)
    ensures
      var now := Configured(t, Collected(rows));
      && (n in now <==> exists i: nat :: FirstNamed(rows, i, n))
      && forall i: nat :: FirstNamed(rows, i, n) ==>
           && n in now && now[n].vid == (if n in t then t[n].vid else rows[i].vid)
           && now[n].enable == if rows[i].changed then rows[i].hwEnable == Some("true") else n in t && t[n].enable
  {
    CollectedExact(rows);
  }

  ghost predicate DistinctVids(t: Table) {
    forall n, m :: n in t && m in t && t[n].vid == t[m].vid ==> n == m
  }

  ghost predicate DistinctRowVids(db: Rows) {
    forall n, m :: n in db && m in db && db[n].vid == db[m].vid ==> n == m
  }

  function EnabledVids(t: Table): set<nat> {
    set n | n in t && t[n].enable :: t[n].vid
  }

  // ----- the three loops -----

  function AfterDelete(t: Table, db: Rows): Table {
    map n | n in t && n in db :: t[n]
  }

  function AfterAdd(t: Table, db: Rows): Table {
    map n | n in t.Keys + db.Keys :: if n in t then t[n] else Vlan(db[n].vid, false)
  }

  function AfterChange(t: Table, db: Rows): Table {
    map n | n in t :: if n in db && db[n].changed then t[n].(enable := db[n].Enabled()) else t[n]
  }

  function Configured(t: Table, db: Rows): Table {
    AfterChange(AfterAdd(AfterDelete(t, db), db), db)
  }

  class Bridge {
    var vlans: Table
    var hw: set<nat>      // the VIDs enabled through ofproto_set_vlan

    constructor ()
      ensures vlans == map[] && hw == {}
    {
      vlans, hw := map[], {};
    }

    method SetVlan(vid: nat, enable: bool)
      modifies this`hw
      ensures hw == if enable then old(hw) + {vid} else old(hw) - {vid}
    {
      hw := if enable then hw + {vid} else hw - {vid};
    }

    /** bridge_configure_vlans. */
    method ConfigureVlans(rows: seq<Row>)
      modifies this
      ensures vlans == Configured(old(vlans), Collected(rows))
      ensures Programmed(old(hw), old(vlans), Collected(rows), hw)
    {
      var db := map[];
      for i := 0 to |rows|
        invariant db == Collected(rows[..i])
      {
        assert rows[..i + 1][..i] == rows[..i];
        if rows[i].name !in db {
          db := db[rows[i].name := rows[i]];
        }
      }
      assert rows[..|rows|] == rows;
      DeleteOld(db);
      AddNew(db);
      CheckChanges(db);
    }

    method DeleteOld(db: Rows)
      modifies this
      ensures vlans == AfterDelete(old(vlans), db) && hw == old(hw) - Gone(old(vlans), db)
    {
      var todo := vlans.Keys;
      ghost var t := vlans;
      while todo != {}
        invariant todo <= t.Keys && vlans == map n | n in t && (n in todo || n in db) :: t[n]
        invariant hw == old(hw) - (set n | n in t && n !in db && n !in todo :: t[n].vid)
      {
        var n :| n in todo;
        todo := todo - {n};
        if n !in db {
          SetVlan(vlans[n].vid, false);
          vlans := vlans - {n};
        }
      }
    }

    method AddNew(db: Rows)
      modifies this`vlans
      ensures vlans == AfterAdd(old(vlans), db)
    {
      var todo := db.Keys;
      ghost var t := vlans;
      while todo != {}
        invariant todo <= db.Keys
        invariant vlans == map n | n in t.Keys + (db.Keys - todo) :: if n in t then t[n] else Vlan(db[n].vid, false)
      {
        var n :| n in todo;
        todo := todo - {n};
        if n !in vlans {
          vlans := vlans[n := Vlan(db[n].vid, false)];
        }
      }
    }

    method CheckChanges(db: Rows)
      requires vlans.Keys == db.Keys
      modifies this
      ensures vlans == AfterChange(old(vlans), db)
      ensures Switched(old(hw), TurnedOn(old(vlans), db), TurnedOff(old(vlans), db), hw)
    {
      hide Switched, Turned, Changing;
      var todo := vlans.Keys;
      ghost var t := vlans;
      ghost var on, off: set<nat> := {}, {};
      NothingTurned(t, db, hw);
      while todo != {}
        invariant todo <= t.Keys && Changing(t, db, todo, vlans)
        invariant on == Turned(t, db, todo, true) && off == Turned(t, db, todo, false)
        invariant Switched(old(hw), on, off, hw)
      {
        var n :| n in todo;
        ChangeStep(t, db, todo, vlans, n);
        TurnedStep(t, db, todo, n, true);
        TurnedStep(t, db, todo, n, false);
        SwitchStep(old(hw), on, off, hw, t[n].vid);
        if db[n].changed {
          var enable := false;
          if db[n].hwEnable.Some? && db[n].hwEnable.value == ENABLE_TRUE {
            enable := true;
          }
          if enable != vlans[n].enable {
            vlans := vlans[n := vlans[n].(enable := enable)];
            SetVlan(vlans[n].vid, enable);
            on, off := if enable then on + {t[n].vid} else on, if enable then off else off + {t[n].vid};
          }
        }
        todo := todo - {n};
      }
    }
  }

  /** How far CheckChanges has come. */
  ghost predicate Changing(t: Table, db: Rows, todo: set<string>, now: Table)
    requires t.Keys == db.Keys
  {
    now == map n | n in t :: if n !in todo && db[n].changed then t[n].(enable := db[n].Enabled()) else t[n]
  }

  lemma ChangeStep(t: Table, db: Rows, todo: set<string>, now: Table, n: string)
    requires t.Keys == db.Keys && Changing(t, db, todo, now) && n in todo && n in t
    ensures now.Keys == t.Keys && now[n] == t[n]
    ensures Changing(t, db, todo - {n}, if db[n].changed then now[n := t[n].(enable := db[n].Enabled())] else now)
    ensures t[n].enable == db[n].Enabled() ==> Changing(t, db, todo - {n}, now)
  {
    if t[n].enable == db[n].Enabled() {
      assert t[n].(enable := db[n].Enabled()) == t[n];
    }
  }

  /** The VIDs CheckChanges has turned on or off. */
  function Turned(t: Table, db: Rows, todo: set<string>, on: bool): set<nat> {
    set n | n in t && n !in todo && Differs(t, db, n) && db[n].Enabled() == on :: t[n].vid
  }

  lemma NothingTurned(t: Table, db: Rows, hw: set<nat>)
    requires t.Keys == db.Keys
    ensures Turned(t, db, t.Keys, true) == {} == Turned(t, db, t.Keys, false)
    ensures Turned(t, db, {}, true) == TurnedOn(t, db) && Turned(t, db, {}, false) == TurnedOff(t, db)
    ensures Switched(hw, {}, {}, hw) && Changing(t, db, t.Keys, t)
    ensures forall now :: Changing(t, db, {}, now) ==> now == AfterChange(t, db)
  {
  }

  lemma TurnedStep(t: Table, db: Rows, todo: set<string>, n: string, on: bool)
    requires t.Keys == db.Keys && n in t && n in todo
    ensures Turned(t, db, todo - {n}, on) ==
      Turned(t, db, todo, on) + if Differs(t, db, n) && db[n].Enabled() == on then {t[n].vid} else {}
  {
    var rest := todo - {n};
    assert forall m :: m !in rest <==> m !in todo || m == n;
  }

  lemma SwitchStep(was: set<nat>, on: set<nat>, off: set<nat>, now: set<nat>, v: nat)
    requires Switched(was, on, off, now)
    ensures Switched(was, on + {v}, off, now + {v}) && Switched(was, on, off + {v}, now - {v})
    ensures Switched(was, on + {}, off + {}, now)
  {
  }

  // ----- what reaches the hardware -----

  function Gone(t: Table, db: Rows): set<nat> {
    set n | n in t && n !in db :: t[n].vid
  }

  predicate Differs(t: Table, db: Rows, n: string) {
    n in t && n in db && db[n].changed && t[n].enable != db[n].Enabled()
  }

  function TurnedOn(t: Table, db: Rows): set<nat> {
    set n | n in t && Differs(t, db, n) && db[n].Enabled() :: t[n].vid
  }

  function TurnedOff(t: Table, db: Rows): set<nat> {
    set n | n in t && Differs(t, db, n) && !db[n].Enabled() :: t[n].vid
  }

  /** Of a VID turned both on and off nothing is known: that depends on the order. */
  ghost predicate Switched(was: set<nat>, on: set<nat>, off: set<nat>, now: set<nat>) {
    && (forall v :: v in on && v !in off ==> v in now)
    && (forall v :: v in off && v !in on ==> v !in now)
    && (forall v :: v !in on && v !in off ==> (v in now <==> v in was))
  }

  /** What a pass may make of the hardware. */
  ghost predicate Programmed(was: set<nat>, t: Table, db: Rows, now: set<nat>) {
    var added := AfterAdd(AfterDelete(t, db), db);
    Switched(was - Gone(t, db), TurnedOn(added, db), TurnedOff(added, db), now)
  }

  /** Whatever the order, the outcome is `want`, if and only if no VID is turned on and off and it comes to that. */
  lemma OneOutcome(was: set<nat>, on: set<nat>, off: set<nat>, want: set<nat>)
    ensures (forall now :: Switched(was, on, off, now) ==> now == want) <==> on * off == {} && was - off + on == want
  {
    var plain, both := was - off + on, on * off;
    assert Switched(was, on, off, plain);
    if both == {} {
      assert forall v :: v in on && v in off ==> v in both;
      forall now | Switched(was, on, off, now) ensures now == plain {
        assert forall v :: v in now <==> v in plain;
      }
    } else {
      var v :| v in both;
      assert Switched(was, on, off, plain - {v}) && v in plain;
    }
  }

  /** Where no two VLANs have one VID, before and after, the hardware stays in step with the table. */
  lemma TableIsHardware(t: Table, db: Rows, hw: set<nat>)
    requires DistinctVids(t) && DistinctVids(Configured(t, db)) && Programmed(EnabledVids(t), t, db, hw)
    ensures hw == EnabledVids(Configured(t, db))
  {
    hide Programmed, DistinctVids, Configured, EnabledVids;
    forall v ensures v in hw <==> v in EnabledVids(Configured(t, db)) {
      TableIsHardwareAt(t, db, hw, v);
    }
  }

  lemma TableIsHardwareAt(t: Table, db: Rows, hw: set<nat>, v: nat)
    requires DistinctVids(t) && DistinctVids(Configured(t, db)) && Programmed(EnabledVids(t), t, db, hw)
    ensures v in hw <==> v in EnabledVids(Configured(t, db))
  {
    var added, r := AfterAdd(AfterDelete(t, db), db), Configured(t, db);
    assert r.Keys == added.Keys == db.Keys && forall n :: n in added ==> r[n].vid == added[n].vid;
    if n :| n in added && added[n].vid == v {
      assert forall m :: m in added && added[m].vid == v ==> m == n;
      assert v in TurnedOn(added, db) <==> Differs(added, db, n) && db[n].Enabled();
      assert v in TurnedOff(added, db) <==> Differs(added, db, n) && !db[n].Enabled();
      assert v in EnabledVids(r) <==> r[n].enable;
      KeptVid(t, db, n);
    } else {
      assert v !in TurnedOn(added, db) && v !in TurnedOff(added, db) && v !in EnabledVids(r);
      assert forall m :: m in t && m in db ==> m in added && added[m] == t[m];
    }
  }

  /** A VID that is in the table after the deletions and additions was enabled, if it was, by that VLAN. */
  lemma KeptVid(t: Table, db: Rows, n: string)
    requires DistinctVids(t) && DistinctVids(AfterAdd(AfterDelete(t, db), db)) && n in db
    ensures
      var added := AfterAdd(AfterDelete(t, db), db);
      added[n].vid in EnabledVids(t) - Gone(t, db) <==> added[n].enable
  {
    var added := AfterAdd(AfterDelete(t, db), db);
    forall m | m in t && t[m].vid == added[n].vid && m in db ensures m == n {
      assert m in added && added[m] == t[m];
    }
    if n in t {
      assert added[n] == t[n];
    }
  }

  // ----- against the database -----

  /** The table has the VLANs of the database with their VIDs and as enabled as they are to be. */
  ghost predicate Mirrors(t: Table, db: Rows) {
    t.Keys == db.Keys && forall n :: n in db ==> t[n] == Vlan(db[n].vid, db[n].Enabled())
  }

  /** Rows that are new or that are enabled differently are flagged. */
  ghost predicate Reported(was: Rows, now: Rows) {
    forall n :: n in now && (n in was ==> was[n].Enabled() != now[n].Enabled()) ==> now[n].changed
  }

  /** VLANs that stay keep their VID. */
  ghost predicate StableVids(was: Rows, now: Rows) {
    forall n :: n in was && n in now ==> was[n].vid == now[n].vid
  }

  function WantedVids(db: Rows): set<nat> {
    set n | n in db && db[n].Enabled() :: db[n].vid
  }

  /** The VID under which a VLAN is in the table after a pass: the one it came with. */
  function FirstVid(was: Rows, now: Rows, n: string): nat
    requires n in now
  {
    if n in was then was[n].vid else now[n].vid
  }

  function FirstVids(was: Rows, now: Rows): set<nat> {
    set n | n in now && now[n].Enabled() :: FirstVid(was, now, n)
  }

  lemma ConfiguredAt(t: Table, was: Rows, now: Rows)
    requires Mirrors(t, was) && Reported(was, now)
    ensures Configured(t, now) == map n | n in now :: Vlan(FirstVid(was, now, n), now[n].Enabled())
  {
    var r := Configured(t, now);
    assert r.Keys == now.Keys;
    forall n | n in now ensures r[n] == Vlan(FirstVid(was, now, n), now[n].Enabled()) {
    }
  }

  lemma ConfiguredMirrors(t: Table, was: Rows, now: Rows)
    requires Mirrors(t, was) && Reported(was, now)
    ensures Mirrors(Configured(t, now), now) <==> StableVids(was, now)
    ensures StableVids(was, now) && DistinctRowVids(now) ==> DistinctVids(Configured(t, now))
  {
    hide Configured;
    ConfiguredAt(t, was, now);
    var r := Configured(t, now);
    if !StableVids(was, now) {
      var n :| n in was && n in now && was[n].vid != now[n].vid;
      assert r[n].vid == was[n].vid;
    }
  }

  lemma FirstIsWanted(was: Rows, now: Rows)
    requires StableVids(was, now)
    ensures FirstVids(was, now) == WantedVids(now)
  {
    assert forall n :: n in now ==> FirstVid(was, now, n) == now[n].vid;
    forall n | n in now && now[n].Enabled() ensures now[n].vid in FirstVids(was, now) {
      assert FirstVid(was, now, n) in FirstVids(was, now);
    }
  }

  /**
  From a table that mirrors the database as it was, a pass ends with one that
  mirrors it as it is, if and only if VLANs that stay keep their VID; and with the
  wanted VIDs enabled if and only if the VIDs that enabled VLANs came with are those.
  */
  lemma ConfiguredExact(t: Table, was: Rows, now: Rows)
    requires Mirrors(t, was) && Reported(was, now)
    ensures Mirrors(Configured(t, now), now) <==> StableVids(was, now)
    ensures EnabledVids(Configured(t, now)) == WantedVids(now) <==> FirstVids(was, now) == WantedVids(now)
    ensures StableVids(was, now) ==> FirstVids(was, now) == WantedVids(now)
    ensures StableVids(was, now) && DistinctRowVids(now) ==> DistinctVids(Configured(t, now))
  {
    hide Configured, Mirrors, StableVids, DistinctVids;
    ConfiguredMirrors(t, was, now);
    ConfiguredAt(t, was, now);
    var r := Configured(t, now);
    forall n | n in now && now[n].Enabled() ensures FirstVid(was, now, n) in EnabledVids(r) {
      assert n in r && r[n].enable;
    }
    assert EnabledVids(r) == FirstVids(was, now);
    if StableVids(was, now) {
      FirstIsWanted(was, now);
    }
  }

  /** VIDs of VLANs that become enabled in this pass. */
  function Enabling(was: Rows, now: Rows): set<nat> {
    set n | n in now && now[n].Enabled() && !(n in was && was[n].Enabled()) :: FirstVid(was, now, n)
  }

  /** VIDs of VLANs that stop being enabled but stay. */
  function Disabling(was: Rows, now: Rows): set<nat> {
    set n | n in was && n in now && was[n].Enabled() && !now[n].Enabled() :: was[n].vid
  }

  function Leaving(was: Rows, now: Rows): set<nat> {
    set n | n in was && n !in now :: was[n].vid
  }

  lemma SwitchedRows(t: Table, was: Rows, now: Rows)
    requires Mirrors(t, was) && Reported(was, now)
    ensures
      var added := AfterAdd(AfterDelete(t, now), now);
      TurnedOn(added, now) == Enabling(was, now) && TurnedOff(added, now) == Disabling(was, now)
    ensures Gone(t, now) == Leaving(was, now) && EnabledVids(t) == WantedVids(was)
  {
    var added := AfterAdd(AfterDelete(t, now), now);
    forall n | n in now
      ensures n in added && added[n].vid == FirstVid(was, now, n)
      ensures Differs(added, now, n) <==> now[n].Enabled() != (n in was && was[n].Enabled())
    {
    }
    forall v | v in Enabling(was, now) ensures v in TurnedOn(added, now) {
      var n :| n in now && now[n].Enabled() && !(n in was && was[n].Enabled()) && v == FirstVid(was, now, n);
      assert n in added && Differs(added, now, n);
    }
    forall v | v in Disabling(was, now) ensures v in TurnedOff(added, now) {
      var n :| n in was && n in now && was[n].Enabled() && !now[n].Enabled() && v == was[n].vid;
      assert n in added && Differs(added, now, n);
    }
    SameSets(t, was, now);
  }

  lemma SameSets(t: Table, was: Rows, now: Rows)
    requires Mirrors(t, was)
    ensures Gone(t, now) == Leaving(was, now) && EnabledVids(t) == WantedVids(was)
  {
    assert forall n :: n in was ==> n in t && t[n].vid == was[n].vid && t[n].enable == was[n].Enabled();
    forall v | v in Leaving(was, now) ensures v in Gone(t, now) {
      var n :| n in was && n !in now && was[n].vid == v;
      assert n in t;
    }
    forall v | v in WantedVids(was) ensures v in EnabledVids(t) {
      var n :| n in was && was[n].Enabled() && was[n].vid == v;
      assert n in t && t[n].enable;
    }
  }

  /**
  And in the hardware, whatever the order of the VLANs, exactly the wanted VIDs are
  enabled, if and only if no VID is both enabled and disabled, and those enabled
  before, less the leaving and the disabled, with the newly enabled ones, are them.
  */
  lemma HardwareExact(t: Table, was: Rows, now: Rows)
    requires Mirrors(t, was) && Reported(was, now)
    ensures
      (forall hw :: Programmed(EnabledVids(t), t, now, hw) ==> hw == WantedVids(now)) <==>
        && Enabling(was, now) * Disabling(was, now) == {}
        && WantedVids(was) - Leaving(was, now) - Disabling(was, now) + Enabling(was, now) == WantedVids(now)
  {
    SwitchedRows(t, was, now);
    var base, on, off := WantedVids(was) - Leaving(was, now), Enabling(was, now), Disabling(was, now);
    forall hw ensures Programmed(EnabledVids(t), t, now, hw) <==> Switched(base, on, off, hw) {}
    OneOutcome(base, on, off, WantedVids(now));
  }

  /** With distinct VIDs that stay as they are this is so, also when a name goes and another comes with its VID. */
  lemma StableHardware(t: Table, was: Rows, now: Rows, hw: set<nat>)
    requires Mirrors(t, was) && Reported(was, now) && StableVids(was, now)
    requires DistinctRowVids(was) && DistinctRowVids(now) && Programmed(EnabledVids(t), t, now, hw)
    ensures hw == WantedVids(now)
  {
    forall n | n in now ensures FirstVid(was, now, n) == now[n].vid {}
    assert Enabling(was, now) * Disabling(was, now) == {};
    var plain := WantedVids(was) - Leaving(was, now) - Disabling(was, now) + Enabling(was, now);
    forall v | v in WantedVids(now) ensures v in plain {
      var n :| n in now && now[n].Enabled() && now[n].vid == v;
      if n in was && was[n].Enabled() {
        assert v in WantedVids(was);
      } else {
        assert FirstVid(was, now, n) in Enabling(was, now);
      }
    }
    forall v | v in plain ensures v in WantedVids(now) {
      StillWanted(was, now, v);
    }
    HardwareExact(t, was, now);
  }

  lemma StillWanted(was: Rows, now: Rows, v: nat)
    requires StableVids(was, now)
    requires v in WantedVids(was) - Leaving(was, now) - Disabling(was, now) + Enabling(was, now)
    ensures v in WantedVids(now)
  {
    if v in Enabling(was, now) {
      var n :| n in now && now[n].Enabled() && !(n in was && was[n].Enabled()) && v == FirstVid(was, now, n);
      assert now[n].vid == v;
    } else {
      var n :| n in was && was[n].Enabled() && was[n].vid == v;
      assert n in now && now[n].Enabled() && now[n].vid == v;
    }
  }

  /** For instance a VLAN that keeps its name and gets another VID. */
  lemma ChangedVidGoesUnnoticed()
    ensures
      var was := map["a" := Row("a", 10, Some(ENABLE_TRUE), true)];
      var now := map["a" := Row("a", 20, Some(ENABLE_TRUE), true)];
      var t := map["a" := Vlan(10, true)];
      && Mirrors(t, was) && Reported(was, now) && !Mirrors(Configured(t, now), now)
      && FirstVids(was, now) != WantedVids(now) && 20 !in EnabledVids(Configured(t, now))
      && forall hw :: Programmed({10}, t, now, hw) ==> 20 !in hw
  {
    var was := map["a" := Row("a", 10, Some(ENABLE_TRUE), true)];
    var now := map["a" := Row("a", 20, Some(ENABLE_TRUE), true)];
    var t := map["a" := Vlan(10, true)];
    assert Configured(t, now) == map["a" := Vlan(10, true)];
    assert "a" in now && now["a"].Enabled() && now["a"].vid == 20 && FirstVid(was, now, "a") == 10;
    assert 20 in WantedVids(now);
    assert 20 !in FirstVids(was, now);
  }

  /** One pass after the other, each as the database then is. */
  ghost predicate History(dbs: seq<Rows>) {
    && (forall i :: 0 <= i < |dbs| ==> DistinctRowVids(dbs[i]))
    && (|dbs| > 0 ==> forall n :: n in dbs[0] ==> dbs[0][n].changed)
    && (forall i :: 0 < i < |dbs| ==> Reported(dbs[i - 1], dbs[i]) && StableVids(dbs[i - 1], dbs[i]))
  }

  function After(dbs: seq<Rows>): Table {
    if dbs == [] then map[] else Configured(After(dbs[..|dbs| - 1]), dbs[|dbs| - 1])
  }

  /** The hardware may be `hw` after these passes, the bridge having started with nothing enabled. */
  ghost predicate Reached(dbs: seq<Rows>, hw: set<nat>) {
    if dbs == [] then hw == {}
    else
      var init := dbs[..|dbs| - 1];
      exists before :: Reached(init, before) && Programmed(before, After(init), dbs[|dbs| - 1], hw)
  }

  /** After any number of passes the enabled VIDs are those the last database asks for. */
  lemma {:induction false} EveryPassExact(dbs: seq<Rows>, hw: set<nat>)
    requires History(dbs) && dbs != [] && Reached(dbs, hw)
    ensures Mirrors(After(dbs), dbs[|dbs| - 1]) && hw == EnabledVids(After(dbs)) == WantedVids(dbs[|dbs| - 1])
    ensures DistinctVids(After(dbs))
  {
    var init, now := dbs[..|dbs| - 1], dbs[|dbs| - 1];
    var before :| Reached(init, before) && Programmed(before, After(init), now, hw);
    var was: Rows := if init == [] then map[] else init[|init| - 1];
    if init == [] {
      assert After(init) == map[] && Mirrors(After(init), was) && EnabledVids(After(init)) == {};
    } else {
      EveryPassExact(init, before);
    }
    ConfiguredExact(After(init), was, now);
    StableHardware(After(init), was, now, hw);
  }
}
