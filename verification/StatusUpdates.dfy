/**
The status update of src/bridge.c: device status goes to the database in
transactions that may fail or take time, started when the connectivity sequence
number has moved or the previous attempt failed, and written only for interfaces
whose device has changed since they were last looked at.
*/
module StatusUpdates {
  import opened Common

  /** connectivity_seqno before anything was recorded; the sequence never gets there. */
  const UNSET: nat := 0x8000_0000_0000_0000

  /** An interface; `own` unless its status is none of this function's business (synthetic, system, loopback). */
  datatype Iface = Iface(id: nat, own: bool)

  /** The version of the status of each interface. */
  type Versions = map<Iface, nat>

  /** What `a` has of interfaces whose status is written here, `b` has. */
  ghost predicate Matches(a: Versions, b: Versions) {
    forall i :: i in a && i.own ==> i in b && b[i] == a[i]
  }

  /** A status transaction: the sequence number it started from and what it writes. */
  datatype Txn = Txn(start: nat, writes: Versions)

  datatype State = State(
    conn: nat,                // the connectivity sequence number
    recorded: nat,            // connectivity_seqno
    txn: Option<Txn>,         // status_txn
    tryAgain: bool,           // status_txn_try_again
    initialDone: bool,        // initial_config_done
    dev: Versions,            // what the devices have
    seen: Versions,           // iface->change_seq
    db: Versions,             // what the database has
    lastOk: Option<nat>)      // where the last successful transaction started from

  const START := State(0, UNSET, None, false, false, map[], map[], map[], None)

  datatype Outcome = Success | Incomplete | Error

  datatype Op =
    | DeviceChanges(i: Iface)                                 // a device changes, and with it the sequence number
    | ConnectivityChanges                                     // the sequence number moves for another reason
    | Update(outcome: Outcome)                                // run_status_update
    | Reconfigure(added: set<Iface>, removed: set<Iface>, committed: bool)    // bridge_reconfigure

  /** Interfaces that are refreshed, with what their devices have. */
  function Stale(dev: Versions, seen: Versions, all: bool): Versions {
    map i | i in dev && i.own && (all || i !in seen || seen[i] != dev[i]) :: dev[i]
  }

  /** What has been looked at after a refresh. */
  function Looked(dev: Versions, seen: Versions): Versions {
    map i | i in dev :: if i.own || i !in seen then dev[i] else seen[i]
  }

  function Begin(s: State): State {
    if s.txn.None? && (s.conn != s.recorded || s.tryAgain) then
      s.(recorded := s.conn, txn := Some(Txn(s.conn, Stale(s.dev, s.seen, s.tryAgain))), seen := Looked(s.dev, s.seen))
    else s
  }

  function Commit(s: State, outcome: Outcome): State {
    if s.txn.None? || outcome.Incomplete? then s
    else if outcome.Success? then
      s.(txn := None, tryAgain := false, db := s.db + s.txn.value.writes, lastOk := Some(s.txn.value.start))
    else s.(txn := None, tryAgain := true)
  }

  predicate Enabled(s: State, op: Op) {
    match op
    case DeviceChanges(i) => i in s.dev && s.conn + 1 < UNSET
    case ConnectivityChanges => s.conn + 1 < UNSET
    case Update(_) => true
    case Reconfigure(added, removed, _) => removed <= s.dev.Keys && added !! (s.dev.Keys - removed)
  }

  /**
  Interfaces that go do so with their rows, which a transaction in flight then no
  longer writes.  New ones are written by the transaction of the reconfiguration,
  and count as seen.
  */
  function Apply(s: State, op: Op): State
    requires Enabled(s, op)
  {
    match op
    case DeviceChanges(i) => s.(dev := s.dev[i := s.dev[i] + 1], conn := s.conn + 1)
    case ConnectivityChanges => s.(conn := s.conn + 1)
    case Update(outcome) => Commit(Begin(s), outcome)
    case Reconfigure(added, removed, committed) =>
      var born := map i | i in added :: 1;
      s.(dev := s.dev - removed + born, seen := s.seen - removed + born,
         db := if committed then s.db - removed + born else s.db - removed,
         txn := Without(s.txn, removed), tryAgain := s.initialDone || s.tryAgain, initialDone := true)
  }

  function Without(txn: Option<Txn>, removed: set<Iface>): Option<Txn> {
    if txn.None? then None else Some(txn.value.(writes := txn.value.writes - removed))
  }

  /** status_update_wait blocks until the sequence number moves. */
  predicate Sleeps(s: State) {
    s.txn.None? && !s.tryAgain && s.conn == s.recorded
  }

  /** Every interface has in the database what its device has. */
  ghost predicate UpToDate(s: State) {
    Matches(s.dev, s.db)
  }

  /** A failed reconfiguration is retried only if its request for that is not lost. */
  predicate Risky(s: State) {
    s.txn.Some? || (!s.initialDone && !s.tryAgain)
  }

  predicate Safe(s: State, op: Op) {
    op.Reconfigure? && !op.committed ==> !Risky(s)
  }

  /** `ops` leads from `s` to `t`. */
  ghost predicate Run(s: State, ops: seq<Op>, t: State)
    decreases |ops|
  {
    if ops == [] then s == t
    else Enabled(s, ops[0]) && Run(Apply(s, ops[0]), ops[1..], t)
  }

  /** So that no reconfiguration fails at a risky moment. */
  ghost predicate SafeRun(s: State, ops: seq<Op>, t: State)
    decreases |ops|
  {
    if ops == [] then s == t
    else Enabled(s, ops[0]) && Safe(s, ops[0]) && SafeRun(Apply(s, ops[0]), ops[1..], t)
  }

  // ----- the invariants -----

  /** What every run keeps. */
  ghost predicate Covered(s: State) {
    && s.conn < UNSET && (s.recorded == UNSET || s.recorded <= s.conn)
    && s.seen.Keys == s.dev.Keys
    && (s.txn.Some? ==> s.txn.value.start == s.recorded)
    && (s.txn.None? && !s.tryAgain && s.recorded != UNSET ==> s.lastOk == Some(s.recorded))
  }

  /** What safe runs keep besides. */
  ghost predicate Written(s: State) {
    && s.db.Keys <= s.dev.Keys && (s.txn.Some? ==> s.txn.value.writes.Keys <= s.dev.Keys)
    && (s.conn == s.recorded ==> Matches(s.dev, s.seen))
    && (s.txn.Some? ==> Matches(s.seen, s.db + s.txn.value.writes))
    && (s.txn.None? && !s.tryAgain ==> Matches(s.seen, s.db))
  }

  ghost predicate Inv(s: State) { Covered(s) && Written(s) }

  lemma CoveredStep(s: State, op: Op)
    requires Covered(s) && Enabled(s, op)
    ensures Covered(Apply(s, op))
  {
    hide Stale;
    match op
    case DeviceChanges(i) =>
    case ConnectivityChanges =>
    case Update(outcome) => assert Covered(Begin(s));
    case Reconfigure(added, removed, committed) =>
  }

  lemma {:induction false} CoveredRun(s: State, ops: seq<Op>, t: State)
    requires Covered(s) && Run(s, ops, t)
    ensures Covered(t)
    decreases |ops|
  {
    if ops != [] {
      CoveredStep(s, ops[0]);
      CoveredRun(Apply(s, ops[0]), ops[1..], t);
    }
  }

  lemma SeenAll(s: State)
    requires Covered(s)
    ensures s.seen.Keys == s.dev.Keys
  {
  }

  lemma BeginKeeps(s: State)
    requires Inv(s)
    ensures Inv(Begin(s))
  {
  }

  lemma CommitKeeps(s: State, outcome: Outcome)
    requires Inv(s)
    ensures Inv(Commit(s, outcome))
  {
  }

  lemma ReconfigureKeeps(s: State, op: Op)
    requires Inv(s) && op.Reconfigure? && Enabled(s, op) && Safe(s, op)
    ensures Inv(Apply(s, op))
  {
    CoveredStep(s, op);
  }

  lemma StepKeeps(s: State, op: Op)
    requires Inv(s) && Enabled(s, op) && Safe(s, op)
    ensures Inv(Apply(s, op))
  {
    match op
    case DeviceChanges(i) =>
    case ConnectivityChanges =>
    case Update(outcome) =>
      BeginKeeps(s);
      CommitKeeps(Begin(s), outcome);
    case Reconfigure(added, removed, committed) =>
      ReconfigureKeeps(s, op);
  }

  lemma {:induction false} RunKeeps(s: State, ops: seq<Op>, t: State)
    requires Inv(s) && SafeRun(s, ops, t)
    ensures Inv(t)
    decreases |ops|
  {
    if ops != [] {
      StepKeeps(s, ops[0]);
      RunKeeps(Apply(s, ops[0]), ops[1..], t);
    }
  }

  /**
  In every reachable state a transaction is in flight, or a retry is pending, or
  nothing was recorded yet, or the last successful transaction started from the
  recorded number.  So whenever the process sleeps on the sequence number, the
  current one is covered.
  */
  lemma NothingLost(ops: seq<Op>, t: State)
    requires Run(START, ops, t)
    ensures t.txn.Some? || t.tryAgain || t.recorded == UNSET || t.lastOk == Some(t.recorded)
    ensures Sleeps(t) ==> t.lastOk == Some(t.conn)
  {
    CoveredRun(START, ops, t);
  }

  /** If no reconfiguration failed at a risky moment, the database then has what every device has. */
  lemma AsleepUpToDate(ops: seq<Op>, t: State)
    requires SafeRun(START, ops, t) && Sleeps(t)
    ensures UpToDate(t)
  {
    RunKeeps(START, ops, t);
  }

  /** A transaction is begun if none is in flight and the number moved or a retry is pending. */
  predicate Begins(s: State) {
    s.txn.None? && (s.conn != s.recorded || s.tryAgain)
  }

  /** What the transaction of an update has for an interface: its own status, if a retry is pending or it moved. */
  ghost predicate Writes(s: State, i: Iface, status: nat) {
    if s.txn.Some? then i in s.txn.value.writes && s.txn.value.writes[i] == status
    else i in s.dev && i.own && (s.tryAgain || !(i in s.seen && s.seen[i] == s.dev[i])) && status == s.dev[i]
  }

  /** What a call comes to, for each outcome of the commit. */
  lemma UpdateOutcome(s: State, outcome: Outcome)
    requires Covered(s)
    ensures
      var t := Apply(s, Update(outcome));
      && t.dev == s.dev && t.conn == s.conn && t.initialDone == s.initialDone
      && t.recorded == (if Begins(s) then s.conn else s.recorded)
      && (s.txn.None? && !Begins(s) ==> t == s)
      && (s.txn.Some? || Begins(s) ==>
            match outcome
            case Success =>
              && t.txn == None && !t.tryAgain && t.lastOk == Some(t.recorded)
              && (forall i, status :: Writes(s, i, status) ==> i in t.db && t.db[i] == status)
              && (forall i :: (forall status :: !Writes(s, i, status)) ==> (i in t.db <==> i in s.db))
              && (forall i :: i in s.db && (forall status :: !Writes(s, i, status)) ==> t.db[i] == s.db[i])
            case Incomplete =>
              && t.txn.Some? && t.txn.value.start == t.recorded && t.tryAgain == s.tryAgain && t.db == s.db
              && (forall i, status :: Writes(t, i, status) <==> Writes(s, i, status))
            case Error => t.txn == None && t.tryAgain && t.db == s.db)
  {
    hide Stale, Looked, Writes;
    if s.txn.Some? || Begins(s) {
      WritesExact(s);
      var w := Begin(s).txn.value.writes;
      if outcome.Success? {
        forall i ensures i in w <==> exists status :: Writes(s, i, status) {
          assert i in w ==> Writes(s, i, w[i]);
        }
      } else if outcome.Incomplete? {
        WritesExact(Begin(s));
      }
    }
  }

  lemma WritesExact(s: State)
    requires s.txn.Some? || Begins(s)
    ensures
      var w := Begin(s).txn.value.writes;
      forall i, status :: Writes(s, i, status) <==> i in w && w[i] == status
  {
  }

  /** Two updates that succeed, and the process sleeps with everything written. */
  lemma TwoSuccessesSettle(s: State)
    requires Covered(s)
    ensures
      var t := Apply(Apply(s, Update(Success)), Update(Success));
      Sleeps(t) && t.dev == s.dev && (Inv(s) ==> UpToDate(t))
  {
    hide Stale, Looked, Inv;
    var m := Apply(s, Update(Success));
    CoveredStep(s, Update(Success));
    assert m.txn.None? && !m.tryAgain;
    if Inv(s) {
      StepKeeps(s, Update(Success));
      StepKeeps(m, Update(Success));
      AsleepWritten(Apply(m, Update(Success)));
    }
  }

  lemma AsleepWritten(s: State)
    requires Inv(s)
    ensures Sleeps(s) ==> UpToDate(s)
  {
  }

  // ----- failed reconfigurations -----

  /** No run from `s` sleeps while some status is missing. */
  ghost predicate NeverStale(s: State) {
    forall ops, t :: SafeRun(s, ops, t) && Sleeps(t) ==> UpToDate(t)
  }

  /**
  A reconfiguration that creates interfaces and fails to commit can leave their
  status missing for good, if and only if a status transaction is in flight, or it
  is the first one and no retry is pending.
  */
  lemma FailedReconfigurationExact(ops: seq<Op>, s: State, added: set<Iface>, removed: set<Iface>, i: Iface)
    requires SafeRun(START, ops, s) && Enabled(s, Reconfigure(added, removed, false)) && i in added && i.own
    ensures NeverStale(Apply(s, Reconfigure(added, removed, false))) <==> !Risky(s)
  {
    RunKeeps(START, ops, s);
    var op := Reconfigure(added, removed, false);
    var r := Apply(s, op);
    if Risky(s) {
      LostForGood(s, added, removed, i);
    } else {
      StepKeeps(s, op);
      forall ops', t | SafeRun(r, ops', t) && Sleeps(t) ensures UpToDate(t) {
        RunKeeps(r, ops', t);
      }
    }
  }

  /** Two updates that succeed, and the process sleeps without the new status. */
  lemma LostForGood(s: State, added: set<Iface>, removed: set<Iface>, i: Iface)
    requires Inv(s) && Risky(s) && Enabled(s, Reconfigure(added, removed, false)) && i in added && i.own
    ensures !NeverStale(Apply(s, Reconfigure(added, removed, false)))
  {
    var r := Apply(s, Reconfigure(added, removed, false));
    var up := Update(Success);
    var t := Apply(Apply(r, up), up);
    TwoUpdates(r, t);
    StillMissing(s, added, removed, i);
    assert i in t.dev && i !in t.db;
  }

  lemma TwoUpdates(r: State, t: State)
    requires t == Apply(Apply(r, Update(Success)), Update(Success))
    ensures SafeRun(r, [Update(Success), Update(Success)], t)
  {
    hide Apply;
    var up := Update(Success);
    assert SafeRun(t, [], t);
    assert [up][0] == up && [up][1..] == [];
    assert SafeRun(Apply(r, up), [up], t);
    assert [up, up][1..] == [up];
  }

  lemma StillMissing(s: State, added: set<Iface>, removed: set<Iface>, i: Iface)
    requires Inv(s) && Risky(s) && Enabled(s, Reconfigure(added, removed, false)) && i in added && i.own
    ensures
      var r := Apply(s, Reconfigure(added, removed, false));
      var t := Apply(Apply(r, Update(Success)), Update(Success));
      Sleeps(t) && i in t.dev && i !in t.db
  {
    var r := Apply(s, Reconfigure(added, removed, false));
    assert i in r.dev && r.seen[i] == r.dev[i] && i !in r.db && (r.txn.Some? || !r.tryAgain);
    var t1 := Apply(r, Update(Success));
    assert t1.txn.None? && !t1.tryAgain && i !in t1.db && i in t1.dev && t1.seen[i] == t1.dev[i];
  }

  /** For instance: the first update is still on its way when a reconfiguration fails. */
  lemma LostExample()
    ensures
      var i, j := Iface(1, true), Iface(2, true);
      var s0 := Apply(Apply(START, Reconfigure({i}, {}, true)), ConnectivityChanges);
      var s1 := Apply(Apply(s0, Update(Incomplete)), Reconfigure({j}, {}, false));
      var s2 := Apply(s1, Update(Success));
      Sleeps(s2) && j in s2.dev && j !in s2.db
  {
  }

  // ----- the code -----

  datatype WaitFor = Nothing | Transaction | Timer | Sequence(recorded: nat)

  class Updater {
    var conn: nat
    var recorded: nat
    var txn: Option<Txn>
    var tryAgain: bool
    var initialDone: bool
    var dev: Versions
    var seen: Versions
    var db: Versions
    ghost var lastOk: Option<nat>

    ghost function S(): State
      reads this
    {
      State(conn, recorded, txn, tryAgain, initialDone, dev, seen, db, lastOk)
    }

    constructor ()
      ensures S() == START
    {
      conn, recorded, txn, tryAgain, initialDone := 0, UNSET, None, false, false;
      dev, seen, db, lastOk := map[], map[], map[], None;
    }

    /** iface_refresh_netdev_status for every interface. */
    method Refresh() returns (writes: Versions)
      requires seen.Keys == dev.Keys
      modifies this`seen
      ensures writes == Stale(dev, old(seen), tryAgain) && seen == Looked(dev, old(seen))
    {
      writes := map[];
      var todo := dev.Keys;
      while todo != {}
        invariant todo <= dev.Keys && seen.Keys == dev.Keys
        invariant forall i :: i in dev ==> seen[i] == if i in todo || !i.own then old(seen)[i] else dev[i]
        invariant writes == map i | i in dev && i !in todo && i.own && (tryAgain || old(seen)[i] != dev[i]) :: dev[i]
      {
        var i :| i in todo;
        todo := todo - {i};
        if i.own && !(seen[i] == dev[i] && !tryAgain) {
          seen := seen[i := dev[i]];
          writes := writes[i := dev[i]];
        }
      }
    }

    /** The first half of run_status_update. */
    method StartUpdate()
      requires seen.Keys == dev.Keys
      modifies this
      ensures S() == Begin(old(S()))
    {
      hide Stale, Looked;
      if txn.None? {
        if conn != recorded || tryAgain {
          recorded := conn;
          var writes := Refresh();
          txn := Some(Txn(conn, writes));
        }
      }
    }

    /** The second half. */
    method FinishUpdate(outcome: Outcome)
      modifies this
      ensures S() == Commit(old(S()), outcome)
    {
      if txn.Some? {
        if !outcome.Incomplete? {
          if outcome.Success? {
            db, lastOk := db + txn.value.writes, Some(txn.value.start);
            tryAgain := false;
          } else {
            tryAgain := true;
          }
          txn := None;
        }
      }
    }

    /** run_status_update. */
    method RunStatusUpdate(outcome: Outcome)
      requires Covered(S())
      modifies this
      ensures S() == Apply(old(S()), Update(outcome)) && Covered(S())
      ensures old(Inv(S())) ==> Inv(S())
    {
      hide Covered, Inv, Begin, Commit;
      SeenAll(S());
      CoveredStep(S(), Update(outcome));
      if Inv(S()) {
        StepKeeps(S(), Update(outcome));
      }
      StartUpdate();
      FinishUpdate(outcome);
    }

    /** status_update_wait: it sleeps on the sequence number only when that is covered. */
    method Wait(hasLock: bool) returns (w: WaitFor)
      requires Covered(S())
      ensures w == Nothing <==> !hasLock
      ensures w == Transaction <==> hasLock && txn.Some?
      ensures w == Timer <==> hasLock && txn.None? && tryAgain
      ensures w == Sequence(recorded) <==> hasLock && txn.None? && !tryAgain
      ensures hasLock ==> (Sleeps(S()) <==> w == Sequence(conn))
      ensures w == Sequence(conn) ==> lastOk == Some(conn) && (Inv(S()) ==> UpToDate(S()))
    {
      if !hasLock {
        return Nothing;
      }
      if txn.Some? {
        return Transaction;
      } else if tryAgain {
        return Timer;
      } else {
        return Sequence(recorded);
      }
    }
  }
}
