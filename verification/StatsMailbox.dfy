/**
The slot through which the system_stats thread of src/system-stats.c hands
snapshots to the main thread.  Each critical section is one step; the two
threads' steps interleave in any order.
*/
module StatsMailbox {
  import opened Common

  /**
  A snapshot handed out; with how many had been published by then, and before stats
  were last enabled, and how often they had been enabled when its collection began.
  */
  datatype Delivery = Delivery(id: nat, published: nat, before: nat, begun: nat)

  datatype State = State(
    enabled: bool, started: bool,
    slot: Option<nat>,              // system_stats; snapshots are numbered as they are published
    collecting: bool,               // the worker has seen stats enabled and is about to publish
    published: nat,
    before: nat,                    // how many were published before the most recent enabling
    enablings: nat,                 // how often stats were enabled
    begun: nat,                     // its value when the worker last began to collect
    slotBegun: nat,                 // its value when the collection of what is in the slot began
    delivered: seq<Delivery>,
    discarded: seq<nat>)

  const START := State(false, false, None, false, 0, 0, 0, 0, 0, [], [])

  datatype Op =
    | Enable(on: bool)      // system_stats_enable, main thread
    | Take                  // system_stats_run, main thread
    | Check                 // the worker finds stats enabled
    | Publish               // the worker stores what it collected

  predicate CanStep(s: State, op: Op) {
    match op
    case Enable(_) => true
    case Take => true
    case Check => s.started && s.enabled && !s.collecting
    case Publish => s.collecting
  }

  /** What system_stats_run hands out. */
  function Handed(s: State): Delivery
    requires s.slot.Some?
  {
    Delivery(s.slot.value, s.published, s.before, s.slotBegun)
  }

  function Discard(s: State): State {
    if s.slot.Some? then s.(slot := None, discarded := s.discarded + [s.slot.value]) else s
  }

  function Apply(s: State, op: Op): State
    requires CanStep(s, op)
  {
    match op
    case Enable(on) =>
      if s.enabled == on then s
      else if on then
        Discard(s).(started := true, enabled := true, before := s.published, enablings := s.enablings + 1)
      else s.(enabled := false)
    case Take =>
      if s.slot.None? then s
      else if s.enabled then
        s.(slot := None, delivered := s.delivered + [Handed(s)])
      else Discard(s)
    case Check => s.(collecting := true, begun := s.enablings)
    case Publish =>
      Discard(s).(slot := Some(s.published), slotBegun := s.begun, published := s.published + 1, collecting := false)
  }

  ghost predicate Run(s: State, ops: seq<Op>, t: State)
    decreases |ops|
  {
    if ops == [] then s == t
    else CanStep(s, ops[0]) && Run(Apply(s, ops[0]), ops[1..], t)
  }

  // ----- what becomes of a snapshot -----

  /** Neither takes a snapshot, nor publishes another, nor enables stats. */
  predicate LeavesSlot(s: State, op: Op) {
    op == Check || op == Enable(false) || (op == Enable(true) && s.enabled)
  }

  ghost predicate LeavingRun(s: State, ops: seq<Op>, t: State)
    decreases |ops|
  {
    if ops == [] then s == t
    else CanStep(s, ops[0]) && LeavesSlot(s, ops[0]) && LeavingRun(Apply(s, ops[0]), ops[1..], t)
  }

  lemma {:induction false} SlotStays(s: State, ops: seq<Op>, t: State)
    requires LeavingRun(s, ops, t)
    ensures t.slot == s.slot && t.delivered == s.delivered && t.discarded == s.discarded
    decreases |ops|
  {
    if ops != [] {
      SlotStays(Apply(s, ops[0]), ops[1..], t);
    }
  }

  /**
  A published snapshot waits in the slot.  If system_stats_run comes first it is
  handed out if stats are enabled by then, and discarded if they are not; it is
  discarded if another is published or stats are enabled first.
  */
  lemma WhatBecomesOfIt(s: State, ops: seq<Op>, t: State)
    requires CanStep(s, Publish) && LeavingRun(Apply(s, Publish), ops, t)
    ensures t.slot == Some(s.published) && t.delivered == s.delivered
    ensures
      var u := Apply(t, Take);
      && u.slot == None
      && (if t.enabled then u.discarded == t.discarded && u.delivered == t.delivered + [Handed(t)]
          else u.delivered == t.delivered && u.discarded == t.discarded + [s.published])
    ensures t.enabled ==> Handed(t).id == s.published
    ensures CanStep(t, Publish) ==>
      var u := Apply(t, Publish);
      u.slot == Some(t.published) && u.delivered == t.delivered && u.discarded == t.discarded + [s.published]
    ensures !t.enabled ==>
      var u := Apply(t, Enable(true));
      u.enabled && u.slot == None && u.delivered == t.delivered && u.discarded == t.discarded + [s.published]
  {
    SlotStays(Apply(s, Publish), ops, t);
  }

  function Ids(ds: seq<Delivery>): multiset<nat> {
    if ds == [] then multiset{} else Ids(ds[..|ds| - 1]) + multiset{ds[|ds| - 1].id}
  }

  function InSlot(slot: Option<nat>): multiset<nat> {
    if slot.Some? then multiset{slot.value} else multiset{}
  }

  /** Where every snapshot is. */
  function Whereabouts(s: State): multiset<nat> {
    Ids(s.delivered) + multiset(s.discarded) + InSlot(s.slot)
  }

  ghost predicate OnceEach(ids: multiset<nat>, n: nat) {
    forall id: nat :: ids[id] == if id < n then 1 else 0
  }

  ghost predicate Inv(s: State) {
    && OnceEach(Whereabouts(s), s.published)
    && (s.slot.Some? ==> s.slot.value == s.published - 1 && (s.enabled ==> s.before <= s.slot.value))
    && (forall i :: 0 <= i < |s.delivered| ==>
          var d := s.delivered[i];
          d.id == d.published - 1 && d.before <= d.id)
    && s.before <= s.published
    && s.begun <= s.enablings
  }

  lemma IdsAppend(ds: seq<Delivery>, d: Delivery)
    ensures Ids(ds + [d]) == Ids(ds) + multiset{d.id}
  {
    assert (ds + [d])[..|ds|] == ds;
  }

  lemma DiscardKeeps(s: State)
    requires Inv(s)
    ensures Inv(Discard(s)) && Whereabouts(Discard(s)) == Whereabouts(s)
  {
    if s.slot.Some? {
      assert multiset(s.discarded + [s.slot.value]) == multiset(s.discarded) + multiset{s.slot.value};
    }
    assert Whereabouts(Discard(s)) == Whereabouts(s);
  }

  lemma TakeKeeps(s: State)
    requires Inv(s)
    ensures Inv(Apply(s, Take))
  {
    hide Whereabouts, OnceEach;
    DiscardKeeps(s);
    if s.slot.Some? && s.enabled {
      TakenSame(s);
    }
  }

  lemma TakenSame(s: State)
    requires s.slot.Some? && s.enabled
    ensures Whereabouts(Apply(s, Take)) == Whereabouts(s)
  {
    IdsAppend(s.delivered, Handed(s));
  }

  lemma PublishKeeps(s: State)
    requires Inv(s) && s.collecting
    ensures Inv(Apply(s, Publish))
  {
    hide Whereabouts, OnceEach;
    DiscardKeeps(s);
    PublishedMore(s);
    OnceMore(Whereabouts(s), s.published);
  }

  lemma PublishedMore(s: State)
    requires s.collecting && Whereabouts(Discard(s)) == Whereabouts(s)
    ensures Whereabouts(Apply(s, Publish)) == Whereabouts(s) + multiset{s.published}
  {
    assert InSlot(None) == multiset{};
  }

  lemma OnceMore(ids: multiset<nat>, n: nat)
    requires OnceEach(ids, n)
    ensures OnceEach(ids + multiset{n}, n + 1)
  {
  }

  lemma EnableKeeps(s: State, on: bool)
    requires Inv(s)
    ensures Inv(Apply(s, Enable(on)))
  {
    DiscardKeeps(s);
    assert Whereabouts(Apply(s, Enable(on))) == Whereabouts(s);
  }

  lemma StepKeeps(s: State, op: Op)
    requires Inv(s) && CanStep(s, op)
    ensures Inv(Apply(s, op))
  {
    match op
    case Enable(on) => EnableKeeps(s, on);
    case Take => TakeKeeps(s);
    case Check => assert Whereabouts(Apply(s, op)) == Whereabouts(s);
    case Publish => PublishKeeps(s);
  }

  lemma {:induction false} RunKeeps(s: State, ops: seq<Op>, t: State)
    requires Inv(s) && Run(s, ops, t)
    ensures Inv(t)
    decreases |ops|
  {
    if ops != [] {
      StepKeeps(s, ops[0]);
      RunKeeps(Apply(s, ops[0]), ops[1..], t);
    }
  }

  /**
  Whatever the interleaving: every snapshot published so far was delivered once,
  or discarded once, or is in the slot, and nothing else ever was; and each
  delivered snapshot was the latest one and published after stats were last enabled.
  */
  lemma EverySnapshotAccountedFor(ops: seq<Op>, t: State)
    requires Run(START, ops, t)
    ensures forall id: nat :: id < t.published ==>
      Ids(t.delivered)[id] + multiset(t.discarded)[id] + InSlot(t.slot)[id] == 1
    ensures forall id: nat :: id >= t.published ==> id !in Whereabouts(t)
    ensures forall i :: 0 <= i < |t.delivered| ==>
      t.delivered[i].id == t.delivered[i].published - 1 && t.delivered[i].before <= t.delivered[i].id
  {
    assert Whereabouts(START) == multiset{};
    RunKeeps(START, ops, t);
    forall id: nat | id < t.published
      ensures Ids(t.delivered)[id] + multiset(t.discarded)[id] + InSlot(t.slot)[id] == 1
    {
      assert Whereabouts(t)[id] == 1;
    }
  }

  // ----- when the collection began -----

  /** From `s` on no snapshot is handed out whose collection began before stats were enabled for the `n`th time. */
  ghost predicate NoneEarlier(s: State, n: nat) {
    forall ops, t, i :: Run(s, ops, t) && |s.delivered| <= i < |t.delivered| ==> t.delivered[i].begun >= n
  }

  /** Nothing begun earlier is on its way. */
  ghost predicate Fresh(s: State, n: nat, from: nat) {
    && n <= s.enablings && from <= |s.delivered|
    && (s.collecting ==> n <= s.begun)
    && (s.slot.Some? ==> n <= s.slotBegun)
    && forall i :: from <= i < |s.delivered| ==> n <= s.delivered[i].begun
  }

  lemma FreshStep(s: State, op: Op, n: nat, from: nat)
    requires Fresh(s, n, from) && CanStep(s, op)
    ensures Fresh(Apply(s, op), n, from)
  {
  }

  lemma {:induction false} FreshRun(s: State, ops: seq<Op>, t: State, n: nat, from: nat)
    requires Fresh(s, n, from) && Run(s, ops, t)
    ensures Fresh(t, n, from)
    decreases |ops|
  {
    if ops != [] {
      FreshStep(s, ops[0], n, from);
      FreshRun(Apply(s, ops[0]), ops[1..], t, n, from);
    }
  }

  /**
  When stats are enabled, nothing whose collection began before that is ever handed
  out afterwards, if and only if the worker is not in the middle of a collection.
  */
  lemma CollectedSinceExact(ops: seq<Op>, s: State)
    requires Run(START, ops, s) && !s.enabled
    ensures NoneEarlier(Apply(s, Enable(true)), s.enablings + 1) <==> !s.collecting
  {
    var e := Apply(s, Enable(true));
    if s.collecting {
      assert Whereabouts(START) == multiset{};
      RunKeeps(START, ops, s);
      CollectedEarlier(s);
    } else {
      forall ops', t, i | Run(e, ops', t) && |e.delivered| <= i < |t.delivered|
        ensures t.delivered[i].begun >= s.enablings + 1
      {
        FreshRun(e, ops', t, s.enablings + 1, |e.delivered|);
      }
    }
  }

  /** Otherwise the worker publishes it, and the next system_stats_run hands it out. */
  lemma CollectedEarlier(s: State)
    requires s.begun <= s.enablings && !s.enabled && s.collecting
    ensures !NoneEarlier(Apply(s, Enable(true)), s.enablings + 1)
  {
    var e := Apply(s, Enable(true));
    var p := Apply(e, Publish);
    var t := Apply(p, Take);
    assert [Publish, Take][1..] == [Take] && [Take][1..] == [];
    assert Run(t, [], t) && Run(p, [Take], t);
    assert Run(e, [Publish, Take], t);
    assert t.delivered[|e.delivered|].begun == s.begun;
  }

  /** For instance stats enabled, disabled while the worker collects, and enabled again. */
  lemma CollectedEarlierExample()
    ensures
      var s := Apply(Apply(Apply(START, Enable(true)), Check), Enable(false));
      var t := Apply(Apply(Apply(s, Enable(true)), Publish), Take);
      |t.delivered| == 1 && t.enablings == 2 && t.delivered[0].begun == 1
  {
  }

  // ----- the code -----

  class Mailbox {
    var enabled: bool
    var started: bool
    var systemStats: Option<nat>
    ghost var collecting: bool
    ghost var published: nat
    ghost var before: nat
    ghost var enablings: nat
    ghost var begun: nat
    ghost var slotBegun: nat
    ghost var delivered: seq<Delivery>
    ghost var discarded: seq<nat>

    ghost function S(): State
      reads this
    {
      State(enabled, started, systemStats, collecting, published, before, enablings, begun, slotBegun,
            delivered, discarded)
    }

    constructor ()
      ensures S() == START
    {
      enabled, started, systemStats := false, false, None;
      collecting, published, before, delivered, discarded := false, 0, 0, [], [];
      enablings, begun, slotBegun := 0, 0, 0;
    }

    /** discard_stats. */
    method DiscardStats()
      modifies this`systemStats, this`discarded
      ensures S() == Discard(old(S()))
    {
      if systemStats.Some? {
        discarded := discarded + [systemStats.value];
        systemStats := None;
      }
    }

    /** system_stats_enable. */
    method SystemStatsEnable(enable: bool)
      modifies this
      ensures S() == Apply(old(S()), Enable(enable))
    {
      if enabled != enable {
        if enable {
          if !started {
            started := true;
          }
          DiscardStats();
          before, enablings := published, enablings + 1;
        }
        enabled := enable;
      }
    }

    /** system_stats_run. */
    method SystemStatsRun() returns (stats: Option<nat>)
      requires Inv(S())
      modifies this
      ensures S() == Apply(old(S()), Take) && Inv(S())
      ensures stats == if old(enabled) then old(systemStats) else None
      ensures stats.Some? ==> stats.value == published - 1 && before <= stats.value
    {
      hide Whereabouts, OnceEach;
      StepKeeps(S(), Take);
      stats := None;
      if systemStats.Some? {
        if enabled {
          stats := systemStats;
          delivered := delivered + [Handed(S())];
          systemStats := None;
        } else {
          DiscardStats();
        }
      }
    }

    /** The first critical section of system_stats_thread_func, once stats are enabled. */
    method ThreadCheck()
      requires CanStep(S(), Check)
      modifies this
      ensures S() == Apply(old(S()), Check)
    {
      collecting, begun := true, enablings;
    }

    /** The second one. */
    method ThreadPublish(stats: nat)
      requires collecting && stats == published
      modifies this
      ensures S() == Apply(old(S()), Publish)
    {
      DiscardStats();
      systemStats := Some(stats);
      published, slotBegun, collecting := published + 1, begun, false;
    }
  }
}
