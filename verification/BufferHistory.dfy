/**
What the buffer monitoring thread of src/bufmon.c does at each wake-up, told from
the wake-ups before it alone and not from the variables the thread keeps.
*/
module BufferHistory {
  import opened Common
  import opened BufferMonitor

  /** A wake-up and what came of it. */
  datatype Done = Done(wake: Wake, taken: bool, reset: bool, collected: bool)

  /** The notifications since the last reset. */
  function Notified(h: seq<Done>): nat {
    |NotifiedAt(h)|
  }

  function NotifiedAt(h: seq<Done>): set<nat> {
    set i: nat | i < |h| && h[i].wake.triggered && NoResetAfter(h, i)
  }

  predicate NoResetAfter(h: seq<Done>, i: nat) {
    forall j :: i < j < |h| ==> !h[j].reset
  }

  /** When the count was last reset, in seconds. */
  function LastReset(start: nat, h: seq<Done>): int {
    if h == [] then start / 1000
    else
      var last := h[|h| - 1];
      if last.reset then last.wake.t2 / 1000 else LastReset(start, h[..|h| - 1])
  }

  /** When a notification was last taken up. */
  function LastTaken(h: seq<Done>): Option<nat> {
    if h == [] then None
    else
      var last := h[|h| - 1];
      if last.taken then Some(last.wake.t2) else LastTaken(h[..|h| - 1])
  }

  /** The last wake-up at which counters were collected. */
  function LastCollected(h: seq<Done>): Option<Wake> {
    if h == [] then None
    else
      var last := h[|h| - 1];
      if last.collected then Some(last.wake) else LastCollected(h[..|h| - 1])
  }

  /** The limit read as the round began: since then there were only notifications that were turned down. */
  function RoundLimit(h: seq<Done>, w: Wake): int {
    if h == [] || h[|h| - 1].taken || !h[|h| - 1].wake.triggered then w.limit
    else RoundLimit(h[..|h| - 1], h[|h| - 1].wake)
  }

  /** Some notification since the last reset was turned down. */
  ghost predicate TurnedDown(h: seq<Done>) {
    exists i: nat :: i < |h| && h[i].wake.triggered && !h[i].taken && NoResetAfter(h, i)
  }

  /** At most the limit of notifications since the last reset, this one included, and 100 ms since the last
      one taken up. */
  predicate Due(h: seq<Done>, w: Wake) {
    && Notified(h) + 1 <= RoundLimit(h, w)
    && (LastTaken(h).Some? ==> w.t1 >= LastTaken(h).value + 100)
  }

  /** The collection period is over since the last collection. */
  predicate PeriodOver(h: seq<Done>, w: Wake) {
    LastCollected(h).Some? ==> w.t3 >= LastCollected(h).value.t3 + PollInterval(LastCollected(h).value.config.period)
  }

  /** What has to come of a wake-up after these. */
  predicate Justified(start: nat, h: seq<Done>, x: Done) {
    && (x.taken <==> x.wake.triggered && Due(h, x.wake))
    && (x.reset <==> !x.wake.triggered && x.wake.t1 / 1000 - LastReset(start, h) > 60)
    && (x.collected <==>
          && x.wake.config.enabled
          && if x.wake.triggered then x.taken && x.wake.config.triggers
             else x.wake.config.periodic && PeriodOver(h, x.wake))
  }

  ghost predicate Accounts(start: nat, wakes: seq<Wake>, h: seq<Done>) {
    && |h| == |wakes| && (forall i :: 0 <= i < |h| ==> h[i].wake == wakes[i])
    && forall i :: 0 <= i < |h| ==> Justified(start, h[..i], h[i])
  }

  /** What the log then holds. */
  function Logged(h: seq<Done>): Log {
    if h == [] then [] else Logged(h[..|h| - 1]) + Entry(h[|h| - 1])
  }

  function Entry(x: Done): Log {
    (if x.taken then [Processed(x.wake.t1, x.wake.t2)] else [])
    + (if x.reset then [Reset(x.wake.t1, x.wake.t2)] else [])
    + if x.collected then [Collected(x.wake.t3, x.wake.t3, !x.wake.triggered)] else []
  }

  // ----- the thread does just that -----

  /** The limit of the round under way, if one is. */
  function UnderWay(h: seq<Done>): Option<int> {
    if h == [] || h[|h| - 1].taken || !h[|h| - 1].wake.triggered then None
    else Some(RoundLimit(h[..|h| - 1], h[|h| - 1].wake))
  }

  ghost predicate Matches(start: nat, h: seq<Done>, v: Vars) {
    && v.count == Notified(h)
    && v.nextTrigger == (if LastTaken(h).Some? then LastTaken(h).value + 100 else 0)
    && v.lastReset == LastReset(start, h)
    && v.nextPoll == (if LastCollected(h).Some?
                      then LastCollected(h).value.t3 + PollInterval(LastCollected(h).value.config.period) else 0)
    && v.log == Logged(h)
    && (v.disabled <==> TurnedDown(h))
  }

  lemma NoResetMore(h: seq<Done>, x: Done)
    ensures forall i: nat :: i < |h| ==> (NoResetAfter(h + [x], i) <==> NoResetAfter(h, i) && !x.reset)
    ensures NoResetAfter(h + [x], |h|)
  {
    var more := h + [x];
    forall i: nat | i < |h| ensures NoResetAfter(more, i) <==> NoResetAfter(h, i) && !x.reset {
      if NoResetAfter(more, i) {
        assert !more[|h|].reset;
        forall j | i < j < |h| ensures !h[j].reset {
          assert more[j] == h[j];
        }
      }
    }
  }

  lemma NotifiedMore(h: seq<Done>, x: Done)
    requires x.reset ==> !x.wake.triggered
    ensures Notified(h + [x]) == if x.reset then 0 else Notified(h) + if x.wake.triggered then 1 else 0
  {
    hide NoResetAfter;
    var more := h + [x];
    NoResetMore(h, x);
    if x.reset {
      assert NotifiedAt(more) == {};
    } else if x.wake.triggered {
      assert NotifiedAt(more) == NotifiedAt(h) + {|h|};
    } else {
      assert NotifiedAt(more) == NotifiedAt(h);
    }
  }

  lemma TurnedDownMore(h: seq<Done>, x: Done)
    requires x.reset ==> !x.wake.triggered
    ensures TurnedDown(h + [x]) <==> !x.reset && (TurnedDown(h) || (x.wake.triggered && !x.taken))
  {
    hide NoResetAfter;
    var more := h + [x];
    NoResetMore(h, x);
    if TurnedDown(h) {
      var i: nat :| i < |h| && h[i].wake.triggered && !h[i].taken && NoResetAfter(h, i);
      assert more[i] == h[i];
    }
    assert more[|h|] == x;
  }

  lemma LastMore(start: nat, h: seq<Done>, x: Done)
    ensures LastReset(start, h + [x]) == if x.reset then x.wake.t2 / 1000 else LastReset(start, h)
    ensures LastTaken(h + [x]) == if x.taken then Some(x.wake.t2) else LastTaken(h)
    ensures LastCollected(h + [x]) == if x.collected then Some(x.wake) else LastCollected(h)
    ensures Logged(h + [x]) == Logged(h) + Entry(x)
    ensures UnderWay(h + [x]) == if x.taken || !x.wake.triggered then None else Some(RoundLimit(h, x.wake))
  {
    assert (h + [x])[..|h|] == h;
  }

  /** What one wake-up does to the variables and to the round. */
  function AfterWake(v: Vars, limit: int, w: Wake): Vars {
    if !w.triggered then AfterUpdate(AfterTimeout(v, w.t1, w.t2), false, w.config, w.t3)
    else if TakesUp(v, limit, w.t1) then AfterUpdate(AfterTrigger(v, limit, w.t1, w.t2), true, w.config, w.t3)
    else AfterTrigger(v, limit, w.t1, w.t2)
  }

  function DoneAt(start: nat, h: seq<Done>, w: Wake): (x: Done)
    ensures x.wake == w && Justified(start, h, x)
  {
    var taken := w.triggered && Due(h, w);
    Done(w, taken, !w.triggered && w.t1 / 1000 - LastReset(start, h) > 60,
         w.config.enabled && if w.triggered then taken && w.config.triggers
                             else w.config.periodic && PeriodOver(h, w))
  }

  lemma OneWake(start: nat, h: seq<Done>, v: Vars, w: Wake)
    requires Matches(start, h, v)
    ensures
      var x := DoneAt(start, h, w);
      Matches(start, h + [x], AfterWake(v, RoundLimit(h, w), w))
    ensures TakesUp(v, RoundLimit(h, w), w.t1) <==> Due(h, w)
  {
    hide Notified, LastReset, LastTaken, LastCollected, Logged, TurnedDown, RoundLimit;
    var x := DoneAt(start, h, w);
    NotifiedMore(h, x);
    TurnedDownMore(h, x);
    LastMore(start, h, x);
  }

  lemma AccountsMore(start: nat, wakes: seq<Wake>, h: seq<Done>, x: Done)
    requires |h| < |wakes| && Accounts(start, wakes[..|h|], h) && x.wake == wakes[|h|] && Justified(start, h, x)
    ensures Accounts(start, wakes[..|h| + 1], h + [x])
  {
    hide Justified;
    var more := h + [x];
    forall i | 0 <= i < |more| ensures Justified(start, more[..i], more[i]) {
      assert more[..i] == if i < |h| then h[..i] else h;
    }
  }

  lemma {:induction false} Continues(start: nat, wakes: seq<Wake>, h: seq<Done>, v: Vars) returns (full: seq<Done>)
    requires |h| <= |wakes| && Accounts(start, wakes[..|h|], h) && Matches(start, h, v)
    ensures Accounts(start, wakes, full) && Matches(start, full, Thread(v, UnderWay(h), wakes[|h|..]))
    decreases |wakes| - |h|
  {
    if |h| == |wakes| {
      assert wakes[..|h|] == wakes;
      full := h;
    } else {
      var w := wakes[|h|];
      var x := DoneAt(start, h, w);
      var limit := RoundLimit(h, w);
      OneWake(start, h, v, w);
      AccountsMore(start, wakes, h, x);
      LastMore(start, h, x);
      full := Continues(start, wakes, h + [x], AfterWake(v, limit, w));
      ThreadSteps(v, UnderWay(h), limit, wakes[|h|..]);
      assert wakes[|h|..][1..] == wakes[|h| + 1..];
    }
  }

  lemma ThreadSteps(v: Vars, round: Option<int>, limit: int, wakes: seq<Wake>)
    requires wakes != [] && limit == if round.Some? then round.value else wakes[0].limit
    ensures
      var w := wakes[0];
      Thread(v, round, wakes) ==
      Thread(AfterWake(v, limit, w), if w.triggered && !TakesUp(v, limit, w.t1) then Some(limit) else None, wakes[1..])
  {
  }

  /**
  At every wake-up, whatever came before and whatever the clock does: a notification
  is processed if and only if at most the limit came since the last reset, it
  included, and 100 ms are over since the last one processed; the count is reset if
  and only if the timer fired more than 60 seconds after the last reset; counters are
  collected if and only if a processed notification asks for it or the period is over.
  */
  lemma ThreadExplained(start: nat, wakes: seq<Wake>) returns (h: seq<Done>)
    ensures Accounts(start, wakes, h)
    ensures Thread(Started(start), None, wakes).log == Logged(h)
    ensures Thread(Started(start), None, wakes).disabled <==> TurnedDown(h)
  {
    assert NotifiedAt([]) == {};
    h := Continues(start, wakes, [], Started(start));
    assert wakes[0..] == wakes;
  }

  /** There is one such account only. */
  lemma {:induction false} ExplainedOnce(start: nat, wakes: seq<Wake>, h: seq<Done>, h': seq<Done>)
    requires Accounts(start, wakes, h) && Accounts(start, wakes, h')
    ensures h == h'
    decreases |wakes|
  {
    if wakes != [] {
      var n := |wakes| - 1;
      AccountsInit(start, wakes, h);
      AccountsInit(start, wakes, h');
      ExplainedOnce(start, wakes[..n], h[..n], h'[..n]);
      assert h == h[..n] + [h[n]] && h' == h'[..n] + [h'[n]];
    }
  }

  lemma AccountsInit(start: nat, wakes: seq<Wake>, h: seq<Done>)
    requires wakes != [] && Accounts(start, wakes, h)
    ensures Accounts(start, wakes[..|wakes| - 1], h[..|wakes| - 1])
  {
    hide Justified;
    var n := |wakes| - 1;
    forall i | 0 <= i < n ensures Justified(start, h[..n][..i], h[..n][i]) {
      assert h[..n][..i] == h[..i];
    }
  }
}
