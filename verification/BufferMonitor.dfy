/**
The buffer monitoring thread of src/bufmon.c: how often it processes trigger
notifications and how far apart it collects counters, for any clock that does
not run backwards and any sequence of wake-ups.  Times are in milliseconds.
*/
module BufferMonitor {
  import opened Common

  const DEFAULT_COLLECTION_INTERVAL := 5              // seconds
  const DEFAULT_TRIGGER_RATE_LIMIT_DURATION := 60     // seconds
  const DEFAULT_TRIGGER_REPORT_INTERVAL := 100        // milliseconds
  const INT_MAX := 0x7fff_ffff

  /** The configuration as the thread finds it. */
  datatype Config = Config(enabled: bool, periodic: bool, triggers: bool, period: int)

  /** The collection period, from what the database asks for. */
  function ConfiguredPeriod(asked: int): (p: int)
    ensures p >= DEFAULT_COLLECTION_INTERVAL && p >= asked && (p == DEFAULT_COLLECTION_INTERVAL || p == asked)
  {
    if asked < DEFAULT_COLLECTION_INTERVAL then DEFAULT_COLLECTION_INTERVAL else asked
  }

  /** A value in a signed 32-bit integer. */
  function Wrap32(x: int): int {
    (x + 0x8000_0000) % 0x1_0000_0000 - 0x8000_0000
  }

  /** collection_period * 1000. */
  function PollInterval(period: int): int {
    Wrap32(period * 1000)
  }

  /** The interval is the configured period exactly up to some 596 hours; beyond, the product does not fit. */
  lemma IntervalExact(period: int)
    requires DEFAULT_COLLECTION_INTERVAL <= period <= INT_MAX
    ensures PollInterval(period) == period * 1000 <==> period <= INT_MAX / 1000
    ensures period <= INT_MAX / 1000 ==> Spacious(period)
  {
  }

  /**
  One return from poll_block: the rate limit that was configured before the wait,
  whether a trigger was notified, what the clock says at each reading after it,
  and the configuration when counters may be collected.
  */
  datatype Wake = Wake(limit: int, triggered: bool, t1: nat, t2: nat, t3: nat, config: Config)

  datatype Event =
    | Processed(t1: nat, t2: nat)                     // a trigger notification is taken up
    | Reset(t1: nat, t2: nat)                         // the count of notifications starts again
    | Collected(t1: nat, t2: nat, periodic: bool)     // counters are read

  type Log = seq<Event>

  /** From `now` on the clock goes forward through the readings of the wake-ups. */
  ghost predicate Ahead(now: nat, wakes: seq<Wake>) {
    && (forall k :: 0 <= k < |wakes| ==> now <= wakes[k].t1 <= wakes[k].t2 <= wakes[k].t3)
    && (forall j, k :: 0 <= j < k < |wakes| ==> wakes[j].t3 <= wakes[k].t1)
  }

  /** No interval is under five seconds. */
  predicate Spacious(period: int) {
    PollInterval(period) >= DEFAULT_COLLECTION_INTERVAL * 1000
  }

  ghost predicate LimitedTo(wakes: seq<Wake>, most: nat) {
    forall i :: 0 <= i < |wakes| ==> wakes[i].limit <= most
  }

  ghost predicate AllSpacious(wakes: seq<Wake>) {
    forall i :: 0 <= i < |wakes| ==> Spacious(wakes[i].config.period)
  }

  // ----- what the log is to satisfy -----

  function Count(log: Log): nat {
    if log == [] then 0 else Count(log[..|log| - 1]) + if log[|log| - 1].Processed? then 1 else 0
  }

  /** Notifications processed since the last reset. */
  function SinceReset(log: Log): nat {
    if log == [] then 0
    else
      var init, last := log[..|log| - 1], log[|log| - 1];
      if last.Reset? then 0 else SinceReset(init) + if last.Processed? then 1 else 0
  }

  ghost predicate InOrder(log: Log) {
    && (forall i :: 0 <= i < |log| ==> log[i].t1 <= log[i].t2)
    && (forall i, j :: 0 <= i < j < |log| ==> log[i].t2 <= log[j].t1)
  }

  /** Processed notifications are at least 100 ms apart. */
  ghost predicate TriggersApart(log: Log) {
    forall i, j :: 0 <= i < j < |log| && log[i].Processed? && log[j].Processed? ==>
      log[j].t1 >= log[i].t2 + DEFAULT_TRIGGER_REPORT_INTERVAL
  }

  /** Resets are more than a minute apart. */
  ghost predicate ResetsApart(log: Log) {
    forall i, j :: 0 <= i < j < |log| && log[i].Reset? && log[j].Reset? ==>
      log[j].t1 > log[i].t2 + DEFAULT_TRIGGER_RATE_LIMIT_DURATION * 1000
  }

  /** A periodic collection comes at least five seconds after any collection before it. */
  ghost predicate CollectionsApart(log: Log) {
    forall i, j :: 0 <= i < j < |log| && log[i].Collected? && log[j].Collected? && log[j].periodic ==>
      log[j].t1 >= log[i].t2 + DEFAULT_COLLECTION_INTERVAL * 1000
  }

  ghost predicate Limited(log: Log, most: nat) {
    forall k :: 0 <= k <= |log| ==> SinceReset(log[..k]) <= most
  }

  // ----- the window bound -----

  lemma {:induction false} NoResetNoMore(log: Log, i: nat, j: nat)
    requires i <= j <= |log| && forall k :: i <= k < j ==> !log[k].Reset?
    ensures Count(log[i..j]) <= SinceReset(log[..j])
    decreases j
  {
    if i < j {
      NoResetNoMore(log, i, j - 1);
      assert log[i..j][..j - i - 1] == log[i..j - 1] && log[..j][..j - 1] == log[..j - 1];
    }
  }

  lemma {:induction false} CountConcat(a: Log, b: Log)
    ensures Count(a + b) == Count(a) + Count(b)
  {
    if b == [] {
      assert a + b == a;
    } else {
      CountConcat(a, b[..|b| - 1]);
      assert (a + b)[..|a + b| - 1] == a + b[..|b| - 1];
    }
  }

  /** From one processed notification to another within a minute of it there are at most twice the limit. */
  lemma AtMostTwice(log: Log, most: nat, i: nat, j: nat)
    requires InOrder(log) && ResetsApart(log) && Limited(log, most)
    requires i <= j < |log| && log[i].Processed? && log[j].Processed?
    requires log[j].t2 <= log[i].t2 + DEFAULT_TRIGGER_RATE_LIMIT_DURATION * 1000
    ensures Count(log[i..j + 1]) <= 2 * most
  {
    if r :| i < r < j && log[r].Reset? {
      forall k | i < k < j && k != r ensures !log[k].Reset? {
        OneReset(log, i, j, k, r);
      }
      SplitAt(log, most, i, j, r);
    } else {
      NoResetNoMore(log, i, j + 1);
    }
  }

  /** Two notifications processed within a minute of each other. */
  predicate WithinMinute(e: Event, f: Event) {
    e.Processed? && f.Processed? && f.t2 <= e.t2 + DEFAULT_TRIGGER_RATE_LIMIT_DURATION * 1000
  }

  /** At most twice the limit in any minute. */
  ghost predicate MinuteBound(log: Log, most: nat) {
    forall i, j :: 0 <= i <= j < |log| && WithinMinute(log[i], log[j]) ==> Count(log[i..j + 1]) <= 2 * most
  }

  lemma SplitAt(log: Log, most: nat, i: nat, j: nat, r: nat)
    requires Limited(log, most) && i < r < j < |log| && log[r].Reset?
    requires !log[i].Reset? && !log[j].Reset? && forall k :: i < k < j && k != r ==> !log[k].Reset?
    ensures Count(log[i..j + 1]) <= 2 * most
  {
    hide SinceReset;
    NoResetNoMore(log, i, r);
    NoResetNoMore(log, r + 1, j + 1);
    assert log[i..j + 1] == log[i..r] + ([log[r]] + log[r + 1..j + 1]);
    CountConcat(log[i..r], [log[r]] + log[r + 1..j + 1]);
    CountConcat([log[r]], log[r + 1..j + 1]);
  }

  lemma OneReset(log: Log, i: nat, j: nat, k: nat, r: nat)
    requires InOrder(log) && ResetsApart(log) && i < k < j < |log| && i < r < j && k != r && log[r].Reset?
    requires log[j].t2 <= log[i].t2 + DEFAULT_TRIGGER_RATE_LIMIT_DURATION * 1000
    ensures !log[k].Reset?
  {
    assert log[i].t2 <= log[k].t2 && log[i].t2 <= log[r].t2;
    assert log[k].t1 <= log[j].t2 && log[r].t1 <= log[j].t2;
  }

  // ----- the thread -----

  ghost predicate GoodLog(log: Log, most: nat) {
    InOrder(log) && TriggersApart(log) && ResetsApart(log) && Limited(log, most)
  }

  ghost predicate Past(log: Log, now: nat) {
    forall i :: 0 <= i < |log| ==> log[i].t2 <= now
  }

  ghost predicate TriggersBefore(log: Log, next: int) {
    forall i :: 0 <= i < |log| && log[i].Processed? ==> log[i].t2 + DEFAULT_TRIGGER_REPORT_INTERVAL <= next
  }

  ghost predicate ResetsBefore(log: Log, last: int) {
    forall i :: 0 <= i < |log| && log[i].Reset? ==> log[i].t2 / 1000 <= last
  }

  ghost predicate CollectionsBefore(log: Log, next: int) {
    forall i :: 0 <= i < |log| && log[i].Collected? ==> log[i].t2 + DEFAULT_COLLECTION_INTERVAL * 1000 <= next
  }

  /** The variables of the thread. */
  datatype Vars = Vars(
    count: nat,             // trigger_reports_count
    nextTrigger: int,       // next_trigger_msec
    lastReset: int,         // last_rate_limit_time, in seconds
    disabled: bool,         // trigger_disabled
    nextPoll: int,          // next_poll_interval
    log: Log)

  /** A notification is taken up unless there were too many or one too recently. */
  predicate TakesUp(v: Vars, limit: int, t1: nat) {
    v.count + 1 <= limit && t1 >= v.nextTrigger
  }

  function AfterTrigger(v: Vars, limit: int, t1: nat, t2: nat): Vars {
    if TakesUp(v, limit, t1) then
      v.(count := v.count + 1, nextTrigger := t2 + DEFAULT_TRIGGER_REPORT_INTERVAL, log := v.log + [Processed(t1, t2)])
    else v.(count := v.count + 1, disabled := true)
  }

  /** Once a minute the count starts again. */
  function AfterTimeout(v: Vars, t1: nat, t2: nat): Vars {
    if t1 / 1000 - v.lastReset > DEFAULT_TRIGGER_RATE_LIMIT_DURATION then
      v.(count := 0, lastReset := t2 / 1000, disabled := false, log := v.log + [Reset(t1, t2)])
    else v
  }

  predicate Collects(v: Vars, triggered: bool, c: Config, t: nat) {
    c.enabled && if triggered then c.triggers else c.periodic && t >= v.nextPoll
  }

  function AfterUpdate(v: Vars, triggered: bool, c: Config, t: nat): Vars {
    if Collects(v, triggered, c, t) then
      v.(nextPoll := t + PollInterval(c.period), log := v.log + [Collected(t, t, !triggered)])
    else v
  }

  /** Wake-ups one after the other; `limit` is the one of the current round, if one is under way. */
  function Thread(v: Vars, limit: Option<int>, wakes: seq<Wake>): Vars
    decreases |wakes|
  {
    if wakes == [] then v
    else
      var w := wakes[0];
      var l := if limit.Some? then limit.value else w.limit;
      if !w.triggered then
        Thread(AfterUpdate(AfterTimeout(v, w.t1, w.t2), false, w.config, w.t3), None, wakes[1..])
      else if TakesUp(v, l, w.t1) then
        Thread(AfterUpdate(AfterTrigger(v, l, w.t1, w.t2), true, w.config, w.t3), None, wakes[1..])
      else Thread(AfterTrigger(v, l, w.t1, w.t2), Some(l), wakes[1..])
  }

  /** The variables bound what may be logged from `now` on. */
  ghost predicate Bounds(v: Vars, now: nat, most: nat) {
    && GoodLog(v.log, most) && SinceReset(v.log) <= v.count && Past(v.log, now)
    && TriggersBefore(v.log, v.nextTrigger) && ResetsBefore(v.log, v.lastReset)
  }

  /** The same for collections. */
  ghost predicate PollBounds(v: Vars, now: nat) {
    CollectionsApart(v.log) && Past(v.log, now) && CollectionsBefore(v.log, v.nextPoll)
  }

  /** One more event keeps what it does not concern. */
  lemma Longer(log: Log, e: Event, now: nat, most: nat)
    requires GoodLog(log, most) && Past(log, now) && now <= e.t1 <= e.t2
    ensures SinceReset(log + [e]) == if e.Reset? then 0 else SinceReset(log) + if e.Processed? then 1 else 0
    ensures SinceReset(log) <= most && (SinceReset(log + [e]) <= most ==> Limited(log + [e], most))
    ensures InOrder(log + [e]) && Past(log + [e], e.t2)
    ensures !e.Processed? ==> TriggersApart(log + [e])
    ensures !e.Reset? ==> ResetsApart(log + [e])
  {
    LimitedMore(log, e, most);
  }

  lemma LimitedMore(log: Log, e: Event, most: nat)
    requires Limited(log, most)
    ensures SinceReset(log + [e]) == if e.Reset? then 0 else SinceReset(log) + if e.Processed? then 1 else 0
    ensures SinceReset(log + [e]) <= most ==> Limited(log + [e], most)
    ensures SinceReset(log) <= most
  {
    var longer := log + [e];
    assert log[..|log|] == log;
    assert longer[..|log|] == log;
    forall k | 0 <= k <= |log| ensures longer[..k] == log[..k] {}
    assert longer[..|longer|] == longer;
  }

  lemma TriggerKeeps(v: Vars, limit: int, t1: nat, t2: nat, now: nat, most: nat)
    requires Bounds(v, now, most) && now <= t1 <= t2 && limit <= most
    ensures Bounds(AfterTrigger(v, limit, t1, t2), t2, most)
  {
    hide SinceReset, Limited;
    if TakesUp(v, limit, t1) {
      Longer(v.log, Processed(t1, t2), now, most);
      OneMoreTrigger(v.log, v.nextTrigger, t1, t2);
    }
  }

  lemma OneMoreTrigger(log: Log, next: int, t1: nat, t2: nat)
    requires TriggersApart(log) && TriggersBefore(log, next) && next <= t1 <= t2
    ensures TriggersApart(log + [Processed(t1, t2)])
    ensures TriggersBefore(log + [Processed(t1, t2)], t2 + DEFAULT_TRIGGER_REPORT_INTERVAL)
  {
  }

  lemma TimeoutKeeps(v: Vars, t1: nat, t2: nat, now: nat, most: nat)
    requires Bounds(v, now, most) && now <= t1 <= t2
    ensures Bounds(AfterTimeout(v, t1, t2), t2, most)
  {
    hide SinceReset, Limited;
    Longer(v.log, Reset(t1, t2), now, most);
    if t1 / 1000 - v.lastReset > DEFAULT_TRIGGER_RATE_LIMIT_DURATION {
      LongAfter(v.log, v.lastReset, t1);
    }
  }

  /** More than 60 whole seconds are more than 60 seconds. */
  lemma LongAfter(log: Log, last: int, t: nat)
    requires ResetsBefore(log, last) && t / 1000 - last > DEFAULT_TRIGGER_RATE_LIMIT_DURATION
    ensures forall i :: 0 <= i < |log| && log[i].Reset? ==> t > log[i].t2 + DEFAULT_TRIGGER_RATE_LIMIT_DURATION * 1000
  {
  }

  lemma UpdateKeeps(v: Vars, triggered: bool, c: Config, t: nat, now: nat, most: nat)
    requires Bounds(v, now, most) && now <= t
    ensures Bounds(AfterUpdate(v, triggered, c, t), t, most)
  {
    hide SinceReset, Limited, TriggersApart, ResetsApart;
    if Collects(v, triggered, c, t) {
      Longer(v.log, Collected(t, t, !triggered), now, most);
    }
  }

  /** Whatever the wake-ups, as long as the clock goes forward. */
  lemma {:induction false} ThreadKeeps(v: Vars, limit: Option<int>, wakes: seq<Wake>, now: nat, most: nat)
    returns (end: nat)
    requires Bounds(v, now, most) && Ahead(now, wakes) && LimitedTo(wakes, most)
    requires limit.Some? ==> limit.value <= most
    ensures Bounds(Thread(v, limit, wakes), end, most)
    decreases |wakes|
  {
    hide Bounds, AfterTrigger, AfterTimeout, AfterUpdate, TakesUp;
    end := now;
    if wakes != [] {
      var w := wakes[0];
      var l := if limit.Some? then limit.value else w.limit;
      TriggerKeeps(v, l, w.t1, w.t2, now, most);
      TimeoutKeeps(v, w.t1, w.t2, now, most);
      if !w.triggered {
        var v' := AfterTimeout(v, w.t1, w.t2);
        UpdateKeeps(v', false, w.config, w.t3, w.t2, most);
        end := ThreadKeeps(AfterUpdate(v', false, w.config, w.t3), None, wakes[1..], w.t3, most);
      } else if TakesUp(v, l, w.t1) {
        var v' := AfterTrigger(v, l, w.t1, w.t2);
        UpdateKeeps(v', true, w.config, w.t3, w.t2, most);
        end := ThreadKeeps(AfterUpdate(v', true, w.config, w.t3), None, wakes[1..], w.t3, most);
      } else {
        end := ThreadKeeps(AfterTrigger(v, l, w.t1, w.t2), Some(l), wakes[1..], w.t2, most);
      }
    }
  }

  lemma PollSteps(v: Vars, limit: int, w: Wake, triggered: bool, now: nat)
    requires PollBounds(v, now) && now <= w.t1 <= w.t2 <= w.t3 && Spacious(w.config.period)
    ensures PollBounds(AfterTrigger(v, limit, w.t1, w.t2), w.t2) && PollBounds(AfterTimeout(v, w.t1, w.t2), w.t2)
    ensures PollBounds(AfterUpdate(v, triggered, w.config, w.t3), w.t3)
  {
    NoCollection(v, Processed(w.t1, w.t2), now);
    NoCollection(v, Reset(w.t1, w.t2), now);
    if Collects(v, triggered, w.config, w.t3) {
      OneCollection(v, w.t3, !triggered, PollInterval(w.config.period), now);
    }
  }

  lemma NoCollection(v: Vars, e: Event, now: nat)
    requires PollBounds(v, now) && now <= e.t1 <= e.t2 && !e.Collected?
    ensures PollBounds(v.(log := v.log + [e]), e.t2) && PollBounds(v, e.t2)
  {
  }

  lemma OneCollection(v: Vars, t: nat, periodic: bool, interval: int, now: nat)
    requires PollBounds(v, now) && now <= t && (periodic ==> t >= v.nextPoll)
    ensures interval >= DEFAULT_COLLECTION_INTERVAL * 1000 ==>
      PollBounds(v.(nextPoll := t + interval, log := v.log + [Collected(t, t, periodic)]), t)
  {
  }

  /** With no interval under five seconds. */
  lemma {:induction false} ThreadSpaced(v: Vars, limit: Option<int>, wakes: seq<Wake>, now: nat) returns (end: nat)
    requires PollBounds(v, now) && Ahead(now, wakes) && AllSpacious(wakes)
    ensures PollBounds(Thread(v, limit, wakes), end)
    decreases |wakes|
  {
    hide PollBounds, AfterTrigger, AfterTimeout, AfterUpdate, TakesUp, Spacious;
    end := now;
    if wakes != [] {
      var w := wakes[0];
      var l := if limit.Some? then limit.value else w.limit;
      PollSteps(v, l, w, w.triggered, now);
      var v' := if w.triggered then AfterTrigger(v, l, w.t1, w.t2) else AfterTimeout(v, w.t1, w.t2);
      PollSteps(v', l, w.(t1 := w.t2), w.triggered, w.t2);
      if !w.triggered || TakesUp(v, l, w.t1) {
        end := ThreadSpaced(AfterUpdate(v', w.triggered, w.config, w.t3), None, wakes[1..], w.t3);
      } else {
        end := ThreadSpaced(v', Some(l), wakes[1..], w.t2);
      }
    }
  }

  /** As the thread starts. */
  function Started(start: nat): Vars {
    Vars(0, 0, start / 1000, false, 0, [])
  }

  /**
  For every clock and every sequence of wake-ups, whatever the collection period:
  processed notifications and resets keep their distance, and between two resets at
  most `most` notifications are processed, so in any minute at most twice as many.
  */
  lemma RatesAreLimited(start: nat, wakes: seq<Wake>, most: nat)
    requires Ahead(start, wakes) && LimitedTo(wakes, most)
    ensures
      var log := Thread(Started(start), None, wakes).log;
      GoodLog(log, most) && MinuteBound(log, most)
  {
    var end := ThreadKeeps(Started(start), None, wakes, start, most);
    BoundsGood(Thread(Started(start), None, wakes), end, most);
  }

  /** And with no interval under five seconds, periodic collections keep theirs. */
  lemma CollectionsAreSpaced(start: nat, wakes: seq<Wake>)
    requires Ahead(start, wakes) && AllSpacious(wakes)
    ensures CollectionsApart(Thread(Started(start), None, wakes).log)
  {
    var end := ThreadSpaced(Started(start), None, wakes, start);
  }

  /** Under this configured period no periodic collection comes within five seconds of another collection. */
  ghost predicate AlwaysSpaced(period: int) {
    forall start, wakes :: Ahead(start, wakes) && AllAt(period, wakes) ==>
      CollectionsApart(Thread(Started(start), None, wakes).log)
  }

  ghost predicate AllAt(period: int, wakes: seq<Wake>) {
    forall i :: 0 <= i < |wakes| ==> wakes[i].config.period == period
  }

  /** That is so exactly when the product, cut to 32 bits, is not under five seconds. */
  lemma SpacingExact(period: int)
    ensures AlwaysSpaced(period) <==> Spacious(period)
  {
    if Spacious(period) {
      forall start: nat, wakes | Ahead(start, wakes) && AllAt(period, wakes)
        ensures CollectionsApart(Thread(Started(start), None, wakes).log)
      {
        CollectionsAreSpaced(start, wakes);
      }
    } else {
      TooSoon(period);
    }
  }

  /** Two wake-ups of the timer, the second as soon as the interval is over. */
  lemma TooSoon(period: int)
    requires !Spacious(period)
    ensures !AlwaysSpaced(period)
  {
    hide Thread, CollectionsApart;
    var t: nat := if PollInterval(period) < 0 then 0 else PollInterval(period);
    var c := Config(true, true, false, period);
    var wakes := [Wake(0, false, 0, 0, 0, c), Wake(0, false, t, t, t, c)];
    TwoCollections(c, t, wakes);
    NotApart(t);
    assert Ahead(0, wakes) && AllAt(period, wakes);
  }

  lemma TwoCollections(c: Config, t: nat, wakes: seq<Wake>)
    requires c.enabled && c.periodic && PollInterval(c.period) <= t < DEFAULT_COLLECTION_INTERVAL * 1000
    requires wakes == [Wake(0, false, 0, 0, 0, c), Wake(0, false, t, t, t, c)]
    ensures Thread(Started(0), None, wakes).log == [Collected(0, 0, true), Collected(t, t, true)]
  {
    var v1 := AfterUpdate(AfterTimeout(Started(0), 0, 0), false, c, 0);
    assert v1 == Started(0).(nextPoll := PollInterval(c.period), log := [Collected(0, 0, true)]);
    var v2 := AfterUpdate(AfterTimeout(v1, t, t), false, c, t);
    assert wakes[1..][1..] == [];
    assert Thread(v1, None, wakes[1..]) == Thread(v2, None, []);
  }

  lemma NotApart(t: nat)
    requires t < DEFAULT_COLLECTION_INTERVAL * 1000
    ensures !CollectionsApart([Collected(0, 0, true), Collected(t, t, true)])
  {
    var log := [Collected(0, 0, true), Collected(t, t, true)];
    assert log[0].Collected? && log[1].Collected? && log[1].periodic && log[1].t1 < log[0].t2 + 5000;
  }

  /** For instance 4294968 seconds, which come to 704 milliseconds. */
  lemma ShortInterval()
    ensures PollInterval(ConfiguredPeriod(4294968)) == 704 && !AlwaysSpaced(4294968)
  {
    SpacingExact(4294968);
  }

  class Monitor {
    var count: nat
    var nextTrigger: int
    var lastReset: int
    var triggerDisabled: bool
    var nextPoll: int
    var log: Log

    ghost function V(): Vars
      reads this
    {
      Vars(count, nextTrigger, lastReset, triggerDisabled, nextPoll, log)
    }

    constructor (start: nat)
      ensures V() == Started(start)
    {
      count, nextTrigger, lastReset, triggerDisabled, nextPoll, log := 0, 0, start / 1000, false, 0, [];
    }

    /** A trigger notification. */
    method Trigger(limit: int, t1: nat, t2: nat) returns (collect: bool)
      modifies this
      ensures collect == TakesUp(old(V()), limit, t1) && V() == AfterTrigger(old(V()), limit, t1, t2)
    {
      count := count + 1;
      if count > limit || t1 < nextTrigger {
        triggerDisabled := true;
        collect := false;
      } else {
        collect := true;
        nextTrigger := t2 + DEFAULT_TRIGGER_REPORT_INTERVAL;
        log := log + [Processed(t1, t2)];
      }
    }

    /** The poll timer. */
    method Timeout(t1: nat, t2: nat)
      modifies this
      ensures V() == AfterTimeout(old(V()), t1, t2)
    {
      if t1 / 1000 - lastReset > DEFAULT_TRIGGER_RATE_LIMIT_DURATION {
        lastReset := t2 / 1000;
        count := 0;
        if triggerDisabled {
          triggerDisabled := false;
        }
        log := log + [Reset(t1, t2)];
      }
    }

    /** bufmon_run_stats_update. */
    method RunStatsUpdate(triggered: bool, c: Config, t: nat)
      modifies this
      ensures V() == AfterUpdate(old(V()), triggered, c, t)
    {
      if !c.enabled || !(c.periodic || c.triggers) {
        return;
      }
      if (!c.periodic || t < nextPoll) && !triggered {
        return;
      }
      if triggered && !c.triggers {
        return;
      }
      nextPoll := t + PollInterval(c.period);
      log := log + [Collected(t, t, !triggered)];
    }

    /** The inner loop: wake-ups up to one that may lead to a collection, if any does. */
    method AwaitCollection(wakes: seq<Wake>, from: nat, limit: int, ghost all: Vars)
      returns (i: nat, triggered: bool, again: bool)
      requires from < |wakes| && Thread(V(), Some(limit), wakes[from..]) == all
      modifies this
      ensures from < i <= |wakes|
      ensures
        if again then i == |wakes| && V() == all
        else Thread(AfterUpdate(V(), triggered, wakes[i - 1].config, wakes[i - 1].t3), None, wakes[i..]) == all
    {
      hide AfterTrigger, AfterTimeout, AfterUpdate, TakesUp;
      i, triggered, again := from, false, true;
      while again && i < |wakes|
        invariant from <= i <= |wakes| && (i > from || again) && (again ==> !triggered)
        invariant
          if again then Thread(V(), Some(limit), wakes[i..]) == all
          else Thread(AfterUpdate(V(), triggered, wakes[i - 1].config, wakes[i - 1].t3), None, wakes[i..]) == all
        decreases |wakes| - i
      {
        var w := wakes[i];
        assert wakes[i..][1..] == wakes[i + 1..] && wakes[i..][0] == w;
        i := i + 1;
        if w.triggered {
          triggered := Trigger(limit, w.t1, w.t2);
          again := !triggered;
        } else {
          Timeout(w.t1, w.t2);
          again := false;
        }
      }
    }

    /**
    bufmon_stats_thread, from its start over the wake-ups of some stretch of time:
    rounds of waiting, each up to a wake-up that may lead to a collection.
    */
    method StatsThread(wakes: seq<Wake>, start: nat, most: nat)
      requires V() == Started(start) && Ahead(start, wakes) && LimitedTo(wakes, most)
      modifies this
      ensures V() == Thread(Started(start), None, wakes)
      ensures GoodLog(log, most) && MinuteBound(log, most)
      ensures AllSpacious(wakes) ==> CollectionsApart(log)
    {
      hide GoodLog, MinuteBound, CollectionsApart, AllSpacious, Ahead, LimitedTo;
      hide AfterTrigger, AfterTimeout, AfterUpdate, TakesUp;
      ghost var all := Thread(V(), None, wakes);
      RatesAreLimited(start, wakes, most);
      if AllSpacious(wakes) {
        CollectionsAreSpaced(start, wakes);
      }
      var i := 0;
      assert wakes[0..] == wakes;
      while i < |wakes|
        invariant 0 <= i <= |wakes| && Thread(V(), None, wakes[i..]) == all
      {
        RoundBegins(V(), wakes[i..]);
        var triggered, again;
        i, triggered, again := AwaitCollection(wakes, i, wakes[i].limit, all);
        if !again {
          RunStatsUpdate(triggered, wakes[i - 1].config, wakes[i - 1].t3);
        }
      }
    }
  }

  lemma RoundBegins(v: Vars, wakes: seq<Wake>)
    requires wakes != []
    ensures Thread(v, None, wakes) == Thread(v, Some(wakes[0].limit), wakes)
  {
  }

  lemma BoundsGood(v: Vars, now: nat, most: nat)
    requires Bounds(v, now, most)
    ensures GoodLog(v.log, most) && MinuteBound(v.log, most)
  {
    var log := v.log;
    forall i, j | 0 <= i <= j < |log| && WithinMinute(log[i], log[j]) ensures Count(log[i..j + 1]) <= 2 * most {
      AtMostTwice(log, most, i, j);
    }
  }
}
