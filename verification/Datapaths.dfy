/**
The datapaths of all bridges and VRFs as the ofproto library has them.  They are
what the calls so far have made of them: the log of calls is the state, so nothing
changes in a datapath without a call, and the states between calls are those of the
prefixes of the log.
*/
module Datapaths {
  import opened BridgeTables

  /** Two datapaths may have one name if their types differ. */
  datatype DpId = DpId(typ: string, name: Name)

  datatype Call =
    | Create(id: DpId)                                // ofproto_create
    | AddPort(id: DpId, name: Name, port: DpPort)     // ofproto_port_add
    | DelPort(id: DpId, ofp: nat)                     // ofproto_port_del
    | Destroy(id: DpId)                               // ofproto_delete

  type Holdings = map<DpId, Datapath>

  function At(h: Holdings, d: DpId): Datapath {
    if d in h then h[d] else map[]
  }

  function WithoutNumber(dp: Datapath, ofp: nat): Datapath {
    map n | n in dp && dp[n].ofp != ofp :: dp[n]
  }

  function Step(h: Holdings, call: Call): Holdings {
    match call
    case Create(d) => h[d := At(h, d)]
    case AddPort(d, n, port) => h[d := At(h, d)[n := port]]
    case DelPort(d, ofp) => h[d := WithoutNumber(At(h, d), ofp)]
    case Destroy(d) => h - {d}
  }

  function Replay(h: Holdings, calls: seq<Call>): Holdings {
    if calls == [] then h else Step(Replay(h, calls[..|calls| - 1]), calls[|calls| - 1])
  }

  lemma ReplayAppend(h: Holdings, calls: seq<Call>, call: Call)
    ensures Replay(h, calls + [call]) == Step(Replay(h, calls), call)
  {
    assert (calls + [call])[..|calls|] == calls;
  }

  lemma ReplayStep(h: Holdings, log: seq<Call>, k: nat)
    requires k < |log|
    ensures Replay(h, log[..k + 1]) == Step(Replay(h, log[..k]), log[k])
  {
    assert log[..k + 1][..k] == log[..k];
  }

  class Ofproto {
    const start: Holdings     // what there was when the process started
    var log: seq<Call>

    function Now(): Holdings
      reads this
    {
      Replay(start, log)
    }

    constructor (start: Holdings)
      ensures log == [] && Now() == this.start == start
    {
      this.start, log := start, [];
    }

    method DoCreate(d: DpId)
      requires d !in Now()
      modifies this
      ensures log == old(log) + [Create(d)] && Now() == old(Now())[d := map[]]
    {
      ReplayAppend(start, log, Create(d));
      log := log + [Create(d)];
    }

    method DoDestroy(d: DpId)
      modifies this
      ensures log == old(log) + [Destroy(d)] && Now() == old(Now()) - {d}
    {
      ReplayAppend(start, log, Destroy(d));
      log := log + [Destroy(d)];
    }

    method DoPortDel(d: DpId, ofp: nat)
      modifies this
      ensures log == old(log) + [DelPort(d, ofp)]
      ensures Now() == old(Now())[d := WithoutNumber(old(At(Now(), d)), ofp)]
    {
      ReplayAppend(start, log, DelPort(d, ofp));
      log := log + [DelPort(d, ofp)];
    }

    /** Under a number of the provider's choice that is not taken. */
    method DoPortAdd(d: DpId, n: Name, typ: string) returns (ofp: nat)
      modifies this
      ensures log == old(log) + [AddPort(d, n, DpPort(ofp, typ))]
      ensures Now() == old(Now())[d := old(At(Now(), d))[n := DpPort(ofp, typ)]]
      ensures forall m :: m in old(At(Now(), d)) ==> old(At(Now(), d))[m].ofp != ofp
    {
      var dp := At(Now(), d);
      var used := set m | m in dp :: dp[m].ofp;
      var _ := SomeFree(used);
      ofp :| ofp !in used;
      assert forall m :: m in dp ==> dp[m].ofp in used;
      ReplayAppend(start, log, AddPort(d, n, DpPort(ofp, typ)));
      log := log + [AddPort(d, n, DpPort(ofp, typ))];
    }
  }

  /** Whatever finite set of numbers is taken, one is free. */
  lemma {:induction false} SomeFree(used: set<nat>) returns (free: nat)
    ensures free !in used
    ensures forall u :: u in used ==> u < free
  {
    if used == {} {
      free := 0;
    } else {
      var u :| u in used;
      var f := SomeFree(used - {u});
      assert used == used - {u} + {u};
      free := if u < f then f else u + 1;
    }
  }

  // ----- names held twice -----

  /** Names for each datapath. */
  type Names = map<DpId, set<Name>>

  function Of(names: Names, d: DpId): set<Name> {
    if d in names then names[d] else {}
  }

  function Held(h: Holdings): Names {
    map d | d in h :: h[d].Keys
  }

  ghost predicate Disjoint(names: Names) {
    forall d, d', n :: n in Of(names, d) && n in Of(names, d') ==> d == d'
  }

  ghost predicate Within(a: Names, b: Names) {
    forall d :: Of(a, d) <= Of(b, d)
  }

  /** From the `a`th to the `b`th, no call adds a port. */
  ghost predicate NoneAdded(log: seq<Call>, a: nat, b: nat) {
    forall i :: a <= i < b <= |log| ==> !log[i].AddPort?
  }

  /** The call adds a name that its datapath is to have. */
  ghost predicate AddsWanted(call: Call, want: Names) {
    call.AddPort? && call.name in Of(want, call.id)
  }

  ghost predicate OnlyWanted(log: seq<Call>, a: nat, want: Names) {
    forall i :: a <= i < |log| ==> AddsWanted(log[i], want)
  }

  /** After every call from the `a`th on no name is held by two datapaths. */
  ghost predicate AlwaysDisjoint(start: Holdings, log: seq<Call>, a: nat) {
    forall k :: a <= k <= |log| ==> Disjoint(Held(Replay(start, log[..k])))
  }

  lemma SmallerIsDisjoint(a: Names, b: Names)
    requires Within(a, b) && Disjoint(b)
    ensures Disjoint(a)
  {
  }

  lemma TakingAwayShrinks(h: Holdings, call: Call)
    requires !call.AddPort?
    ensures Within(Held(Step(h, call)), Held(h))
  {
  }

  lemma {:induction false} Shrunk(start: Holdings, log: seq<Call>, a: nat, k: nat)
    requires a <= k <= |log| && NoneAdded(log, a, k)
    ensures Within(Held(Replay(start, log[..k])), Held(Replay(start, log[..a])))
    decreases k
  {
    hide Held, Step, Replay;
    if a < k {
      Shrunk(start, log, a, k - 1);
      ReplayStep(start, log, k - 1);
      TakingAwayShrinks(Replay(start, log[..k - 1]), log[k - 1]);
    }
  }

  lemma AddingStaysWithin(h: Holdings, call: Call, want: Names)
    requires Within(Held(h), want) && AddsWanted(call, want)
    ensures Within(Held(Step(h, call)), want)
  {
    var d := call.id;
    forall d' ensures Of(Held(Step(h, call)), d') <= Of(want, d') {
      assert Of(Held(Step(h, call)), d') == if d' == d then Of(Held(h), d) + {call.name} else Of(Held(h), d');
    }
  }

  lemma {:induction false} StillWithin(start: Holdings, log: seq<Call>, b: nat, k: nat, want: Names)
    requires b <= k <= |log| && OnlyWanted(log, b, want) && Within(Held(Replay(start, log[..b])), want)
    ensures Within(Held(Replay(start, log[..k])), want)
    decreases k
  {
    hide Held, Within, Step, Replay, AddsWanted;
    if b < k {
      StillWithin(start, log, b, k - 1, want);
      ReplayStep(start, log, k - 1);
      assert AddsWanted(log[k - 1], want);
      AddingStaysWithin(Replay(start, log[..k - 1]), log[k - 1], want);
    }
  }

  /**
  If calls from the `a`th on only take away, up to the `b`th where each datapath is
  within what it is to have, and from there on only add what is wanted, and no name
  is wanted twice or held twice at the start, then none is held twice after any call.
  */
  lemma DeletesBeforeAdds(start: Holdings, log: seq<Call>, a: nat, b: nat, want: Names)
    requires a <= b <= |log| && NoneAdded(log, a, b) && OnlyWanted(log, b, want)
    requires Disjoint(Held(Replay(start, log[..a]))) && Disjoint(want)
    requires Within(Held(Replay(start, log[..b])), want)
    ensures AlwaysDisjoint(start, log, a)
  {
    hide Held, Within, Step, Replay, Disjoint;
    forall k | a <= k <= |log| ensures Disjoint(Held(Replay(start, log[..k]))) {
      if k <= b {
        Shrunk(start, log, a, k);
        SmallerIsDisjoint(Held(Replay(start, log[..k])), Held(Replay(start, log[..a])));
      } else {
        StillWithin(start, log, b, k, want);
        SmallerIsDisjoint(Held(Replay(start, log[..k])), want);
      }
    }
  }

  /** The order matters: a name added before it is taken elsewhere is held twice. */
  lemma AddBeforeDelete(h: Holdings, from: DpId, to: DpId, n: Name, port: DpPort)
    requires from != to && n in At(h, from)
    ensures !AlwaysDisjoint(h, [AddPort(to, n, port), DelPort(from, At(h, from)[n].ofp)], 0)
  {
    var log := [AddPort(to, n, port), DelPort(from, At(h, from)[n].ofp)];
    ReplayStep(h, log, 0);
    assert log[..0] == [] && Replay(h, log[..0]) == h;
    var held := Held(Replay(h, log[..1]));
    assert n in Of(held, from) && n in Of(held, to);
  }

  // ----- ports that stay -----

  /** After every call from the `a`th on the port is there under its number, and no call takes it away. */
  ghost predicate HeldThroughout(start: Holdings, log: seq<Call>, a: nat, d: DpId, n: Name, port: DpPort) {
    && (forall k :: a <= k <= |log| ==> Has(Replay(start, log[..k]), d, n, port))
    && forall k :: a <= k < |log| ==> log[k] != DelPort(d, port.ofp) && log[k] != Destroy(d)
  }

  predicate Has(h: Holdings, d: DpId, n: Name, port: DpPort) {
    d in h && n in h[d] && h[d][n] == port
  }

  /** From the `a`th on no call adds one of these names to the datapath. */
  ghost predicate NotAgain(log: seq<Call>, a: nat, d: DpId, names: set<Name>) {
    forall k :: a <= k < |log| && log[k].AddPort? && log[k].id == d ==> log[k].name !in names
  }

  lemma StayedBefore(h: Holdings, call: Call, d: DpId, n: Name, port: DpPort)
    requires !call.AddPort? && Has(Step(h, call), d, n, port)
    ensures Has(h, d, n, port) && call != DelPort(d, port.ofp) && call != Destroy(d)
  {
  }

  /** What is there after calls that add nothing was there all along. */
  lemma {:induction false} HeldWhileDeleting(
      start: Holdings, log: seq<Call>, a: nat, b: nat, d: DpId, n: Name, port: DpPort)
    requires a <= b <= |log| && NoneAdded(log, a, b) && Has(Replay(start, log[..b]), d, n, port)
    ensures forall k :: a <= k <= b ==> Has(Replay(start, log[..k]), d, n, port)
    ensures forall k :: a <= k < b ==> log[k] != DelPort(d, port.ofp) && log[k] != Destroy(d)
    decreases b
  {
    hide Step, Replay, Has;
    if a < b {
      ReplayStep(start, log, b - 1);
      StayedBefore(Replay(start, log[..b - 1]), log[b - 1], d, n, port);
      HeldWhileDeleting(start, log, a, b - 1, d, n, port);
    }
  }

  lemma StaysAfter(h: Holdings, call: Call, d: DpId, n: Name, port: DpPort)
    requires call.AddPort? && (call.id == d ==> call.name != n) && Has(h, d, n, port)
    ensures Has(Step(h, call), d, n, port)
  {
  }

  /** Calls that only add leave it there. */
  lemma {:induction false} HeldWhileAdding(
      start: Holdings, log: seq<Call>, b: nat, k: nat, d: DpId, n: Name, port: DpPort)
    requires b <= k <= |log| && Has(Replay(start, log[..b]), d, n, port)
    requires (forall i :: b <= i < |log| ==> log[i].AddPort?) && NotAgain(log, b, d, {n})
    ensures Has(Replay(start, log[..k]), d, n, port)
    decreases k
  {
    hide Step, Replay, Has;
    if b < k {
      HeldWhileAdding(start, log, b, k - 1, d, n, port);
      ReplayStep(start, log, k - 1);
      StaysAfter(Replay(start, log[..k - 1]), log[k - 1], d, n, port);
    }
  }

  /** Deletions before additions: what the deletions leave and nothing adds again is there throughout. */
  lemma HeldAllAlong(
      start: Holdings, log: seq<Call>, a: nat, b: nat, want: Names, d: DpId, n: Name, port: DpPort)
    requires a <= b <= |log| && NoneAdded(log, a, b) && OnlyWanted(log, b, want) && NotAgain(log, b, d, {n})
    requires Has(Replay(start, log[..b]), d, n, port)
    ensures HeldThroughout(start, log, a, d, n, port)
  {
    hide Replay, Has;
    HeldWhileDeleting(start, log, a, b, d, n, port);
    forall k | a <= k <= |log| ensures Has(Replay(start, log[..k]), d, n, port) {
      if b <= k {
        HeldWhileAdding(start, log, b, k, d, n, port);
      }
    }
    forall k | a <= k < |log| ensures log[k] != DelPort(d, port.ofp) && log[k] != Destroy(d) {
      assert b <= k ==> AddsWanted(log[k], want);
    }
  }
}
