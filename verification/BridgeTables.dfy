/**
The port and interface tables of one bridge or VRF (include/bridge.h) and its
datapath, and what each phase of bridge_reconfigure does to them, as values.
*/
module BridgeTables {
  /** The name of a port or of an interface. */
  datatype Name = Name(text: string)

  /** An interface: the port it belongs to, its OpenFlow number and device type. */
  datatype Iface = Iface(port: Name, ofp: nat, typ: string)

  /** A port of the datapath. */
  datatype DpPort = DpPort(ofp: nat, typ: string)

  type Datapath = map<Name, DpPort>

  /**
  What the database wants of a bridge: its ports with their interfaces, the device
  type of each interface, the interfaces of type "null", and those whose type is
  not compared (VLAN subinterfaces of a VRF).
  */
  datatype Config = Config(
    ports: map<Name, seq<Name>>, typ: Name -> string, nulls: set<Name>, subints: set<Name>)

  datatype Tables = Tables(ports: map<Name, seq<Name>>, ifaces: map<Name, Iface>, dp: Datapath)

  // ----- lists of names -----

  predicate NoDup(s: seq<Name>) {
    forall i, j :: 0 <= i < j < |s| ==> s[i] != s[j]
  }

  /** The members of `keep`, in the order of the list. */
  function Filter(s: seq<Name>, keep: set<Name>): seq<Name> {
    if s == [] then []
    else
      var last := |s| - 1;
      Filter(s[..last], keep) + if s[last] in keep then [s[last]] else []
  }

  lemma {:induction false} FilterMembers(s: seq<Name>, keep: set<Name>)
    ensures forall n :: n in Filter(s, keep) <==> n in s && n in keep
  {
    if s != [] {
      FilterMembers(s[..|s| - 1], keep);
    }
  }

  lemma {:induction false} FilterNoDup(s: seq<Name>, keep: set<Name>)
    requires NoDup(s)
    ensures NoDup(Filter(s, keep))
  {
    if s != [] {
      FilterNoDup(s[..|s| - 1], keep);
      FilterMembers(s[..|s| - 1], keep);
      assert s[|s| - 1] !in s[..|s| - 1];
    }
  }

  lemma {:induction false} FilterAll(s: seq<Name>, keep: set<Name>)
    requires forall n :: n in s ==> n in keep
    ensures Filter(s, keep) == s
  {
    if s != [] {
      FilterAll(s[..|s| - 1], keep);
    }
  }

  lemma {:induction false} FilterSame(s: seq<Name>, a: set<Name>, b: set<Name>)
    requires forall n :: n in s ==> (n in a <==> n in b)
    ensures Filter(s, a) == Filter(s, b)
  {
    if s != [] {
      FilterSame(s[..|s| - 1], a, b);
    }
  }

  lemma {:induction false} FilterConcat(s: seq<Name>, t: seq<Name>, keep: set<Name>)
    ensures Filter(s + t, keep) == Filter(s, keep) + Filter(t, keep)
  {
    if t == [] {
      assert s + t == s;
    } else {
      var last := |t| - 1;
      FilterConcat(s, t[..last], keep);
      assert (s + t)[..|s| + last] == s + t[..last];
    }
  }

  /** `n` comes before `m` in the list. */
  ghost predicate Before(s: seq<Name>, n: Name, m: Name) {
    exists i, j :: 0 <= i < j < |s| && s[i] == n && s[j] == m
  }

  lemma {:induction false} FilterOrder(s: seq<Name>, keep: set<Name>, n: Name, m: Name)
    ensures Before(Filter(s, keep), n, m) <==> Before(s, n, m) && n in keep && m in keep
  {
    hide Before;
    NoneBefore(n, m);
    if s != [] {
      var init, last := s[..|s| - 1], s[|s| - 1];
      FilterOrder(init, keep, n, m);
      FilterMembers(init, keep);
      BeforeMore(init, last, n, m);
      assert s == init + [last];
      if last in keep {
        BeforeMore(Filter(init, keep), last, n, m);
      } else {
        assert Filter(s, keep) == Filter(init, keep);
      }
    }
  }

  lemma NoneBefore(n: Name, m: Name)
    ensures !Before([], n, m)
  {
  }

  lemma BeforeMore(s: seq<Name>, last: Name, n: Name, m: Name)
    ensures Before(s + [last], n, m) <==> Before(s, n, m) || (n in s && m == last)
  {
    var more := s + [last];
    if n in s && m == last {
      var i :| 0 <= i < |s| && s[i] == n;
      assert more[i] == n && more[|s|] == m;
    }
    if Before(s, n, m) {
      var i, j :| 0 <= i < j < |s| && s[i] == n && s[j] == m;
      assert more[i] == n && more[j] == m;
    }
  }

  lemma {:induction false} FilterTwice(s: seq<Name>, a: set<Name>, b: set<Name>)
    ensures Filter(Filter(s, a), b) == Filter(s, a * b)
  {
    if s != [] {
      var init, last := s[..|s| - 1], s[|s| - 1];
      FilterTwice(init, a, b);
      FilterConcat(Filter(init, a), if last in a then [last] else [], b);
    }
  }

  /** Taking the element at `i` out of the list. */
  lemma RemoveIsFilter(s: seq<Name>, i: nat, keep: set<Name>)
    requires i < |s| && s[i] !in keep
    requires forall n :: n in s[..i] || n in s[i + 1..] ==> n in keep
    ensures s[..i] + s[i + 1..] == Filter(s, keep)
  {
    hide Filter;
    FilterConcat(s[..i] + [s[i]], s[i + 1..], keep);
    FilterConcat(s[..i], [s[i]], keep);
    FilterAll(s[..i], keep);
    FilterAll(s[i + 1..], keep);
    FilterOut(s[i], keep);
    assert s == s[..i] + [s[i]] + s[i + 1..];
  }

  lemma FilterOut(n: Name, keep: set<Name>)
    requires n !in keep
    ensures Filter([n], keep) == []
  {
  }

  // ----- consistency of the tables -----

  /**
  Ports and interfaces agree: every interface is in the list of its port, every
  list names interfaces of that port, none twice, and no list is empty.
  */
  ghost predicate Consistent(t: Tables) {
    && (forall n :: n in t.ifaces ==> t.ifaces[n].port in t.ports && n in t.ports[t.ifaces[n].port])
    && (forall p :: p in t.ports ==>
          && t.ports[p] != [] && NoDup(t.ports[p])
          && forall n :: n in t.ports[p] ==> n in t.ifaces && t.ifaces[n].port == p)
  }

  /** No two ports of a datapath have the same number. */
  ghost predicate DistinctNumbers(dp: Datapath) {
    forall n, m :: n in dp && m in dp && dp[n].ofp == dp[m].ofp ==> n == m
  }

  /** The ports that have some of the interfaces in `keep`, with those. */
  function KeepPorts(ports: map<Name, seq<Name>>, keep: set<Name>): map<Name, seq<Name>> {
    map p | p in ports && Filter(ports[p], keep) != [] :: Filter(ports[p], keep)
  }

  function KeepIfaces(ifaces: map<Name, Iface>, keep: set<Name>): map<Name, Iface> {
    map n | n in ifaces && n in keep :: ifaces[n]
  }

  /** The tables with only the interfaces in `keep`. */
  function Keep(t: Tables, keep: set<Name>): Tables {
    t.(ports := KeepPorts(t.ports, keep), ifaces := KeepIfaces(t.ifaces, keep))
  }

  lemma KeepConsistent(t: Tables, keep: set<Name>)
    requires Consistent(t)
    ensures Consistent(Keep(t, keep))
  {
    var r := Keep(t, keep);
    forall p | p in t.ports ensures forall n :: n in Filter(t.ports[p], keep) <==> n in t.ports[p] && n in keep {
      FilterMembers(t.ports[p], keep);
    }
    forall p | p in r.ports ensures NoDup(r.ports[p]) {
      FilterNoDup(t.ports[p], keep);
    }
    forall n | n in r.ifaces ensures r.ifaces[n].port in r.ports && n in r.ports[r.ifaces[n].port] {
      assert n in Filter(t.ports[t.ifaces[n].port], keep);
    }
  }

  lemma KeepPortsTwice(ports: map<Name, seq<Name>>, a: set<Name>, b: set<Name>)
    ensures KeepPorts(KeepPorts(ports, a), b) == KeepPorts(ports, a * b)
  {
    forall p | p in ports ensures Filter(Filter(ports[p], a), b) == Filter(ports[p], a * b) {
      FilterTwice(ports[p], a, b);
    }
    assert Filter([], b) == [];
  }

  lemma KeepTwice(t: Tables, a: set<Name>, b: set<Name>)
    ensures Keep(Keep(t, a), b) == Keep(t, a * b)
  {
    KeepPortsTwice(t.ports, a, b);
    assert KeepIfaces(KeepIfaces(t.ifaces, a), b) == KeepIfaces(t.ifaces, a * b);
  }

  lemma KeepPortsSame(ports: map<Name, seq<Name>>, a: set<Name>, b: set<Name>)
    requires forall p, n :: p in ports && n in ports[p] ==> (n in a <==> n in b)
    ensures KeepPorts(ports, a) == KeepPorts(ports, b)
  {
    forall p | p in ports ensures Filter(ports[p], a) == Filter(ports[p], b) {
      FilterSame(ports[p], a, b);
    }
  }

  lemma KeepSame(t: Tables, a: set<Name>, b: set<Name>)
    requires Consistent(t) && forall n :: n in t.ifaces ==> (n in a <==> n in b)
    ensures Keep(t, a) == Keep(t, b)
  {
    KeepPortsSame(t.ports, a, b);
    assert KeepIfaces(t.ifaces, a) == KeepIfaces(t.ifaces, b);
  }

  lemma KeepPortsAll(ports: map<Name, seq<Name>>, keep: set<Name>)
    requires forall p :: p in ports ==> ports[p] != [] && forall n :: n in ports[p] ==> n in keep
    ensures KeepPorts(ports, keep) == ports
  {
    forall p | p in ports ensures Filter(ports[p], keep) == ports[p] {
      FilterAll(ports[p], keep);
    }
  }

  lemma KeepAll(t: Tables, keep: set<Name>)
    requires Consistent(t) && t.ifaces.Keys <= keep
    ensures Keep(t, keep) == t
  {
    KeepPortsAll(t.ports, keep);
    assert KeepIfaces(t.ifaces, keep) == t.ifaces;
  }

  /** The tables without the interfaces in `gone`. */
  function Drop(t: Tables, gone: set<Name>): Tables {
    Keep(t, t.ifaces.Keys - gone)
  }

  lemma DropTwice(t: Tables, a: set<Name>, b: set<Name>)
    requires Consistent(t)
    ensures Drop(Drop(t, a), b) == Drop(t, a + b)
    ensures Drop(t, a).ifaces.Keys == t.ifaces.Keys - a
  {
    var all := t.ifaces.Keys;
    assert Drop(t, a).ifaces.Keys == all - a;
    KeepTwice(t, all - a, all - a - b);
    KeepSame(t, (all - a) * (all - a - b), all - (a + b));
  }

  lemma DropNothing(t: Tables)
    requires Consistent(t)
    ensures Drop(t, {}) == t
  {
    KeepAll(t, t.ifaces.Keys - {});
  }

  // ----- the phases -----

  /** The interfaces whose port still wants them. */
  function Listed(t: Tables, c: Config): set<Name> {
    set n | n in t.ifaces && t.ifaces[n].port in c.ports && n in c.ports[t.ifaces[n].port] && n !in c.nulls
  }

  function WantedNames(c: Config): set<Name> {
    set p, n | p in c.ports && n in c.ports[p] :: n
  }

  /** The interfaces in `names` take on the type the database gives them. */
  function RetypeSome(ifaces: map<Name, Iface>, c: Config, names: set<Name>): map<Name, Iface> {
    map n | n in ifaces :: if n in names then ifaces[n].(typ := c.typ(n)) else ifaces[n]
  }

  function Retype(t: Tables, c: Config): Tables {
    t.(ifaces := RetypeSome(t.ifaces, c, WantedNames(c)))
  }

  /** bridge_del_ports and vrf_del_ports. */
  function DelPorts(t: Tables, c: Config): Tables {
    Retype(Keep(t, Listed(t, c)), c)
  }

  /** The interfaces the datapath has and can go on with. */
  function Usable(t: Tables, c: Config, misconfigured: set<Name>): set<Name> {
    set n | n in t.ifaces && n in t.dp && n !in misconfigured && (n in c.subints || t.dp[n].typ == t.ifaces[n].typ)
  }

  function OnlyPorts(dp: Datapath, keep: set<Name>): Datapath {
    map n | n in dp && n in keep :: dp[n]
  }

  /** bridge_delete_or_reconfigure_ports and vrf_delete_or_reconfigure_ports. */
  function DeleteOrReconfigure(t: Tables, c: Config, misconfigured: set<Name>): Tables {
    var keep := Usable(t, c, misconfigured);
    Keep(t, keep).(dp := OnlyPorts(t.dp, keep))
  }

  /** iface_create, once the datapath has accepted the device as number `ofp`. */
  function CreateIface(t: Tables, c: Config, p: Name, n: Name, ofp: nat): Tables {
    t.(ports := t.ports[p := (if p in t.ports then t.ports[p] else []) + [n]],
       ifaces := t.ifaces[n := Iface(p, ofp, c.typ(n))],
       dp := t.dp[n := DpPort(ofp, c.typ(n))])
  }

  lemma CreateConsistent(t: Tables, c: Config, p: Name, n: Name, ofp: nat)
    requires Consistent(t) && n !in t.ifaces
    ensures Consistent(CreateIface(t, c, p, n, ofp))
  {
    var r := CreateIface(t, c, p, n, ofp);
    forall m | m in r.ifaces ensures r.ifaces[m].port in r.ports && m in r.ports[r.ifaces[m].port] {
      if m == n { assert r.ports[p][|r.ports[p]| - 1] == n; }
    }
  }

  lemma RetypeConsistent(t: Tables, c: Config, names: set<Name>)
    requires Consistent(t)
    ensures Consistent(t.(ifaces := RetypeSome(t.ifaces, c, names)))
  {
  }

  /** Interfaces some wanted port lists whose creation there is not refused. */
  function Accepted(c: Config, refused: set<(Name, Name)>): set<Name> {
    set p, n | p in c.ports && n in c.ports[p] && (p, n) !in refused :: n
  }

  /** The list of a port, empty if there is none. */
  function ListOf(ports: map<Name, seq<Name>>, p: Name): seq<Name> {
    if p in ports then ports[p] else []
  }

  /** `n` is an interface of port `p` in `t` and was none in `t0`. */
  ghost predicate NewAt(t0: Tables, t: Tables, p: Name, n: Name) {
    n in t.ifaces && n !in t0.ifaces && t.ifaces[n].port == p
  }

  /** The lists of ports are those of `t0` with new interfaces at their ends; a new port has some. */
  ghost predicate ListsGrown(t0: Tables, t: Tables) {
    && t0.ports.Keys <= t.ports.Keys
    && forall p :: p in t.ports ==>
         && ListOf(t0.ports, p) <= t.ports[p] && (p in t0.ports || t.ports[p] != [])
         && forall i :: |ListOf(t0.ports, p)| <= i < |t.ports[p]| ==> NewAt(t0, t, p, t.ports[p][i])
  }

  /** `t` is `t0` with more interfaces, each wanted, of the wanted type, in the datapath and at the end of its list. */
  ghost predicate Grown(t0: Tables, t: Tables, c: Config) {
    && (forall n :: n in t0.ifaces ==> n in t.ifaces && t.ifaces[n] == t0.ifaces[n])
    && (forall n :: n in t0.dp ==> n in t.dp && t.dp[n] == t0.dp[n])
    && t.dp.Keys == t.ifaces.Keys
    && (forall n :: n in t.ifaces && n !in t0.ifaces ==>
          var i := t.ifaces[n];
          i.port in c.ports && n in c.ports[i.port] && i.typ == c.typ(n) && t.dp[n] == DpPort(i.ofp, i.typ))
    && ListsGrown(t0, t)
  }

  lemma GrownNone(t: Tables, c: Config)
    requires t.dp.Keys == t.ifaces.Keys
    ensures Grown(t, t, c)
  {
  }

  lemma ListsGrownMore(t0: Tables, t: Tables, c: Config, p: Name, n: Name, ofp: nat)
    requires ListsGrown(t0, t) && n !in t.ifaces && t0.ifaces.Keys <= t.ifaces.Keys
    ensures ListsGrown(t0, CreateIface(t, c, p, n, ofp))
  {
    var r := CreateIface(t, c, p, n, ofp);
    forall q | q in r.ports
      ensures ListOf(t0.ports, q) <= r.ports[q] && (q in t0.ports || r.ports[q] != [])
      ensures forall i :: |ListOf(t0.ports, q)| <= i < |r.ports[q]| ==> NewAt(t0, r, q, r.ports[q][i])
    {
      assert r.ports[q] == if q == p then ListOf(t.ports, p) + [n] else t.ports[q];
      if q in t.ports {
        assert forall i :: |ListOf(t0.ports, q)| <= i < |t.ports[q]| ==> NewAt(t0, t, q, t.ports[q][i]);
      }
    }
  }

  lemma GrownMore(t0: Tables, t: Tables, c: Config, p: Name, n: Name, ofp: nat)
    requires Grown(t0, t, c) && n !in t.ifaces && p in c.ports && n in c.ports[p]
    ensures Grown(t0, CreateIface(t, c, p, n, ofp), c)
  {
    hide ListsGrown, CreateIface;
    ListsGrownMore(t0, t, c, p, n, ofp);
    CreatedParts(t, c, p, n, ofp);
  }

  lemma CreatedParts(t: Tables, c: Config, p: Name, n: Name, ofp: nat)
    ensures
      var r := CreateIface(t, c, p, n, ofp);
      r.ifaces == t.ifaces[n := Iface(p, ofp, c.typ(n))] && r.dp == t.dp[n := DpPort(ofp, c.typ(n))]
  {
  }

  /** Without new interfaces nothing has changed. */
  lemma GrownNothing(t0: Tables, t: Tables, c: Config)
    requires Grown(t0, t, c) && t.ifaces.Keys == t0.ifaces.Keys == t0.dp.Keys
    ensures t == t0
  {
    forall p | p in t.ports ensures p in t0.ports && t.ports[p] == t0.ports[p] {
      var had := ListOf(t0.ports, p);
      assert |had| == |t.ports[p]| || NewAt(t0, t, p, t.ports[p][|had|]);
    }
    assert t.ports == t0.ports && t.ifaces == t0.ifaces && t.dp == t0.dp;
  }
}
