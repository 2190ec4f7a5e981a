/**
What a reconfiguration leaves of one bridge or VRF: its datapath, its tables and
the database agree, whatever the datapath looked like before; and doing it again
changes nothing, exactly when no interface of type "null" or that cannot be
configured got in.
*/
module BridgeTheorems {
  import opened BridgeTables

  /** The tables and the datapath after the phases that only take away. */
  function AfterDeletes(t: Tables, c: Config, misconfigured: set<Name>): Tables {
    DeleteOrReconfigure(DelPorts(t, c), c, misconfigured)
  }

  /** One pass from `t` may end in `t'`. */
  ghost predicate Pass(t: Tables, c: Config, misconfigured: set<Name>, refused: set<(Name, Name)>, t': Tables) {
    var kept := AfterDeletes(t, c, misconfigured);
    Consistent(t') && Grown(kept, t', c) && t'.ifaces.Keys == kept.ifaces.Keys + Accepted(c, refused)
  }

  /** Every interface is under a wanted port that lists it, has the wanted type, and is in the datapath with it. */
  ghost predicate Placed(t: Tables, c: Config) {
    && t.dp.Keys == t.ifaces.Keys
    && forall n :: n in t.ifaces ==>
         var i := t.ifaces[n];
         i.port in c.ports && n in c.ports[i.port] && i.typ == c.typ(n) && (n in c.subints || t.dp[n].typ == i.typ)
  }

  /** After the deletions the datapath holds exactly the interfaces of the tables, and only wanted ones. */
  lemma DeletesAgree(t: Tables, c: Config, misconfigured: set<Name>)
    ensures
      var r := AfterDeletes(t, c, misconfigured);
      r.dp.Keys == r.ifaces.Keys && Placed(r, c) && r.ifaces.Keys <= WantedNames(c) && r.ifaces.Keys !! c.nulls
  {
    var r := AfterDeletes(t, c, misconfigured);
    forall n | n in r.ifaces ensures n in WantedNames(c) {
      assert t.ifaces[n].port in c.ports && n in c.ports[t.ifaces[n].port];
    }
  }

  /**
  The deletions are to leave this interface: its port is wanted and lists it, it is
  not of type "null", it can be configured, and the datapath has it with the wanted
  type, unless that is not compared.
  */
  predicate Stays(t: Tables, c: Config, misconfigured: set<Name>, n: Name) {
    && n in t.ifaces && t.ifaces[n].port in c.ports && n in c.ports[t.ifaces[n].port]
    && n !in c.nulls && n !in misconfigured
    && n in t.dp && (n in c.subints || t.dp[n].typ == c.typ(n))
  }

  /** They leave exactly those, with their ports and numbers, in the tables and in the datapath. */
  lemma StaysExact(t: Tables, c: Config, misconfigured: set<Name>, n: Name)
    ensures
      var r := AfterDeletes(t, c, misconfigured);
      && (n in r.ifaces <==> Stays(t, c, misconfigured, n)) && (n in r.dp <==> Stays(t, c, misconfigured, n))
      && (Stays(t, c, misconfigured, n) ==> r.ifaces[n] == t.ifaces[n].(typ := c.typ(n)) && r.dp[n] == t.dp[n])
  {
    if n in t.ifaces && t.ifaces[n].port in c.ports && n in c.ports[t.ifaces[n].port] {
      assert n in WantedNames(c);
    }
  }

  /** And the lists of the ports keep their order; a port goes exactly when nothing of it stays. */
  lemma StayInOrder(t: Tables, c: Config, misconfigured: set<Name>, p: Name)
    requires Consistent(t)
    ensures
      var r := AfterDeletes(t, c, misconfigured);
      && (p in r.ports <==> p in t.ports && exists n :: n in t.ports[p] && Stays(t, c, misconfigured, n))
      && forall n, m :: Before(ListOf(r.ports, p), n, m) <==>
           Before(ListOf(t.ports, p), n, m) && Stays(t, c, misconfigured, n) && Stays(t, c, misconfigured, m)
  {
    hide Stays;
    var d := DelPorts(t, c);
    var r := AfterDeletes(t, c, misconfigured);
    var a, b := Listed(t, c), Usable(d, c, misconfigured);
    KeepPortsTwice(t.ports, a, b);
    assert r.ports == KeepPorts(t.ports, a * b);
    if p in t.ports {
      forall n | n in t.ports[p] ensures n in a * b <==> Stays(t, c, misconfigured, n) {
        StaysExact(t, c, misconfigured, n);
        assert n in r.ifaces <==> n in a * b;
      }
      FilterMembers(t.ports[p], a * b);
      OrderKept(t, c, misconfigured, t.ports[p], a * b);
      if p in r.ports {
        assert r.ports[p][0] in r.ports[p];
      }
    }
  }

  lemma OrderKept(t: Tables, c: Config, misconfigured: set<Name>, s: seq<Name>, keep: set<Name>)
    requires forall n :: n in s ==> (n in keep <==> Stays(t, c, misconfigured, n))
    ensures forall n, m :: Before(Filter(s, keep), n, m) <==>
      Before(s, n, m) && Stays(t, c, misconfigured, n) && Stays(t, c, misconfigured, m)
  {
    hide Stays, Filter;
    forall n, m ensures Before(Filter(s, keep), n, m) <==>
      Before(s, n, m) && Stays(t, c, misconfigured, n) && Stays(t, c, misconfigured, m)
    {
      FilterOrder(s, keep, n, m);
    }
  }

  /**
  After a pass the datapath and the tables hold the same interfaces: the wanted
  ones, less those that were missing and refused under every port listing them.
  Ports and interfaces agree, and every port is wanted and has only interfaces it
  is to have, in the order they had or came.
  */
  lemma PassSettles(t: Tables, c: Config, misconfigured: set<Name>, refused: set<(Name, Name)>, t': Tables)
    requires Pass(t, c, misconfigured, refused, t')
    ensures Placed(t', c)
    ensures forall n :: n in t'.ifaces <==>
      n in WantedNames(c) && (n in AfterDeletes(t, c, misconfigured).ifaces || n in Accepted(c, refused))
    ensures refused == {} ==> t'.ifaces.Keys == WantedNames(c)
    ensures Consistent(t') && ListsGrown(AfterDeletes(t, c, misconfigured), t')
    ensures forall p :: p in t'.ports ==> p in c.ports && forall n :: n in t'.ports[p] ==> n in c.ports[p]
  {
    WantedLists(t, c, misconfigured, refused, t');
    DeletesAgree(t, c, misconfigured);
    var kept := AfterDeletes(t, c, misconfigured);
    forall n | n in Accepted(c, refused) ensures n in WantedNames(c) {
      var p :| p in c.ports && n in c.ports[p] && (p, n) !in refused;
    }
    if refused == {} {
      forall n | n in WantedNames(c) ensures n in Accepted(c, refused) {
        var p :| p in c.ports && n in c.ports[p];
        assert (p, n) !in refused;
      }
    }
  }

  lemma WantedLists(t: Tables, c: Config, misconfigured: set<Name>, refused: set<(Name, Name)>, t': Tables)
    requires Pass(t, c, misconfigured, refused, t')
    ensures forall p :: p in t'.ports ==> p in c.ports && forall n :: n in t'.ports[p] ==> n in c.ports[p]
  {
    hide AfterDeletes, ListsGrown;
    DeletesAgree(t, c, misconfigured);
    forall p | p in t'.ports ensures p in c.ports && forall n :: n in t'.ports[p] ==> n in c.ports[p] {
      assert forall n :: n in t'.ports[p] ==> n in t'.ifaces && t'.ifaces[n].port == p;
      assert t'.ports[p][0] in t'.ports[p];
    }
  }

  /**
  Where every interface is in place, the next deletions take nothing away if and
  only if none is of type "null" and none fails to be configured.
  */
  lemma DeletesQuiet(t: Tables, c: Config, misconfigured: set<Name>)
    requires Consistent(t) && Placed(t, c)
    ensures AfterDeletes(t, c, misconfigured) == t <==> t.ifaces.Keys !! c.nulls + misconfigured
  {
    if t.ifaces.Keys !! c.nulls + misconfigured {
      NothingToDelete(t, c, misconfigured);
    } else {
      DeletesAgree(t, c, misconfigured);
    }
  }

  /**
  Then a whole pass can only end where it started, if nothing is missing that the
  provider would let in; refusals may stand.
  */
  lemma SecondPassIsQuiet(t: Tables, c: Config, misconfigured: set<Name>, refused: set<(Name, Name)>)
    requires Consistent(t) && Placed(t, c) && Accepted(c, refused) <= t.ifaces.Keys
    ensures AfterDeletes(t, c, misconfigured) == t <==> t.ifaces.Keys !! c.nulls + misconfigured
    ensures t.ifaces.Keys !! c.nulls + misconfigured ==>
      forall t' :: Pass(t, c, misconfigured, refused, t') <==> t' == t
  {
    hide AfterDeletes, Grown, Consistent;
    DeletesQuiet(t, c, misconfigured);
    if t.ifaces.Keys !! c.nulls + misconfigured {
      assert t.ifaces.Keys + Accepted(c, refused) == t.ifaces.Keys;
      GrownNone(t, c);
      forall t' | Pass(t, c, misconfigured, refused, t') ensures t' == t {
        GrownNothing(t, t', c);
      }
    }
  }

  /** After any pass, the same pass again is quiet if and only if no such interface got in. */
  lemma PassThenQuiet(t: Tables, c: Config, misconfigured: set<Name>, refused: set<(Name, Name)>, t': Tables)
    requires Pass(t, c, misconfigured, refused, t')
    ensures AfterDeletes(t', c, misconfigured) == t' <==> t'.ifaces.Keys !! c.nulls + misconfigured
    ensures t'.ifaces.Keys !! c.nulls + misconfigured ==>
      forall t'' :: Pass(t', c, misconfigured, refused, t'') <==> t'' == t'
  {
    hide Placed, AfterDeletes;
    PassSettles(t, c, misconfigured, refused, t');
    SecondPassIsQuiet(t', c, misconfigured, refused);
  }

  /** Every "null" interface in place is taken away by the next pass, and put back if the provider lets it in. */
  lemma NullInterfaceComesAndGoes(
      t: Tables, c: Config, misconfigured: set<Name>, refused: set<(Name, Name)>, n: Name, t': Tables)
    requires Placed(t, c) && n in t.ifaces && n in c.nulls && Pass(t, c, misconfigured, refused, t')
    ensures n in t.dp && n !in AfterDeletes(t, c, misconfigured).dp && (n in t'.dp <==> n in Accepted(c, refused))
  {
    DeletesAgree(t, c, misconfigured);
    PassSettles(t, c, misconfigured, refused, t');
  }

  /** For instance one port with one "null" interface in place makes the next pass do work. */
  lemma NullInterfaceExample(p: Name, n: Name)
    ensures
      var c := Config(map[p := [n]], _ => "null", {n}, {});
      var t := Tables(map[p := [n]], map[n := Iface(p, 1, "null")], map[n := DpPort(1, "null")]);
      Consistent(t) && Placed(t, c) && t.ifaces.Keys == WantedNames(c) && AfterDeletes(t, c, {}) != t
  {
    hide AfterDeletes, Pass;
    var c := Config(map[p := [n]], _ => "null", {n}, {});
    var t := Tables(map[p := [n]], map[n := Iface(p, 1, "null")], map[n := DpPort(1, "null")]);
    assert n in c.ports[p] && n in WantedNames(c) && n in t.ifaces.Keys;
    DeletesQuiet(t, c, {});
    assert n in c.nulls + {};
  }

  lemma NothingToDelete(t: Tables, c: Config, misconfigured: set<Name>)
    requires Consistent(t) && Placed(t, c) && t.ifaces.Keys !! c.nulls + misconfigured
    ensures AfterDeletes(t, c, misconfigured) == t
  {
    hide Consistent;
    AllStay(t, c, misconfigured);
    KeepAll(t, t.ifaces.Keys);
    assert DelPorts(t, c) == t;
  }

  lemma AllStay(t: Tables, c: Config, misconfigured: set<Name>)
    requires Placed(t, c) && t.ifaces.Keys !! c.nulls + misconfigured
    ensures Listed(t, c) == t.ifaces.Keys && Usable(t, c, misconfigured) == t.ifaces.Keys
    ensures RetypeSome(t.ifaces, c, WantedNames(c)) == t.ifaces && OnlyPorts(t.dp, t.ifaces.Keys) == t.dp
  {
  }
}
