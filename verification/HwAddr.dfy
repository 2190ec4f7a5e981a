/**
find_local_hw_addr (src/bridge.c): the hardware address of a bridge is the least
eligible address among those that represent its ports.
*/
module HwAddr {
  import opened Common
  import opened BridgeTables

  const OFPP_LOCAL: nat := 0xfffe

  /** A 48-bit address as a number, first octet first, so that numbers compare as addresses do. */
  type Address = a: nat | a < 0x1_0000_0000_0000

  predicate Multicast(a: Address) { a / 0x100_0000_0000 % 2 == 1 }

  predicate LocallyAdministered(a: Address) { a / 0x200_0000_0000 % 2 == 1 }

  /** The address with these octets, the first one first. */
  function FromOctets(first: nat, rest: nat): Address
    requires first < 0x100 && rest < 0x100_0000_0000
  {
    first * 0x100_0000_0000 + rest
  }

  /** Both flags are in the first octet, and an address with a smaller first octet is the smaller one. */
  lemma OctetsExact(first: nat, rest: nat, first': nat, rest': nat)
    requires first < 0x100 && rest < 0x100_0000_0000 && first' < 0x100 && rest' < 0x100_0000_0000
    ensures Multicast(FromOctets(first, rest)) <==> first % 2 == 1
    ensures LocallyAdministered(FromOctets(first, rest)) <==> first / 2 % 2 == 1
    ensures FromOctets(first, rest) < FromOctets(first', rest') <==> first < first' || (first == first' && rest < rest')
  {
    assert FromOctets(first, rest) / 0x100_0000_0000 == first;
    assert FromOctets(first, rest) / 0x200_0000_0000 == first / 2;
  }

  /** strcmp(a, b) < 0. */
  predicate Less(a: string, b: string) {
    if b == [] then false
    else if a == [] then true
    else a[0] < b[0] || (a[0] == b[0] && Less(a[1..], b[1..]))
  }

  /** At the first place where they differ `a` has ended or has the smaller character. */
  ghost predicate LessAt(a: string, b: string, i: nat) {
    && i <= |a| && i < |b| && a[..i] == b[..i]
    && (i == |a| || a[i] < b[i])
  }

  lemma {:induction false} LessExact(a: string, b: string)
    ensures Less(a, b) <==> exists i: nat :: LessAt(a, b, i)
  {
    if b != [] && a == [] {
      assert LessAt(a, b, 0);
    } else if b != [] {
      LessExact(a[1..], b[1..]);
      if a[0] < b[0] {
        assert LessAt(a, b, 0);
      }
      if a[0] == b[0] && Less(a[1..], b[1..]) {
        var i: nat :| LessAt(a[1..], b[1..], i);
        assert a[..i + 1] == [a[0]] + a[1..][..i] && b[..i + 1] == [b[0]] + b[1..][..i];
        assert LessAt(a, b, i + 1);
      }
      if j: nat :| LessAt(a, b, j) && j > 0 {
        assert a[0] == a[..j][0] == b[..j][0] == b[0];
        assert a[1..][..j - 1] == a[..j][1..] && b[1..][..j - 1] == b[..j][1..];
        assert LessAt(a[1..], b[1..], j - 1);
      }
    }
  }

  lemma {:induction false} LessTransitive(a: string, b: string, c: string)
    requires Less(a, b) && Less(b, c)
    ensures Less(a, c)
  {
    if a != [] && a[0] == b[0] && b[0] == c[0] {
      LessTransitive(a[1..], b[1..], c[1..]);
    }
  }

  lemma {:induction false} LessTotal(a: string, b: string)
    requires !Less(a, b) && !Less(b, a)
    ensures a == b
  {
    if a != [] {
      LessTotal(a[1..], b[1..]);
      assert a == [a[0]] + a[1..] && b == [b[0]] + b[1..];
    }
  }

  /** `n` comes first in alphabetical order. */
  ghost predicate IsFirst(n: Name, names: seq<Name>) {
    n in names && forall m :: m in names ==> !Less(m.text, n.text)
  }

  lemma OneFirst(n: Name, m: Name, names: seq<Name>)
    requires IsFirst(n, names) && IsFirst(m, names)
    ensures n == m
  {
    LessTotal(n.text, m.text);
  }

  method First(names: seq<Name>) returns (first: Name)
    requires names != []
    ensures IsFirst(first, names)
  {
    var iface: Option<Name> := None;
    for i := 0 to |names|
      invariant i > 0 ==> iface.Some?
      invariant iface.Some? ==> iface.value in names
      invariant iface.Some? ==> forall j :: 0 <= j < i ==> !Less(names[j].text, iface.value.text)
    {
      if iface.None? || Less(names[i].text, iface.value.text) {
        forall j | 0 <= j <= i ensures !Less(names[j].text, names[i].text) {
          if Less(names[j].text, names[i].text) && iface.Some? && j < i {
            LessTransitive(names[j].text, names[i].text, iface.value.text);
          }
          NotBelowItself(names[i].text);
        }
        iface := Some(names[i]);
      }
    }
    first := iface.value;
  }

  lemma {:induction false} NotBelowItself(a: string)
    ensures !Less(a, a)
  {
    if a != [] {
      NotBelowItself(a[1..]);
    }
  }

  /** What the code asks about ports and devices; `fakeTag` if the address is for a fake bridge with a VLAN tag. */
  datatype Facts = Facts(
    configured: Name -> Option<Address>,    // the address configured for a port, if it parses
    device: Name -> Option<Address>,        // netdev_get_etheraddr of an interface
    tag: Name -> Option<int>,               // the VLAN tag of a port
    reserved: Address -> bool,              // eth_addr_is_reserved, a list of the library
    fakeTag: Option<int>)

  predicate Eligible(f: Facts, a: Address) {
    !Multicast(a) && !LocallyAdministered(a) && !f.reserved(a) && a != 0
  }

  /** The last interface of a list whose device has the address. */
  ghost predicate IsOwner(owner: Option<Name>, names: seq<Name>, f: Facts, a: Address) {
    if owner.None? then forall n :: n in names ==> f.device(n) != Some(a)
    else exists k :: 0 <= k < |names| && names[k] == owner.value && LastAt(k, names, f, a)
  }

  ghost predicate LastAt(k: nat, names: seq<Name>, f: Facts, a: Address)
    requires k < |names|
  {
    f.device(names[k]) == Some(a) && forall j :: k < j < |names| ==> f.device(names[j]) != Some(a)
  }

  method Owner(names: seq<Name>, f: Facts, a: Address) returns (owner: Option<Name>)
    ensures IsOwner(owner, names, f, a)
  {
    owner := None;
    ghost var at := 0;
    for i := 0 to |names|
      invariant owner.None? ==> forall j :: 0 <= j < i ==> f.device(names[j]) != Some(a)
      invariant owner.Some? ==> at < i && names[at] == owner.value && f.device(names[at]) == Some(a)
      invariant owner.Some? ==> forall j :: at < j < i ==> f.device(names[j]) != Some(a)
      invariant at >= 0
    {
      if f.device(names[i]) == Some(a) {
        owner, at := Some(names[i]), i;
      }
    }
    assert owner.Some? ==> LastAt(at, names, f, a);
  }

  /**
  `a` represents port `p`, and is that of `owner`: the address configured for it, or
  else that of its first interface, unless that is the local port, or has none, or
  the port is not in the VLAN of the fake bridge.
  */
  ghost predicate Represents(t: Tables, f: Facts, p: Name, a: Address, owner: Option<Name>)
    requires Consistent(t) && p in t.ports
  {
    if f.configured(p).Some? then a == f.configured(p).value && IsOwner(owner, t.ports[p], f, a)
    else
      && owner.Some? && IsFirst(owner.value, t.ports[p]) && t.ifaces[owner.value].ofp != OFPP_LOCAL
      && (f.fakeTag.Some? ==> f.tag(p) == f.fakeTag) && f.device(owner.value) == Some(a)
  }

  ghost predicate Candidate(t: Tables, f: Facts, a: Address, owner: Option<Name>)
    requires Consistent(t)
  {
    Eligible(f, a) && exists p :: p in t.ports && Represents(t, f, p, a, owner)
  }

  /** The least candidate with one of its owners, or the default if there is none. */
  ghost predicate Chosen(t: Tables, f: Facts, default: Address, ea: Address, owner: Option<Name>)
    requires Consistent(t)
  {
    if exists a, o :: Candidate(t, f, a, o)
    then Candidate(t, f, ea, owner) && forall a, o :: Candidate(t, f, a, o) ==> ea <= a
    else ea == default && owner == None
  }

  /** Whatever order the ports are looked at in, the address is the same. */
  lemma OneChoice(
      t: Tables, f: Facts, default: Address, ea: Address, o: Option<Name>, ea': Address, o': Option<Name>)
    requires Consistent(t)
    requires Chosen(t, f, default, ea, o) && Chosen(t, f, default, ea', o')
    ensures ea == ea'
  {
  }

  /** The address that represents one port, if any; a port always has an interface to look at. */
  method Representative(t: Tables, f: Facts, p: Name) returns (a: Option<Address>, owner: Option<Name>)
    requires Consistent(t) && p in t.ports
    ensures a.Some? ==> Represents(t, f, p, a.value, owner)
    ensures forall x: Address, o :: Represents(t, f, p, x, o) ==> a == Some(x)
  {
    if f.configured(p).Some? {
      owner := Owner(t.ports[p], f, f.configured(p).value);
      return f.configured(p), owner;
    }
    var n := First(t.ports[p]);
    forall m | IsFirst(m, t.ports[p]) ensures m == n {
      OneFirst(m, n, t.ports[p]);
    }
    if t.ifaces[n].ofp == OFPP_LOCAL {
      return None, None;
    }
    if f.fakeTag.Some? {
      if f.tag(p).None? {
        return None, None;
      }
      if f.tag(p).value != f.fakeTag.value {
        return None, None;
      }
    }
    return f.device(n), Some(n);
  }

  method FindLocalHwAddr(t: Tables, f: Facts, default: Address) returns (ea: Address, owner: Option<Name>)
    requires Consistent(t)
    ensures Chosen(t, f, default, ea, owner)
  {
    hide Consistent, Represents, Eligible;
    ea, owner := 0, None;
    var found, todo := false, t.ports.Keys;
    while todo != {}
      invariant todo <= t.ports.Keys
      invariant found ==> Candidate(t, f, ea, owner)
      invariant forall p, a, o :: p in t.ports && p !in todo && Represents(t, f, p, a, o) && Eligible(f, a) ==>
        found && ea <= a
    {
      var p :| p in todo;
      todo := todo - {p};
      var a, o := Representative(t, f, p);
      if a.Some? && Eligible(f, a.value) && (!found || a.value < ea) {
        ea, owner, found := a.value, o, true;
      }
    }
    if !found {
      ea, owner := default, None;
    }
  }
}
