/** equal_pathnames (src/bridge.c): comparison of paths up to repeated slashes. */
module Paths {
  /** The path without the slashes it starts with. */
  function SkipSlashes(s: string): (r: string)
    ensures |r| <= |s| && (r == [] || r[0] != '/')
    ensures s != [] && s[0] == '/' ==> |r| < |s|
    ensures r == s[|s| - |r|..] && forall i :: 0 <= i < |s| - |r| ==> s[i] == '/'
  {
    if s != [] && s[0] == '/' then SkipSlashes(s[1..]) else s
  }

  /** The path with every run of slashes replaced by one. */
  function Collapse(s: string): string
    decreases |s|
  {
    if s == [] then []
    else if s[0] == '/' then ['/'] + Collapse(SkipSlashes(s))
    else [s[0]] + Collapse(s[1..])
  }

  /** A path without repeated slashes is left as it is. */
  lemma {:induction false} CollapsePlain(s: string)
    requires forall i :: 0 <= i < |s| - 1 ==> !(s[i] == '/' && s[i + 1] == '/')
    ensures Collapse(s) == s
    decreases |s|
  {
    if s != [] {
      assert s == [s[0]] + s[1..];
      assert s[0] == '/' ==> SkipSlashes(s) == s[1..];
      CollapsePlain(s[1..]);
    }
  }

  /** One of two slashes in a row may go. */
  lemma {:induction false} CollapseMerges(a: string, b: string)
    requires b != [] && b[0] == '/'
    ensures Collapse(a + (['/'] + b)) == Collapse(a + b)
    decreases |a|
  {
    hide Collapse;
    var two := ['/'] + b;
    if a == [] {
      assert a + b == b && a + two == two && two[1..] == b;
      OneStep(two);
      OneStep(b);
    } else if a[0] != '/' {
      CollapseMerges(a[1..], b);
      AfterChar(a, two);
      AfterChar(a, b);
    } else {
      var rest := SkipSlashes(a);
      AfterSlash(a, two);
      AfterSlash(a, b);
      if rest == [] {
        assert two[1..] == b;
        OneStep(two);
      } else {
        CollapseMerges(rest, b);
      }
    }
  }

  lemma AfterChar(a: string, x: string)
    requires a != [] && a[0] != '/'
    ensures Collapse(a + x) == [a[0]] + Collapse(a[1..] + x)
  {
    assert (a + x)[1..] == a[1..] + x;
  }

  lemma AfterSlash(a: string, x: string)
    requires a != [] && a[0] == '/'
    ensures Collapse(a + x) == ['/'] + Collapse(if SkipSlashes(a) == [] then SkipSlashes(x) else SkipSlashes(a) + x)
  {
    SkipAppend(a, x);
  }

  lemma OneStep(s: string)
    requires s != []
    ensures Collapse(s) == if s[0] == '/' then ['/'] + Collapse(SkipSlashes(s)) else [s[0]] + Collapse(s[1..])
    ensures s[0] == '/' ==> SkipSlashes(s) == SkipSlashes(s[1..])
  {
  }

  lemma {:induction false} SkipAppend(a: string, x: string)
    ensures SkipSlashes(a + x) == if SkipSlashes(a) == [] then SkipSlashes(x) else SkipSlashes(a) + x
    decreases |a|
  {
    hide SkipSlashes;
    if a == [] {
      assert a + x == x;
      SkipOne(a);
    } else {
      assert (a + x)[0] == a[0] && (a + x)[1..] == a[1..] + x;
      SkipOne(a);
      SkipOne(a + x);
      if a[0] == '/' {
        SkipAppend(a[1..], x);
      }
    }
  }

  /** What comparing `a` to the first `stop` characters of `b`, or to all of it, should answer. */
  ghost predicate Same(a: string, b: string, stop: int) {
    if stop <= 0 then true
    else if stop <= |b| then Collapse(b[..stop]) <= Collapse(a)
    else Collapse(a) == Collapse(b)
  }

  /** The character at a position of a C string. */
  function At(s: string, i: nat): char
    requires i <= |s|
  {
    if i < |s| then s[i] else '\0'
  }

  /** strspn(s, "/"). */
  function Run(s: string): (n: nat)
    ensures n <= |s|
  {
    |s| - |SkipSlashes(s)|
  }

  lemma DropDrop(s: string, i: nat, n: nat)
    requires i + n <= |s|
    ensures s[i..][n..] == s[i + n..]
  {
  }

  lemma PrefixCons(c: char, x: string, y: string)
    ensures [c] + x <= [c] + y <==> x <= y
    ensures [c] + x == [c] + y <==> x == y
  {
    assert ([c] + x)[1..] == x && ([c] + y)[1..] == y;
    if [c] + x <= [c] + y {
      assert x == y[..|x|];
    }
  }

  lemma SkipOne(s: string)
    ensures s != [] && s[0] == '/' ==> SkipSlashes(s) == SkipSlashes(s[1..])
    ensures s == [] || s[0] != '/' ==> SkipSlashes(s) == s
  {
  }

  lemma {:induction false} SkipPrefix(s: string, k: nat)
    requires k <= |s| && k >= Run(s)
    ensures SkipSlashes(s[..k]) == SkipSlashes(s)[..k - Run(s)]
    decreases |s|
  {
    hide SkipSlashes;
    SkipOne(s);
    SkipOne(s[..k]);
    if s != [] && s[0] == '/' {
      assert s[..k][1..] == s[1..][..k - 1];
      SkipPrefix(s[1..], k - 1);
    }
  }

  lemma {:induction false} AllSlashes(s: string)
    requires s != [] && forall i :: 0 <= i < |s| ==> s[i] == '/'
    ensures SkipSlashes(s) == [] && Collapse(s) == ['/']
  {
    if |s| > 1 {
      AllSlashes(s[1..]);
    }
  }

  /** The same character at the front of both. */
  lemma SameStep(a: string, b: string, stop: int)
    requires a != [] && b != [] && a[0] == b[0] && a[0] != '/' && stop > 0
    ensures Same(a, b, stop) <==> Same(a[1..], b[1..], stop - 1)
  {
    if stop <= |b| {
      assert b[..stop][1..] == b[1..][..stop - 1];
      PrefixCons(a[0], Collapse(b[1..][..stop - 1]), Collapse(a[1..]));
      assert stop == 1 ==> b[1..][..stop - 1] == [];
    } else {
      PrefixCons(a[0], Collapse(a[1..]), Collapse(b[1..]));
    }
  }

  /** A run of slashes at the front of both. */
  lemma SlashStep(a: string, b: string, stop: int)
    requires a != [] && b != [] && a[0] == '/' && b[0] == '/' && stop > 0
    ensures Same(a, b, stop) <==> Same(a[Run(a)..], b[Run(b)..], stop - Run(b))
    ensures Run(a) > 0 && Run(b) > 0
  {
    hide Collapse, SkipSlashes;
    if stop <= Run(b) {
      AllSlashes(b[..stop]);
      CollapseHead(a);
    } else if stop <= |b| {
      SlashPrefix(a, b, stop);
    } else {
      CollapseSlash(a);
      CollapseSlash(b);
      PrefixCons('/', Collapse(SkipSlashes(a)), Collapse(SkipSlashes(b)));
    }
  }

  lemma SlashPrefix(a: string, b: string, stop: int)
    requires a != [] && b != [] && a[0] == '/' && b[0] == '/' && Run(b) < stop <= |b|
    ensures
      Collapse(b[..stop]) <= Collapse(a) <==>
        Collapse(SkipSlashes(b)[..stop - Run(b)]) <= Collapse(SkipSlashes(a))
  {
    hide Collapse, SkipSlashes;
    CollapseSlash(a);
    CollapseSlash(b[..stop]);
    SkipPrefix(b, stop);
    PrefixCons('/', Collapse(SkipSlashes(b[..stop])), Collapse(SkipSlashes(a)));
  }

  lemma CollapseSlash(s: string)
    requires s != [] && s[0] == '/'
    ensures Collapse(s) == ['/'] + Collapse(SkipSlashes(s))
  {
  }

  lemma CollapseHead(s: string)
    requires s != []
    ensures Collapse(s) != [] && Collapse(s)[0] == s[0]
  {
  }

  /** Different characters, or one path ends. */
  lemma Differ(a: string, b: string, stop: int)
    requires stop > 0 && '\0' !in a && '\0' !in b && At(a, 0) != At(b, 0)
    ensures !Same(a, b, stop)
  {
    if a != [] {
      CollapseHead(a);
    }
    if b != [] {
      CollapseHead(b);
      CollapseHead(if stop <= |b| then b[..stop] else b);
    }
  }

  /**
  With a stop beyond the end of `b` the paths are the same exactly when they
  collapse to the same string; with a stop within `b`, exactly when what `b` has
  up to there collapses to a prefix of what `a` collapses to.
  */
  method EqualPathnames(a: string, b: string, stop: nat) returns (same: bool)
    requires '\0' !in a && '\0' !in b
    ensures same <==> if stop <= |b| then Collapse(b[..stop]) <= Collapse(a) else Collapse(a) == Collapse(b)
  {
    hide Collapse, Same, SkipSlashes;
    SameMeans(a, b, stop);
    var i, j := 0, 0;
    assert a[i..] == a && b[j..] == b;
    while true
      invariant 0 <= i <= |a| && 0 <= j <= |b|
      invariant Same(a, b, stop) <==> Same(a[i..], b[j..], stop - j)
      decreases |b| - j
    {
      ghost var x, y := a[i..], b[j..];
      if j >= stop {
        NothingLeft(x, y, stop - j);
        return true;
      } else if At(a, i) != At(b, j) {
        Differ(x, y, stop - j);
        return false;
      } else if At(a, i) == '/' {
        SlashStep(x, y, stop - j);
        DropDrop(a, i, Run(x));
        DropDrop(b, j, Run(y));
        i, j := i + Run(a[i..]), j + Run(b[j..]);
      } else if At(a, i) == '\0' {
        BothEnd(a, b, i, j, stop - j);
        return true;
      } else {
        BothGoOn(a, b, i, j);
        SameStep(x, y, stop - j);
        DropDrop(a, i, 1);
        DropDrop(b, j, 1);
        i, j := i + 1, j + 1;
      }
    }
  }

  lemma SameMeans(a: string, b: string, stop: nat)
    ensures Same(a, b, stop) <==> if stop <= |b| then Collapse(b[..stop]) <= Collapse(a) else Collapse(a) == Collapse(b)
  {
    assert Collapse(b[..0]) == [];
  }

  lemma NothingLeft(a: string, b: string, stop: int)
    requires stop <= 0
    ensures Same(a, b, stop)
  {
  }

  lemma BothEnd(a: string, b: string, i: nat, j: nat, stop: int)
    requires '\0' !in a && '\0' !in b && i <= |a| && j <= |b| && At(a, i) == '\0' == At(b, j)
    ensures Same(a[i..], b[j..], stop)
  {
    assert a[i..] == [] == b[j..];
  }

  lemma BothGoOn(a: string, b: string, i: nat, j: nat)
    requires i <= |a| && j <= |b| && At(a, i) == At(b, j) != '\0'
    ensures i < |a| && j < |b|
  {
  }
}
