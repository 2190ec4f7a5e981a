/**
plugins_initializaton (plugins/plugins.c): plugins are initialized in the order
of the YAML list, once for every time they are listed, with phases counted from
zero; plugins that are not listed come afterwards, once each.
*/
module PluginInit {
  /** A call of a plugin's init function. */
  datatype Call = Call(plugin: string, phase: nat)

  /** The loaded plugins, and whether their init function is available. */
  type Loaded = map<string, bool>

  predicate CanInit(loaded: Loaded, name: string) {
    name in loaded && loaded[name]
  }

  /** The phases `name` was initialized with, in order. */
  function Phases(calls: seq<Call>, name: string): seq<nat> {
    if calls == [] then []
    else
      var last := |calls| - 1;
      Phases(calls[..last], name) + if calls[last].plugin == name then [calls[last].phase] else []
  }

  function Count(names: seq<string>, name: string): nat {
    if names == [] then 0
    else
      var last := |names| - 1;
      Count(names[..last], name) + if names[last] == name then 1 else 0
  }

  /** The listed plugins that can be initialized, in list order. */
  function Listed(loaded: Loaded, yaml: seq<string>): seq<string> {
    if yaml == [] then []
    else
      var last := |yaml| - 1;
      Listed(loaded, yaml[..last]) + if CanInit(loaded, yaml[last]) then [yaml[last]] else []
  }

  function UpTo(n: nat): seq<nat> {
    seq(n, i => i)
  }

  function Plugins(calls: seq<Call>): seq<string> {
    seq(|calls|, i requires 0 <= i < |calls| => calls[i].plugin)
  }

  lemma {:induction false} CountExact(names: seq<string>, name: string)
    ensures Count(names, name) == multiset(names)[name]
  {
    if names != [] {
      var init, last := names[..|names| - 1], names[|names| - 1];
      CountExact(init, name);
      assert names == init + [last];
    }
  }

  /** The list with what cannot be initialized left out. */
  lemma {:induction false} ListedExact(loaded: Loaded, a: seq<string>, b: seq<string>, name: string)
    ensures Listed(loaded, a + b) == Listed(loaded, a) + Listed(loaded, b)
    ensures Listed(loaded, [name]) == if CanInit(loaded, name) then [name] else []
  {
    hide Listed;
    NothingListed(loaded);
    LastListed(loaded, [], name);
    assert [] + [name] == [name];
    if b == [] {
      assert a + b == a;
    } else {
      var init, last := b[..|b| - 1], b[|b| - 1];
      ListedExact(loaded, a, init, name);
      LastListed(loaded, init, last);
      LastListed(loaded, a + init, last);
      assert b == init + [last] && a + b == a + init + [last];
    }
  }

  lemma LastListed(loaded: Loaded, yaml: seq<string>, last: string)
    ensures Listed(loaded, yaml + [last]) == Listed(loaded, yaml) + if CanInit(loaded, last) then [last] else []
  {
    assert (yaml + [last])[..|yaml|] == yaml;
  }

  /** Every phase is how often the plugin was initialized before. */
  ghost predicate Counted(calls: seq<Call>) {
    forall i :: 0 <= i < |calls| ==> calls[i].phase == multiset(Plugins(calls[..i]))[calls[i].plugin]
  }

  lemma {:induction false} PhasesExact(calls: seq<Call>)
    requires forall p :: Phases(calls, p) == UpTo(|Phases(calls, p)|)
    ensures Counted(calls) && forall p :: |Phases(calls, p)| == multiset(Plugins(calls))[p]
  {
    if calls != [] {
      var init, last := calls[..|calls| - 1], calls[|calls| - 1];
      assert calls == init + [last];
      PluginsAppend(init, last);
      forall p
        ensures Phases(init, p) == UpTo(|Phases(init, p)|)
        ensures p == last.plugin ==> last.phase == |Phases(init, p)|
      {
        var n := |Phases(init, p)|;
        if p == last.plugin {
          assert Phases(calls, p)[n] == last.phase && Phases(calls, p)[..n] == Phases(init, p);
          assert UpTo(n + 1)[..n] == UpTo(n);
        }
      }
      PhasesExact(init);
      forall i | 0 <= i < |calls| ensures calls[i].phase == multiset(Plugins(calls[..i]))[calls[i].plugin] {
        assert i < |init| ==> init[..i] == calls[..i] && init[i] == calls[i];
      }
    }
  }

  lemma PhasesAppend(calls: seq<Call>, call: Call, name: string)
    ensures Phases(calls + [call], name) == Phases(calls, name) + if call.plugin == name then [call.phase] else []
  {
    assert (calls + [call])[..|calls|] == calls;
  }

  lemma NextPhase(n: nat)
    ensures UpTo(n) + [n] == UpTo(n + 1)
  {
  }

  /** Every plugin has been through the phases its entry has counted. */
  ghost predicate InStep(loaded: Loaded, calls: seq<Call>, phase: map<string, nat>) {
    && phase.Keys == loaded.Keys
    && (forall p :: p in loaded ==> Phases(calls, p) == UpTo(phase[p]))
    && (forall p :: p !in loaded ==> Phases(calls, p) == [])
    && (forall p :: p in loaded && !loaded[p] ==> phase[p] == 0)
  }

  lemma InStepCall(loaded: Loaded, calls: seq<Call>, phase: map<string, nat>, p: string)
    requires InStep(loaded, calls, phase) && CanInit(loaded, p)
    ensures InStep(loaded, calls + [Call(p, phase[p])], phase[p := phase[p] + 1])
  {
    hide Phases, UpTo;
    var more, later := calls + [Call(p, phase[p])], phase[p := phase[p] + 1];
    forall q
      ensures q in loaded ==> Phases(more, q) == UpTo(later[q])
      ensures q !in loaded ==> Phases(more, q) == []
    {
      PhasesAppend(calls, Call(p, phase[p]), q);
      NextPhase(phase[p]);
    }
  }

  lemma NothingYet(loaded: Loaded)
    ensures InStep(loaded, [], map p | p in loaded :: 0)
  {
  }

  function Max(a: nat, b: nat): nat {
    if a < b then b else a
  }

  method Initialize(loaded: Loaded, yaml: seq<string>) returns (calls: seq<Call>)
    ensures forall p :: CanInit(loaded, p) ==> Phases(calls, p) == UpTo(Max(1, Count(yaml, p)))
    ensures forall p :: !CanInit(loaded, p) ==> Phases(calls, p) == []
    ensures Counted(calls) && forall p ::
      multiset(Plugins(calls))[p] == if CanInit(loaded, p) then Max(1, multiset(yaml)[p]) else 0
    ensures
      var listed := Listed(loaded, yaml);
      && listed <= Plugins(calls)
      && forall i :: |listed| <= i < |calls| ==> Count(yaml, calls[i].plugin) == 0
  {
    hide Phases, Count, Listed, Counted;
    var phase;
    calls, phase := InitListed(loaded, yaml);
    ghost var listed := Listed(loaded, yaml);
    var todo := loaded.Keys;
    while todo != {}
      invariant todo <= loaded.Keys && InStep(loaded, calls, phase)
      invariant forall p :: CanInit(loaded, p) ==>
        phase[p] == if p in todo then Count(yaml, p) else Max(1, Count(yaml, p))
      invariant listed <= Plugins(calls)
      invariant forall i :: |listed| <= i < |calls| ==> Count(yaml, calls[i].plugin) == 0
    {
      var p :| p in todo;
      todo := todo - {p};
      if phase[p] == 0 {
        if loaded[p] {
          InStepCall(loaded, calls, phase, p);
          assert Plugins(calls + [Call(p, 0)]) == Plugins(calls) + [p];
          calls := calls + [Call(p, 0)];
          phase := phase[p := phase[p] + 1];
        }
      }
    }
    InStepCounts(loaded, yaml, calls, phase);
  }

  lemma InStepCounts(loaded: Loaded, yaml: seq<string>, calls: seq<Call>, phase: map<string, nat>)
    requires InStep(loaded, calls, phase)
    requires forall p :: CanInit(loaded, p) ==> phase[p] == Max(1, Count(yaml, p))
    ensures Counted(calls) && forall p ::
      multiset(Plugins(calls))[p] == if CanInit(loaded, p) then Max(1, multiset(yaml)[p]) else 0
  {
    hide Phases, Count, Counted, Plugins;
    PhasesExact(calls);
    forall p ensures multiset(Plugins(calls))[p] == if CanInit(loaded, p) then Max(1, multiset(yaml)[p]) else 0 {
      CountExact(yaml, p);
    }
  }

  lemma HasPhases(loaded: Loaded, calls: seq<Call>, phase: map<string, nat>)
    requires InStep(loaded, calls, phase)
    ensures phase.Keys == loaded.Keys
  {
  }

  lemma NothingListed(loaded: Loaded)
    ensures Listed(loaded, []) == Plugins([]) == [] && forall p :: Count([], p) == 0
  {
  }

  lemma ListedStep(loaded: Loaded, yaml: seq<string>, i: nat)
    requires i < |yaml|
    ensures Listed(loaded, yaml[..i + 1]) ==
      Listed(loaded, yaml[..i]) + if CanInit(loaded, yaml[i]) then [yaml[i]] else []
    ensures forall p :: Count(yaml[..i + 1], p) == Count(yaml[..i], p) + if yaml[i] == p then 1 else 0
  {
    assert yaml[..i + 1][..i] == yaml[..i];
  }

  lemma PluginsAppend(calls: seq<Call>, call: Call)
    ensures Plugins(calls + [call]) == Plugins(calls) + [call.plugin]
  {
  }

  method InitListed(loaded: Loaded, yaml: seq<string>) returns (calls: seq<Call>, phase: map<string, nat>)
    ensures InStep(loaded, calls, phase)
    ensures forall p :: CanInit(loaded, p) ==> phase[p] == Count(yaml, p)
    ensures Plugins(calls) == Listed(loaded, yaml)
  {
    hide Phases, InStep, Count, Listed, Plugins;
    calls, phase := [], map p | p in loaded :: 0;
    NothingYet(loaded);
    NothingListed(loaded);
    assert yaml[..0] == [];
    for i := 0 to |yaml|
      invariant InStep(loaded, calls, phase) && phase.Keys == loaded.Keys
      invariant forall p :: CanInit(loaded, p) ==> phase[p] == Count(yaml[..i], p)
      invariant Plugins(calls) == Listed(loaded, yaml[..i])
    {
      var p := yaml[i];
      ListedStep(loaded, yaml, i);
      HasPhases(loaded, calls, phase);
      if p in loaded {
        if loaded[p] {
          InStepCall(loaded, calls, phase, p);
          PluginsAppend(calls, Call(p, phase[p]));
          calls := calls + [Call(p, phase[p])];
          phase := phase[p := phase[p] + 1];
        }
      }
    }
    assert yaml[..|yaml|] == yaml;
  }
}
