/**
The callback lists of plugins/reconfigure-blocks.c (run-blocks.c and
stats-blocks.c repeat them): registration keeps each list ordered by priority,
and callbacks of one priority in the order they were registered.
*/
module Callbacks {
  import opened Common

  const MAX_BLOCKS_NUM := 13
  const EINVAL := 22

  type Handler = nat

  datatype Node = Node(handler: Handler, priority: nat)

  predicate Sorted(list: seq<Node>) {
    forall i, j :: 0 <= i < j < |list| ==> list[i].priority <= list[j].priority
  }

  /** The nodes of one priority, in order. */
  function Of(list: seq<Node>, priority: nat): seq<Node> {
    if list == [] then []
    else
      var last := |list| - 1;
      Of(list[..last], priority) + if list[last].priority == priority then [list[last]] else []
  }

  /** `list` is the stable sort of `history` by priority. */
  ghost predicate StableSort(list: seq<Node>, history: seq<Node>) {
    Sorted(list) && forall p :: Of(list, p) == Of(history, p)
  }

  lemma {:induction false} OfConcat(a: seq<Node>, b: seq<Node>, p: nat)
    ensures Of(a + b, p) == Of(a, p) + Of(b, p)
  {
    if b == [] {
      assert a + b == a;
    } else {
      var init := b[..|b| - 1];
      OfConcat(a, init, p);
      assert (a + b)[..|a + b| - 1] == a + init;
    }
  }

  lemma {:induction false} OfNone(list: seq<Node>, p: nat)
    requires forall i :: 0 <= i < |list| ==> list[i].priority != p
    ensures Of(list, p) == []
  {
    if list != [] {
      OfNone(list[..|list| - 1], p);
    }
  }

  lemma {:induction false} OfSome(list: seq<Node>, p: nat)
    requires Of(list, p) != []
    ensures exists i :: 0 <= i < |list| && list[i].priority == p
  {
    if list[|list| - 1].priority != p {
      OfSome(list[..|list| - 1], p);
      var i :| 0 <= i < |list| - 1 && list[..|list| - 1][i].priority == p;
      assert list[i].priority == p;
    }
  }

  lemma LastCounts(list: seq<Node>)
    ensures list != [] ==> Of(list, list[|list| - 1].priority) != []
  {
  }

  /** There is only one stable sort. */
  lemma {:induction false} OneStableSort(a: seq<Node>, b: seq<Node>, history: seq<Node>)
    requires StableSort(a, history) && StableSort(b, history)
    ensures a == b
  {
    SameLists(a, b);
  }

  lemma {:induction false} SameLists(a: seq<Node>, b: seq<Node>)
    requires Sorted(a) && Sorted(b) && forall p :: Of(a, p) == Of(b, p)
    ensures a == b
    decreases |a|
  {
    LastCounts(b);
    if a != [] {
      var p := a[|a| - 1].priority;
      LastCounts(a);
      OfSome(b, p);
      var q := b[|b| - 1].priority;
      OfSome(a, q);
      assert p == q;
      var a', b' := a[..|a| - 1], b[..|b| - 1];
      assert Of(a, p)[|Of(a, p)| - 1] == a[|a| - 1] && Of(b, p)[|Of(b, p)| - 1] == b[|b| - 1];
      forall r ensures Of(a', r) == Of(b', r) {
        assert Of(a, r) == Of(b, r);
        if r == p {
          assert Of(a', r) == Of(a, r)[..|Of(a, r)| - 1] && Of(b', r) == Of(b, r)[..|Of(b, r)| - 1];
        } else {
          assert Of(a, r) == Of(a', r) && Of(b, r) == Of(b', r);
        }
      }
      SameLists(a', b');
      assert a == a' + [a[|a| - 1]] && b == b' + [b[|b| - 1]];
    }
  }

  /** A node put after all of its priority and before all of higher ones. */
  lemma InsertedStably(list: seq<Node>, i: nat, node: Node, history: seq<Node>)
    requires StableSort(list, history) && i <= |list|
    requires forall j :: 0 <= j < i ==> list[j].priority <= node.priority
    requires forall j :: i <= j < |list| ==> list[j].priority > node.priority
    ensures StableSort(list[..i] + [node] + list[i..], history + [node])
  {
    hide Of;
    var longer := list[..i] + [node] + list[i..];
    assert list == list[..i] + list[i..];
    forall p ensures Of(longer, p) == Of(history + [node], p) {
      OfConcat(list[..i], list[i..], p);
      OfConcat(list[..i] + [node], list[i..], p);
      OfConcat(list[..i], [node], p);
      OfConcat(history, [node], p);
      if p == node.priority {
        OfNone(list[i..], p);
      } else {
        OfNone([node], p);
      }
    }
  }

  /**
  insert_node_on_blk.  On a sorted list the walk always finds its place, so the
  error it ends in is never returned.
  */
  method InsertNode(list: seq<Node>, node: Node, ghost history: seq<Node>) returns (rc: int, longer: seq<Node>)
    requires StableSort(list, history)
    ensures rc == 0 && StableSort(longer, history + [node])
  {
    if list == [] {
      InsertedStably(list, 0, node, history);
      longer := list + [node];
      assert longer == list[..0] + [node] + list[0..];
      return 0, longer;
    }
    if node.priority >= list[|list| - 1].priority {
      InsertedStably(list, |list|, node, history);
      longer := list + [node];
      assert longer == list[..|list|] + [node] + list[|list|..];
      return 0, longer;
    }
    for i := 0 to |list|
      invariant forall j :: 0 <= j < i ==> list[j].priority <= node.priority
    {
      if list[i].priority > node.priority {
        InsertedStably(list, i, node, history);
        return 0, list[..i] + [node] + list[i..];
      }
    }
    return EINVAL, list;
  }

  class Blocks {
    var ready: bool                       // blocks_init
    var lists: seq<seq<Node>>             // blk_list
    ghost var history: seq<seq<Node>>     // what was registered for each block, in order

    ghost predicate Valid()
      reads this
    {
      && |history| == MAX_BLOCKS_NUM
      && (!ready ==> forall b :: 0 <= b < MAX_BLOCKS_NUM ==> history[b] == [])
      && (ready ==>
            |lists| == MAX_BLOCKS_NUM && forall b :: 0 <= b < MAX_BLOCKS_NUM ==> StableSort(lists[b], history[b]))
    }

    constructor ()
      ensures Valid() && forall b :: 0 <= b < MAX_BLOCKS_NUM ==> history[b] == []
    {
      ready, lists := false, [];
      history := seq(MAX_BLOCKS_NUM, _ => []);
    }

    /** init_reconfigure_blocks. */
    method Init() returns (rc: int)
      requires Valid() && !ready
      modifies this`ready, this`lists
      ensures rc == 0 && Valid() && ready
    {
      lists := [];
      for b := 0 to MAX_BLOCKS_NUM
        invariant |lists| == b && forall i :: 0 <= i < b ==> lists[i] == []
      {
        lists := lists + [[]];
      }
      ready := true;
      return 0;
    }

    /**
    register_reconfigure_callback: a handler for a valid block is always accepted,
    anything else never, and the list is again the stable sort of all that was.
    */
    method Register(handler: Option<Handler>, blk: int, priority: nat) returns (rc: int)
      requires Valid()
      modifies this
      ensures Valid()
      ensures rc == if handler.Some? && 0 <= blk < MAX_BLOCKS_NUM then 0 else EINVAL
      ensures history ==
        if rc == 0 then old(history)[blk := old(history)[blk] + [Node(handler.value, priority)]] else old(history)
    {
      if !ready {
        rc := Init();
        if rc != 0 {
          return EINVAL;
        }
      }
      if handler.None? {
        return EINVAL;
      }
      if blk < 0 || blk >= MAX_BLOCKS_NUM {
        return EINVAL;
      }
      var node, longer := Node(handler.value, priority), [];
      rc, longer := InsertNode(lists[blk], node, history[blk]);
      if rc != 0 {
        return EINVAL;
      }
      lists := lists[blk := longer];
      history := history[blk := history[blk] + [node]];
      return 0;
    }

    /** execute_reconfigure_block: each callback once, in stable order of priority. */
    method Execute(hasParams: bool, blk: int) returns (rc: int, calls: seq<Handler>, ghost order: seq<Node>)
      requires Valid()
      modifies this`ready, this`lists
      ensures Valid()
      ensures rc == if hasParams && 0 <= blk < MAX_BLOCKS_NUM then 0 else EINVAL
      ensures rc == 0 ==> StableSort(order, history[blk]) && calls == Handlers(order)
      ensures rc != 0 ==> calls == []
    {
      calls, order := [], [];
      if !ready {
        rc := Init();
        if rc != 0 {
          return EINVAL, [], [];
        }
      }
      if !hasParams {
        return EINVAL, [], [];
      }
      if blk < 0 || blk >= MAX_BLOCKS_NUM {
        return EINVAL, [], [];
      }
      var list := lists[blk];
      for i := 0 to |list|
        invariant calls == Handlers(list[..i])
      {
        assert list[..i + 1][..i] == list[..i];
        calls := calls + [list[i].handler];
      }
      assert list[..|list|] == list;
      return 0, calls, list;
    }
  }

  function Handlers(list: seq<Node>): seq<Handler> {
    if list == [] then [] else Handlers(list[..|list| - 1]) + [list[|list| - 1].handler]
  }
}
