/**
 * The inline source as a whole: `_append_routing_tables` writes one
 * declaration per router and command, each followed by a blank line, in
 * post-order (every node after everything below it, siblings in `routes`
 * order), and then the container's own table.
 */
module GenerateQmkPostOrder {
  import opened Text
  import opened RouteTree
  import opened Sequences
  import opened GenerateQmk
  import opened GenerateQmkProperties

  // ---------------------------------------------------------------------
  // Post-order: the order in which `_append_routing_tables` finishes the nodes

  /** The paths of the routers and commands under `n`, each after the ones below it, siblings in `routes` order. */
  function PostOrderPaths(n: Node): seq<seq<nat>>
    decreases n, 2, 0
  {
    PostOrderUpTo(n, |n.routes|)
  }

  function PostOrderUpTo(n: Node, k: nat): seq<seq<nat>>
    requires k <= |n.routes|
    decreases n, 1, k
  {
    if k == 0 then [] else PostOrderUpTo(n, k - 1) + EntryPostOrder(n, k - 1)
  }

  function EntryPostOrder(n: Node, i: nat): seq<seq<nat>>
    requires i < |n.routes|
    decreases n, 0, 0
  {
    var c := n.routes[i].node;
    if c.kind == ROUTER then Under(i, PostOrderPaths(c)) + [[i]]
    else if c.kind == COMMAND then [[i]]
    else []
  }

  /** The declaration of each path followed by a blank line, in order. */
  function Declarations(stack: seq<string>, n: Node, ps: seq<seq<nat>>): seq<string> {
    Flatten(Map(p => DeclarationAt(stack, n, p) + [""], ps))
  }

  lemma DeclarationsAppend(stack: seq<string>, n: Node, a: seq<seq<nat>>, b: seq<seq<nat>>)
    ensures Declarations(stack, n, a + b) == Declarations(stack, n, a) + Declarations(stack, n, b)
  {
    var block := p => DeclarationAt(stack, n, p) + [""];
    MapAppend(block, a, b);
    FlattenAppend(Map(block, a), Map(block, b));
  }

  /** A path below child `i`, seen from `n`, is declared as the child's walk declares it. */
  lemma DeclarationsUnder(stack: seq<string>, n: Node, i: nat, qs: seq<seq<nat>>)
    requires i < |n.routes|
    ensures Declarations(stack, n, Under(i, qs)) == Declarations(stack + [Upper(n.define)], n.routes[i].node, qs)
  {
    var path, c := stack + [Upper(n.define)], n.routes[i].node;
    var l, r := Map(p => DeclarationAt(stack, n, p) + [""], Under(i, qs)), Map(q => DeclarationAt(path, c, q) + [""], qs);
    forall j | 0 <= j < |qs|
      ensures l[j] == r[j]
    {
      StepIn(stack, n, i, qs[j]);
    }
    assert l == r;
  }

  lemma SingleDeclaration(stack: seq<string>, n: Node, p: seq<nat>)
    ensures Declarations(stack, n, [p]) == DeclarationAt(stack, n, p) + [""]
  {
    var block := DeclarationAt(stack, n, p) + [""];
    assert Map(q => DeclarationAt(stack, n, q) + [""], [p]) == [block];
    FlattenSingle(block);
  }

  // ---------------------------------------------------------------------
  // The inline source follows the post-order

  /**
   * `_append_routing_tables` writes, for every router and command below
   * the container in post-order, its declaration (a router's table, a
   * command's `extern` prototype) and a blank line, and then the
   * container's own table.
   */
  lemma {:induction false} RoutingTablesFollowPostOrder(stack: seq<string>, n: Node)
    ensures RoutingTables(stack, n) == Declarations(stack, n, PostOrderPaths(n)) + RoutingTable(stack, n)
    decreases n, 2, 0
  {
    TablesUpToFollowPostOrder(stack, n, |n.routes|);
  }

  /** The first `k` iterations of the loop over `routes` declare the nodes of the first `k` children in post-order. */
  predicate TablesFollow(stack: seq<string>, n: Node, k: nat)
    requires k <= |n.routes|
  {
    TablesUpTo(stack + [Upper(n.define)], n, k) == Declarations(stack, n, PostOrderUpTo(n, k))
  }

  /** Child `i`'s iteration declares the nodes of its subtree in post-order. */
  predicate EntryFollows(stack: seq<string>, n: Node, i: nat)
    requires i < |n.routes|
  {
    EntryTables(stack + [Upper(n.define)], n, i) == Declarations(stack, n, EntryPostOrder(n, i))
  }

  lemma {:induction false} TablesUpToFollowPostOrder(stack: seq<string>, n: Node, k: nat)
    requires k <= |n.routes|
    ensures TablesFollow(stack, n, k)
    decreases n, 1, k
  {
    if k > 0 {
      var j := k - 1;
      TablesUpToFollowPostOrder(stack, n, j);
      EntryTablesFollowPostOrder(stack, n, j);
      TablesUpToStep(stack, n, j);
    }
  }

  /** One more child: its declarations follow those of the children before it. */
  lemma TablesUpToStep(stack: seq<string>, n: Node, j: nat)
    requires j < |n.routes|
    requires TablesFollow(stack, n, j) && EntryFollows(stack, n, j)
    ensures TablesFollow(stack, n, j + 1)
  {
    DeclarationsUpToStep(stack, n, j + 1);
  }

  lemma DeclarationsUpToStep(stack: seq<string>, n: Node, k: nat)
    requires 0 < k <= |n.routes|
    ensures Declarations(stack, n, PostOrderUpTo(n, k))
         == Declarations(stack, n, PostOrderUpTo(n, k - 1)) + Declarations(stack, n, EntryPostOrder(n, k - 1))
  {
    var j := k - 1;
    DeclarationsAppend(stack, n, PostOrderUpTo(n, j), EntryPostOrder(n, j));
    assert PostOrderUpTo(n, k) == PostOrderUpTo(n, j) + EntryPostOrder(n, j);
  }

  lemma {:induction false} EntryTablesFollowPostOrder(stack: seq<string>, n: Node, i: nat)
    requires i < |n.routes|
    ensures EntryFollows(stack, n, i)
    decreases n, 0, 1
  {
    var c := n.routes[i].node;
    if c.kind == ROUTER {
      RouterTablesFollowPostOrder(stack, n, i);
    } else if c.kind == COMMAND {
      CommandTablesFollowPostOrder(stack, n, i);
    }
  }

  lemma {:induction false} RouterTablesFollowPostOrder(stack: seq<string>, n: Node, i: nat)
    requires i < |n.routes| && n.routes[i].node.kind == ROUTER
    ensures EntryTables(stack + [Upper(n.define)], n, i) == Declarations(stack, n, EntryPostOrder(n, i))
    decreases n, 0, 0
  {
    var path, c := stack + [Upper(n.define)], n.routes[i].node;
    var ps := PostOrderPaths(c);
    var below := Declarations(path, c, ps);
    RoutingTablesFollowPostOrder(path, c);
    DeclarationsUnder(stack, n, i, ps);
    DeclarationsAppend(stack, n, Under(i, ps), [[i]]);
    SingleDeclaration(stack, n, [i]);
    StepToChild(stack, n, i);
    assert DeclarationAt(stack, n, [i]) == RoutingTable(path, c);
    AppendAssoc(below, RoutingTable(path, c), [""]);
  }

  lemma CommandTablesFollowPostOrder(stack: seq<string>, n: Node, i: nat)
    requires i < |n.routes| && n.routes[i].node.kind == COMMAND
    ensures EntryTables(stack + [Upper(n.define)], n, i) == Declarations(stack, n, EntryPostOrder(n, i))
  {
    SingleDeclaration(stack, n, [i]);
    StepToChild(stack, n, i);
  }

  // ---------------------------------------------------------------------
  // The post-order lists every router and command exactly once

  lemma {:induction false} PostOrderValid(n: Node)
    ensures forall p :: p in PostOrderPaths(n) ==> ValidPath(n, p)
    decreases n, 2, 0
  {
    PostOrderUpToValid(n, |n.routes|);
  }

  lemma {:induction false} PostOrderUpToValid(n: Node, k: nat)
    requires k <= |n.routes|
    ensures forall p :: p in PostOrderUpTo(n, k) ==> ValidPath(n, p) && p[0] < k
    decreases n, 1, k
  {
    if k > 0 {
      PostOrderUpToValid(n, k - 1);
      EntryPostOrderValid(n, k - 1);
    }
  }

  lemma {:induction false} EntryPostOrderValid(n: Node, i: nat)
    requires i < |n.routes|
    ensures forall p :: p in EntryPostOrder(n, i) ==> ValidPath(n, p) && p[0] == i
    decreases n, 0, 0
  {
    var c := n.routes[i].node;
    StepIn([], n, i, []);
    assert [i] + [] == [i];
    if c.kind == ROUTER {
      PostOrderValid(c);
      var ps := PostOrderPaths(c);
      forall j | 0 <= j < |ps|
        ensures ValidPath(n, Under(i, ps)[j]) && Under(i, ps)[j][0] == i
      {
        StepIn([], n, i, ps[j]);
      }
    }
  }

  /** A valid path appears in the post-order. */
  lemma {:induction false} ValidPathPostListed(n: Node, p: seq<nat>)
    requires ValidPath(n, p)
    ensures p in PostOrderPaths(n)
    decreases p
  {
    var i := p[0];
    var c := n.routes[i].node;
    if |p| == 1 {
      assert p == [i];
      assert p in EntryPostOrder(n, i);
    } else {
      var q := p[1..];
      ValidPathPostListed(c, q);
      var ps := PostOrderPaths(c);
      var j :| 0 <= j < |ps| && ps[j] == q;
      assert p == [i] + q;
      assert Under(i, ps)[j] == p;
      assert p in EntryPostOrder(n, i);
    }
    EntryPostListedUpTo(n, i, |n.routes|);
  }

  lemma {:induction false} EntryPostListedUpTo(n: Node, i: nat, k: nat)
    requires i < k <= |n.routes|
    ensures forall p :: p in EntryPostOrder(n, i) ==> p in PostOrderUpTo(n, k)
  {
    if i < k - 1 {
      EntryPostListedUpTo(n, i, k - 1);
    }
  }

  /** The post-order lists exactly the valid paths. */
  lemma PostOrderIsValidPaths(n: Node)
    ensures forall p :: p in PostOrderPaths(n) <==> ValidPath(n, p)
  {
    PostOrderValid(n);
    forall p | ValidPath(n, p)
      ensures p in PostOrderPaths(n)
    {
      ValidPathPostListed(n, p);
    }
  }

  /** No node is declared twice. */
  lemma {:induction false} PostOrderNoDuplicates(n: Node)
    ensures NoDuplicates(PostOrderPaths(n))
    decreases n, 2, 0
  {
    PostOrderUpToNoDuplicates(n, |n.routes|);
  }

  lemma {:induction false} PostOrderUpToNoDuplicates(n: Node, k: nat)
    requires k <= |n.routes|
    ensures NoDuplicates(PostOrderUpTo(n, k))
    decreases n, 1, k
  {
    if k > 0 {
      PostOrderUpToNoDuplicates(n, k - 1);
      EntryPostOrderNoDuplicates(n, k - 1);
      PostOrderUpToValid(n, k - 1);
      EntryPostOrderValid(n, k - 1);
      NoDuplicatesAppend(PostOrderUpTo(n, k - 1), EntryPostOrder(n, k - 1));
    }
  }

  lemma {:induction false} EntryPostOrderNoDuplicates(n: Node, i: nat)
    requires i < |n.routes|
    ensures NoDuplicates(EntryPostOrder(n, i))
    decreases n, 0, 0
  {
    var c := n.routes[i].node;
    if c.kind == ROUTER {
      var ps := PostOrderPaths(c);
      PostOrderNoDuplicates(c);
      PostOrderValid(c);
      var us := Under(i, ps);
      forall a, b | 0 <= a < b < |us|
        ensures us[a] != us[b]
      {
        assert us[a][1..] == ps[a];
        assert us[b][1..] == ps[b];
      }
      forall j | 0 <= j < |us|
        ensures us[j] != [i]
      {
        assert ps[j] in ps;
        assert |us[j]| == 1 + |ps[j]|;
      }
      NoDuplicatesAppend(us, [[i]]);
    }
  }
}
