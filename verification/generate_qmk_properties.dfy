/**
 * What the generated header and the generated routing tables promise about
 * a route tree: one `#define` per router or command in pre-order, each
 * router's table after the tables of everything below it, and one table
 * entry per child under exactly the name its `#define` gives it.
 */
module GenerateQmkProperties {
  import opened Wrappers
  import opened Text
  import opened RouteTree
  import opened Sequences
  import opened GenerateQmk

  // ---------------------------------------------------------------------
  // The name the generator gives the node at the end of a path

  /** The upper-cased defines pushed while walking `p`, from `n` down to the parent of the node reached. */
  function Ancestors(n: Node, p: seq<nat>): seq<string>
    decreases p
  {
    if |p| == 0 || p[0] >= |n.routes| then [] else [Upper(n.define)] + Ancestors(n.routes[p[0]].node, p[1..])
  }

  /** The name stack in force when the generator reaches the container of the node at `p`. */
  function StackAt(stack: seq<string>, n: Node, p: seq<nat>): seq<string> {
    stack + Ancestors(n, p)
  }

  /** The scoped name of the node at `p`, when the walk of `n` starts with `stack`. */
  function NameAt(stack: seq<string>, n: Node, p: seq<nat>): string {
    ScopedName(StackAt(stack, n, p) + [Upper(NodeAt(n, p).define)])
  }

  /** Stepping into child `i` pushes the current node's define and walks the rest of the path from the child. */
  lemma StepIn(stack: seq<string>, n: Node, i: nat, q: seq<nat>)
    requires i < |n.routes|
    ensures StackAt(stack, n, [i] + q) == StackAt(stack + [Upper(n.define)], n.routes[i].node, q)
    ensures NodeAt(n, [i] + q) == NodeAt(n.routes[i].node, q)
    ensures NameAt(stack, n, [i] + q) == NameAt(stack + [Upper(n.define)], n.routes[i].node, q)
    ensures |q| > 0 ==> IdAt(n, [i] + q) == IdAt(n.routes[i].node, q)
    ensures ValidPath(n, [i] + q) <==>
              if q == [] then IsEmitted(n.routes[i].node)
              else n.routes[i].node.kind == ROUTER && ValidPath(n.routes[i].node, q)
  {
    StepInPath(n, i, q);
    AppendAssoc(stack, [Upper(n.define)], Ancestors(n.routes[i].node, q));
  }

  lemma StepInPath(n: Node, i: nat, q: seq<nat>)
    requires i < |n.routes|
    ensures Ancestors(n, [i] + q) == [Upper(n.define)] + Ancestors(n.routes[i].node, q)
    ensures NodeAt(n, [i] + q) == NodeAt(n.routes[i].node, q)
    ensures |q| > 0 ==> IdAt(n, [i] + q) == IdAt(n.routes[i].node, q)
    ensures ValidPath(n, [i] + q) <==>
              if q == [] then IsEmitted(n.routes[i].node)
              else n.routes[i].node.kind == ROUTER && ValidPath(n.routes[i].node, q)
  {
    StepInFront(i, q);
    StepInValid(n, i, q);
  }

  lemma StepInFront(i: nat, q: seq<nat>)
    ensures ([i] + q)[0] == i && ([i] + q)[1..] == q && |[i] + q| == 1 + |q|
  {
  }

  lemma StepInValid(n: Node, i: nat, q: seq<nat>)
    requires i < |n.routes|
    ensures ValidPath(n, [i] + q) <==>
              if q == [] then IsEmitted(n.routes[i].node)
              else n.routes[i].node.kind == ROUTER && ValidPath(n.routes[i].node, q)
  {
    StepInFront(i, q);
  }

  /** The node at a one-step path is the child itself, named under the container's define. */
  lemma StepToChild(stack: seq<string>, n: Node, i: nat)
    requires i < |n.routes|
    ensures NodeAt(n, [i]) == n.routes[i].node
    ensures IdAt(n, [i]) == n.routes[i].id
    ensures StackAt(stack, n, [i]) == stack + [Upper(n.define)]
    ensures NameAt(stack, n, [i]) == ScopedName(stack + [Upper(n.define)] + [Upper(n.routes[i].node.define)])
  {
    assert [i] + [] == [i];
    StepIn(stack, n, i, []);
    assert stack + [Upper(n.define)] + [] == stack + [Upper(n.define)];
  }

  // ---------------------------------------------------------------------
  // Pre-order: the order in which `_append_defines` meets the nodes

  /** The paths of the routers and commands under `n`, each before the ones below it, siblings in `routes` order. */
  function PreOrder(n: Node): seq<seq<nat>>
    decreases n, 2, 0
  {
    PreOrderUpTo(n, |n.routes|)
  }

  function PreOrderUpTo(n: Node, k: nat): seq<seq<nat>>
    requires k <= |n.routes|
    decreases n, 1, k
  {
    if k == 0 then [] else PreOrderUpTo(n, k - 1) + EntryPreOrder(n, k - 1)
  }

  function EntryPreOrder(n: Node, i: nat): seq<seq<nat>>
    requires i < |n.routes|
    decreases n, 0, 0
  {
    var c := n.routes[i].node;
    if c.kind == ROUTER then [[i]] + Under(i, PreOrder(c))
    else if c.kind == COMMAND then [[i]]
    else []
  }

  /** Each path of `ps`, seen from the parent of the node it starts at. */
  function Under(i: nat, ps: seq<seq<nat>>): seq<seq<nat>> {
    seq(|ps|, j requires 0 <= j < |ps| => [i] + ps[j])
  }

  /** The `#define` line of each path, in order. */
  function DefineLinesAt(stack: seq<string>, n: Node, ps: seq<seq<nat>>): seq<string> {
    seq(|ps|, j requires 0 <= j < |ps| => DefineLine(NameAt(stack, n, ps[j]), IdAt(n, ps[j])))
  }

  /** The lines that are not empty: the blank separators `_append_defines` writes around each router's block dropped. */
  function NonBlank(lines: seq<string>): seq<string> {
    if lines == [] then [] else (if lines[0] == "" then [] else [lines[0]]) + NonBlank(lines[1..])
  }

  lemma {:induction false} NonBlankAppend(a: seq<string>, b: seq<string>)
    ensures NonBlank(a + b) == NonBlank(a) + NonBlank(b)
  {
    if a != [] {
      assert (a + b)[0] == a[0];
      assert (a + b)[1..] == a[1..] + b;
      NonBlankAppend(a[1..], b);
    } else {
      assert a + b == b;
    }
  }

  lemma DefineLinesAtAppend(stack: seq<string>, n: Node, a: seq<seq<nat>>, b: seq<seq<nat>>)
    ensures DefineLinesAt(stack, n, a + b) == DefineLinesAt(stack, n, a) + DefineLinesAt(stack, n, b)
  {
    var l, r := DefineLinesAt(stack, n, a + b), DefineLinesAt(stack, n, a) + DefineLinesAt(stack, n, b);
    forall j | 0 <= j < |l|
      ensures l[j] == r[j]
    {
      if j < |a| {
        assert (a + b)[j] == a[j];
      } else {
        assert (a + b)[j] == b[j - |a|];
      }
    }
  }

  lemma DefineLinesAtUnder(stack: seq<string>, n: Node, i: nat, qs: seq<seq<nat>>)
    requires i < |n.routes|
    requires forall q :: q in qs ==> |q| > 0
    ensures DefineLinesAt(stack, n, Under(i, qs)) == DefineLinesAt(stack + [Upper(n.define)], n.routes[i].node, qs)
  {
    forall j | 0 <= j < |qs|
      ensures DefineLinesAt(stack, n, Under(i, qs))[j] == DefineLinesAt(stack + [Upper(n.define)], n.routes[i].node, qs)[j]
    {
      assert qs[j] in qs;
      StepIn(stack, n, i, qs[j]);
    }
  }

  lemma DefineLinesConcat(stack: seq<string>, n: Node, lines: seq<string>, a: seq<string>, e: seq<string>,
                          paths: seq<seq<nat>>, pa: seq<seq<nat>>, pe: seq<seq<nat>>)
    requires lines == a + e && paths == pa + pe
    requires NonBlank(a) == DefineLinesAt(stack, n, pa) && NonBlank(e) == DefineLinesAt(stack, n, pe)
    ensures NonBlank(lines) == DefineLinesAt(stack, n, paths)
  {
    NonBlankAppend(a, e);
    DefineLinesAtAppend(stack, n, pa, pe);
  }

  /** Every path in the pre-order is a valid path, starting at the child it was listed for. */
  lemma {:induction false} PreOrderValid(n: Node)
    ensures forall p :: p in PreOrder(n) ==> ValidPath(n, p)
    decreases n, 2, 0
  {
    PreOrderUpToValid(n, |n.routes|);
  }

  lemma {:induction false} PreOrderUpToValid(n: Node, k: nat)
    requires k <= |n.routes|
    ensures forall p :: p in PreOrderUpTo(n, k) ==> ValidPath(n, p) && p[0] < k
    decreases n, 1, k
  {
    if k > 0 {
      PreOrderUpToValid(n, k - 1);
      EntryPreOrderValid(n, k - 1);
    }
  }

  lemma {:induction false} EntryPreOrderValid(n: Node, i: nat)
    requires i < |n.routes|
    ensures forall p :: p in EntryPreOrder(n, i) ==> ValidPath(n, p) && p[0] == i
    decreases n, 0, 0
  {
    var c := n.routes[i].node;
    StepIn([], n, i, []);
    assert [i] + [] == [i];
    if c.kind == ROUTER {
      PreOrderValid(c);
      var ps := PreOrder(c);
      forall j | 0 <= j < |ps|
        ensures ValidPath(n, Under(i, ps)[j]) && Under(i, ps)[j][0] == i
      {
        StepIn([], n, i, ps[j]);
      }
    }
  }

  /** A valid path appears in the pre-order. */
  lemma {:induction false} ValidPathListed(n: Node, p: seq<nat>)
    requires ValidPath(n, p)
    ensures p in PreOrder(n)
    decreases p
  {
    var i := p[0];
    var c := n.routes[i].node;
    if |p| == 1 {
      assert p == [i];
      assert p in EntryPreOrder(n, i);
    } else {
      var q := p[1..];
      ValidPathListed(c, q);
      var ps := PreOrder(c);
      var j :| 0 <= j < |ps| && ps[j] == q;
      assert p == [i] + q;
      assert Under(i, ps)[j] == p;
      assert p in EntryPreOrder(n, i);
    }
    EntryListedUpTo(n, i, |n.routes|);
  }

  lemma {:induction false} EntryListedUpTo(n: Node, i: nat, k: nat)
    requires i < k <= |n.routes|
    ensures forall p :: p in EntryPreOrder(n, i) ==> p in PreOrderUpTo(n, k)
  {
    if i < k - 1 {
      EntryListedUpTo(n, i, k - 1);
    }
  }

  /** The pre-order lists exactly the valid paths. */
  lemma PreOrderIsValidPaths(n: Node)
    ensures forall p :: p in PreOrder(n) <==> ValidPath(n, p)
  {
    PreOrderValid(n);
    forall p | ValidPath(n, p)
      ensures p in PreOrder(n)
    {
      ValidPathListed(n, p);
    }
  }

  /** No node is listed twice. */
  lemma {:induction false} PreOrderNoDuplicates(n: Node)
    ensures NoDuplicates(PreOrder(n))
    decreases n, 2, 0
  {
    PreOrderUpToNoDuplicates(n, |n.routes|);
  }

  lemma {:induction false} PreOrderUpToNoDuplicates(n: Node, k: nat)
    requires k <= |n.routes|
    ensures NoDuplicates(PreOrderUpTo(n, k))
    decreases n, 1, k
  {
    if k > 0 {
      PreOrderUpToNoDuplicates(n, k - 1);
      EntryPreOrderNoDuplicates(n, k - 1);
      PreOrderUpToValid(n, k - 1);
      EntryPreOrderValid(n, k - 1);
      NoDuplicatesAppend(PreOrderUpTo(n, k - 1), EntryPreOrder(n, k - 1));
    }
  }

  lemma {:induction false} EntryPreOrderNoDuplicates(n: Node, i: nat)
    requires i < |n.routes|
    ensures NoDuplicates(EntryPreOrder(n, i))
    decreases n, 0, 0
  {
    var c := n.routes[i].node;
    if c.kind == ROUTER {
      var ps := PreOrder(c);
      PreOrderNoDuplicates(c);
      PreOrderValid(c);
      var us := Under(i, ps);
      forall a, b | 0 <= a < b < |us|
        ensures us[a] != us[b]
      {
        assert us[a][1..] == ps[a];
        assert us[b][1..] == ps[b];
      }
      forall j | 0 <= j < |us|
        ensures us[j] != [i]
      {
        assert ps[j] in ps;
        assert |us[j]| == 1 + |ps[j]|;
      }
      NoDuplicatesAppend([[i]], us);
    }
  }

  // ---------------------------------------------------------------------
  // The header

  /**
   * Leaving out the blank lines, `_append_defines` writes exactly one
   * `#define <scoped name> <route id>` per router and command, in
   * pre-order: each router's line before the lines of its children.
   */
  lemma {:induction false} DefinesFollowPreOrder(stack: seq<string>, n: Node)
    ensures NonBlank(Defines(stack, n)) == DefineLinesAt(stack, n, PreOrder(n))
    decreases n, 2, 0
  {
    DefinesUpToFollowPreOrder(stack, n, |n.routes|);
  }

  lemma {:induction false} DefinesUpToFollowPreOrder(stack: seq<string>, n: Node, k: nat)
    requires k <= |n.routes|
    ensures NonBlank(DefinesUpTo(stack + [Upper(n.define)], n, k)) == DefineLinesAt(stack, n, PreOrderUpTo(n, k))
    decreases n, 1, k
  {
    if k > 0 {
      var path := stack + [Upper(n.define)];
      var lines, entryLines := DefinesUpTo(path, n, k - 1), EntryDefines(path, n, k - 1);
      var paths, entryPaths := PreOrderUpTo(n, k - 1), EntryPreOrder(n, k - 1);
      DefinesUpToFollowPreOrder(stack, n, k - 1);
      EntryDefinesFollowPreOrder(stack, n, k - 1);
      DefineLinesConcat(stack, n, DefinesUpTo(path, n, k), lines, entryLines, PreOrderUpTo(n, k), paths, entryPaths);
    }
  }

  lemma {:induction false} EntryDefinesFollowPreOrder(stack: seq<string>, n: Node, i: nat)
    requires i < |n.routes|
    ensures NonBlank(EntryDefines(stack + [Upper(n.define)], n, i)) == DefineLinesAt(stack, n, EntryPreOrder(n, i))
    decreases n, 0, 0
  {
    var path := stack + [Upper(n.define)];
    var c := n.routes[i].node;
    var line := DefineLine(ScopedName(path + [Upper(c.define)]), n.routes[i].id);
    StepToChild(stack, n, i);
    assert DefineLinesAt(stack, n, [[i]]) == [line];
    if c.kind == ROUTER {
      var ps := PreOrder(c);
      DefinesFollowPreOrder(path, c);
      PreOrderValid(c);
      DefineLinesAtUnder(stack, n, i, ps);
      DefineLinesAtAppend(stack, n, [[i]], Under(i, ps));
      NonBlankAppend([line, ""], Defines(path, c));
      NonBlankAppend([line, ""] + Defines(path, c), [""]);
      assert NonBlank([line, ""]) == [line];
    } else if c.kind == COMMAND {
      assert NonBlank([line]) == [line];
    }
  }

  /** A router's block in the header: its define, a blank line, its children's block, a blank line. */
  function RouterDefines(name: string, id: string, inner: seq<string>): seq<string> {
    [DefineLine(name, id), ""] + inner + [""]
  }

  lemma {:induction false} DefinesUpToSplit(path: seq<string>, n: Node, k: nat, i: nat)
    requires i < k <= |n.routes|
    ensures exists pre, post :: Within(DefinesUpTo(path, n, k), pre, EntryDefines(path, n, i), post)
  {
    if i == k - 1 {
      WithinLast(DefinesUpTo(path, n, k), DefinesUpTo(path, n, k - 1), EntryDefines(path, n, i));
    } else {
      DefinesUpToSplit(path, n, k - 1, i);
      var pre, post :| Within(DefinesUpTo(path, n, k - 1), pre, EntryDefines(path, n, i), post);
      WithinPrefix(DefinesUpTo(path, n, k), DefinesUpTo(path, n, k - 1), EntryDefines(path, n, k - 1), pre, EntryDefines(path, n, i), post);
    }
  }

  /**
   * Every router below the root gets, somewhere in the header, its own
   * define, a blank line, the block its own walk writes, and a blank line,
   * one after the other.
   */
  lemma {:induction false} RouterBlockInDefines(stack: seq<string>, n: Node, p: seq<nat>)
    requires ValidPath(n, p) && NodeAt(n, p).kind == ROUTER
    ensures exists pre, post ::
      Defines(stack, n) == pre + RouterDefines(NameAt(stack, n, p), IdAt(n, p), Defines(StackAt(stack, n, p), NodeAt(n, p))) + post
  {
    var pre, post := RouterBlockWithin(stack, n, p);
    Inside(Defines(stack, n), pre, RouterDefines(NameAt(stack, n, p), IdAt(n, p), Defines(StackAt(stack, n, p), NodeAt(n, p))), post);
  }

  lemma {:induction false} RouterBlockWithin(stack: seq<string>, n: Node, p: seq<nat>) returns (pre: seq<string>, post: seq<string>)
    requires ValidPath(n, p) && NodeAt(n, p).kind == ROUTER
    ensures Within(Defines(stack, n), pre, RouterDefines(NameAt(stack, n, p), IdAt(n, p), Defines(StackAt(stack, n, p), NodeAt(n, p))), post)
    decreases p
  {
    var i := p[0];
    var c := n.routes[i].node;
    var path := stack + [Upper(n.define)];
    DefinesUpToSplit(path, n, |n.routes|, i);
    var pre0, post0 :| Within(Defines(stack, n), pre0, EntryDefines(path, n, i), post0);
    var line := DefineLine(ScopedName(path + [Upper(c.define)]), n.routes[i].id);
    if |p| == 1 {
      assert p == [i];
      StepToChild(stack, n, i);
      pre, post := pre0, post0;
    } else {
      var q := p[1..];
      assert p == [i] + q;
      StepIn(stack, n, i, q);
      var pre1, post1 := RouterBlockWithin(path, c, q);
      NestWithin(Defines(stack, n), pre0, EntryDefines(path, n, i), post0, [line, ""], Defines(path, c), [""], pre1,
                 RouterDefines(NameAt(path, c, q), IdAt(c, q), Defines(StackAt(path, c, q), NodeAt(c, q))), post1);
      pre, post := pre0 + [line, ""] + pre1, post1 + [""] + post0;
    }
  }

  // ---------------------------------------------------------------------
  // The routing tables

  lemma {:induction false} TablesUpToSplit(path: seq<string>, n: Node, k: nat, i: nat)
    requires i < k <= |n.routes|
    ensures exists pre, post :: Within(TablesUpTo(path, n, k), pre, EntryTables(path, n, i), post)
  {
    if i == k - 1 {
      WithinLast(TablesUpTo(path, n, k), TablesUpTo(path, n, k - 1), EntryTables(path, n, i));
    } else {
      TablesUpToSplit(path, n, k - 1, i);
      var pre, post :| Within(TablesUpTo(path, n, k - 1), pre, EntryTables(path, n, i), post);
      WithinPrefix(TablesUpTo(path, n, k), TablesUpTo(path, n, k - 1), EntryTables(path, n, k - 1), pre, EntryTables(path, n, i), post);
    }
  }

  lemma {:induction false} EntriesUpToSplit(path: seq<string>, n: Node, k: nat, i: nat)
    requires i < k <= |n.routes|
    ensures exists pre, post :: Within(EntriesUpTo(path, n, k), pre, TableEntry(path, n, i), post)
  {
    if i == k - 1 {
      WithinLast(EntriesUpTo(path, n, k), EntriesUpTo(path, n, k - 1), TableEntry(path, n, i));
    } else {
      EntriesUpToSplit(path, n, k - 1, i);
      var pre, post :| Within(EntriesUpTo(path, n, k - 1), pre, TableEntry(path, n, i), post);
      WithinPrefix(EntriesUpTo(path, n, k), EntriesUpTo(path, n, k - 1), TableEntry(path, n, k - 1), pre, TableEntry(path, n, i), post);
    }
  }

  /**
   * Everything `_append_routing_tables` writes for a router below the root
   * (its children's tables and externs, then its own table) comes before
   * the root's own table, which is last.
   */
  lemma {:induction false} SubtreeTablesBeforeTable(stack: seq<string>, n: Node, p: seq<nat>)
    requires ValidPath(n, p) && NodeAt(n, p).kind == ROUTER
    ensures exists pre, post ::
      RoutingTables(stack, n) == pre + RoutingTables(StackAt(stack, n, p), NodeAt(n, p)) + post + RoutingTable(stack, n)
  {
    var path := stack + [Upper(n.define)];
    var pre, post := SubtreeTablesWithin(stack, n, p);
    InsideBeforeLast(RoutingTables(stack, n), TablesUpTo(path, n, |n.routes|), RoutingTable(stack, n),
                     pre, RoutingTables(StackAt(stack, n, p), NodeAt(n, p)), post);
  }

  lemma {:induction false} SubtreeTablesWithin(stack: seq<string>, n: Node, p: seq<nat>) returns (pre: seq<string>, post: seq<string>)
    requires ValidPath(n, p) && NodeAt(n, p).kind == ROUTER
    ensures Within(TablesUpTo(stack + [Upper(n.define)], n, |n.routes|), pre, RoutingTables(StackAt(stack, n, p), NodeAt(n, p)), post)
    decreases p
  {
    var i := p[0];
    var c := n.routes[i].node;
    var path := stack + [Upper(n.define)];
    var whole := TablesUpTo(path, n, |n.routes|);
    TablesUpToSplit(path, n, |n.routes|, i);
    var pre0, post0 :| Within(whole, pre0, EntryTables(path, n, i), post0);
    if |p| == 1 {
      assert p == [i];
      StepToChild(stack, n, i);
      WithinFront(whole, pre0, EntryTables(path, n, i), post0, RoutingTables(path, c), [""]);
      pre, post := pre0, [""] + post0;
    } else {
      var q := p[1..];
      assert p == [i] + q;
      StepIn(stack, n, i, q);
      RouterEntryTables(path, n, i);
      var block := RoutingTables(StackAt(path, c, q), NodeAt(c, q));
      var pre1, post1 := SubtreeTablesWithin(path, c, q);
      var inner := TablesUpTo(path + [Upper(c.define)], c, |c.routes|);
      NestFront(whole, pre0, EntryTables(path, n, i), post0, inner, RoutingTable(path, c) + [""], pre1, block, post1);
      pre, post := pre0 + pre1, post1 + (RoutingTable(path, c) + [""]) + post0;
    }
  }

  /** What the loop writes for a router child: the child's whole output, then a blank line. */
  lemma RouterEntryTables(path: seq<string>, n: Node, i: nat)
    requires i < |n.routes| && n.routes[i].node.kind == ROUTER
    ensures var c := n.routes[i].node;
      EntryTables(path, n, i) == TablesUpTo(path + [Upper(c.define)], c, |c.routes|) + (RoutingTable(path, c) + [""])
  {
  }

  /** What the loop writes for a command child: its handler prototype, then a blank line. */
  lemma CommandEntryTables(path: seq<string>, n: Node, i: nat)
    requires i < |n.routes| && n.routes[i].node.kind == COMMAND
    ensures EntryTables(path, n, i) == [ExternLine(ScopedName(path + [Upper(n.routes[i].node.define)])), ""]
  {
  }

  /** Where a command's `extern` declaration sits among the lines the loop writes. */
  lemma {:induction false} ExternWithin(stack: seq<string>, n: Node, p: seq<nat>) returns (pre: seq<string>, post: seq<string>)
    requires ValidPath(n, p) && NodeAt(n, p).kind == COMMAND
    ensures Within(TablesUpTo(stack + [Upper(n.define)], n, |n.routes|), pre, [ExternLine(NameAt(stack, n, p)), ""], post)
    decreases p
  {
    var i := p[0];
    var c := n.routes[i].node;
    var path := stack + [Upper(n.define)];
    var whole := TablesUpTo(path, n, |n.routes|);
    TablesUpToSplit(path, n, |n.routes|, i);
    var pre0, post0 :| Within(whole, pre0, EntryTables(path, n, i), post0);
    if |p| == 1 {
      assert p == [i];
      StepToChild(stack, n, i);
      CommandEntryTables(path, n, i);
      pre, post := pre0, post0;
    } else {
      var q := p[1..];
      assert p == [i] + q;
      StepIn(stack, n, i, q);
      RouterEntryTables(path, n, i);
      var block := [ExternLine(NameAt(path, c, q)), ""];
      var pre1, post1 := ExternWithin(path, c, q);
      var inner := TablesUpTo(path + [Upper(c.define)], c, |c.routes|);
      NestFront(whole, pre0, EntryTables(path, n, i), post0, inner, RoutingTable(path, c) + [""], pre1, block, post1);
      pre, post := pre0 + pre1, post1 + (RoutingTable(path, c) + [""]) + post0;
    }
  }

  /** What `_append_routing_tables` declares for a node: a router's own table, a command's handler prototype. */
  function DeclarationAt(stack: seq<string>, n: Node, p: seq<nat>): seq<string> {
    if NodeAt(n, p).kind == ROUTER then RoutingTable(StackAt(stack, n, p), NodeAt(n, p))
    else [ExternLine(NameAt(stack, n, p))]
  }

  lemma DeclarationWithin(stack: seq<string>, n: Node, p: seq<nat>) returns (pre: seq<string>, post: seq<string>)
    requires ValidPath(n, p)
    ensures Within(TablesUpTo(stack + [Upper(n.define)], n, |n.routes|), pre, DeclarationAt(stack, n, p), post)
  {
    var m, s := NodeAt(n, p), StackAt(stack, n, p);
    var whole := TablesUpTo(stack + [Upper(n.define)], n, |n.routes|);
    var pre0, post0;
    ValidPathEnds(n, p);
    if m.kind == ROUTER {
      pre0, post0 := SubtreeTablesWithin(stack, n, p);
      var inner := TablesUpTo(s + [Upper(m.define)], m, |m.routes|);
      WithinBack(whole, pre0, RoutingTables(s, m), post0, inner, RoutingTable(s, m));
      pre, post := pre0 + inner, post0;
    } else {
      pre0, post0 := ExternWithin(stack, n, p);
      WithinFront(whole, pre0, [ExternLine(NameAt(stack, n, p)), ""], post0, [ExternLine(NameAt(stack, n, p))], [""]);
      pre, post := pre0, [""] + post0;
    }
  }

  /** The node a valid path reaches is a router or a command. */
  lemma {:induction false} ValidPathEnds(n: Node, p: seq<nat>)
    requires ValidPath(n, p)
    ensures IsEmitted(NodeAt(n, p))
    decreases p
  {
    if |p| > 1 {
      ValidPathEnds(n.routes[p[0]].node, p[1..]);
    }
  }

  /**
   * The inline file ends with the root's table, and every router's table
   * and every command's `extern` declaration comes before it.
   */
  lemma DeclarationBeforeRootTable(stack: seq<string>, n: Node, p: seq<nat>)
    requires ValidPath(n, p)
    ensures exists pre, post :: RoutingTables(stack, n) == pre + DeclarationAt(stack, n, p) + post + RoutingTable(stack, n)
  {
    var path := stack + [Upper(n.define)];
    var pre, post := DeclarationWithin(stack, n, p);
    InsideBeforeLast(RoutingTables(stack, n), TablesUpTo(path, n, |n.routes|), RoutingTable(stack, n),
                     pre, DeclarationAt(stack, n, p), post);
  }

  /** Following `p` and then `r` is following `p + r`. */
  lemma {:induction false} PathConcat(n: Node, p: seq<nat>, r: seq<nat>)
    requires ValidPath(n, p)
    ensures Ancestors(n, p + r) == Ancestors(n, p) + Ancestors(NodeAt(n, p), r)
    ensures NodeAt(n, p + r) == NodeAt(NodeAt(n, p), r)
    ensures |r| > 0 ==> IdAt(n, p + r) == IdAt(NodeAt(n, p), r)
    ensures |r| > 0 ==> (ValidPath(n, p + r) <==> NodeAt(n, p).kind == ROUTER && ValidPath(NodeAt(n, p), r))
    decreases p
  {
    var i := p[0];
    var c := n.routes[i].node;
    assert p == [i] + p[1..];
    assert p + r == [i] + (p[1..] + r);
    StepInPath(n, i, p[1..]);
    StepInPath(n, i, p[1..] + r);
    if |p| == 1 {
      assert p[1..] == [] && p[1..] + r == r;
    } else {
      PathConcat(c, p[1..], r);
    }
  }

  /** The name stack and the scoped name of a node below `p`, seen from the root or from the node at `p`. */
  lemma StackConcat(stack: seq<string>, n: Node, p: seq<nat>, r: seq<nat>)
    requires ValidPath(n, p)
    ensures StackAt(stack, n, p + r) == StackAt(StackAt(stack, n, p), NodeAt(n, p), r)
    ensures NameAt(stack, n, p + r) == NameAt(StackAt(stack, n, p), NodeAt(n, p), r)
    ensures DeclarationAt(stack, n, p + r) == DeclarationAt(StackAt(stack, n, p), NodeAt(n, p), r)
  {
    PathConcat(n, p, r);
    AppendAssoc(stack, Ancestors(n, p), Ancestors(NodeAt(n, p), r));
  }

  /**
   * Tables come in post-order: below a router at `p`, every router's table
   * and every command's `extern` declaration comes before the table of the
   * router at `p`.
   */
  lemma PostOrder(stack: seq<string>, n: Node, p: seq<nat>, r: seq<nat>)
    requires |p| > 0 && |r| > 0 && ValidPath(n, p + r)
    ensures exists a, b, c ::
      RoutingTables(stack, n) == a + DeclarationAt(stack, n, p + r) + b + RoutingTable(StackAt(stack, n, p), NodeAt(n, p)) + c
  {
    ValidPrefix(n, p, r);
    var m, s := NodeAt(n, p), StackAt(stack, n, p);
    PathConcat(n, p, r);
    StackConcat(stack, n, p, r);
    var pre0, post0 := SubtreeTablesWithin(stack, n, p);
    var inner := TablesUpTo(s + [Upper(m.define)], m, |m.routes|);
    var pre1, post1 := DeclarationWithin(s, m, r);
    BeforeInside(RoutingTables(stack, n), TablesUpTo(stack + [Upper(n.define)], n, |n.routes|), RoutingTable(stack, n),
                 pre0, RoutingTables(s, m), post0, inner, RoutingTable(s, m), pre1, DeclarationAt(s, m, r), post1);
  }

  /** A proper prefix of a valid path reaches a router, and is itself valid. */
  lemma {:induction false} ValidPrefix(n: Node, p: seq<nat>, r: seq<nat>)
    requires |p| > 0 && |r| > 0 && ValidPath(n, p + r)
    ensures ValidPath(n, p) && NodeAt(n, p).kind == ROUTER
    decreases p
  {
    var i := p[0];
    var c := n.routes[i].node;
    assert (p + r)[0] == i;
    assert (p + r)[1..] == p[1..] + r;
    if |p| == 1 {
      assert p == [i];
      StepInPath(n, i, []);
      assert [i] + [] == [i];
    } else {
      ValidPrefix(c, p[1..], r);
      assert p == [i] + p[1..];
      StepInPath(n, i, p[1..]);
    }
  }

  // ---------------------------------------------------------------------
  // One table

  /** The positions, in `routes` order, of the first `k` children that are routers or commands. */
  function EmittedChildren(n: Node, k: nat): (r: seq<nat>)
    requires k <= |n.routes|
    ensures forall i: nat :: i in r <==> i < k && IsEmitted(n.routes[i].node)
    ensures forall j :: 0 <= j < |r| ==> r[j] < k
    ensures forall a, b :: 0 <= a < b < |r| ==> r[a] < r[b]
  {
    if k == 0 then []
    else
      var earlier := EmittedChildren(n, k - 1);
      assert forall a :: 0 <= a < |earlier| ==> earlier[a] in earlier;
      earlier + (if IsEmitted(n.routes[k - 1].node) then [k - 1] else [])
  }

  /** The table entry of each child position, in order. */
  function EntryLinesAt(stack: seq<string>, n: Node, children: seq<nat>): seq<string> {
    seq(|children|, j requires 0 <= j < |children| => EntryText(NameAt(stack, n, [children[j]]), NodeAt(n, [children[j]])))
  }

  lemma EntryLinesAtAppend(stack: seq<string>, n: Node, a: seq<nat>, b: seq<nat>)
    ensures EntryLinesAt(stack, n, a + b) == EntryLinesAt(stack, n, a) + EntryLinesAt(stack, n, b)
  {
    var l, r := EntryLinesAt(stack, n, a + b), EntryLinesAt(stack, n, a) + EntryLinesAt(stack, n, b);
    forall j | 0 <= j < |l|
      ensures l[j] == r[j]
    {
      if j < |a| {
        assert (a + b)[j] == a[j];
      } else {
        assert (a + b)[j] == b[j - |a|];
      }
    }
  }

  lemma {:induction false} EntriesUpToListsChildren(stack: seq<string>, n: Node, k: nat)
    requires k <= |n.routes|
    ensures EntriesUpTo(stack + [Upper(n.define)], n, k) == EntryLinesAt(stack, n, EmittedChildren(n, k))
  {
    if k > 0 {
      EntriesUpToListsChildren(stack, n, k - 1);
      EntriesStep(stack, n, k);
    }
  }

  lemma EntriesStep(stack: seq<string>, n: Node, k: nat)
    requires 0 < k <= |n.routes|
    requires EntriesUpTo(stack + [Upper(n.define)], n, k - 1) == EntryLinesAt(stack, n, EmittedChildren(n, k - 1))
    ensures EntriesUpTo(stack + [Upper(n.define)], n, k) == EntryLinesAt(stack, n, EmittedChildren(n, k))
  {
    var path := stack + [Upper(n.define)];
    var i := k - 1;
    var tail: seq<nat> := if IsEmitted(n.routes[i].node) then [i] else [];
    EntryLinesAtAppend(stack, n, EmittedChildren(n, i), tail);
    TableEntryIsEntryLine(stack, n, i);
    ConcatEqual(EntriesUpTo(path, n, k), EntriesUpTo(path, n, i), TableEntry(path, n, i),
                EntryLinesAt(stack, n, EmittedChildren(n, k)),
                EntryLinesAt(stack, n, EmittedChildren(n, i)), EntryLinesAt(stack, n, tail));
  }

  lemma TableEntryIsEntryLine(stack: seq<string>, n: Node, i: nat)
    requires i < |n.routes|
    ensures TableEntry(stack + [Upper(n.define)], n, i) ==
            EntryLinesAt(stack, n, if IsEmitted(n.routes[i].node) then [i] else [])
  {
    StepToChild(stack, n, i);
  }

  /**
   * A table is its header, then one entry per router or command child in
   * `routes` order, each under the child's scoped name (the name its
   * `#define` carries), then the closing lines.
   */
  lemma TableListsChildren(stack: seq<string>, n: Node)
    ensures RoutingTable(stack, n) ==
      [TableHeader(Lower(Join(stack + [Upper(n.define)])))] + EntryLinesAt(stack, n, EmittedChildren(n, |n.routes|)) + ["};", ""]
  {
    EntriesUpToListsChildren(stack, n, |n.routes|);
  }

  /**
   * Line `1 + j` of a table is the entry of the `j`-th router or command
   * child, under the child's scoped name: a route entry naming the child's
   * table for a router, an execute entry naming its handler for a
   * command, with `.is_secure = 1` exactly when the child's `secure` is
   * the string "true" (a boolean `true` gives 0).
   */
  lemma TableEntryLine(stack: seq<string>, n: Node, j: nat)
    requires j < |EmittedChildren(n, |n.routes|)|
    ensures var i := EmittedChildren(n, |n.routes|)[j];
      var c := n.routes[i].node;
      var name := NameAt(stack, n, [i]);
      var isSecure := if c.secure == Some(Str("true")) then "1" else "0";
      && |RoutingTable(stack, n)| == |EmittedChildren(n, |n.routes|)| + 3
      && name == Upper(Join(stack + [Upper(n.define)] + [Upper(c.define)]))
      && (c.kind == ROUTER ==> RoutingTable(stack, n)[1 + j] == RouterEntry(name, isSecure))
      && (c.kind == COMMAND ==> RoutingTable(stack, n)[1 + j] == CommandEntry(name, isSecure))
  {
    var children := EmittedChildren(n, |n.routes|);
    var i := children[j];
    TableListsChildren(stack, n);
    StepToChild(stack, n, i);
    assert RoutingTable(stack, n)[1 + j] == EntryLinesAt(stack, n, children)[j];
  }

  // ---------------------------------------------------------------------
  // Children of unknown type

  /** `n` with item `i` of its `routes` deleted. */
  function WithoutChild(n: Node, i: nat): Node
    requires i < |n.routes|
  {
    Node(n.define, n.kind, n.routes[..i] + n.routes[i + 1..], n.secure)
  }

  /**
   * Deleting a child whose type is neither "router" nor "command" changes
   * neither the header nor the routing tables: such a child produces no
   * line at all.
   */
  lemma UnknownChildIgnored(stack: seq<string>, n: Node, i: nat)
    requires i < |n.routes| && !IsEmitted(n.routes[i].node)
    ensures Defines(stack, WithoutChild(n, i)) == Defines(stack, n)
    ensures RoutingTable(stack, WithoutChild(n, i)) == RoutingTable(stack, n)
    ensures RoutingTables(stack, WithoutChild(n, i)) == RoutingTables(stack, n)
  {
    var path, m := stack + [Upper(n.define)], WithoutChild(n, i);
    DeletedLength(n.routes, i);
    var last := |m.routes|;
    DefinesAfter(path, n, m, i, last);
    EntriesAfter(path, n, m, i, last);
    TablesAfter(path, n, m, i, last);
    WithoutChildDefines(stack, n, m, i);
    WithoutChildTable(stack, n, m, i);
    WithoutChildTables(stack, n, m, i);
  }

  lemma WithoutChildDefines(stack: seq<string>, n: Node, m: Node, i: nat)
    requires Deleted(n, m, i) && m.define == n.define && |m.routes| + 1 == |n.routes|
    requires DefinesUpTo(stack + [Upper(n.define)], n, |m.routes| + 1) == DefinesUpTo(stack + [Upper(n.define)], m, |m.routes|)
    ensures Defines(stack, m) == Defines(stack, n)
  {
  }

  lemma WithoutChildTable(stack: seq<string>, n: Node, m: Node, i: nat)
    requires Deleted(n, m, i) && m.define == n.define && |m.routes| + 1 == |n.routes|
    requires EntriesUpTo(stack + [Upper(n.define)], n, |m.routes| + 1) == EntriesUpTo(stack + [Upper(n.define)], m, |m.routes|)
    ensures RoutingTable(stack, m) == RoutingTable(stack, n)
  {
  }

  lemma WithoutChildTables(stack: seq<string>, n: Node, m: Node, i: nat)
    requires Deleted(n, m, i) && m.define == n.define && |m.routes| + 1 == |n.routes|
    requires RoutingTable(stack, m) == RoutingTable(stack, n)
    requires TablesUpTo(stack + [Upper(n.define)], n, |m.routes| + 1) == TablesUpTo(stack + [Upper(n.define)], m, |m.routes|)
    ensures RoutingTables(stack, m) == RoutingTables(stack, n)
  {
  }

  /** Item `i` of `n.routes` is deleted in `m.routes`. */
  predicate Deleted(n: Node, m: Node, i: nat) {
    i < |n.routes| && m.routes == n.routes[..i] + n.routes[i + 1..]
  }

  /** The position in `m` of item `j` of `n`, other than the deleted item `i`. */
  lemma Shifted(n: Node, m: Node, i: nat, j: nat)
    requires Deleted(n, m, i) && j < |n.routes| && j != i
    ensures var j' := if j < i then j else j - 1;
      j' < |m.routes| && m.routes[j'] == n.routes[j]
  {
    DeleteAt(n.routes, i, if j < i then j else j - 1);
  }

  // What the loops write for a child depends only on the child (and the stack), not on its position.

  lemma SameDefines(path: seq<string>, n: Node, a: nat, m: Node, b: nat)
    requires a < |n.routes| && b < |m.routes| && n.routes[a] == m.routes[b]
    ensures EntryDefines(path, n, a) == EntryDefines(path, m, b)
  {
  }

  lemma SameEntry(path: seq<string>, n: Node, a: nat, m: Node, b: nat)
    requires a < |n.routes| && b < |m.routes| && n.routes[a] == m.routes[b]
    ensures TableEntry(path, n, a) == TableEntry(path, m, b)
  {
  }

  lemma SameTables(path: seq<string>, n: Node, a: nat, m: Node, b: nat)
    requires a < |n.routes| && b < |m.routes| && n.routes[a] == m.routes[b]
    ensures EntryTables(path, n, a) == EntryTables(path, m, b)
  {
  }

  /** A child of unknown type makes the loops write nothing. */
  lemma Dropped(path: seq<string>, n: Node, i: nat)
    requires i < |n.routes| && !IsEmitted(n.routes[i].node)
    ensures EntryDefines(path, n, i) == [] && TableEntry(path, n, i) == [] && EntryTables(path, n, i) == []
  {
  }

  lemma {:induction false} DefinesBefore(path: seq<string>, n: Node, m: Node, i: nat, k: nat)
    requires Deleted(n, m, i) && k <= i
    ensures DefinesUpTo(path, n, k) == DefinesUpTo(path, m, k)
  {
    if k > 0 {
      var j := k - 1;
      DefinesBefore(path, n, m, i, j);
      DefinesBeforeStep(path, n, m, i, j);
    }
  }

  lemma DefinesBeforeStep(path: seq<string>, n: Node, m: Node, i: nat, j: nat)
    requires Deleted(n, m, i) && j < i
    requires DefinesUpTo(path, n, j) == DefinesUpTo(path, m, j)
    ensures DefinesUpTo(path, n, j + 1) == DefinesUpTo(path, m, j + 1)
  {
    DeletedLength(n.routes, i);
    Shifted(n, m, i, j);
    SameDefines(path, n, j, m, j);
  }

  /** After the deleted item, `m` is one iteration behind `n`. */
  lemma {:induction false} DefinesAfter(path: seq<string>, n: Node, m: Node, i: nat, j: nat)
    requires Deleted(n, m, i) && !IsEmitted(n.routes[i].node) && i <= j < |n.routes|
    ensures DefinesUpTo(path, n, j + 1) == DefinesUpTo(path, m, j)
  {
    if j == i {
      DefinesBefore(path, n, m, i, i);
      Dropped(path, n, i);
    } else {
      var h := j - 1;
      DefinesAfter(path, n, m, i, h);
      DefinesAfterStep(path, n, m, i, h);
    }
  }

  lemma DefinesAfterStep(path: seq<string>, n: Node, m: Node, i: nat, h: nat)
    requires Deleted(n, m, i) && i <= h && h + 2 <= |n.routes|
    requires DefinesUpTo(path, n, h + 1) == DefinesUpTo(path, m, h)
    ensures DefinesUpTo(path, n, h + 2) == DefinesUpTo(path, m, h + 1)
  {
    DeletedLength(n.routes, i);
    Shifted(n, m, i, h + 1);
    SameDefines(path, n, h + 1, m, h);
  }

  lemma {:induction false} EntriesBefore(path: seq<string>, n: Node, m: Node, i: nat, k: nat)
    requires Deleted(n, m, i) && k <= i
    ensures EntriesUpTo(path, n, k) == EntriesUpTo(path, m, k)
  {
    if k > 0 {
      var j := k - 1;
      EntriesBefore(path, n, m, i, j);
      EntriesBeforeStep(path, n, m, i, j);
    }
  }

  lemma EntriesBeforeStep(path: seq<string>, n: Node, m: Node, i: nat, j: nat)
    requires Deleted(n, m, i) && j < i
    requires EntriesUpTo(path, n, j) == EntriesUpTo(path, m, j)
    ensures EntriesUpTo(path, n, j + 1) == EntriesUpTo(path, m, j + 1)
  {
    DeletedLength(n.routes, i);
    Shifted(n, m, i, j);
    SameEntry(path, n, j, m, j);
  }

  /** After the deleted item, `m` is one iteration behind `n`. */
  lemma {:induction false} EntriesAfter(path: seq<string>, n: Node, m: Node, i: nat, j: nat)
    requires Deleted(n, m, i) && !IsEmitted(n.routes[i].node) && i <= j < |n.routes|
    ensures EntriesUpTo(path, n, j + 1) == EntriesUpTo(path, m, j)
  {
    if j == i {
      EntriesBefore(path, n, m, i, i);
      Dropped(path, n, i);
    } else {
      var h := j - 1;
      EntriesAfter(path, n, m, i, h);
      EntriesAfterStep(path, n, m, i, h);
    }
  }

  lemma EntriesAfterStep(path: seq<string>, n: Node, m: Node, i: nat, h: nat)
    requires Deleted(n, m, i) && i <= h && h + 2 <= |n.routes|
    requires EntriesUpTo(path, n, h + 1) == EntriesUpTo(path, m, h)
    ensures EntriesUpTo(path, n, h + 2) == EntriesUpTo(path, m, h + 1)
  {
    DeletedLength(n.routes, i);
    Shifted(n, m, i, h + 1);
    SameEntry(path, n, h + 1, m, h);
  }

  lemma {:induction false} TablesBefore(path: seq<string>, n: Node, m: Node, i: nat, k: nat)
    requires Deleted(n, m, i) && k <= i
    ensures TablesUpTo(path, n, k) == TablesUpTo(path, m, k)
  {
    if k > 0 {
      var j := k - 1;
      TablesBefore(path, n, m, i, j);
      TablesBeforeStep(path, n, m, i, j);
    }
  }

  lemma TablesBeforeStep(path: seq<string>, n: Node, m: Node, i: nat, j: nat)
    requires Deleted(n, m, i) && j < i
    requires TablesUpTo(path, n, j) == TablesUpTo(path, m, j)
    ensures TablesUpTo(path, n, j + 1) == TablesUpTo(path, m, j + 1)
  {
    DeletedLength(n.routes, i);
    Shifted(n, m, i, j);
    SameTables(path, n, j, m, j);
  }

  /** After the deleted item, `m` is one iteration behind `n`. */
  lemma {:induction false} TablesAfter(path: seq<string>, n: Node, m: Node, i: nat, j: nat)
    requires Deleted(n, m, i) && !IsEmitted(n.routes[i].node) && i <= j < |n.routes|
    ensures TablesUpTo(path, n, j + 1) == TablesUpTo(path, m, j)
  {
    if j == i {
      TablesBefore(path, n, m, i, i);
      Dropped(path, n, i);
    } else {
      var h := j - 1;
      TablesAfter(path, n, m, i, h);
      TablesAfterStep(path, n, m, i, h);
    }
  }

  lemma TablesAfterStep(path: seq<string>, n: Node, m: Node, i: nat, h: nat)
    requires Deleted(n, m, i) && i <= h && h + 2 <= |n.routes|
    requires TablesUpTo(path, n, h + 1) == TablesUpTo(path, m, h)
    ensures TablesUpTo(path, n, h + 2) == TablesUpTo(path, m, h + 1)
  {
    DeletedLength(n.routes, i);
    Shifted(n, m, i, h + 1);
    SameTables(path, n, h + 1, m, h);
  }

  // ---------------------------------------------------------------------
  // The header and the tables agree

  lemma {:induction false} AncestorsAllUpper(n: Node, p: seq<nat>)
    ensures AllUpper(Ancestors(n, p))
    decreases p
  {
    if |p| > 0 && p[0] < |n.routes| {
      var rest := Ancestors(n.routes[p[0]].node, p[1..]);
      AncestorsAllUpper(n.routes[p[0]].node, p[1..]);
      UpperIsUpper(n.define);
      AllUpperAppend([Upper(n.define)], rest);
    }
  }

  lemma NonBlankSubset(lines: seq<string>)
    ensures forall x :: x in NonBlank(lines) ==> x in lines
  {
  }

  /**
   * For every router or command, with a name stack of upper-case parts (as
   * the empty default stack is): its `#define` is in the header; its table
   * entry, under the same name, is in the inline file; a router's table is
   * named after the lower-cased name, and a command's handler prototype
   * after the lower-cased name.
   */
  lemma CrossArtifactAgreement(stack: seq<string>, n: Node, p: seq<nat>)
    requires AllUpper(stack) && ValidPath(n, p)
    ensures DefineLine(NameAt(stack, n, p), IdAt(n, p)) in Defines(stack, n)
    ensures EntryText(NameAt(stack, n, p), NodeAt(n, p)) in RoutingTables(stack, n)
    ensures NodeAt(n, p).kind == ROUTER ==> TableHeader(Lower(NameAt(stack, n, p))) in RoutingTables(stack, n)
    ensures NodeAt(n, p).kind == COMMAND ==> ExternLine(NameAt(stack, n, p)) in RoutingTables(stack, n)
  {
    DefineInHeader(stack, n, p);
    EntryInTables(stack, n, p);
    DeclarationInTables(stack, n, p);
    NameIsJoin(stack, n, p);
  }

  /** The first line of a node's declaration (a router's table header, a command's extern line) is in the inline file. */
  lemma DeclarationInTables(stack: seq<string>, n: Node, p: seq<nat>)
    requires ValidPath(n, p)
    ensures |DeclarationAt(stack, n, p)| > 0 && DeclarationAt(stack, n, p)[0] in RoutingTables(stack, n)
  {
    DeclarationBeforeRootTable(stack, n, p);
    var pre, post :| RoutingTables(stack, n) == pre + DeclarationAt(stack, n, p) + post + RoutingTable(stack, n);
    assert RoutingTables(stack, n)[|pre|] == DeclarationAt(stack, n, p)[0];
  }

  /** Under an upper-case stack the final `.upper()` of a scoped name changes nothing. */
  lemma NameIsJoin(stack: seq<string>, n: Node, p: seq<nat>)
    requires AllUpper(stack)
    ensures NameAt(stack, n, p) == Join(StackAt(stack, n, p) + [Upper(NodeAt(n, p).define)])
  {
    var m, s := NodeAt(n, p), StackAt(stack, n, p);
    AncestorsAllUpper(n, p);
    UpperIsUpper(m.define);
    AllUpperAppend(stack, Ancestors(n, p));
    AllUpperAppend(s, [Upper(m.define)]);
    JoinOfUpperIsUpper(s + [Upper(m.define)]);
  }

  lemma DefineInHeader(stack: seq<string>, n: Node, p: seq<nat>)
    requires ValidPath(n, p)
    ensures DefineLine(NameAt(stack, n, p), IdAt(n, p)) in Defines(stack, n)
  {
    DefinesFollowPreOrder(stack, n);
    PreOrderIsValidPaths(n);
    var ps := PreOrder(n);
    var j :| 0 <= j < |ps| && ps[j] == p;
    assert DefineLinesAt(stack, n, ps)[j] == DefineLine(NameAt(stack, n, p), IdAt(n, p));
    NonBlankSubset(Defines(stack, n));
  }

  lemma {:induction false} EntryInTables(stack: seq<string>, n: Node, p: seq<nat>)
    requires ValidPath(n, p)
    ensures EntryText(NameAt(stack, n, p), NodeAt(n, p)) in RoutingTables(stack, n)
    decreases p
  {
    var i := p[0];
    var c := n.routes[i].node;
    var path := stack + [Upper(n.define)];
    if |p| == 1 {
      assert p == [i];
      TableListsChildren(stack, n);
      var children := EmittedChildren(n, |n.routes|);
      var j :| 0 <= j < |children| && children[j] == i;
      assert EntryLinesAt(stack, n, children)[j] == EntryText(NameAt(stack, n, p), NodeAt(n, p));
      assert EntryText(NameAt(stack, n, p), NodeAt(n, p)) in RoutingTable(stack, n);
    } else {
      var q := p[1..];
      assert p == [i] + q;
      StepIn(stack, n, i, q);
      StepToChild(stack, n, i);
      EntryInTables(path, c, q);
      assert [i] + [] == [i];
      StepInPath(n, i, []);
      SubtreeTablesBeforeTable(stack, n, [i]);
      var pre, post :| RoutingTables(stack, n) == pre + RoutingTables(path, c) + post + RoutingTable(stack, n);
    }
  }
}
