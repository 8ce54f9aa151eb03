/**
 * The XAP code generator's tree walk: `_append_defines` emits the header
 * lines, `_append_routing_tables` and `_append_routing_table` emit the
 * inline routing tables. `lines` and `name_stack` are Python lists that
 * the three functions mutate; here each method takes their contents on
 * entry and returns their contents on return, and is proved against a
 * function that gives the lines it appends.
 */
module GenerateQmk {
  import opened Wrappers
  import opened Text
  import opened RouteTree
  import opened Sequences

  // ---------------------------------------------------------------------
  // The text of single lines

  /** `('_'.join(name_stack)).upper()` */
  function ScopedName(stack: seq<string>): string {
    Upper(Join(stack))
  }

  function DefineLine(name: string, id: string): string {
    "#define " + name + " " + id
  }

  function TableHeader(tableName: string): string {
    "static const xap_route_t " + tableName + "_routes[] = {"
  }

  /** `1` exactly when the child's `secure` field is the string `true`, `0` otherwise. */
  function SecureFlag(child: Node): string {
    if child.secure == Some(Str("true")) then "1" else "0"
  }

  function RouterEntry(name: string, isSecure: string): string {
    "    [" + name + "] = { .flags = { .type = XAP_ROUTE, .is_secure = " + isSecure + " }, .child_routes = "
    + Lower(name) + "_routes, .child_routes_len = sizeof(" + Lower(name) + "_routes)/sizeof("
    + Lower(name) + "_routes[0]) },"
  }

  function CommandEntry(name: string, isSecure: string): string {
    "    [" + name + "] = { .flags = { .type = XAP_EXECUTE, .is_secure = " + isSecure + " }, .handler = &"
    + Lower(name) + "_handler },"
  }

  function ExternLine(name: string): string {
    "extern bool " + Lower(name) + "_handler(xap_token_t token, const uint8_t *data, size_t data_len);"
  }

  /** The table entry a router or command child gets under its scoped name. */
  function EntryText(name: string, child: Node): string {
    if child.kind == ROUTER then RouterEntry(name, SecureFlag(child)) else CommandEntry(name, SecureFlag(child))
  }

  // ---------------------------------------------------------------------
  // What each walk appends. `stack` is the name stack on entry; `path` is
  // the stack after the container's own define has been pushed.

  /** The lines `_append_defines(lines, container, stack)` appends. */
  function Defines(stack: seq<string>, container: Node): seq<string>
    decreases container, 2, 0
  {
    DefinesUpTo(stack + [Upper(container.define)], container, |container.routes|)
  }

  /** The lines appended by the first `k` iterations of the loop over `routes`. */
  function DefinesUpTo(path: seq<string>, container: Node, k: nat): seq<string>
    requires k <= |container.routes|
    decreases container, 1, k
  {
    if k == 0 then [] else DefinesUpTo(path, container, k - 1) + EntryDefines(path, container, k - 1)
  }

  /** The lines appended by the iteration for item `i` of `routes`. */
  function EntryDefines(path: seq<string>, container: Node, i: nat): seq<string>
    requires i < |container.routes|
    decreases container, 0, 0
  {
    var route := container.routes[i].node;
    var name := ScopedName(path + [Upper(route.define)]);
    if route.kind == ROUTER then
      [DefineLine(name, container.routes[i].id), ""] + Defines(path, route) + [""]
    else if route.kind == COMMAND then
      [DefineLine(name, container.routes[i].id)]
    else
      []
  }

  /** The lines `_append_routing_table(lines, route, stack)` appends. */
  function RoutingTable(stack: seq<string>, route: Node): seq<string> {
    var path := stack + [Upper(route.define)];
    [TableHeader(Lower(Join(path)))] + EntriesUpTo(path, route, |route.routes|) + ["};", ""]
  }

  function EntriesUpTo(path: seq<string>, route: Node, k: nat): seq<string>
    requires k <= |route.routes|
  {
    if k == 0 then [] else EntriesUpTo(path, route, k - 1) + TableEntry(path, route, k - 1)
  }

  function TableEntry(path: seq<string>, route: Node, i: nat): seq<string>
    requires i < |route.routes|
  {
    var child := route.routes[i].node;
    if IsEmitted(child) then [EntryText(ScopedName(path + [Upper(child.define)]), child)] else []
  }

  /** The entry line for child `i`, by the child's type. */
  lemma TableEntryByKind(path: seq<string>, route: Node, i: nat)
    requires i < |route.routes|
    ensures var child := route.routes[i].node;
      var name := ScopedName(path + [Upper(child.define)]);
      TableEntry(path, route, i) ==
        if child.kind == ROUTER then [RouterEntry(name, SecureFlag(child))]
        else if child.kind == COMMAND then [CommandEntry(name, SecureFlag(child))]
        else []
  {
  }

  /** The lines `_append_routing_tables(lines, container, stack)` appends. */
  function RoutingTables(stack: seq<string>, container: Node): seq<string>
    decreases container, 2, 0
  {
    TablesUpTo(stack + [Upper(container.define)], container, |container.routes|) + RoutingTable(stack, container)
  }

  function TablesUpTo(path: seq<string>, container: Node, k: nat): seq<string>
    requires k <= |container.routes|
    decreases container, 1, k
  {
    if k == 0 then [] else TablesUpTo(path, container, k - 1) + EntryTables(path, container, k - 1)
  }

  function EntryTables(path: seq<string>, container: Node, i: nat): seq<string>
    requires i < |container.routes|
    decreases container, 0, 0
  {
    var route := container.routes[i].node;
    if route.kind == ROUTER then
      RoutingTables(path, route) + [""]
    else if route.kind == COMMAND then
      [ExternLine(ScopedName(path + [Upper(route.define)])), ""]
    else
      []
  }

  // ---------------------------------------------------------------------
  // The three generator functions. Each mutates the `lines` list and the
  // `name_stack` list it is given; both are threaded through here: the
  // out-parameters are the lists' contents when the Python function returns.

  method AppendDefines(lines: seq<string>, routeContainer: Node, nameStack: seq<string>)
    returns (lines': seq<string>, nameStack': seq<string>)
    ensures nameStack' == nameStack
    ensures lines' == lines + Defines(nameStack, routeContainer)
    decreases routeContainer
  {
    lines' := lines;
    nameStack' := nameStack + [Upper(routeContainer.define)];
    ghost var path := nameStack';
    for i := 0 to |routeContainer.routes|
      invariant nameStack' == path
      invariant lines' == lines + DefinesUpTo(path, routeContainer, i)
    {
      var routeId := routeContainer.routes[i].id;
      var route := routeContainer.routes[i].node;
      nameStack' := nameStack' + [Upper(route.define)];
      var name := ScopedName(nameStack');
      if route.kind == ROUTER {
        lines' := lines' + [DefineLine(name, routeId)];
        lines' := lines' + [""];
        var callerStack;
        lines', callerStack := AppendDefines(lines', route, nameStack'[..|nameStack'| - 1]);
        lines' := lines' + [""];
      } else if route.kind == COMMAND {
        lines' := lines' + [DefineLine(name, routeId)];
      }
      nameStack' := nameStack'[..|nameStack'| - 1];
    }
    nameStack' := nameStack'[..|nameStack'| - 1];
  }

  method AppendRoutingTable(lines: seq<string>, route: Node, nameStack: seq<string>)
    returns (lines': seq<string>, nameStack': seq<string>)
    ensures nameStack' == nameStack
    ensures lines' == lines + RoutingTable(nameStack, route)
  {
    lines' := lines;
    nameStack' := nameStack + [Upper(route.define)];
    ghost var path := nameStack';
    var tableName := Lower(Join(nameStack'));
    lines' := lines' + [TableHeader(tableName)];
    for i := 0 to |route.routes|
      invariant nameStack' == path
      invariant lines' == lines + [TableHeader(tableName)] + EntriesUpTo(path, route, i)
    {
      var child := route.routes[i].node;
      nameStack' := nameStack' + [Upper(child.define)];
      var name := ScopedName(nameStack');
      var isSecure := SecureFlag(child);
      ghost var before := lines';
      TableEntryByKind(path, route, i);
      if child.kind == ROUTER {
        lines' := lines' + [RouterEntry(name, isSecure)];
      } else if child.kind == COMMAND {
        lines' := lines' + [CommandEntry(name, isSecure)];
      }
      assert lines' == before + TableEntry(path, route, i);
      AppendAssoc(lines + [TableHeader(tableName)], EntriesUpTo(path, route, i), TableEntry(path, route, i));
      PushPop(path, Upper(child.define));
      nameStack' := nameStack'[..|nameStack'| - 1];
    }
    ghost var body := lines';
    lines' := lines' + ["};"];
    lines' := lines' + [""];
    AppendAssoc(body, ["};"], [""]);
    assert ["};"] + [""] == ["};", ""];
    AppendAssoc(lines, [TableHeader(tableName)], EntriesUpTo(path, route, |route.routes|));
    AppendAssoc(lines, [TableHeader(tableName)] + EntriesUpTo(path, route, |route.routes|), ["};", ""]);
    PushPop(nameStack, Upper(route.define));
    nameStack' := nameStack'[..|nameStack'| - 1];
  }

  method AppendRoutingTables(lines: seq<string>, routeContainer: Node, nameStack: seq<string>)
    returns (lines': seq<string>, nameStack': seq<string>)
    ensures nameStack' == nameStack
    ensures lines' == lines + RoutingTables(nameStack, routeContainer)
    decreases routeContainer
  {
    lines' := lines;
    nameStack' := nameStack + [Upper(routeContainer.define)];
    ghost var path := nameStack';
    for i := 0 to |routeContainer.routes|
      invariant nameStack' == path
      invariant lines' == lines + TablesUpTo(path, routeContainer, i)
    {
      var route := routeContainer.routes[i].node;
      nameStack' := nameStack' + [Upper(route.define)];
      var name := ScopedName(nameStack');
      ghost var before := lines';
      PushPop(path, Upper(route.define));
      if route.kind == ROUTER {
        var callerStack;
        lines', callerStack := AppendRoutingTables(lines', route, nameStack'[..|nameStack'| - 1]);
        lines' := lines' + [""];
        AppendAssoc(before, RoutingTables(path, route), [""]);
      } else if route.kind == COMMAND {
        lines' := lines' + [ExternLine(name)];
        lines' := lines' + [""];
        AppendAssoc(before, [ExternLine(name)], [""]);
        assert [ExternLine(name)] + [""] == [ExternLine(name), ""];
      }
      assert lines' == before + EntryTables(path, routeContainer, i);
      AppendAssoc(lines, TablesUpTo(path, routeContainer, i), EntryTables(path, routeContainer, i));
      nameStack' := nameStack'[..|nameStack'| - 1];
    }
    PushPop(nameStack, Upper(routeContainer.define));
    nameStack' := nameStack'[..|nameStack'| - 1];
    ghost var body := lines';
    lines', nameStack' := AppendRoutingTable(lines', routeContainer, nameStack');
    AppendAssoc(lines, TablesUpTo(path, routeContainer, |routeContainer.routes|), RoutingTable(nameStack, routeContainer));
  }
}
