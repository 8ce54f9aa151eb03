/**
 * The parsed XAP route definitions that the generator walks: nested
 * mappings in which every node has a `define` token and a `type`, and a
 * router maps route ids to child nodes under `routes`.
 */
module RouteTree {
  import opened Wrappers

  /** A scalar that can stand under a node's optional `secure` key. */
  datatype Scalar = Str(text: string) | Bool(flag: bool) | Int(number: int)

  /**
   * One node. `kind` is the value of its `type` key, compared by the
   * generator against "router" and "command" only; `routes` lists the
   * items of its `routes` mapping in iteration order (empty for nodes
   * that have none).
   */
  datatype Node = Node(define: string, kind: string, routes: seq<Entry>, secure: Option<Scalar>)

  /** One item of a `routes` mapping: the key as written, and the child it maps to. */
  datatype Entry = Entry(id: string, node: Node)

  const ROUTER := "router"
  const COMMAND := "command"

  /** A node the generator emits something for. */
  predicate IsEmitted(n: Node) {
    n.kind == ROUTER || n.kind == COMMAND
  }

  /**
   * `p` reaches a node the generator names: each element is a position in
   * the `routes` iteration order, every node passed through is a router,
   * and the node reached is a router or a command.
   */
  predicate ValidPath(n: Node, p: seq<nat>)
    decreases p
  {
    && |p| > 0
    && p[0] < |n.routes|
    && var c := n.routes[p[0]].node;
       if |p| == 1 then IsEmitted(c) else c.kind == ROUTER && ValidPath(c, p[1..])
  }

  /** The node reached by following `p` (meaningful when `ValidPath(n, p)`). */
  function NodeAt(n: Node, p: seq<nat>): Node
    decreases p
  {
    if |p| == 0 || p[0] >= |n.routes| then n else NodeAt(n.routes[p[0]].node, p[1..])
  }

  /** The route id under which the node reached by `p` sits in its parent's `routes`. */
  function IdAt(n: Node, p: seq<nat>): string
    decreases p
  {
    if |p| == 0 || p[0] >= |n.routes| then ""
    else if |p| == 1 then n.routes[p[0]].id
    else IdAt(n.routes[p[0]].node, p[1..])
  }
}
