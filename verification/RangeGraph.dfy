/** The graph as its readers see it: node names, types, ordered edges and tags; and how names carry
    their environment. */
module RangeGraph {
  import opened Basics
  import opened NodeRecord

  datatype Vertex = Vertex(
    nodeType: NodeType, forward: seq<string>, reverse: seq<string>, tags: map<string, seq<string>>)

  /** Edges may name nodes without a record of their own; those have type UNKNOWN and no edges. */
  type Graph = map<string, Vertex>

  function TypeOf(g: Graph, x: string): NodeType
  {
    if x in g then g[x].nodeType else UNKNOWN
  }

  function ForwardEdges(g: Graph, x: string): seq<string>
  {
    if x in g then g[x].forward else []
  }

  function ReverseEdges(g: Graph, x: string): seq<string>
  {
    if x in g then g[x].reverse else []
  }

  /** Only clusters and environments are traversed downwards. */
  function Out(g: Graph, x: string): seq<string>
  {
    if TypeOf(g, x).CLUSTER? || TypeOf(g, x).ENVIRONMENT? then ForwardEdges(g, x) else []
  }

  /** Every name the graph mentions. */
  ghost function Universe(g: Graph): set<string>
  {
    g.Keys + (set x, y | x in g && y in g[x].forward :: y) + (set x, y | x in g && y in g[x].reverse :: y)
  }

  // ----- names -----

  function EnvPrefix(env: string): string
  {
    if env != "" then env + "#" else ""
  }

  function Prefixed(env: string, node: string): string
  {
    if env != "" && node != "" then EnvPrefix(env) + node
    else if env != "" then env
    else node
  }

  function Unprefixed(env: string, node: string): string
  {
    if env != "" && node != "" && EnvPrefix(env) <= node then node[|EnvPrefix(env)|..]
    else if node != "" then node
    else env
  }

  /** A node's own name comes back from its prefixed one. */
  lemma UnprefixUndoes(env: string, node: string)
    requires node != ""
    ensures Unprefixed(env, Prefixed(env, node)) == node
  {
  }

  /** Two different nodes are shown under one name exactly when one is the other's name under the
      environment's prefix, and the other is not itself prefixed. */
  lemma ShownAlike(env: string, a: string, b: string)
    requires a != "" && b != "" && a != b
    ensures Unprefixed(env, a) == Unprefixed(env, b) <==>
      env != ""
          && ((a == EnvPrefix(env) + b && !(EnvPrefix(env) <= b))
              || (b == EnvPrefix(env) + a && !(EnvPrefix(env) <= a)))
  {
    var p := EnvPrefix(env);
    if p <= a {
      assert a == p + a[|p|..];
    }
    if p <= b {
      assert b == p + b[|p|..];
    }
  }

  /** The node a lookup by environment and name resolves to, if any. */
  function GetNode(g: Graph, env: string, node: string): (r: Option<string>)
    ensures r.Some? ==> r.value in g
  {
    if node == "" && env == "" then None
    else if node == "" || env == node then
      if env in g && g[env].nodeType.ENVIRONMENT? then Some(env) else None
    else if env == "" then
      if node in g && (g[node].nodeType.STRING? || g[node].nodeType.HOST?) then Some(node) else None
    else if Prefixed(env, node) in g then Some(Prefixed(env, node))
    else if node in g && g[node].nodeType.HOST? then Some(node) else None
  }
}
