/** The writes that build the graph, and the structure every run of them keeps. */
module WriteApi {
  import opened NodeRecord
  import opened NodeHistory
  import opened RangeGraph

  // ----- the environment a name belongs to -----

  /** What precedes the first '#', the whole name if there is none. */
  function EnvOf(x: string): string
  {
    if x == "" || x[0] == '#' then "" else [x[0]] + EnvOf(x[1..])
  }

  lemma {:induction false} EnvOfPrefixed(env: string, rest: string)
    ensures EnvOf(env + "#" + rest) == EnvOf(env)
    ensures '#' in env + "#" + rest
  {
    var x := env + "#" + rest;
    assert x[|env|] == '#';
    if env != "" {
      EnvOfPrefixed(env[1..], rest);
      assert x[1..] == env[1..] + "#" + rest && x[0] == env[0];
    }
  }

  lemma {:induction false} EnvOfPlain(env: string)
    requires '#' !in env
    ensures EnvOf(env) == env
  {
    if env != "" {
      EnvOfPlain(env[1..]);
      assert env == [env[0]] + env[1..];
    }
  }

  lemma EnvOfName(env: string, node: string)
    requires env != ""
    ensures EnvOf(Prefixed(env, node)) == EnvOf(env)
    ensures node != "" ==> '#' in Prefixed(env, node)
  {
    if node != "" {
      EnvOfPrefixed(env, node);
    }
  }

  // ----- the state and its invariant -----

  datatype Store = Store(primary: Graph, dependency: Graph)

  /** Forward and reverse edges are mirror images. */
  ghost predicate Mirrored(g: Graph)
  {
    forall a, b :: b in ForwardEdges(g, a) <==> a in ReverseEdges(g, b)
  }

  /** Environments hold clusters of their own, clusters hold other clusters of the same environment or
      hosts. */
  ghost predicate EdgeOk(g: Graph, a: string, b: string)
  {
    || (TypeOf(g, a).ENVIRONMENT? && TypeOf(g, b).CLUSTER? && EnvOf(b) == a)
    || (TypeOf(g, a).CLUSTER? && TypeOf(g, b).CLUSTER? && EnvOf(b) == EnvOf(a) && a != b)
    || (TypeOf(g, a).CLUSTER? && TypeOf(g, b).HOST?)
  }

  ghost predicate EdgesTyped(g: Graph)
  {
    forall a, b | b in ForwardEdges(g, a) :: EdgeOk(g, a, b)
  }

  ghost predicate NameOk(g: Graph, x: string)
  {
    && (TypeOf(g, x).ENVIRONMENT? ==> x != "" && '#' !in x)
    && (TypeOf(g, x).CLUSTER? ==> '#' in x && TypeOf(g, EnvOf(x)).ENVIRONMENT?)
  }

  ghost predicate NamesOk(g: Graph)
  {
    forall x | x in g :: NameOk(g, x)
  }

  /** All clusters right above a node belong to one environment. */
  ghost predicate OneEnvironment(g: Graph)
  {
    forall a, b, h | h in ForwardEdges(g, a) && h in ForwardEdges(g, b) && TypeOf(g, h).HOST? :: EnvOf(a) == EnvOf(b)
  }

  ghost predicate GraphOk(g: Graph)
  {
    Mirrored(g) && EdgesTyped(g) && NamesOk(g) && OneEnvironment(g)
  }

  /** Every node exists in both graphs with the same type. */
  ghost predicate StoreOk(s: Store)
  {
    && GraphOk(s.primary)
    && s.dependency.Keys == s.primary.Keys
    && forall x | x in s.primary :: s.dependency[x].nodeType == s.primary[x].nodeType
  }

  // ----- graph updates -----

  function Created(g: Graph, x: string, t: NodeType): Graph
  {
    g[x := Vertex(t, [], [], map[])]
  }

  /** `add_forward_edge` with the other end's reverse edge.  Each end is an object of its own with the
      record it loaded beforehand, and the other end's record is written last, as it was loaded. */
  function Linked(g: Graph, a: string, b: string): Graph
    requires a in g && b in g
  {
    var g1 := g[a := g[a].(forward := g[a].forward + [b])];
    if a in g[b].reverse then g1 else g1[b := g[b].(reverse := g[b].reverse + [a])]
  }

  /** `remove_forward_edge` (or `remove_reverse_edge`) with the other end's edge. */
  function Unlinked(g: Graph, a: string, b: string): Graph
    requires a in g && b in g
  {
    g[a := g[a].(forward := Without(g[a].forward, b))][b := g[b].(reverse := Without(g[b].reverse, a))]
  }

  lemma LinkedEdges(g: Graph, a: string, b: string)
    requires a in g && b in g && a != b && Mirrored(g) && b !in ForwardEdges(g, a)
    ensures forall x, y :: y in ForwardEdges(Linked(g, a, b), x) <==> y in ForwardEdges(g, x) || (x == a && y == b)
    ensures forall x, y :: y in ReverseEdges(Linked(g, a, b), x) <==> y in ReverseEdges(g, x) || (x == b && y == a)
    ensures Linked(g, a, b).Keys == g.Keys && forall x :: TypeOf(Linked(g, a, b), x) == TypeOf(g, x)
  {
    assert Linked(g, a, b).Keys == g.Keys;
    assert a !in ReverseEdges(g, b);
    assert forall y :: y in g[a].forward + [b] <==> y in g[a].forward || y == b;
    assert forall y :: y in g[b].reverse + [a] <==> y in g[b].reverse || y == a;
  }

  lemma WithoutMembers(s: seq<string>, x: string, y: string)
    ensures y in Without(s, x) <==> y in s && y != x
  {
    WithoutNames(s, x);
    assert y in Without(s, x) <==> y in Names(Without(s, x));
    assert y in s <==> y in Names(s);
  }

  lemma UnlinkedEdges(g: Graph, a: string, b: string)
    requires a in g && b in g && a != b && Mirrored(g)
    ensures forall x, y :: y in ForwardEdges(Unlinked(g, a, b), x) <==> y in ForwardEdges(g, x) && !(x == a && y == b)
    ensures forall x, y :: y in ReverseEdges(Unlinked(g, a, b), x) <==> y in ReverseEdges(g, x) && !(x == b && y == a)
    ensures Unlinked(g, a, b).Keys == g.Keys && forall x :: TypeOf(Unlinked(g, a, b), x) == TypeOf(g, x)
  {
    assert Unlinked(g, a, b).Keys == g.Keys;
    forall y ensures y in Without(g[a].forward, b) <==> y in g[a].forward && y != b {
      WithoutMembers(g[a].forward, b, y);
    }
    forall y ensures y in Without(g[b].reverse, a) <==> y in g[b].reverse && y != a {
      WithoutMembers(g[b].reverse, a, y);
    }
  }

  // ----- updates keep the invariant -----

  lemma EdgeTypesKept(g: Graph, g': Graph)
    requires forall x :: TypeOf(g', x) == TypeOf(g, x)
    ensures forall a, b :: EdgeOk(g', a, b) <==> EdgeOk(g, a, b)
    ensures forall x :: NameOk(g', x) <==> NameOk(g, x)
  {
  }

  /** A new edge of the right kind, whose lower end's other clusters share its environment. */
  lemma LinkOk(g: Graph, a: string, b: string)
    requires GraphOk(g) && a in g && b in g && b !in ForwardEdges(g, a) && EdgeOk(g, a, b)
    requires TypeOf(g, b).HOST? ==> forall c | c in ReverseEdges(g, b) :: EnvOf(c) == EnvOf(a)
    ensures GraphOk(Linked(g, a, b))
  {
    LinkedEdges(g, a, b);
    EdgeTypesKept(g, Linked(g, a, b));
    var g' := Linked(g, a, b);
    forall c, d, h | h in ForwardEdges(g', c) && h in ForwardEdges(g', d) && TypeOf(g', h).HOST?
      ensures EnvOf(c) == EnvOf(d)
    {
      assert h == b && h in ForwardEdges(g, c) ==> c in ReverseEdges(g, b);
      assert h == b && h in ForwardEdges(g, d) ==> d in ReverseEdges(g, b);
    }
  }

  lemma UnlinkOk(g: Graph, a: string, b: string)
    requires GraphOk(g) && a in g && b in g && a != b
    ensures GraphOk(Unlinked(g, a, b))
  {
    UnlinkedEdges(g, a, b);
    EdgeTypesKept(g, Unlinked(g, a, b));
  }

  /** In a mirrored graph a name without a record has no edges at all. */
  lemma CreateOk(g: Graph, x: string, t: NodeType)
    requires GraphOk(g) && x !in g
    requires t.ENVIRONMENT? ==> x != "" && '#' !in x
    requires t.CLUSTER? ==> '#' in x && TypeOf(g, EnvOf(x)).ENVIRONMENT?
    ensures GraphOk(Created(g, x, t))
    ensures ForwardEdges(Created(g, x, t), x) == [] && ReverseEdges(Created(g, x, t), x) == []
  {
    var g' := Created(g, x, t);
    forall y ensures ForwardEdges(g', y) == ForwardEdges(g, y) && ReverseEdges(g', y) == ReverseEdges(g, y) {
    }
    assert forall a :: x !in ForwardEdges(g, a);
    forall a, b | b in ForwardEdges(g', a) ensures EdgeOk(g', a, b) {
      assert EdgeOk(g, a, b);
      assert a != x && b != x;
    }
    forall y | y in g' ensures NameOk(g', y) {
      assert y != x ==> NameOk(g, y);
    }
  }

  // ----- the write operations -----

  datatype Error = NotCreated | InvalidEnvironment | IncorrectNodeType | NodeNotFound | NodeExists | EdgeNotFound

  datatype Outcome = Done(store: Store) | Failed(error: Error)

  datatype Write =
    | CreateEnv(env: string)
    | AddClusterToEnv(env: string, cluster: string)
    | RemoveClusterFromEnv(env: string, cluster: string)
    | AddClusterToCluster(env: string, parent: string, child: string)
    | RemoveClusterFromCluster(env: string, parent: string, child: string)
    | AddHostToCluster(env: string, parent: string, host: string)
    | RemoveHostFromCluster(env: string, parent: string, host: string)
    | AddHost(host: string)

  function Ensured(g: Graph, x: string, t: NodeType): Graph
  {
    if x in g then g else Created(g, x, t)
  }

  /** The lower node, created if missing, linked below `a` unless it is there already. */
  function LinkedBelow(s: Store, a: string, b: string, t: NodeType): Store
    requires a in s.primary
  {
    var g := Ensured(s.primary, b, t);
    Store(if b in g[a].forward then g else Linked(g, a, b), Ensured(s.dependency, b, t))
  }

  function AddedClusterToEnv(s: Store, env: string, cluster: string): Outcome
  {
    var b := Prefixed(env, cluster);
    if env !in s.primary then Failed(InvalidEnvironment)
    else if !s.primary[env].nodeType.ENVIRONMENT? then Failed(IncorrectNodeType)
    else if b in s.primary && !s.primary[b].nodeType.CLUSTER? then Failed(IncorrectNodeType)
    else if b in s.primary[env].forward then Failed(NodeExists)
    else Done(LinkedBelow(s, env, b, CLUSTER))
  }

  function AddedClusterToCluster(s: Store, env: string, parent: string, child: string): Outcome
  {
    var a, b := Prefixed(env, parent), Prefixed(env, child);
    if a !in s.primary then Failed(NodeNotFound)
    else if !s.primary[a].nodeType.CLUSTER? then Failed(IncorrectNodeType)
    else if b in s.primary && !s.primary[b].nodeType.CLUSTER? then Failed(IncorrectNodeType)
    else Done(LinkedBelow(s, a, b, CLUSTER))
  }

  /** Every cluster right above the host is named as one of the environment's. */
  ghost predicate HostIn(g: Graph, env: string, host: string)
  {
    forall c | c in ReverseEdges(g, host) && TypeOf(g, c).CLUSTER? :: env + "#" <= c
  }

  ghost function AddedHostToCluster(s: Store, env: string, parent: string, host: string): Outcome
  {
    var a := Prefixed(env, parent);
    if a !in s.primary then Failed(NodeNotFound)
    else if !s.primary[a].nodeType.CLUSTER? then Failed(IncorrectNodeType)
    else if host in s.primary && !s.primary[host].nodeType.HOST? then Failed(IncorrectNodeType)
    else if !HostIn(s.primary, env, host) then Failed(InvalidEnvironment)
    else if host in s.primary[a].forward then Failed(NodeExists)
    else Done(LinkedBelow(s, a, host, HOST))
  }

  /** The three edge removals, which check the upper node first. */
  function Removed(s: Store, a: string, b: string, upper: NodeType, lower: NodeType, missing: Error): Outcome
  {
    if a !in s.primary then Failed(missing)
    else if b !in s.primary then Failed(NodeNotFound)
    else if s.primary[a].nodeType != upper then Failed(IncorrectNodeType)
    else if s.primary[b].nodeType != lower then Failed(IncorrectNodeType)
    else if b !in s.primary[a].forward then Failed(EdgeNotFound)
    else Done(s.(primary := Unlinked(s.primary, a, b)))
  }

  function AddedNode(s: Store, x: string, t: NodeType): Store
  {
    Store(Created(s.primary, x, t), Created(s.dependency, x, t))
  }

  /** What one write does to the two graphs. */
  ghost function ApplyWrite(s: Store, w: Write): Outcome
  {
    match w
    case CreateEnv(env) =>
      if env in s.primary || env in s.dependency then Failed(NotCreated) else Done(AddedNode(s, env, ENVIRONMENT))
    case AddClusterToEnv(env, cluster) => AddedClusterToEnv(s, env, cluster)
    case RemoveClusterFromEnv(env, cluster) =>
      Removed(s, env, Prefixed(env, cluster), ENVIRONMENT, CLUSTER, InvalidEnvironment)
    case AddClusterToCluster(env, parent, child) => AddedClusterToCluster(s, env, parent, child)
    case RemoveClusterFromCluster(env, parent, child) =>
      Removed(s, Prefixed(env, parent), Prefixed(env, child), CLUSTER, CLUSTER, NodeNotFound)
    case AddHostToCluster(env, parent, host) => AddedHostToCluster(s, env, parent, host)
    case RemoveHostFromCluster(env, parent, host) =>
      Removed(s, Prefixed(env, parent), host, CLUSTER, HOST, NodeNotFound)
    case AddHost(host) =>
      if host in s.primary || host in s.dependency then Failed(NodeExists) else Done(AddedNode(s, host, HOST))
  }

  /** What the callers owe: an environment has a non-empty name without '#', and a cluster is put into
      another cluster, of a named environment. */
  predicate Permitted(w: Write)
  {
    match w
    case CreateEnv(env) => env != "" && '#' !in env
    case AddClusterToCluster(env, parent, child) => env != "" && parent != child
    case _ => true
  }

  ghost function After(s: Store, w: Write): Store
  {
    if ApplyWrite(s, w).Done? then ApplyWrite(s, w).store else s
  }

  ghost function AfterAll(s: Store, ws: seq<Write>): Store
  {
    if ws == [] then s else After(AfterAll(s, ws[..|ws| - 1]), ws[|ws| - 1])
  }

  predicate AllPermitted(ws: seq<Write>)
  {
    forall i | 0 <= i < |ws| :: Permitted(ws[i])
  }

  // ----- every write keeps the structure -----

  /** Two names under one environment's prefix are equal only if they were. */
  lemma PrefixedInjective(env: string, x: string, y: string)
    requires env != "" && x != y
    ensures Prefixed(env, x) != Prefixed(env, y)
  {
    var p := EnvPrefix(env);
    assert x != "" ==> Prefixed(env, x)[|p|..] == x;
    assert y != "" ==> Prefixed(env, y)[|p|..] == y;
  }

  /** In a well-formed graph no node is its own neighbour. */
  lemma NoSelfLink(g: Graph, a: string)
    requires GraphOk(g)
    ensures a !in ForwardEdges(g, a) && a !in ReverseEdges(g, a)
  {
    assert a in ForwardEdges(g, a) ==> EdgeOk(g, a, a);
    assert a in ReverseEdges(g, a) <==> a in ForwardEdges(g, a);
  }

  lemma AddedNodeOk(s: Store, x: string, t: NodeType)
    requires StoreOk(s) && x !in s.primary
    requires t.ENVIRONMENT? ==> x != "" && '#' !in x
    requires t.CLUSTER? ==> '#' in x && TypeOf(s.primary, EnvOf(x)).ENVIRONMENT?
    ensures StoreOk(AddedNode(s, x, t))
    ensures ForwardEdges(AddedNode(s, x, t).primary, x) == [] && ReverseEdges(AddedNode(s, x, t).primary, x) == []
  {
    CreateOk(s.primary, x, t);
  }

  /** Nothing links to a name without a record. */
  lemma LinkedBelowOk(s: Store, a: string, b: string, t: NodeType)
    requires StoreOk(s) && a in s.primary && (b in s.primary ==> s.primary[b].nodeType == t)
    requires EdgeOk(Ensured(s.primary, b, t), a, b) && (t.CLUSTER? || t.HOST?)
    requires t.CLUSTER? ==> '#' in b && TypeOf(s.primary, EnvOf(b)).ENVIRONMENT?
    requires t.HOST? ==> forall c | c in ReverseEdges(s.primary, b) :: EnvOf(c) == EnvOf(a)
    ensures StoreOk(LinkedBelow(s, a, b, t))
  {
    var s1 := if b in s.primary then s else AddedNode(s, b, t);
    if b !in s.primary {
      AddedNodeOk(s, b, t);
    }
    assert StoreOk(s1) && s1.primary == Ensured(s.primary, b, t) && s1.dependency == Ensured(s.dependency, b, t);
    if b !in ForwardEdges(s1.primary, a) {
      LinkOk(s1.primary, a, b);
      LinkedEdges(s1.primary, a, b);
      forall x | x in s1.primary ensures s1.dependency[x].nodeType == Linked(s1.primary, a, b)[x].nodeType {
        assert TypeOf(Linked(s1.primary, a, b), x) == TypeOf(s1.primary, x);
      }
    }
  }

  lemma AddedClusterToEnvOk(s: Store, env: string, cluster: string)
    requires StoreOk(s) && AddedClusterToEnv(s, env, cluster).Done?
    ensures StoreOk(AddedClusterToEnv(s, env, cluster).store)
  {
    var b := Prefixed(env, cluster);
    assert NameOk(s.primary, env);
    EnvOfName(env, cluster);
    EnvOfPlain(env);
    LinkedBelowOk(s, env, b, CLUSTER);
  }

  lemma AddedClusterToClusterOk(s: Store, env: string, parent: string, child: string)
    requires StoreOk(s) && env != "" && parent != child && AddedClusterToCluster(s, env, parent, child).Done?
    ensures StoreOk(AddedClusterToCluster(s, env, parent, child).store)
  {
    var a, b := Prefixed(env, parent), Prefixed(env, child);
    assert NameOk(s.primary, a);
    EnvOfName(env, parent);
    EnvOfName(env, child);
    if '#' !in env {
      EnvOfPlain(env);
    }
    PrefixedInjective(env, parent, child);
    LinkedBelowOk(s, a, b, CLUSTER);
  }

  lemma SamePrefix(g: Graph, env: string, c: string, parent: string)
    requires NamesOk(g) && TypeOf(g, c).CLUSTER? && env + "#" <= c
    ensures EnvOf(c) == EnvOf(Prefixed(env, parent))
  {
    EnvOfPrefixed(env, c[|env| + 1..]);
    assert c == env + "#" + c[|env| + 1..];
    assert NameOk(g, c) && NameOk(g, EnvOf(c));
    EnvOfName(env, parent);
  }

  lemma AddedHostToClusterOk(s: Store, env: string, parent: string, host: string)
    requires StoreOk(s) && AddedHostToCluster(s, env, parent, host).Done?
    ensures StoreOk(AddedHostToCluster(s, env, parent, host).store)
  {
    var a := Prefixed(env, parent);
    assert NameOk(s.primary, a);
    forall c | c in ReverseEdges(s.primary, host) ensures EnvOf(c) == EnvOf(a) {
      assert host in ForwardEdges(s.primary, c) && EdgeOk(s.primary, c, host);
      SamePrefix(s.primary, env, c, parent);
    }
    LinkedBelowOk(s, a, host, HOST);
  }

  lemma RemovedOk(s: Store, a: string, b: string, upper: NodeType, lower: NodeType, missing: Error)
    requires StoreOk(s) && Removed(s, a, b, upper, lower, missing).Done?
    ensures StoreOk(Removed(s, a, b, upper, lower, missing).store)
  {
    var g' := Unlinked(s.primary, a, b);
    NoSelfLink(s.primary, a);
    UnlinkOk(s.primary, a, b);
    UnlinkedEdges(s.primary, a, b);
    forall x | x in g' ensures s.dependency[x].nodeType == g'[x].nodeType {
      assert TypeOf(g', x) == TypeOf(s.primary, x);
    }
  }

  /** Every permitted write, successful or not, keeps the structure. */
  lemma WriteKeeps(s: Store, w: Write)
    requires StoreOk(s) && Permitted(w)
    ensures StoreOk(After(s, w))
  {
    if ApplyWrite(s, w).Done? {
      match w
      case CreateEnv(env) => AddedNodeOk(s, env, ENVIRONMENT);
      case AddClusterToEnv(env, cluster) => AddedClusterToEnvOk(s, env, cluster);
      case RemoveClusterFromEnv(env, cluster) =>
        RemovedOk(s, env, Prefixed(env, cluster), ENVIRONMENT, CLUSTER, InvalidEnvironment);
      case AddClusterToCluster(env, parent, child) => AddedClusterToClusterOk(s, env, parent, child);
      case RemoveClusterFromCluster(env, parent, child) =>
        RemovedOk(s, Prefixed(env, parent), Prefixed(env, child), CLUSTER, CLUSTER, NodeNotFound);
      case AddHostToCluster(env, parent, host) => AddedHostToClusterOk(s, env, parent, host);
      case RemoveHostFromCluster(env, parent, host) =>
        RemovedOk(s, Prefixed(env, parent), host, CLUSTER, HOST, NodeNotFound);
      case AddHost(host) => AddedNodeOk(s, host, HOST);
    }
  }

  /** So does every run of them. */
  lemma {:induction false} RunsKeepStructure(s: Store, ws: seq<Write>)
    requires StoreOk(s) && AllPermitted(ws)
    ensures StoreOk(AfterAll(s, ws))
  {
    if ws != [] {
      var n := |ws| - 1;
      RunsKeepStructure(s, ws[..n]);
      WriteKeeps(AfterAll(s, ws[..n]), ws[n]);
    }
  }

  // ----- exactly when a write that is not permitted keeps the structure -----

  /** Creating an environment: exactly when it has a proper name, or is refused because it exists. */
  lemma CreateEnvExactly(s: Store, env: string)
    requires StoreOk(s)
    ensures StoreOk(After(s, CreateEnv(env))) <==> env in s.primary || (env != "" && '#' !in env)
  {
    if env !in s.primary {
      var s' := AddedNode(s, env, ENVIRONMENT);
      assert After(s, CreateEnv(env)) == s';
      if env != "" && '#' !in env {
        AddedNodeOk(s, env, ENVIRONMENT);
      } else {
        assert TypeOf(s'.primary, env).ENVIRONMENT? && !NameOk(s'.primary, env);
      }
    }
  }

  /** A record linked to itself is written twice, the second time without the forward edge. */
  lemma SelfLinkBreaks(g: Graph, a: string)
    requires a in g && a !in g[a].forward && a !in g[a].reverse
    ensures !Mirrored(Linked(g, a, a))
  {
    assert a in ReverseEdges(Linked(g, a, a), a) && a !in ForwardEdges(Linked(g, a, a), a);
  }

  /** Linking cluster `b` below cluster `a` keeps the structure exactly when they are two clusters, `b`
      under a name of the environment of `a`. */
  lemma LinkBelowExactly(s: Store, a: string, b: string)
    requires StoreOk(s) && TypeOf(s.primary, a).CLUSTER? && (b in s.primary ==> TypeOf(s.primary, b).CLUSTER?)
    ensures StoreOk(LinkedBelow(s, a, b, CLUSTER)) <==> '#' in b && EnvOf(b) == EnvOf(a) && a != b
  {
    var s' := LinkedBelow(s, a, b, CLUSTER);
    assert NameOk(s.primary, a);
    if a == b {
      NoSelfLink(s.primary, a);
      SelfLinkBreaks(s.primary, a);
    } else if '#' in b && EnvOf(b) == EnvOf(a) {
      LinkedBelowOk(s, a, b, CLUSTER);
    } else {
      assert b in ForwardEdges(s'.primary, a) && b in s'.primary;
      assert TypeOf(s'.primary, a).CLUSTER? && TypeOf(s'.primary, b).CLUSTER?;
      assert !NameOk(s'.primary, b) || !EdgeOk(s'.primary, a, b);
    }
  }

  /** With the name of the environment left out: exactly when both full names are of one environment, and
      not the same. */
  lemma UnnamedEnvironment(s: Store, a: string, b: string)
    requires StoreOk(s) && TypeOf(s.primary, a).CLUSTER? && (b in s.primary ==> TypeOf(s.primary, b).CLUSTER?)
    ensures StoreOk(After(s, AddClusterToCluster("", a, b))) <==> '#' in b && EnvOf(b) == EnvOf(a) && a != b
  {
    assert ApplyWrite(s, AddClusterToCluster("", a, b)) == Done(LinkedBelow(s, a, b, CLUSTER));
    LinkBelowExactly(s, a, b);
  }

  /** In a named environment: exactly when the cluster is not put into itself. */
  lemma SelfLinkExactly(s: Store, env: string, parent: string, child: string)
    requires StoreOk(s) && env != "" && ApplyWrite(s, AddClusterToCluster(env, parent, child)).Done?
    ensures StoreOk(After(s, AddClusterToCluster(env, parent, child))) <==> parent != child
  {
    if parent != child {
      AddedClusterToClusterOk(s, env, parent, child);
    } else {
      var a := Prefixed(env, parent);
      NoSelfLink(s.primary, a);
      SelfLinkBreaks(s.primary, a);
    }
  }
}
