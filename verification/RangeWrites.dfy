/** The write operations as they act on the two graphs, and the upward walk that guards host removal. */
module RangeWrites {
  import opened Basics
  import opened NodeRecord
  import opened NodeHistory
  import opened RangeGraph
  import opened Walks
  import opened BreadthFirst
  import opened WriteApi
  import TopologicalSort

  // ----- looking upwards -----

  ghost function Up(g: Graph): Successors
  {
    x => ReverseEdges(g, x)
  }

  /** The environment a node belongs to does not change on the way up, except at a host. */
  lemma {:induction false} SameEnvironmentAbove(g: Graph, p: seq<string>)
    requires GraphOk(g) && IsWalk(Up(g), p) && !TypeOf(g, p[0]).HOST?
    ensures EnvOf(p[|p| - 1]) == EnvOf(p[0]) && !TypeOf(g, p[|p| - 1]).HOST?
  {
    if |p| > 1 {
      var n := |p| - 1;
      SubWalk(Up(g), p, 0, n);
      SameEnvironmentAbove(g, p[0..n]);
      assert StepAt(Up(g), p, n - 1);
      StepUp(g, p[n - 1], p[n]);
    }
  }

  lemma StepUp(g: Graph, x: string, y: string)
    requires GraphOk(g) && y in ReverseEdges(g, x)
    ensures !TypeOf(g, y).HOST? && (!TypeOf(g, x).HOST? ==> EnvOf(y) == EnvOf(x))
    ensures !TypeOf(g, x).ENVIRONMENT?
  {
    assert x in ForwardEdges(g, y) && EdgeOk(g, y, x);
    if TypeOf(g, y).ENVIRONMENT? {
      assert NameOk(g, y);
      EnvOfPlain(y);
    }
  }

  /** All environments above a node are one. */
  lemma OneEnvironmentAbove(g: Graph, x: string, d: string, e: string)
    requires GraphOk(g) && Reaches(Up(g), x, d) && Reaches(Up(g), x, e)
    requires TypeOf(g, d).ENVIRONMENT? && TypeOf(g, e).ENVIRONMENT?
    ensures d == e
  {
    var p :| WalkFromTo(Up(g), p, x, d);
    var q :| WalkFromTo(Up(g), q, x, e);
    assert NameOk(g, d) && NameOk(g, e);
    EnvOfPlain(d);
    EnvOfPlain(e);
    if TypeOf(g, x).HOST? {
      AboveHost(g, p);
      AboveHost(g, q);
      StepUp(g, x, p[1]);
      StepUp(g, x, q[1]);
      assert x in ForwardEdges(g, p[1]) && x in ForwardEdges(g, q[1]);
    } else {
      SameEnvironmentAbove(g, p);
      SameEnvironmentAbove(g, q);
    }
  }

  lemma AboveHost(g: Graph, p: seq<string>)
    requires GraphOk(g) && IsWalk(Up(g), p) && TypeOf(g, p[0]).HOST? && !TypeOf(g, p[|p| - 1]).HOST?
    ensures |p| > 1 && p[1] in ReverseEdges(g, p[0]) && EnvOf(p[|p| - 1]) == EnvOf(p[1])
  {
    assert StepAt(Up(g), p, 0);
    SubWalk(Up(g), p, 1, |p|);
    StepUp(g, p[0], p[1]);
    SameEnvironmentAbove(g, p[1..|p|]);
  }

  /** Every environment above `x`, not counting `x` itself, is `env`. */
  ghost predicate BelongsTo(g: Graph, env: string, x: string)
  {
    forall e | Reaches(Up(g), x, e) && TypeOf(g, e).ENVIRONMENT? && e != x :: e == env
  }

  /** The same, spelled out on the graph. */
  ghost predicate OnlyUnder(g: Graph, env: string, x: string)
  {
    forall p, e | PathUp(g, p, x, e) && e in g && g[e].nodeType == ENVIRONMENT && e != x :: e == env
  }

  lemma BelongsSpelled(g: Graph, env: string, x: string)
    ensures BelongsTo(g, env, x) <==> OnlyUnder(g, env, x)
  {
    forall e ensures Reaches(Up(g), x, e) <==> exists p :: PathUp(g, p, x, e) {
      UpSpelled(g, x, e);
    }
    if BelongsTo(g, env, x) {
      forall p, e | PathUp(g, p, x, e) && e in g && g[e].nodeType == ENVIRONMENT && e != x ensures e == env {
        assert Reaches(Up(g), x, e) && TypeOf(g, e).ENVIRONMENT?;
      }
    }
    if OnlyUnder(g, env, x) {
      forall e | Reaches(Up(g), x, e) && TypeOf(g, e).ENVIRONMENT? && e != x ensures e == env {
        var p :| PathUp(g, p, x, e);
      }
    }
  }

  lemma UpSpelled(g: Graph, x: string, e: string)
    ensures Reaches(Up(g), x, e) <==> exists p :: PathUp(g, p, x, e)
  {
    if Reaches(Up(g), x, e) {
      var p :| WalkFromTo(Up(g), p, x, e);
      forall i: nat | i + 1 < |p| ensures p[i] in g && p[i + 1] in g[p[i]].reverse {
        assert StepAt(Up(g), p, i);
      }
      assert PathUp(g, p, x, e);
    }
    if p :| PathUp(g, p, x, e) {
      forall i: nat | i + 1 < |p| ensures StepAt(Up(g), p, i) {
        assert p[i] in g && p[i + 1] in g[p[i]].reverse;
      }
      assert WalkFromTo(Up(g), p, x, e);
    }
  }

  /** What the walk has seen so far: no environment yet, and every edge up was taken or is waiting. */
  ghost predicate Walking(g: Graph, x: string, stack: seq<string>, visited: set<string>)
  {
    && (forall y | y in stack :: Reaches(Up(g), x, y) && y in Universe(g))
    && (forall y | y in visited :: Reaches(Up(g), x, y) && y in Universe(g) && !TypeOf(g, y).ENVIRONMENT?)
    && (forall y, z | y in visited && z in ReverseEdges(g, y) :: z in visited || z in stack)
    && (x in visited || x in stack)
  }

  lemma WalkedOver(g: Graph, x: string, visited: set<string>, env: string)
    requires Walking(g, x, [], visited)
    ensures BelongsTo(g, env, x)
  {
    forall e | Reaches(Up(g), x, e) ensures !TypeOf(g, e).ENVIRONMENT? {
      ClosedContains(Up(g), visited, x, e);
    }
  }

  lemma WalkSkips(g: Graph, x: string, stack: seq<string>, visited: set<string>)
    requires Walking(g, x, stack, visited) && stack != [] && stack[|stack| - 1] in visited
    ensures Walking(g, x, stack[..|stack| - 1], visited)
  {
    var rest := stack[..|stack| - 1];
    assert forall y | y in stack :: y in rest || y in visited;
  }

  lemma WalkClimbs(g: Graph, x: string, stack: seq<string>, visited: set<string>)
    requires Walking(g, x, stack, visited) && stack != [] && !TypeOf(g, stack[|stack| - 1]).ENVIRONMENT?
    ensures var v := stack[|stack| - 1];
      Walking(g, x, stack[..|stack| - 1] + ReverseEdges(g, v), visited + {v})
  {
    var v := stack[|stack| - 1];
    var next := stack[..|stack| - 1] + ReverseEdges(g, v);
    assert v in stack;
    assert forall y | y in stack :: y in next || y == v;
    forall y | y in next ensures Reaches(Up(g), x, y) && y in Universe(g) {
      if y in ReverseEdges(g, v) {
        ReachesStep(Up(g), x, v, y);
      }
    }
  }

  /** One object per graph pair; every operation reports the error it raises, if any. */
  class RangeApi {
    var primary: Graph
    var dependency: Graph

    ghost function State(): Store
      reads this
    {
      Store(primary, dependency)
    }

    ghost predicate Valid()
      reads this
    {
      StoreOk(State())
    }

    constructor ()
      ensures Valid() && primary == map[]
    {
      primary := map[];
      dependency := map[];
    }

    /** The state and the answer are those of `outcome`; a failure changes nothing. */
    ghost predicate Did(before: Store, outcome: Outcome, error: Option<Error>)
      reads this
    {
      match outcome
      case Done(s) => State() == s && error == None
      case Failed(e) => State() == before && error == Some(e)
    }

    method AddForwardEdge(a: string, b: string) returns (ok: bool)
      requires a in primary && b in primary
      modifies this`primary
      ensures ok <==> b !in old(primary[a].forward)
      ensures primary == if ok then Linked(old(primary), a, b) else old(primary)
    {
      ok := b !in primary[a].forward;
      if ok {
        var other := primary[b];
        primary := primary[a := primary[a].(forward := primary[a].forward + [b])];
        if a !in other.reverse {
          primary := primary[b := other.(reverse := other.reverse + [a])];
        }
      }
    }

    method RemoveForwardEdge(a: string, b: string) returns (ok: bool)
      requires a in primary && b in primary
      modifies this`primary
      ensures ok <==> b in old(primary[a].forward)
      ensures primary == if ok then Unlinked(old(primary), a, b) else old(primary)
    {
      ok := b in primary[a].forward;
      if ok {
        var other := primary[b];
        primary := primary[a := primary[a].(forward := Without(primary[a].forward, b))];
        primary := primary[b := other.(reverse := Without(other.reverse, a))];
      }
    }

    method RemoveReverseEdge(b: string, a: string) returns (ok: bool)
      requires a in primary && b in primary && a != b
      modifies this`primary
      ensures ok <==> a in old(primary[b].reverse)
      ensures primary == if ok then Unlinked(old(primary), a, b) else old(primary)
    {
      ok := a in primary[b].reverse;
      if ok {
        primary := primary[b := primary[b].(reverse := Without(primary[b].reverse, a))];
        primary := primary[a := primary[a].(forward := Without(primary[a].forward, b))];
      }
    }

    /** The name is not checked: a new environment keeps the structure exactly if its name is not empty
        and has no '#'. */
    method CreateEnv(env: string) returns (error: Option<Error>)
      requires Valid()
      modifies this
      ensures Did(old(State()), ApplyWrite(old(State()), Write.CreateEnv(env)), error)
      ensures Valid() <==> error.Some? || (env != "" && '#' !in env)
    {
      CreateEnvExactly(State(), env);
      if env in primary {
        return Some(NotCreated);
      }
      primary := Created(primary, env, ENVIRONMENT);
      dependency := Created(dependency, env, ENVIRONMENT);
      error := None;
    }

    method AddClusterToEnv(env: string, cluster: string) returns (error: Option<Error>)
      requires Valid()
      modifies this
      ensures Valid() && Did(old(State()), ApplyWrite(old(State()), Write.AddClusterToEnv(env, cluster)), error)
    {
      var b := Prefixed(env, cluster);
      if env !in primary {
        return Some(InvalidEnvironment);
      }
      if !primary[env].nodeType.ENVIRONMENT? || (b in primary && !primary[b].nodeType.CLUSTER?) {
        return Some(IncorrectNodeType);
      }
      NoRecordNoLink(primary, env, b);
      primary := Ensured(primary, b, CLUSTER);
      var ok := AddForwardEdge(env, b);
      if !ok {
        return Some(NodeExists);
      }
      dependency := Ensured(dependency, b, CLUSTER);
      WriteKeeps(old(State()), Write.AddClusterToEnv(env, cluster));
      error := None;
    }

    method RemoveClusterFromEnv(env: string, cluster: string) returns (error: Option<Error>)
      requires Valid()
      modifies this
      ensures Valid() && Did(old(State()), ApplyWrite(old(State()), Write.RemoveClusterFromEnv(env, cluster)), error)
    {
      WriteKeeps(State(), Write.RemoveClusterFromEnv(env, cluster));
      var b := Prefixed(env, cluster);
      if env !in primary {
        return Some(InvalidEnvironment);
      }
      if b !in primary {
        return Some(NodeNotFound);
      }
      if !primary[env].nodeType.ENVIRONMENT? || !primary[b].nodeType.CLUSTER? {
        return Some(IncorrectNodeType);
      }
      var ok := RemoveForwardEdge(env, b);
      error := if ok then None else Some(EdgeNotFound);
    }

    /** The structure is kept if the environment is named and the two clusters differ. */
    method AddClusterToCluster(env: string, parent: string, child: string) returns (error: Option<Error>)
      requires Valid()
      modifies this
      ensures Did(old(State()), ApplyWrite(old(State()), Write.AddClusterToCluster(env, parent, child)), error)
      ensures env != "" && parent != child ==> Valid()
    {
      if env != "" && parent != child {
        WriteKeeps(State(), Write.AddClusterToCluster(env, parent, child));
      }
      var a, b := Prefixed(env, parent), Prefixed(env, child);
      if a !in primary {
        return Some(NodeNotFound);
      }
      if !primary[a].nodeType.CLUSTER? || (b in primary && !primary[b].nodeType.CLUSTER?) {
        return Some(IncorrectNodeType);
      }
      NoRecordNoLink(primary, a, b);
      primary := Ensured(primary, b, CLUSTER);
      var _ := AddForwardEdge(a, b);
      dependency := Ensured(dependency, b, CLUSTER);
      error := None;
    }

    method RemoveClusterFromCluster(env: string, parent: string, child: string) returns (error: Option<Error>)
      requires Valid()
      modifies this
      ensures Valid()
          && Did(old(State()), ApplyWrite(old(State()), Write.RemoveClusterFromCluster(env, parent, child)), error)
    {
      WriteKeeps(State(), Write.RemoveClusterFromCluster(env, parent, child));
      var a, b := Prefixed(env, parent), Prefixed(env, child);
      if a !in primary || b !in primary {
        return Some(NodeNotFound);
      }
      if !primary[a].nodeType.CLUSTER? || !primary[b].nodeType.CLUSTER? {
        return Some(IncorrectNodeType);
      }
      var ok := RemoveForwardEdge(a, b);
      error := if ok then None else Some(EdgeNotFound);
    }

    /** The check on the clusters a known host is already in. */
    method ClustersInEnvironment(env: string, host: string) returns (ok: bool)
      ensures ok <==> HostIn(primary, env, host)
    {
      var up := ReverseEdges(primary, host);
      for i := 0 to |up|
        invariant forall k | 0 <= k < i :: TypeOf(primary, up[k]).CLUSTER? ==> env + "#" <= up[k]
      {
        if TypeOf(primary, up[i]).CLUSTER? && !(env + "#" <= up[i]) {
          return false;
        }
      }
      ok := true;
    }

    method AddHostToCluster(env: string, parent: string, host: string) returns (error: Option<Error>)
      requires Valid()
      modifies this
      ensures Valid() && Did(old(State()), ApplyWrite(old(State()), Write.AddHostToCluster(env, parent, host)), error)
    {
      var a := Prefixed(env, parent);
      if a !in primary {
        return Some(NodeNotFound);
      }
      if !primary[a].nodeType.CLUSTER? || (host in primary && !primary[host].nodeType.HOST?) {
        return Some(IncorrectNodeType);
      }
      if host in primary {
        var fits := ClustersInEnvironment(env, host);
        if !fits {
          return Some(InvalidEnvironment);
        }
      }
      NoRecordNoLink(primary, a, host);
      assert HostIn(primary, env, host);
      assert ApplyWrite(State(), Write.AddHostToCluster(env, parent, host))
          == if host in primary[a].forward then Failed(NodeExists) else Done(LinkedBelow(State(), a, host, HOST));
      primary := Ensured(primary, host, HOST);
      var ok := AddForwardEdge(a, host);
      if !ok {
        return Some(NodeExists);
      }
      dependency := Ensured(dependency, host, HOST);
      WriteKeeps(old(State()), Write.AddHostToCluster(env, parent, host));
      error := None;
    }

    method RemoveHostFromCluster(env: string, parent: string, host: string) returns (error: Option<Error>)
      requires Valid()
      modifies this
      ensures Valid()
          && Did(old(State()), ApplyWrite(old(State()), Write.RemoveHostFromCluster(env, parent, host)), error)
    {
      WriteKeeps(State(), Write.RemoveHostFromCluster(env, parent, host));
      var a := Prefixed(env, parent);
      if a !in primary || host !in primary {
        return Some(NodeNotFound);
      }
      if !primary[a].nodeType.CLUSTER? || !primary[host].nodeType.HOST? {
        return Some(IncorrectNodeType);
      }
      assert host in ForwardEdges(primary, a) <==> a in ReverseEdges(primary, host);
      var ok := RemoveReverseEdge(host, a);
      error := if ok then None else Some(EdgeNotFound);
    }

    method AddHost(host: string) returns (error: Option<Error>)
      requires Valid()
      modifies this
      ensures Valid() && Did(old(State()), ApplyWrite(old(State()), Write.AddHost(host)), error)
    {
      WriteKeeps(State(), Write.AddHost(host));
      if host in primary {
        return Some(NodeExists);
      }
      primary := Created(primary, host, HOST);
      dependency := Created(dependency, host, HOST);
      error := None;
    }

    /** The guard of host removal. On a graph built by the writes, whichever environment the walk meets
        first, the verdict says whether every environment above the node is
        `env`. The node's type is not looked at, so an environment, with nothing above it, passes. */
    method RemoveHostAllowed(env: string, host: string) returns (error: Option<Error>)
      requires Valid()
      ensures host !in primary ==> error == Some(NodeNotFound)
      ensures host in primary ==> error == if OnlyUnder(primary, env, host) then None else Some(InvalidEnvironment)
    {
      BelongsSpelled(primary, env, host);
      if host !in primary {
        return Some(NodeNotFound);
      }
      var stack, visited := [host], {};
      ReachesSelf(Up(primary), host);
      if ReverseEdges(primary, host) == [] {
        NothingAbove(primary, env, host);
        return None;
      }
      while stack != []
        invariant Walking(primary, host, stack, visited)
        invariant visited == {} ==> stack == [host]
        decreases Universe(primary) - visited, |stack|
      {
        var v := stack[|stack| - 1];
        assert v in stack;
        if v !in visited {
          if TypeOf(primary, v).ENVIRONMENT? {
            OnlyEnvironment(primary, env, host, v);
            return if v == env then None else Some(InvalidEnvironment);
          }
          WalkClimbs(primary, host, stack, visited);
          stack, visited := stack[..|stack| - 1] + ReverseEdges(primary, v), visited + {v};
        } else {
          WalkSkips(primary, host, stack, visited);
          stack := stack[..|stack| - 1];
        }
      }
      WalkedOver(primary, host, visited, env);
      error := None;
    }
  }

  lemma NoRecordNoLink(g: Graph, a: string, b: string)
    requires GraphOk(g)
    ensures b !in g ==> b !in ForwardEdges(g, a) && ReverseEdges(g, b) == []
  {
    assert b in ForwardEdges(g, a) ==> a in ReverseEdges(g, b);
  }

  lemma OnlyEnvironment(g: Graph, env: string, x: string, v: string)
    requires GraphOk(g) && Reaches(Up(g), x, v) && TypeOf(g, v).ENVIRONMENT? && ReverseEdges(g, x) != []
    ensures BelongsTo(g, env, x) <==> v == env
  {
    StepUp(g, x, ReverseEdges(g, x)[0]);
    forall e | Reaches(Up(g), x, e) && TypeOf(g, e).ENVIRONMENT? ensures e == v {
      OneEnvironmentAbove(g, x, v, e);
    }
  }

  lemma NothingAbove(g: Graph, env: string, x: string)
    requires ReverseEdges(g, x) == []
    ensures BelongsTo(g, env, x)
  {
    forall e | Reaches(Up(g), x, e) ensures e == x {
      ClosedContains(Up(g), {x}, x, e);
    }
  }

  /** On a store the writes have built, every member of an environment has its dependency node, as the
      topological sort needs. */
  lemma MembersHaveRecords(s: Store, env: string)
    requires StoreOk(s) && env in s.primary
    ensures forall x | TopologicalSort.IsMember(s.primary, env, x) :: x in s.dependency
  {
    var succ := TopologicalSort.ForwardOf(s.primary);
    forall x, y | x in s.primary.Keys && y in succ(x) ensures y in s.primary.Keys {
      assert EdgeOk(s.primary, x, y);
    }
    forall x | TopologicalSort.IsMember(s.primary, env, x) ensures x in s.dependency {
      TopologicalSort.MemberReached(s.primary, env, x);
      ClosedContains(succ, s.primary.Keys, env, x);
    }
  }
}
