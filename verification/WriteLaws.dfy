/** When each write is accepted, which error it raises otherwise, and what it changes, spelled out on the
    graphs. */
module WriteLaws {
  import opened NodeRecord
  import opened NodeHistory
  import opened RangeGraph
  import opened WriteApi

  // ----- the graph, spelled out -----

  ghost predicate Is(g: Graph, x: string, t: NodeType)
  {
    x in g && g[x].nodeType == t
  }

  ghost predicate HasEdge(g: Graph, a: string, b: string)
  {
    a in g && b in g[a].forward
  }

  /** The name of a cluster within an environment. */
  ghost function FullName(env: string, name: string): string
  {
    if env == "" then name else if name == "" then env else env + "#" + name
  }

  ghost predicate SameBut(g: Graph, g': Graph, changed: set<string>)
  {
    forall x | x !in changed :: (x in g' <==> x in g) && (x in g ==> g'[x] == g[x])
  }

  ghost predicate NewNode(g: Graph, g': Graph, x: string, t: NodeType)
  {
    SameBut(g, g', {x}) && x in g' && g'[x] == Vertex(t, [], [], map[])
  }

  /** The edge from `a` to `b` is there at both ends, last in both lists; `b` was created if missing. */
  ghost predicate NewEdge(g: Graph, g': Graph, a: string, b: string, t: NodeType)
  {
    && SameBut(g, g', {a, b}) && a in g && a in g' && b in g'
    && g'[a] == g[a].(forward := g[a].forward + [b])
    && g'[b] == if b in g then g[b].(reverse := g[b].reverse + [a]) else Vertex(t, [], [a], map[])
  }

  /** `s'` is `s` with `x` taken out. */
  ghost predicate TakenOut(s: seq<string>, s': seq<string>, x: string)
  {
    && (forall y :: y in s' <==> y in s && y != x)
    && (forall i | 0 <= i < |s| && s[i] == x && x !in s[..i] && x !in s[i + 1..] :: s' == s[..i] + s[i + 1..])
  }

  /** The edge from `a` to `b` is gone at both ends. */
  ghost predicate EdgeGone(g: Graph, g': Graph, a: string, b: string)
  {
    && SameBut(g, g', {a, b}) && a in g && b in g && a in g' && b in g'
    && TakenOut(g[a].forward, g'[a].forward, b) && TakenOut(g[b].reverse, g'[b].reverse, a)
    && g'[a] == g[a].(forward := g'[a].forward) && g'[b] == g[b].(reverse := g'[b].reverse)
  }

  /** A name without a record gets one of the given type; one with a record keeps it. */
  ghost predicate HasNode(g: Graph, g': Graph, x: string, t: NodeType)
  {
    if x in g then g' == g else NewNode(g, g', x, t)
  }

  // ----- shared steps -----

  lemma FullNameIs(env: string, name: string)
    ensures Prefixed(env, name) == FullName(env, name)
  {
  }

  lemma NoSelf(g: Graph, a: string)
    requires GraphOk(g) && a in g
    ensures a !in g[a].forward && a !in g[a].reverse
  {
    NoSelfLink(g, a);
  }

  lemma LinkedBelowLaw(s: Store, a: string, b: string, t: NodeType)
    requires StoreOk(s) && a in s.primary && a != b && !HasEdge(s.primary, a, b)
    ensures var s' := LinkedBelow(s, a, b, t);
            NewEdge(s.primary, s'.primary, a, b, t) && HasNode(s.dependency, s'.dependency, b, t)
  {
    if b in s.primary {
      assert b !in ForwardEdges(s.primary, a) && a !in ReverseEdges(s.primary, b);
    }
  }

  /** A second edge to the same node is not made. */
  lemma LinkedBelowAgain(s: Store, a: string, b: string, t: NodeType)
    requires StoreOk(s) && HasEdge(s.primary, a, b)
    ensures LinkedBelow(s, a, b, t) == s
  {
    assert EdgeOk(s.primary, a, b);
  }

  lemma {:induction false} WithoutTakesOut(s: seq<string>, x: string)
    ensures TakenOut(s, Without(s, x), x)
  {
    forall y ensures y in Without(s, x) <==> y in s && y != x {
      WithoutMembers(s, x, y);
    }
    forall i | 0 <= i < |s| && s[i] == x && x !in s[..i] && x !in s[i + 1..]
      ensures Without(s, x) == s[..i] + s[i + 1..]
    {
      assert s == s[..i] + [x] + s[i + 1..];
      DropMiddle(s[..i], [x], s[i + 1..], x);
    }
  }

  lemma UnlinkedLaw(g: Graph, a: string, b: string)
    requires a in g && b in g && a != b
    ensures EdgeGone(g, Unlinked(g, a, b), a, b)
  {
    WithoutTakesOut(g[a].forward, b);
    WithoutTakesOut(g[b].reverse, a);
  }

  /** The three removals: accepted exactly when both ends have the right types and the edge is there. */
  lemma RemovedLaw(s: Store, a: string, b: string, upper: NodeType, lower: NodeType, missing: Error)
    requires StoreOk(s) && missing != IncorrectNodeType && missing != EdgeNotFound
    ensures var o := WriteApi.Removed(s, a, b, upper, lower, missing);
            && (o.Done? <==> Is(s.primary, a, upper) && Is(s.primary, b, lower) && HasEdge(s.primary, a, b))
            && (o.Done? ==> EdgeGone(s.primary, o.store.primary, a, b) && o.store.dependency == s.dependency)
            && (a !in s.primary ==> o == Failed(missing))
            && (a in s.primary && b !in s.primary ==> o == Failed(NodeNotFound))
            && (a in s.primary && b in s.primary && !(Is(s.primary, a, upper) && Is(s.primary, b, lower)) ==>
                o == Failed(IncorrectNodeType))
            && (Is(s.primary, a, upper) && Is(s.primary, b, lower) && !HasEdge(s.primary, a, b) ==>
                o == Failed(EdgeNotFound))
  {
    if WriteApi.Removed(s, a, b, upper, lower, missing).Done? {
      NoSelf(s.primary, a);
      UnlinkedLaw(s.primary, a, b);
    }
  }

  // ----- the writes -----

  lemma CreateEnvLaw(s: Store, env: string)
    requires StoreOk(s)
    ensures var o := ApplyWrite(s, CreateEnv(env));
            if env in s.primary then o == Failed(NotCreated)
            else && o.Done?
                 && NewNode(s.primary, o.store.primary, env, ENVIRONMENT)
                 && NewNode(s.dependency, o.store.dependency, env, ENVIRONMENT)
  {
  }

  lemma AddHostLaw(s: Store, host: string)
    requires StoreOk(s)
    ensures var o := ApplyWrite(s, AddHost(host));
            if host in s.primary then o == Failed(NodeExists)
            else && o.Done?
                 && NewNode(s.primary, o.store.primary, host, HOST)
                 && NewNode(s.dependency, o.store.dependency, host, HOST)
  {
  }

  lemma AddClusterToEnvLaw(s: Store, env: string, cluster: string)
    requires StoreOk(s)
    ensures var o, b := ApplyWrite(s, AddClusterToEnv(env, cluster)), FullName(env, cluster);
            var typed := Is(s.primary, env, ENVIRONMENT) && (b in s.primary ==> Is(s.primary, b, CLUSTER));
            && (o.Done? <==> typed && !HasEdge(s.primary, env, b))
            && (o.Done? ==> NewEdge(s.primary, o.store.primary, env, b, CLUSTER)
                            && HasNode(s.dependency, o.store.dependency, b, CLUSTER))
            && (env !in s.primary ==> o == Failed(InvalidEnvironment))
            && (env in s.primary && !typed ==> o == Failed(IncorrectNodeType))
            && (typed && HasEdge(s.primary, env, b) ==> o == Failed(NodeExists))
  {
    FullNameIs(env, cluster);
    var b := FullName(env, cluster);
    if ApplyWrite(s, AddClusterToEnv(env, cluster)).Done? {
      LinkedBelowLaw(s, env, b, CLUSTER);
    }
  }

  lemma RemoveClusterFromEnvLaw(s: Store, env: string, cluster: string)
    requires StoreOk(s)
    ensures var o, b := ApplyWrite(s, RemoveClusterFromEnv(env, cluster)), FullName(env, cluster);
            var typed := Is(s.primary, env, ENVIRONMENT) && Is(s.primary, b, CLUSTER);
            && (o.Done? <==> typed && HasEdge(s.primary, env, b))
            && (o.Done? ==> EdgeGone(s.primary, o.store.primary, env, b) && o.store.dependency == s.dependency)
            && (env !in s.primary ==> o == Failed(InvalidEnvironment))
            && (env in s.primary && b !in s.primary ==> o == Failed(NodeNotFound))
            && (env in s.primary && b in s.primary && !typed ==> o == Failed(IncorrectNodeType))
            && (typed && !HasEdge(s.primary, env, b) ==> o == Failed(EdgeNotFound))
  {
    FullNameIs(env, cluster);
    RemovedLaw(s, env, FullName(env, cluster), ENVIRONMENT, CLUSTER, InvalidEnvironment);
  }

  /** An edge that is there already is no error and changes nothing; a cluster put into itself gets the
      reverse edge only. */
  lemma AddClusterToClusterLaw(s: Store, env: string, parent: string, child: string)
    requires StoreOk(s)
    ensures var o := ApplyWrite(s, AddClusterToCluster(env, parent, child));
            var a, b := FullName(env, parent), FullName(env, child);
            var typed := Is(s.primary, a, CLUSTER) && (b in s.primary ==> Is(s.primary, b, CLUSTER));
            && (o.Done? <==> typed)
            && (a !in s.primary ==> o == Failed(NodeNotFound))
            && (a in s.primary && !typed ==> o == Failed(IncorrectNodeType))
            && (o.Done? && HasEdge(s.primary, a, b) ==> o.store == s)
            && (o.Done? && !HasEdge(s.primary, a, b) && a != b ==>
                NewEdge(s.primary, o.store.primary, a, b, CLUSTER)
                && HasNode(s.dependency, o.store.dependency, b, CLUSTER))
            && (o.Done? && a == b ==>
                o.store == s.(primary := s.primary[a := s.primary[a].(reverse := s.primary[a].reverse + [a])]))
  {
    FullNameIs(env, parent);
    FullNameIs(env, child);
    var a, b := FullName(env, parent), FullName(env, child);
    if ApplyWrite(s, AddClusterToCluster(env, parent, child)).Done? {
      if HasEdge(s.primary, a, b) {
        LinkedBelowAgain(s, a, b, CLUSTER);
        NoSelf(s.primary, a);
      } else if a != b {
        LinkedBelowLaw(s, a, b, CLUSTER);
      } else {
        SelfLinked(s, a);
      }
    }
  }

  lemma SelfLinked(s: Store, a: string)
    requires StoreOk(s) && a in s.primary
    ensures LinkedBelow(s, a, a, CLUSTER)
         == s.(primary := s.primary[a := s.primary[a].(reverse := s.primary[a].reverse + [a])])
  {
    NoSelf(s.primary, a);
  }

  lemma RemoveClusterFromClusterLaw(s: Store, env: string, parent: string, child: string)
    requires StoreOk(s)
    ensures var o := ApplyWrite(s, RemoveClusterFromCluster(env, parent, child));
            var a, b := FullName(env, parent), FullName(env, child);
            var typed := Is(s.primary, a, CLUSTER) && Is(s.primary, b, CLUSTER);
            && (o.Done? <==> typed && HasEdge(s.primary, a, b))
            && (o.Done? ==> EdgeGone(s.primary, o.store.primary, a, b) && o.store.dependency == s.dependency)
            && (a !in s.primary || b !in s.primary ==> o == Failed(NodeNotFound))
            && (a in s.primary && b in s.primary && !typed ==> o == Failed(IncorrectNodeType))
            && (typed && !HasEdge(s.primary, a, b) ==> o == Failed(EdgeNotFound))
  {
    FullNameIs(env, parent);
    FullNameIs(env, child);
    RemovedLaw(s, FullName(env, parent), FullName(env, child), CLUSTER, CLUSTER, NodeNotFound);
  }

  /** Every cluster the host is in has a name of the environment. */
  ghost predicate InNoOtherEnvironment(g: Graph, env: string, host: string)
  {
    forall c | HasEdge(g, c, host) && g[c].nodeType == CLUSTER :: env + "#" <= c
  }

  /** A known host may join further clusters, as long as all its clusters are the environment's. */
  lemma AddHostToClusterLaw(s: Store, env: string, parent: string, host: string)
    requires StoreOk(s)
    ensures var o, a := ApplyWrite(s, AddHostToCluster(env, parent, host)), FullName(env, parent);
            var typed := Is(s.primary, a, CLUSTER) && (host in s.primary ==> Is(s.primary, host, HOST));
            var free := InNoOtherEnvironment(s.primary, env, host);
            && (o.Done? <==> typed && free && !HasEdge(s.primary, a, host))
            && (o.Done? ==> NewEdge(s.primary, o.store.primary, a, host, HOST)
                            && HasNode(s.dependency, o.store.dependency, host, HOST))
            && (a !in s.primary ==> o == Failed(NodeNotFound))
            && (a in s.primary && !typed ==> o == Failed(IncorrectNodeType))
            && (typed && !free ==> o == Failed(InvalidEnvironment))
            && (typed && free && HasEdge(s.primary, a, host) ==> o == Failed(NodeExists))
  {
    FullNameIs(env, parent);
    HostInIs(s.primary, env, host);
    if ApplyWrite(s, AddHostToCluster(env, parent, host)).Done? {
      LinkedBelowLaw(s, FullName(env, parent), host, HOST);
    }
  }

  lemma HostInIs(g: Graph, env: string, host: string)
    requires GraphOk(g)
    ensures HostIn(g, env, host) <==> InNoOtherEnvironment(g, env, host)
  {
    forall c ensures HasEdge(g, c, host) <==> c in ReverseEdges(g, host) {
      assert host in ForwardEdges(g, c) <==> c in ReverseEdges(g, host);
    }
  }

  lemma RemoveHostFromClusterLaw(s: Store, env: string, parent: string, host: string)
    requires StoreOk(s)
    ensures var o, a := ApplyWrite(s, RemoveHostFromCluster(env, parent, host)), FullName(env, parent);
            var typed := Is(s.primary, a, CLUSTER) && Is(s.primary, host, HOST);
            && (o.Done? <==> typed && HasEdge(s.primary, a, host))
            && (o.Done? ==> EdgeGone(s.primary, o.store.primary, a, host) && o.store.dependency == s.dependency)
            && (a !in s.primary || host !in s.primary ==> o == Failed(NodeNotFound))
            && (a in s.primary && host in s.primary && !typed ==> o == Failed(IncorrectNodeType))
            && (typed && !HasEdge(s.primary, a, host) ==> o == Failed(EdgeNotFound))
  {
    FullNameIs(env, parent);
    RemovedLaw(s, FullName(env, parent), host, CLUSTER, HOST, NodeNotFound);
  }
}
