/** What the writes make of `expand_hosts`: a host put into a cluster of an environment is among the
    environment's hosts, and one taken out of its only cluster no longer is. */
module HostWrites {
  import opened NodeRecord
  import opened RangeGraph
  import opened ExpandHosts
  import opened WriteApi
  import opened WriteLaws

  lemma ThreeStepsDown(g: Graph, env: string, a: string, h: string, shown: string)
    requires Down(g, env, a) && Down(g, a, h) && IsHost(g, env, h, shown)
    ensures ReachesHost(g, env, env, shown)
  {
    var p := [env, a, h];
    assert IsPathDown(g, p) && p[0] == env && IsHost(g, env, p[|p| - 1], shown);
  }

  lemma EnvironmentAsked(g: Graph, env: string, shown: string)
    requires Is(g, env, ENVIRONMENT) && env != ""
    ensures ReachesHost(g, env, env, shown) ==> AnyCovers(g, env, [env], 1, shown)
  {
    assert AsksFor(g, env, env, env);
    assert ReachesHost(g, env, env, shown) ==> Covers(g, env, [env][0], shown);
  }

  /** After a cluster was put into an environment and a host into the cluster, the environment expands to
      that host among others. */
  lemma JoinedHostIsExpanded(s: Store, env: string, cluster: string, host: string, shown: string)
    requires StoreOk(s) && ShownAs(env, host, shown)
    requires ApplyWrite(s, AddClusterToEnv(env, cluster)).Done?
    requires var s1 := ApplyWrite(s, AddClusterToEnv(env, cluster)).store;
             ApplyWrite(s1, AddHostToCluster(env, cluster, host)).Done?
    ensures var s1 := ApplyWrite(s, AddClusterToEnv(env, cluster)).store;
            var s2 := ApplyWrite(s1, AddHostToCluster(env, cluster, host)).store;
            AnyCovers(s2.primary, env, [env], 1, shown)
  {
    var s1 := ApplyWrite(s, AddClusterToEnv(env, cluster)).store;
    var s2 := ApplyWrite(s1, AddHostToCluster(env, cluster, host)).store;
    var a := FullName(env, cluster);
    AddClusterToEnvLaw(s, env, cluster);
    WriteKeeps(s, AddClusterToEnv(env, cluster));
    AddHostToClusterLaw(s1, env, cluster, host);
    assert NameOk(s.primary, env);
    JoinedBelow(s1.primary, s2.primary, env, a, host);
    ThreeStepsDown(s2.primary, env, a, host, shown);
    EnvironmentAsked(s2.primary, env, shown);
  }

  lemma JoinedBelow(g: Graph, g': Graph, env: string, a: string, host: string)
    requires Is(g, env, ENVIRONMENT) && HasEdge(g, env, a) && Is(g, a, CLUSTER)
    requires NewEdge(g, g', a, host, HOST) && (host in g ==> Is(g, host, HOST))
    ensures Down(g', env, a) && Down(g', a, host) && Is(g', host, HOST) && Is(g', env, ENVIRONMENT)
  {
    assert env != a && env != host && a != host;
    assert (g[a].forward + [host])[|g[a].forward|] == host;
  }

  /** After a host was taken out of the only cluster it was in, no path leads down to it. */
  lemma LeftHostIsAlone(s: Store, env: string, cluster: string, host: string, p: seq<string>)
    requires StoreOk(s) && ApplyWrite(s, RemoveHostFromCluster(env, cluster, host)).Done?
    requires forall c | HasEdge(s.primary, c, host) :: c == FullName(env, cluster)
    requires IsPathDown(ApplyWrite(s, RemoveHostFromCluster(env, cluster, host)).store.primary, p)
    requires p[|p| - 1] == host
    ensures p == [host]
  {
    RemoveHostFromClusterLaw(s, env, cluster, host);
    var g, g' := s.primary, ApplyWrite(s, RemoveHostFromCluster(env, cluster, host)).store.primary;
    if |p| > 1 {
      assert Down(g', p[|p| - 2], p[|p| - 2 + 1]);
      NoneLeft(g, g', FullName(env, cluster), host, p[|p| - 2]);
    }
  }

  lemma NoneLeft(g: Graph, g': Graph, a: string, host: string, c: string)
    requires EdgeGone(g, g', a, host) && forall b | HasEdge(g, b, host) :: b == a
    ensures !Down(g', c, host)
  {
    assert HasEdge(g, c, host) ==> c == a;
  }
}
