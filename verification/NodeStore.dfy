/** The writes on versioned records: a store of node records, read at the records' current versions, is the
    graph the write operations describe. */
module NodeStore {
  import opened NodeRecord
  import opened NodeHistory
  import opened NodeRefinement
  import opened Heartbeat
  import opened RangeGraph
  import opened WriteApi

  type Records = map<string, NodeInfo>

  datatype RecordStore = RecordStore(primary: Records, dependency: Records)

  ghost predicate RecordsOk(rs: Records)
  {
    forall x | x in rs :: InfoOk(rs[x])
  }

  ghost predicate RecordStoreOk(rs: RecordStore)
  {
    RecordsOk(rs.primary) && RecordsOk(rs.dependency)
  }

  // ----- reading -----

  /** A record at its current version, tags aside. */
  ghost function Current(info: NodeInfo): Vertex
  {
    Vertex(info.nodeType, Visible(info.forward, info.listVersion), Visible(info.reverse, info.listVersion), map[])
  }

  ghost function View(rs: Records): Graph
  {
    map x | x in rs :: Current(rs[x])
  }

  ghost function ViewStore(rs: RecordStore): Store
  {
    Store(View(rs.primary), View(rs.dependency))
  }

  lemma ViewUpdated(rs: Records, x: string, info: NodeInfo)
    ensures View(rs[x := info]) == View(rs)[x := Current(info)]
  {
  }

  // ----- writing records -----

  ghost function RecordCreated(rs: Records, x: string, t: NodeType): Records
  {
    rs[x := ApplyOp(NEW_NODE, SetType(t))]
  }

  ghost function ApplyOp(info: NodeInfo, op: Op): NodeInfo
  {
    NodeRecord.Apply(info, op).0
  }

  /** The edge is added to both records, each as it was loaded; a refused edge is not written. */
  ghost function RecordLinked(rs: Records, a: string, b: string): Records
    requires a in rs && b in rs
  {
    var rs1 := rs[a := ApplyOp(rs[a], AddEdge(Forward, b))];
    if NodeRecord.Apply(rs[b], AddEdge(Reverse, a)).1 then rs1[b := ApplyOp(rs[b], AddEdge(Reverse, a))] else rs1
  }

  ghost function RecordUnlinked(rs: Records, a: string, b: string): Records
    requires a in rs && b in rs
  {
    var rs1 := rs[a := ApplyOp(rs[a], RemoveEdge(Forward, b))];
    if NodeRecord.Apply(rs[b], RemoveEdge(Reverse, a)).1 then rs1[b := ApplyOp(rs[b], RemoveEdge(Reverse, a))] else rs1
  }

  ghost function RecordEnsured(rs: Records, x: string, t: NodeType): Records
  {
    if x in rs then rs else RecordCreated(rs, x, t)
  }

  ghost function RecordBelow(rs: RecordStore, a: string, b: string, t: NodeType): RecordStore
    requires a in rs.primary
  {
    var p := RecordEnsured(rs.primary, b, t);
    RecordStore(if b in Current(p[a]).forward then p else RecordLinked(p, a, b), RecordEnsured(rs.dependency, b, t))
  }

  ghost function RecordNode(rs: RecordStore, x: string, t: NodeType): RecordStore
  {
    RecordStore(RecordCreated(rs.primary, x, t), RecordCreated(rs.dependency, x, t))
  }

  /** One write on the records, where it does not fail. */
  ghost function Recorded(rs: RecordStore, w: Write): RecordStore
  {
    if ApplyWrite(ViewStore(rs), w).Failed? then rs
    else
      match w
      case CreateEnv(env) => RecordNode(rs, env, ENVIRONMENT)
      case AddHost(host) => RecordNode(rs, host, HOST)
      case AddClusterToEnv(env, cluster) => RecordBelow(rs, env, Prefixed(env, cluster), CLUSTER)
      case AddClusterToCluster(env, parent, child) =>
        RecordBelow(rs, Prefixed(env, parent), Prefixed(env, child), CLUSTER)
      case AddHostToCluster(env, parent, host) => RecordBelow(rs, Prefixed(env, parent), host, HOST)
      case RemoveClusterFromEnv(env, cluster) =>
        rs.(primary := RecordUnlinked(rs.primary, env, Prefixed(env, cluster)))
      case RemoveClusterFromCluster(env, parent, child) =>
        rs.(primary := RecordUnlinked(rs.primary, Prefixed(env, parent), Prefixed(env, child)))
      case RemoveHostFromCluster(env, parent, host) =>
        rs.(primary := RecordUnlinked(rs.primary, Prefixed(env, parent), host))
  }

  // ----- one record -----

  lemma StepKeepsOk(info: NodeInfo, op: Op)
    requires InfoOk(info)
    ensures InfoOk(ApplyOp(info, op))
  {
    StaysOk(info, op);
  }

  /** Adding or removing an edge one way leaves the current edges the other way alone. */
  lemma AddLeavesOther(info: NodeInfo, dir: Direction, other: string)
    requires InfoOk(info)
    ensures var info' := ApplyOp(info, AddEdge(dir, other));
            && info'.nodeType == info.nodeType
            && Visible(info'.Edges(OtherWay(dir)), info'.listVersion)
                == Visible(info.Edges(OtherWay(dir)), info.listVersion)
  {
    if ApplyAddEdge(info, dir, other).1 {
      AddEdgeIs(info, dir, other);
      CarryEdgesNew(info.Edges(OtherWay(dir)), info.listVersion);
    }
  }

  lemma RemoveLeavesOther(info: NodeInfo, dir: Direction, other: string)
    requires InfoOk(info)
    ensures var info' := ApplyOp(info, RemoveEdge(dir, other));
            && info'.nodeType == info.nodeType
            && Visible(info'.Edges(OtherWay(dir)), info'.listVersion)
                == Visible(info.Edges(OtherWay(dir)), info.listVersion)
  {
    if ApplyRemoveEdge(info, dir, other).1 {
      RemoveEdgeIs(info, dir, other);
      CarryEdgesNew(info.Edges(OtherWay(dir)), info.listVersion);
    }
  }

  lemma RemoveEdgeIs(info: NodeInfo, dir: Direction, other: string)
    requires ApplyRemoveEdge(info, dir, other).1
    ensures var info', top := ApplyRemoveEdge(info, dir, other).0, info.listVersion;
            && info'.listVersion == top + 1 && info'.nodeType == info.nodeType
            && info'.Edges(OtherWay(dir)) == CarryEdges(info.Edges(OtherWay(dir)), top, top + 1)
  {
  }

  lemma EdgeAdded(info: NodeInfo, dir: Direction, other: string)
    requires InfoOk(info)
    ensures var (info', ok) := NodeRecord.Apply(info, AddEdge(dir, other));
            var was := Visible(info.Edges(dir), info.listVersion);
            && (ok <==> other !in was)
            && Visible(info'.Edges(dir), info'.listVersion) == if other in was then was else was + [other]
  {
    StepRefines(info, AddEdge(dir, other));
    if other !in Visible(info.Edges(dir), info.listVersion) {
      AddAppends(info, dir, other);
    }
  }

  lemma EdgeRemoved(info: NodeInfo, dir: Direction, other: string)
    requires InfoOk(info)
    ensures var (info', ok) := NodeRecord.Apply(info, RemoveEdge(dir, other));
            var was := Visible(info.Edges(dir), info.listVersion);
            && (ok <==> other in was)
            && Visible(info'.Edges(dir), info'.listVersion) == Without(was, other)
  {
    StepRefines(info, RemoveEdge(dir, other));
    if other in Visible(info.Edges(dir), info.listVersion) {
      RemoveDeletes(info, dir, other);
    } else {
      WithoutAbsent(Visible(info.Edges(dir), info.listVersion), other);
    }
  }

  lemma CurrentAdded(info: NodeInfo, dir: Direction, other: string)
    requires InfoOk(info)
    ensures var v := Current(info);
            Current(ApplyOp(info, AddEdge(dir, other))) ==
              if dir.Forward? then v.(forward := if other in v.forward then v.forward else v.forward + [other])
              else v.(reverse := if other in v.reverse then v.reverse else v.reverse + [other])
  {
    EdgeAdded(info, dir, other);
    AddLeavesOther(info, dir, other);
  }

  lemma CurrentRemoved(info: NodeInfo, dir: Direction, other: string)
    requires InfoOk(info)
    ensures var v := Current(info);
            Current(ApplyOp(info, RemoveEdge(dir, other))) ==
              if dir.Forward? then v.(forward := Without(v.forward, other))
                  else v.(reverse := Without(v.reverse, other))
  {
    EdgeRemoved(info, dir, other);
    RemoveLeavesOther(info, dir, other);
  }

  lemma NewRecord(t: NodeType)
    ensures InfoOk(ApplyOp(NEW_NODE, SetType(t))) && Current(ApplyOp(NEW_NODE, SetType(t))) == Vertex(t, [], [], map[])
  {
    StepKeepsOk(NEW_NODE, SetType(t));
  }

  // ----- the store of records evolves as the graph -----

  lemma ViewCreated(rs: Records, x: string, t: NodeType)
    requires RecordsOk(rs)
    ensures RecordsOk(RecordCreated(rs, x, t)) && View(RecordCreated(rs, x, t)) == Created(View(rs), x, t)
  {
    NewRecord(t);
    ViewUpdated(rs, x, ApplyOp(NEW_NODE, SetType(t)));
  }

  lemma ViewLinked(rs: Records, a: string, b: string)
    requires RecordsOk(rs) && a in rs && b in rs && b !in View(rs)[a].forward
    ensures RecordsOk(RecordLinked(rs, a, b)) && View(RecordLinked(rs, a, b)) == Linked(View(rs), a, b)
  {
    var rs1 := rs[a := ApplyOp(rs[a], AddEdge(Forward, b))];
    CurrentAdded(rs[a], Forward, b);
    StepKeepsOk(rs[a], AddEdge(Forward, b));
    ViewUpdated(rs, a, ApplyOp(rs[a], AddEdge(Forward, b)));
    EdgeAdded(rs[b], Reverse, a);
    CurrentAdded(rs[b], Reverse, a);
    StepKeepsOk(rs[b], AddEdge(Reverse, a));
    ViewUpdated(rs1, b, ApplyOp(rs[b], AddEdge(Reverse, a)));
  }

  lemma ViewUnlinked(rs: Records, a: string, b: string)
    requires RecordsOk(rs) && a in rs && b in rs && a != b
    ensures RecordsOk(RecordUnlinked(rs, a, b)) && View(RecordUnlinked(rs, a, b)) == Unlinked(View(rs), a, b)
  {
    var rs1 := rs[a := ApplyOp(rs[a], RemoveEdge(Forward, b))];
    CurrentRemoved(rs[a], Forward, b);
    StepKeepsOk(rs[a], RemoveEdge(Forward, b));
    ViewUpdated(rs, a, ApplyOp(rs[a], RemoveEdge(Forward, b)));
    EdgeRemoved(rs[b], Reverse, a);
    CurrentRemoved(rs[b], Reverse, a);
    StepKeepsOk(rs[b], RemoveEdge(Reverse, a));
    ViewUpdated(rs1, b, ApplyOp(rs[b], RemoveEdge(Reverse, a)));
    if a !in View(rs)[b].reverse {
      WithoutAbsent(View(rs)[b].reverse, a);
      KeptVertex(View(rs1), b, View(rs)[b]);
    }
  }

  lemma KeptVertex(g: Graph, b: string, v: Vertex)
    requires b in g && g[b] == v
    ensures g[b := v] == g
  {
  }

  lemma ViewEnsured(rs: Records, x: string, t: NodeType)
    requires RecordsOk(rs)
    ensures RecordsOk(RecordEnsured(rs, x, t)) && View(RecordEnsured(rs, x, t)) == Ensured(View(rs), x, t)
  {
    if x !in rs {
      ViewCreated(rs, x, t);
    }
  }

  lemma ViewBelow(rs: RecordStore, a: string, b: string, t: NodeType)
    requires RecordStoreOk(rs) && a in rs.primary
    ensures RecordStoreOk(RecordBelow(rs, a, b, t))
    ensures ViewStore(RecordBelow(rs, a, b, t)) == LinkedBelow(ViewStore(rs), a, b, t)
  {
    ViewEnsured(rs.primary, b, t);
    ViewEnsured(rs.dependency, b, t);
    var p := RecordEnsured(rs.primary, b, t);
    assert View(p)[a] == Current(p[a]);
    if b !in Current(p[a]).forward {
      ViewLinked(p, a, b);
    }
  }

  lemma ViewNode(rs: RecordStore, x: string, t: NodeType)
    requires RecordStoreOk(rs)
    ensures RecordStoreOk(RecordNode(rs, x, t)) && ViewStore(RecordNode(rs, x, t)) == AddedNode(ViewStore(rs), x, t)
  {
    ViewCreated(rs.primary, x, t);
    ViewCreated(rs.dependency, x, t);
  }

  lemma ViewRemoved(rs: RecordStore, a: string, b: string, upper: NodeType, lower: NodeType, missing: Error)
    requires RecordStoreOk(rs) && StoreOk(ViewStore(rs))
        && WriteApi.Removed(ViewStore(rs), a, b, upper, lower, missing).Done?
    ensures a in rs.primary && b in rs.primary
    ensures var rs' := rs.(primary := RecordUnlinked(rs.primary, a, b));
            RecordStoreOk(rs') && Done(ViewStore(rs')) == WriteApi.Removed(ViewStore(rs), a, b, upper, lower, missing)
  {
    NoSelfLink(View(rs.primary), a);
    ViewUnlinked(rs.primary, a, b);
  }

  /** One write: the records read at their current versions are the graph after the write. */
  lemma ViewRecorded(rs: RecordStore, w: Write)
    requires RecordStoreOk(rs) && StoreOk(ViewStore(rs))
    ensures RecordStoreOk(Recorded(rs, w)) && ViewStore(Recorded(rs, w)) == After(ViewStore(rs), w)
  {
    if ApplyWrite(ViewStore(rs), w).Done? {
      if Removes(w) {
        ViewRemoval(rs, w);
      } else {
        ViewAddition(rs, w);
      }
    }
  }

  predicate Removes(w: Write)
  {
    w.RemoveClusterFromEnv? || w.RemoveClusterFromCluster? || w.RemoveHostFromCluster?
  }

  lemma ViewAddition(rs: RecordStore, w: Write)
    requires RecordStoreOk(rs) && ApplyWrite(ViewStore(rs), w).Done? && !Removes(w)
    ensures RecordStoreOk(Recorded(rs, w)) && ViewStore(Recorded(rs, w)) == After(ViewStore(rs), w)
  {
    if w.CreateEnv? {
      ViewNode(rs, w.env, ENVIRONMENT);
    } else if w.AddHost? {
      ViewNode(rs, w.host, HOST);
    } else {
      ViewLink(rs, w);
    }
  }

  predicate Links(w: Write)
  {
    w.AddClusterToEnv? || w.AddClusterToCluster? || w.AddHostToCluster?
  }

  function UpperName(w: Write): string
    requires Links(w)
  {
    if w.AddClusterToEnv? then w.env else Prefixed(w.env, w.parent)
  }

  function LowerName(w: Write): string
    requires Links(w)
  {
    if w.AddClusterToEnv? then Prefixed(w.env, w.cluster)
    else if w.AddClusterToCluster? then Prefixed(w.env, w.child)
    else w.host
  }

  function LowerType(w: Write): NodeType
    requires Links(w)
  {
    if w.AddHostToCluster? then HOST else CLUSTER
  }

  lemma LinkDone(s: Store, w: Write)
    requires Links(w) && ApplyWrite(s, w).Done?
    ensures UpperName(w) in s.primary && After(s, w) == LinkedBelow(s, UpperName(w), LowerName(w), LowerType(w))
  {
  }

  lemma RecordedLink(rs: RecordStore, w: Write)
    requires Links(w) && ApplyWrite(ViewStore(rs), w).Done? && UpperName(w) in rs.primary
    ensures Recorded(rs, w) == RecordBelow(rs, UpperName(w), LowerName(w), LowerType(w))
  {
  }

  lemma ViewLink(rs: RecordStore, w: Write)
    requires RecordStoreOk(rs) && ApplyWrite(ViewStore(rs), w).Done? && Links(w)
    ensures RecordStoreOk(Recorded(rs, w)) && ViewStore(Recorded(rs, w)) == After(ViewStore(rs), w)
  {
    LinkDone(ViewStore(rs), w);
    RecordedLink(rs, w);
    ViewBelow(rs, UpperName(w), LowerName(w), LowerType(w));
  }

  lemma ViewRemoval(rs: RecordStore, w: Write)
    requires RecordStoreOk(rs) && StoreOk(ViewStore(rs)) && ApplyWrite(ViewStore(rs), w).Done? && Removes(w)
    ensures RecordStoreOk(Recorded(rs, w)) && ViewStore(Recorded(rs, w)) == After(ViewStore(rs), w)
  {
    match w
    case RemoveClusterFromEnv(env, cluster) =>
      ViewRemoved(rs, env, Prefixed(env, cluster), ENVIRONMENT, CLUSTER, InvalidEnvironment);
    case RemoveClusterFromCluster(env, parent, child) =>
      ViewRemoved(rs, Prefixed(env, parent), Prefixed(env, child), CLUSTER, CLUSTER, NodeNotFound);
    case RemoveHostFromCluster(env, parent, host) =>
      ViewRemoved(rs, Prefixed(env, parent), host, CLUSTER, HOST, NodeNotFound);
  }

  ghost function RecordedAll(rs: RecordStore, ws: seq<Write>): RecordStore
  {
    if ws == [] then rs else Recorded(RecordedAll(rs, ws[..|ws| - 1]), ws[|ws| - 1])
  }

  /** Every run of permitted writes: the versioned records read at their current versions are the graph the
      writes describe, and so keep its structure. */
  lemma {:induction false} RecordsKeepStructure(rs: RecordStore, ws: seq<Write>)
    requires RecordStoreOk(rs) && StoreOk(ViewStore(rs)) && AllPermitted(ws)
    ensures RecordStoreOk(RecordedAll(rs, ws)) && ViewStore(RecordedAll(rs, ws)) == AfterAll(ViewStore(rs), ws)
    ensures StoreOk(ViewStore(RecordedAll(rs, ws)))
  {
    RunsKeepStructure(ViewStore(rs), ws);
    if ws != [] {
      var n := |ws| - 1;
      RecordsKeepStructure(rs, ws[..n]);
      ViewRecorded(RecordedAll(rs, ws[..n]), ws[n]);
    }
  }
}
