/** The node record refines an append-only history of snapshots. */
module NodeRefinement {
  import opened Basics
  import opened NodeRecord
  import opened NodeHistory
  import opened NodeTags

  /** What a reader sees at one version: who the node points to and is pointed to by, and its tags. */
  datatype Snapshot = Snapshot(forward: set<string>, reverse: set<string>, tags: map<string, set<string>>) {
    ghost function Edges(dir: Direction): set<string> { if dir.Forward? then forward else reverse }
    ghost function WithEdges(dir: Direction, edges: set<string>): Snapshot {
      if dir.Forward? then this.(forward := edges) else this.(reverse := edges)
    }
  }

  ghost function SnapAt(info: NodeInfo, v: nat): Snapshot
  {
    Snapshot(Names(Visible(info.forward, v)), Names(Visible(info.reverse, v)), TagsAt(info.tags, v))
  }

  ghost predicate InfoOk(info: NodeInfo)
  {
    && EdgesOk(info.forward, info.listVersion) && EdgesOk(info.reverse, info.listVersion)
    && TagsOk(info.tags, info.listVersion)
  }

  /** When an operation is accepted. */
  ghost predicate Enabled(now: Snapshot, op: Op)
  {
    match op
    case AddEdge(dir, other) => other !in now.Edges(dir)
    case RemoveEdge(dir, other) => other in now.Edges(dir)
    case DeleteTag(key) => key in now.tags
    case _ => true
  }

  /** What an accepted operation makes of the current snapshot. */
  ghost function Effect(now: Snapshot, op: Op): Snapshot
  {
    match op
    case AddEdge(dir, other) => now.WithEdges(dir, now.Edges(dir) + {other})
    case RemoveEdge(dir, other) => now.WithEdges(dir, now.Edges(dir) - {other})
    case UpdateTag(key, values) => now.(tags := now.tags[key := Names(values)])
    case DeleteTag(key) => now.(tags := now.tags - {key})
    case SetType(_) => now
  }

  // ----- the three parts of a record, carried to the next version -----

  /** A list one version further: the past unchanged, the present as given. */
  ghost predicate EdgesCarried(edges: seq<Versioned>, edges': seq<Versioned>, top: nat, now: set<string>)
  {
    && EdgesOk(edges', top + 1)
    && (forall v: nat | v <= top :: Names(Visible(edges', v)) == Names(Visible(edges, v)))
    && Names(Visible(edges', top + 1)) == now
  }

  ghost predicate TagsCarried(tags: seq<KeyValue>, tags': seq<KeyValue>, top: nat, now: map<string, set<string>>)
  {
    && TagsOk(tags', top + 1)
    && (forall v: nat | v <= top :: TagsAt(tags', v) == TagsAt(tags, v))
    && TagsAt(tags', top + 1) == now
  }

  lemma CarryEdgesReads(edges: seq<Versioned>, top: nat)
    requires EdgesOk(edges, top)
    ensures EdgesCarried(edges, CarryEdges(edges, top, top + 1), top, Names(Visible(edges, top)))
  {
    CarryEdgesOk(edges, top);
    CarryEdgesNew(edges, top);
    forall v: nat | v <= top ensures Visible(CarryEdges(edges, top, top + 1), v) == Visible(edges, v) {
      CarryEdgesOld(edges, top, v);
    }
  }

  lemma CarryTagsOk(tags: seq<KeyValue>, top: nat)
    requires TagsOk(tags, top)
    ensures var tags' := CarryTags(tags, top, top + 1, 0);
            && TagsOk(tags', top + 1)
            && forall i | 0 <= i < |tags| :: tags'[i] == CarryKey(tags[i], top, top + 1)
  {
    forall i | 0 <= i < |tags| ensures !Mapped(tags[i].versionMap, top + 1) {
      NotYetMapped(tags[i], top);
    }
    CarryTagsEach(tags, top, top + 1, 0);
    forall i | 0 <= i < |tags| ensures KeyOk(CarryKey(tags[i], top, top + 1), top + 1) {
      CarryKeyReads(tags[i], top);
    }
  }

  lemma CarryTagsReads(tags: seq<KeyValue>, top: nat)
    requires TagsOk(tags, top)
    ensures TagsCarried(tags, CarryTags(tags, top, top + 1, 0), top, TagsAt(tags, top))
  {
    var tags' := CarryTags(tags, top, top + 1, 0);
    CarryTagsOk(tags, top);
    forall i | 0 <= i < |tags|
      ensures tags'[i].key == tags[i].key && TagAt(tags'[i], top + 1) == TagAt(tags[i], top)
      ensures forall v: nat | v <= top :: TagAt(tags'[i], v) == TagAt(tags[i], v)
    {
      CarryKeyReads(tags[i], top);
    }
    TagsAtSame(tags, tags', top, top + 1);
    forall v: nat | v <= top ensures TagsAt(tags', v) == TagsAt(tags, v) {
      TagsAtSame(tags, tags', v, v);
    }
  }

  /** The whole record one version further. */
  ghost predicate Advances(info: NodeInfo, info': NodeInfo, now: Snapshot)
  {
    && info'.listVersion == info.listVersion + 1
    && EdgesCarried(info.forward, info'.forward, info.listVersion, now.forward)
    && EdgesCarried(info.reverse, info'.reverse, info.listVersion, now.reverse)
    && TagsCarried(info.tags, info'.tags, info.listVersion, now.tags)
  }

  lemma AdvancesMeans(info: NodeInfo, info': NodeInfo, now: Snapshot)
    requires Advances(info, info', now)
    ensures InfoOk(info') && SnapAt(info', info'.listVersion) == now
    ensures forall v: nat | v <= info.listVersion :: SnapAt(info', v) == SnapAt(info, v)
  {
  }

  function OtherWay(dir: Direction): Direction
  {
    if dir.Forward? then Reverse else Forward
  }

  lemma ForwardAdvances(info: NodeInfo, info': NodeInfo, now: set<string>)
    requires InfoOk(info) && info'.listVersion == info.listVersion + 1
    requires EdgesCarried(info.forward, info'.forward, info.listVersion, now)
    requires info'.reverse == CarryEdges(info.reverse, info.listVersion, info'.listVersion)
    requires info'.tags == CarryTags(info.tags, info.listVersion, info'.listVersion, 0)
    ensures Advances(info, info', SnapAt(info, info.listVersion).WithEdges(Forward, now))
  {
    CarryEdgesReads(info.reverse, info.listVersion);
    CarryTagsReads(info.tags, info.listVersion);
    AllForwardAdvances(info, info', now);
  }

  lemma AllForwardAdvances(info: NodeInfo, info': NodeInfo, now: set<string>)
    requires info'.listVersion == info.listVersion + 1
    requires EdgesCarried(info.forward, info'.forward, info.listVersion, now)
    requires EdgesCarried(info.reverse, info'.reverse, info.listVersion, Names(Visible(info.reverse, info.listVersion)))
    requires TagsCarried(info.tags, info'.tags, info.listVersion, TagsAt(info.tags, info.listVersion))
    ensures Advances(info, info', SnapAt(info, info.listVersion).WithEdges(Forward, now))
  {
  }

  lemma ReverseAdvances(info: NodeInfo, info': NodeInfo, now: set<string>)
    requires InfoOk(info) && info'.listVersion == info.listVersion + 1
    requires EdgesCarried(info.reverse, info'.reverse, info.listVersion, now)
    requires info'.forward == CarryEdges(info.forward, info.listVersion, info'.listVersion)
    requires info'.tags == CarryTags(info.tags, info.listVersion, info'.listVersion, 0)
    ensures Advances(info, info', SnapAt(info, info.listVersion).WithEdges(Reverse, now))
  {
    CarryEdgesReads(info.forward, info.listVersion);
    CarryTagsReads(info.tags, info.listVersion);
    AllReverseAdvances(info, info', now);
  }

  lemma AllReverseAdvances(info: NodeInfo, info': NodeInfo, now: set<string>)
    requires info'.listVersion == info.listVersion + 1
    requires EdgesCarried(info.reverse, info'.reverse, info.listVersion, now)
    requires EdgesCarried(info.forward, info'.forward, info.listVersion, Names(Visible(info.forward, info.listVersion)))
    requires TagsCarried(info.tags, info'.tags, info.listVersion, TagsAt(info.tags, info.listVersion))
    ensures Advances(info, info', SnapAt(info, info.listVersion).WithEdges(Reverse, now))
  {
  }

  /** One edge list changed, the rest carried. */
  lemma EdgesAdvance(info: NodeInfo, info': NodeInfo, dir: Direction, now: set<string>)
    requires InfoOk(info) && info'.listVersion == info.listVersion + 1
    requires EdgesCarried(info.Edges(dir), info'.Edges(dir), info.listVersion, now)
    requires info'.Edges(OtherWay(dir)) == CarryEdges(info.Edges(OtherWay(dir)), info.listVersion, info'.listVersion)
    requires info'.tags == CarryTags(info.tags, info.listVersion, info'.listVersion, 0)
    ensures Advances(info, info', SnapAt(info, info.listVersion).WithEdges(dir, now))
  {
    if dir.Forward? {
      ForwardAdvances(info, info', now);
    } else {
      ReverseAdvances(info, info', now);
    }
  }

  /** The tags changed, the edges carried. */
  lemma TagsAdvance(info: NodeInfo, info': NodeInfo, now: map<string, set<string>>)
    requires InfoOk(info) && info'.listVersion == info.listVersion + 1
    requires info'.forward == CarryEdges(info.forward, info.listVersion, info'.listVersion)
    requires info'.reverse == CarryEdges(info.reverse, info.listVersion, info'.listVersion)
    requires TagsCarried(info.tags, info'.tags, info.listVersion, now)
    ensures Advances(info, info', SnapAt(info, info.listVersion).(tags := now))
  {
    CarryEdgesReads(info.forward, info.listVersion);
    CarryEdgesReads(info.reverse, info.listVersion);
  }

  lemma SetTypeAdvances(info: NodeInfo, t: NodeType)
    requires InfoOk(info)
    ensures Advances(info, Bump(info).(nodeType := t), SnapAt(info, info.listVersion))
  {
    CarryTagsReads(info.tags, info.listVersion);
    TagsAdvance(info, Bump(info).(nodeType := t), TagsAt(info.tags, info.listVersion));
  }

  lemma AddedEdgeCarried(edges: seq<Versioned>, top: nat, id: string)
    requires EdgesOk(edges, top) && id !in Visible(edges, top)
    ensures var edges' := CarryEdges(Appended(edges, id, LookupEdge(edges, id, top, 0), top + 1), top, top + 1);
            EdgesCarried(edges, edges', top, Names(Visible(edges, top)) + {id})
  {
    AddEdgeReads(edges, top, id);
    var edges' := CarryEdges(Appended(edges, id, LookupEdge(edges, id, top, 0), top + 1), top, top + 1);
    forall v: nat | v <= top ensures Names(Visible(edges', v)) == Names(Visible(edges, v)) {
      MovedLastNames(Visible(edges, v), id);
    }
  }

  lemma AddEdgeCombines(info: NodeInfo, dir: Direction, other: string)
    requires InfoOk(info) && other !in Visible(info.Edges(dir), info.listVersion)
    requires ApplyAddEdge(info, dir, other).1
    ensures var top := info.listVersion;
            var now := Names(Visible(info.Edges(dir), top)) + {other};
            Advances(info, ApplyAddEdge(info, dir, other).0, SnapAt(info, top).WithEdges(dir, now))
  {
    AddEdgeIs(info, dir, other);
    AddedAdvances(info, ApplyAddEdge(info, dir, other).0, dir, other);
  }

  lemma AddedAdvances(info: NodeInfo, info': NodeInfo, dir: Direction, other: string)
    requires InfoOk(info) && other !in Visible(info.Edges(dir), info.listVersion)
    requires info'.listVersion == info.listVersion + 1
    requires info'.tags == CarryTags(info.tags, info.listVersion, info'.listVersion, 0)
    requires info'.Edges(OtherWay(dir)) == CarryEdges(info.Edges(OtherWay(dir)), info.listVersion, info'.listVersion)
    requires var edges, top := info.Edges(dir), info.listVersion;
             info'.Edges(dir)
                 == CarryEdges(Appended(edges, other, LookupEdge(edges, other, top, 0), top + 1), top, top + 1)
    ensures var now := Names(Visible(info.Edges(dir), info.listVersion)) + {other};
            Advances(info, info', SnapAt(info, info.listVersion).WithEdges(dir, now))
  {
    AddedEdgeCarried(info.Edges(dir), info.listVersion, other);
    EdgesAdvance(info, info', dir, Names(Visible(info.Edges(dir), info.listVersion)) + {other});
  }

  lemma AddEdgeIs(info: NodeInfo, dir: Direction, other: string)
    requires ApplyAddEdge(info, dir, other).1
    ensures var info', top := ApplyAddEdge(info, dir, other).0, info.listVersion;
            && info'.listVersion == top + 1 && info'.tags == CarryTags(info.tags, top, top + 1, 0)
            && info'.Edges(OtherWay(dir)) == CarryEdges(info.Edges(OtherWay(dir)), top, top + 1)
            && info'.Edges(dir)
               == CarryEdges(Appended(info.Edges(dir), other, LookupEdge(info.Edges(dir), other, top, 0), top + 1), top,
                   top + 1)
  {
  }

  lemma AddEdgeAdvances(info: NodeInfo, dir: Direction, other: string)
    requires InfoOk(info)
    ensures var (info', ok) := ApplyAddEdge(info, dir, other);
            var now := SnapAt(info, info.listVersion);
            && (ok <==> other !in now.Edges(dir))
            && (ok ==> Advances(info, info', Effect(now, AddEdge(dir, other))))
            && (!ok ==> info' == info)
  {
    PresentIsVisible(info.Edges(dir), info.listVersion, other);
    if other !in Visible(info.Edges(dir), info.listVersion) {
      AddEdgeCombines(info, dir, other);
    }
  }

  lemma RemoveEdgeFinds(edges: seq<Versioned>, top: nat, other: string)
    requires EdgesOk(edges, top)
    ensures var i := IndexOf(edges, other, 0);
            other in Visible(edges, top) <==> i < |edges| && top in edges[i].versions
  {
    VisibleIds(edges, top, top);
    var i := IndexOf(edges, other, 0);
    if j :| 0 <= j < |edges| && edges[j].id == other && top in edges[j].versions {
      assert j == i;
    }
  }

  lemma RemovedEdgeCarried(edges: seq<Versioned>, top: nat, i: nat)
    requires EdgesOk(edges, top) && i < |edges| && top in edges[i].versions
    ensures EdgesCarried(edges, Removed(edges, top, i), top, Names(Visible(edges, top)) - {edges[i].id})
  {
    RemoveEdgeReads(edges, top, i);
    WithoutNames(Visible(edges, top), edges[i].id);
  }

  lemma RemoveEdgeCombines(info: NodeInfo, dir: Direction, other: string, i: nat)
    requires InfoOk(info) && i == IndexOf(info.Edges(dir), other, 0) && i < |info.Edges(dir)|
    requires info.listVersion in info.Edges(dir)[i].versions && ApplyRemoveEdge(info, dir, other).1
    ensures var now := SnapAt(info, info.listVersion);
            Advances(info, ApplyRemoveEdge(info, dir, other).0, Effect(now, RemoveEdge(dir, other)))
  {
    RemoveEdgeIs(info, dir, other, i);
    RemovedAdvances(info, ApplyRemoveEdge(info, dir, other).0, dir, i);
  }

  lemma RemoveEdgeIs(info: NodeInfo, dir: Direction, other: string, i: nat)
    requires i == IndexOf(info.Edges(dir), other, 0) && i < |info.Edges(dir)| && ApplyRemoveEdge(info, dir, other).1
    ensures var info', top := ApplyRemoveEdge(info, dir, other).0, info.listVersion;
            && info'.listVersion == top + 1 && info'.tags == CarryTags(info.tags, top, top + 1, 0)
            && info'.Edges(OtherWay(dir)) == CarryEdges(info.Edges(OtherWay(dir)), top, top + 1)
            && info'.Edges(dir) == Removed(info.Edges(dir), top, i)
  {
  }

  lemma RemovedAdvances(info: NodeInfo, info': NodeInfo, dir: Direction, i: nat)
    requires InfoOk(info) && i < |info.Edges(dir)| && info.listVersion in info.Edges(dir)[i].versions
    requires info'.listVersion == info.listVersion + 1
    requires info'.tags == CarryTags(info.tags, info.listVersion, info'.listVersion, 0)
    requires info'.Edges(OtherWay(dir)) == CarryEdges(info.Edges(OtherWay(dir)), info.listVersion, info'.listVersion)
    requires info'.Edges(dir) == Removed(info.Edges(dir), info.listVersion, i)
    ensures var other := info.Edges(dir)[i].id;
            Advances(info, info', Effect(SnapAt(info, info.listVersion), RemoveEdge(dir, other)))
  {
    var top := info.listVersion;
    RemovedEdgeCarried(info.Edges(dir), top, i);
    EdgesAdvance(info, info', dir, Names(Visible(info.Edges(dir), top)) - {info.Edges(dir)[i].id});
  }

  lemma RemoveEdgeAdvances(info: NodeInfo, dir: Direction, other: string)
    requires InfoOk(info)
    ensures var (info', ok) := ApplyRemoveEdge(info, dir, other);
            var now := SnapAt(info, info.listVersion);
            && (ok <==> other in now.Edges(dir))
            && (ok ==> Advances(info, info', Effect(now, RemoveEdge(dir, other))))
            && (!ok ==> info' == info)
  {
    var top := info.listVersion;
    var i := IndexOf(info.Edges(dir), other, 0);
    RemoveEdgeFinds(info.Edges(dir), top, other);
    if i < |info.Edges(dir)| {
      ScanFinds(info.Edges(dir)[i].versions, top);
      if top in info.Edges(dir)[i].versions {
        RemoveEdgeCombines(info, dir, other, i);
      }
    }
  }

  // ----- tags -----

  lemma IndexOfKeyUnique(tags: seq<KeyValue>, top: nat, key: string)
    requires TagsOk(tags, top)
    ensures var i := IndexOfKey(tags, key, 0);
            && (i == |tags| ==> key !in TagsAt(tags, top))
            && (i < |tags| ==> (key in TagsAt(tags, top) <==> top in tags[i].versions))
  {
    var i := IndexOfKey(tags, key, 0);
    TagsAtLookup(tags, top, top, key);
    if i < |tags| {
      ScanFinds(tags[i].versions, top);
    }
  }

  /** Deleting a key: carried with the rest, then its newest version taken back. */
  ghost function DeletedTags(tags: seq<KeyValue>, top: nat, i: nat): seq<KeyValue>
    requires i < |tags|
  {
    var tags' := CarryTags(tags, top, top + 1, 0);
    tags'[i := tags'[i].(versions := DropLast(tags'[i].versions))]
  }

  lemma DeletedKeyReads(kv: KeyValue, top: nat)
    requires KeyOk(kv, top) && top in kv.versions
    ensures var carried := CarryKey(kv, top, top + 1);
            var kv' := carried.(versions := DropLast(carried.versions));
            && KeyOk(kv', top + 1) && kv'.key == kv.key
            && (forall v: nat | v <= top :: TagAt(kv', v) == TagAt(kv, v))
            && TagAt(kv', top + 1) == None
  {
    CarriedOk(kv.versions, top);
    ExtendOk(kv.versions, top);
    EnteredReads(kv, top, kv.versions, kv.keyVersion, kv.values);
  }

  /** Key by key, the new list reads at old versions as before, and other keys at the new one. */
  ghost predicate KeysCarried(tags: seq<KeyValue>, tags': seq<KeyValue>, top: nat, i: nat)
  {
    && |tags'| == |tags| && i < |tags|
    && (forall j | 0 <= j < |tags| :: tags'[j].key == tags[j].key && KeyOk(tags'[j], top + 1))
    && (forall j, v: nat | 0 <= j < |tags| && v <= top :: TagAt(tags'[j], v) == TagAt(tags[j], v))
    && (forall j | 0 <= j < |tags| && j != i :: TagAt(tags'[j], top + 1) == TagAt(tags[j], top))
  }

  lemma KeysCarriedReads(tags: seq<KeyValue>, tags': seq<KeyValue>, top: nat, i: nat)
    requires TagsOk(tags, top) && KeysCarried(tags, tags', top, i)
    ensures TagsCarried(tags, tags', top, WithTag(TagsAt(tags, top), tags[i].key, TagAt(tags'[i], top + 1)))
  {
    TagsAtOneChanged(tags, tags', top, top + 1, i);
    forall v: nat | v <= top ensures TagsAt(tags', v) == TagsAt(tags, v) {
      TagsAtSame(tags, tags', v, v);
    }
  }

  lemma DeletedKeysCarried(tags: seq<KeyValue>, top: nat, i: nat)
    requires TagsOk(tags, top) && i < |tags| && top in tags[i].versions
    ensures KeysCarried(tags, DeletedTags(tags, top, i), top, i)
    ensures TagAt(DeletedTags(tags, top, i)[i], top + 1) == None
  {
    var tags' := DeletedTags(tags, top, i);
    forall j | 0 <= j < |tags|
      ensures |tags'| == |tags| && tags'[j].key == tags[j].key && KeyOk(tags'[j], top + 1)
      ensures if j == i then TagAt(tags'[j], top + 1) == None else TagAt(tags'[j], top + 1) == TagAt(tags[j], top)
      ensures forall v: nat | v <= top :: TagAt(tags'[j], v) == TagAt(tags[j], v)
    {
      CarryTagsOk(tags, top);
      if j == i {
        DeletedKeyReads(tags[i], top);
      } else {
        CarryKeyReads(tags[j], top);
      }
    }
  }

  lemma DeleteTagReads(tags: seq<KeyValue>, top: nat, i: nat)
    requires TagsOk(tags, top) && i < |tags| && top in tags[i].versions
    ensures TagsCarried(tags, DeletedTags(tags, top, i), top, TagsAt(tags, top) - {tags[i].key})
  {
    DeletedKeysCarried(tags, top, i);
    KeysCarriedReads(tags, DeletedTags(tags, top, i), top, i);
  }

  lemma DeleteTagAdvances(info: NodeInfo, key: string)
    requires InfoOk(info)
    ensures var (info', ok) := ApplyDeleteTag(info, key);
            var now := SnapAt(info, info.listVersion);
            && (ok <==> key in now.tags)
            && (ok ==> Advances(info, info', Effect(now, DeleteTag(key))))
            && (!ok ==> info' == info)
  {
    var top := info.listVersion;
    var i := IndexOfKey(info.tags, key, 0);
    IndexOfKeyUnique(info.tags, top, key);
    if i < |info.tags| {
      ScanFinds(info.tags[i].versions, top);
      if top in info.tags[i].versions {
        DeleteTagCombines(info, key, i);
      }
    }
  }

  lemma DeleteTagCombines(info: NodeInfo, key: string, i: nat)
    requires InfoOk(info) && i == IndexOfKey(info.tags, key, 0) && i < |info.tags|
    requires info.listVersion in info.tags[i].versions && ApplyDeleteTag(info, key).1
    ensures Advances(info, ApplyDeleteTag(info, key).0, Effect(SnapAt(info, info.listVersion), DeleteTag(key)))
  {
    var top := info.listVersion;
    var info' := ApplyDeleteTag(info, key).0;
    DeleteTagReads(info.tags, top, i);
    TagsAdvance(info, info', TagsAt(info.tags, top) - {key});
  }

  /** One key's record after `update_tag`. */
  ghost function UpdatedKey(kv: KeyValue, values: seq<string>, next: nat): KeyValue
  {
    Entered(kv, kv.versions + [next], kv.keyVersion + 1, AddValues(kv.values, values, kv.keyVersion + 1), next)
  }

  lemma UpdatedKeyReads(kv: KeyValue, top: nat, values: seq<string>)
    requires KeyOk(kv, top)
    ensures var kv' := UpdatedKey(kv, values, top + 1);
            && KeyOk(kv', top + 1)
            && (forall v: nat | v <= top :: TagAt(kv', v) == TagAt(kv, v))
            && TagAt(kv', top + 1) == Some(Names(values))
  {
    var k := kv.keyVersion + 1;
    ExtendOk(kv.versions, top);
    NothingBeyond(kv.values, kv.keyVersion);
    AddValuesReads(kv.values, values, k);
    EnteredReads(kv, top, kv.versions + [top + 1], k, AddValues(kv.values, values, k));
    assert (kv.versions + [top + 1])[|kv.versions|] == top + 1;
    assert Names(Visible(AddValues(kv.values, values, k), k)) == Names(Visible(kv.values, k)) + Names(values);
    assert Names(Visible(AddValues(kv.values, values, k), k)) == Names(values);
  }

  /** The tag list `update_tag` starts from: with the key in it, if need be freshly. */
  ghost function WithKey(tags: seq<KeyValue>, key: string): seq<KeyValue>
  {
    if IndexOfKey(tags, key, 0) == |tags| then tags + [KeyValue(key, 0, [], [], [])] else tags
  }

  lemma WithKeyOk(tags: seq<KeyValue>, top: nat, key: string)
    requires TagsOk(tags, top)
    ensures TagsOk(WithKey(tags, key), top) && forall v :: TagsAt(WithKey(tags, key), v) == TagsAt(tags, v)
    ensures IndexOfKey(tags, key, 0) < |WithKey(tags, key)| && WithKey(tags, key)[IndexOfKey(tags, key, 0)].key == key
  {
    forall v ensures TagsAt(WithKey(tags, key), v) == TagsAt(tags, v) {
      TagsAtAppendFresh(tags, key, v);
    }
  }

  /** What `update_tag` leaves: its key updated, every other live key carried forward. */
  ghost predicate IsUpdated(tags: seq<KeyValue>, tags': seq<KeyValue>, top: nat, i: nat, values: seq<string>)
    requires i < |tags|
  {
    && |tags'| == |tags| && tags'[i] == UpdatedKey(tags[i], values, top + 1)
    && forall j | 0 <= j < |tags| && j != i :: tags'[j] == CarryKey(tags[j], top, top + 1)
  }

  lemma UpdateTagReads(tags: seq<KeyValue>, tags': seq<KeyValue>, top: nat, i: nat, values: seq<string>)
    requires TagsOk(tags, top) && i < |tags| && IsUpdated(tags, tags', top, i, values)
    ensures TagsCarried(tags, tags', top, TagsAt(tags, top)[tags[i].key := Names(values)])
  {
    UpdatedKeyReads(tags[i], top, values);
    forall j | 0 <= j < |tags| && j != i
      ensures tags'[j].key == tags[j].key && KeyOk(tags'[j], top + 1) && TagAt(tags'[j], top + 1) == TagAt(tags[j], top)
      ensures forall v: nat | v <= top :: TagAt(tags'[j], v) == TagAt(tags[j], v)
    {
      CarryKeyReads(tags[j], top);
    }
    KeysCarriedReads(tags, tags', top, i);
  }

  /** Carrying after the key got its new version enters it in the map and nothing else. */
  lemma UpdateTagIs(info: NodeInfo, key: string, values: seq<string>)
    requires InfoOk(info)
    ensures var i := IndexOfKey(info.tags, key, 0);
            && i < |WithKey(info.tags, key)|
            && IsUpdated(WithKey(info.tags, key), ApplyUpdateTag(info, key, values).tags, info.listVersion, i, values)
  {
    var tags, top, i := WithKey(info.tags, key), info.listVersion, IndexOfKey(info.tags, key, 0);
    WithKeyOk(info.tags, top, key);
    assert ApplyUpdateTag(info, key, values).tags == UpdatedTags(tags, top, i, values);
    UpdatedTagsIs(tags, top, i, values);
  }

  /** The tag part of `update_tag` once the key is in the list. */
  ghost function UpdatedTags(tags: seq<KeyValue>, top: nat, i: nat, values: seq<string>): seq<KeyValue>
    requires i < |tags|
  {
    var kv := tags[i].(versions := tags[i].versions + [top + 1], keyVersion := tags[i].keyVersion + 1);
    var carried := CarryTags(tags[i := kv], top, top + 1, 0);
    carried[i := carried[i].(values := AddValues(carried[i].values, values, carried[i].keyVersion))]
  }

  lemma UpdatedTagsIs(tags: seq<KeyValue>, top: nat, i: nat, values: seq<string>)
    requires TagsOk(tags, top) && i < |tags|
    ensures IsUpdated(tags, UpdatedTags(tags, top, i, values), top, i, values)
  {
    var kv := tags[i].(versions := tags[i].versions + [top + 1], keyVersion := tags[i].keyVersion + 1);
    var given := tags[i := kv];
    forall j | 0 <= j < |given| ensures !Mapped(given[j].versionMap, top + 1) {
      NotYetMapped(tags[j], top);
    }
    CarryTagsEach(given, top, top + 1, 0);
    CarriedFresh(tags[i].versions, top);
    assert kv.versions[|tags[i].versions|] == top + 1;
  }

  lemma UpdateTagAdvances(info: NodeInfo, key: string, values: seq<string>)
    requires InfoOk(info)
    ensures var now := SnapAt(info, info.listVersion);
            Advances(info, ApplyUpdateTag(info, key, values), Effect(now, UpdateTag(key, values)))
  {
    var top := info.listVersion;
    var info' := ApplyUpdateTag(info, key, values);
    UpdateTagCarried(info, key, values);
    TagsAdvance(info, info', TagsAt(info.tags, top)[key := Names(values)]);
  }

  lemma UpdateTagCarried(info: NodeInfo, key: string, values: seq<string>)
    requires InfoOk(info)
    ensures var top := info.listVersion;
            TagsCarried(info.tags, ApplyUpdateTag(info, key, values).tags, top,
                TagsAt(info.tags, top)[key := Names(values)])
  {
    var top := info.listVersion;
    WithKeyOk(info.tags, top, key);
    UpdateTagIs(info, key, values);
    UpdateTagReads(WithKey(info.tags, key), ApplyUpdateTag(info, key, values).tags, top, IndexOfKey(info.tags, key, 0),
        values);
  }

  // ----- steps and runs -----

  /** Every operation is accepted exactly when it should be, changes the present by exactly what was
      asked for, and leaves every earlier version reading as before. */
  lemma StepRefines(info: NodeInfo, op: Op)
    requires InfoOk(info)
    ensures var (info', ok) := Apply(info, op);
            var now := SnapAt(info, info.listVersion);
            && (ok <==> Enabled(now, op))
            && (ok ==> Advances(info, info', Effect(now, op)))
            && (!ok ==> info' == info)
  {
    match op
    case AddEdge(dir, other) => AddEdgeAdvances(info, dir, other);
    case RemoveEdge(dir, other) => RemoveEdgeAdvances(info, dir, other);
    case UpdateTag(key, values) => UpdateTagAdvances(info, key, values);
    case DeleteTag(key) => DeleteTagAdvances(info, key);
    case SetType(t) => SetTypeAdvances(info, t);
  }

  ghost function Run(ops: seq<Op>): NodeInfo
  {
    if ops == [] then NEW_NODE else Apply(Run(ops[..|ops| - 1]), ops[|ops| - 1]).0
  }

  /** The history the operations describe: accepted ones append a snapshot, the others do nothing. */
  ghost function History(ops: seq<Op>): (h: seq<Snapshot>)
    ensures |h| > 0
  {
    if ops == [] then [Snapshot({}, {}, map[])]
    else
      var h := History(ops[..|ops| - 1]);
      var now := h[|h| - 1];
      if Enabled(now, ops[|ops| - 1]) then h + [Effect(now, ops[|ops| - 1])] else h
  }

  ghost predicate Refines(info: NodeInfo, h: seq<Snapshot>)
  {
    && InfoOk(info) && |h| == info.listVersion + 1
    && forall v: nat | v < |h| :: SnapAt(info, v) == h[v]
  }

  lemma RefinesOneMore(info: NodeInfo, info': NodeInfo, h: seq<Snapshot>, now: Snapshot)
    requires Refines(info, h) && Advances(info, info', now)
    ensures Refines(info', h + [now])
  {
    AdvancesMeans(info, info', now);
  }

  /** After any sequence of operations on a new node, reading at any version shows the snapshot that was
      current when the list version was that one. */
  lemma {:induction false} RunRefinesHistory(ops: seq<Op>)
    ensures Refines(Run(ops), History(ops))
  {
    if ops != [] {
      var n := |ops| - 1;
      RunRefinesHistory(ops[..n]);
      var info, h := Run(ops[..n]), History(ops[..n]);
      StepRefines(info, ops[n]);
      if Enabled(h[|h| - 1], ops[n]) {
        RefinesOneMore(info, Run(ops), h, Effect(h[|h| - 1], ops[n]));
      }
    }
  }

  /** The type last set; a new node's is UNKNOWN. */
  ghost function LastSet(ops: seq<Op>): NodeType
  {
    if ops == [] then UNKNOWN
    else if ops[|ops| - 1].SetType? then ops[|ops| - 1].nodeType
    else LastSet(ops[..|ops| - 1])
  }

  /** The node's type is the one last set, whatever else was done, and setting it is always a new version. */
  lemma {:induction false} RunKeepsType(ops: seq<Op>)
    ensures Run(ops).nodeType == LastSet(ops)
    ensures ops != [] && ops[|ops| - 1].SetType? ==>
        Run(ops).listVersion == Run(ops[..|ops| - 1]).listVersion + 1
  {
    if ops != [] {
      RunKeepsType(ops[..|ops| - 1]);
      OnlySetTypeSets(Run(ops[..|ops| - 1]), ops[|ops| - 1]);
    }
  }

  lemma OnlySetTypeSets(info: NodeInfo, op: Op)
    ensures Apply(info, op).0.nodeType == if op.SetType? then op.nodeType else info.nodeType
  {
  }
}
