/** The versioned node record: adjacency lists and tags whose items carry the list versions at which
    they were alive, and the operations on it as functions. */
module NodeRecord {

  /** A name with the versions at which it was alive: an adjacency entry (list versions) or one value
      of a tag (key versions). */
  datatype Versioned = Versioned(id: string, versions: seq<nat>)

  datatype VersionPair = VersionPair(listVersion: nat, keyVersion: nat)

  datatype KeyValue = KeyValue(
    key: string, keyVersion: nat, values: seq<Versioned>, versions: seq<nat>, versionMap: seq<VersionPair>)

  datatype NodeType = ENVIRONMENT | CLUSTER | HOST | STRING | UNKNOWN

  datatype Direction = Forward | Reverse

  datatype NodeInfo = NodeInfo(
    listVersion: nat, nodeType: NodeType, forward: seq<Versioned>, reverse: seq<Versioned>, tags: seq<KeyValue>)
  {
    function Edges(dir: Direction): seq<Versioned> { if dir.Forward? then forward else reverse }

    function WithEdges(dir: Direction, edges: seq<Versioned>): NodeInfo {
      if dir.Forward? then this.(forward := edges) else this.(reverse := edges)
    }
  }

  const NEW_NODE := NodeInfo(0, UNKNOWN, [], [], [])

  // ----- version lists -----

  /** What a scan of a version list from its newest entry finds first. */
  datatype Scan = Found | Older | Exhausted

  function ScanBack(versions: seq<nat>, v: nat): Scan
  {
    if versions == [] then Exhausted
    else if versions[|versions| - 1] == v then Found
    else if versions[|versions| - 1] < v then Older
    else ScanBack(versions[..|versions| - 1], v)
  }

  /** An item alive at `cmp` is alive at `next` too. */
  function Carried(versions: seq<nat>, cmp: nat, next: nat): seq<nat>
  {
    if cmp in versions && next !in versions then versions + [next] else versions
  }

  // ----- edges -----

  function CarryEdges(edges: seq<Versioned>, cmp: nat, next: nat): (r: seq<Versioned>)
    ensures |r| == |edges|
  {
    seq(|edges|, i requires 0 <= i < |edges| => edges[i].(versions := Carried(edges[i].versions, cmp, next)))
  }

  /** The names alive at version `v`, in list order: what `get_edges` lists at a list version and what
      `get_map_value` lists at a key version. */
  function Visible(edges: seq<Versioned>, v: nat): seq<string>
  {
    if edges == [] then []
    else
      var last := edges[|edges| - 1];
      Visible(edges[..|edges| - 1], v) + if ScanBack(last.versions, v).Found? then [last.id] else []
  }

  datatype Lookup = Present | Stale(index: nat) | Absent

  /** The search in `add_edge`, from position `from` on. */
  function LookupEdge(edges: seq<Versioned>, id: string, v: nat, from: nat): (r: Lookup)
    requires from <= |edges|
    ensures r.Stale? ==> from <= r.index < |edges|
    decreases |edges| - from
  {
    if from == |edges| then Absent
    else if edges[from].id == id && ScanBack(edges[from].versions, v).Found? then Present
    else if edges[from].id == id && ScanBack(edges[from].versions, v).Older? then Stale(from)
    else LookupEdge(edges, id, v, from + 1)
  }

  /** The list with the edge to `id` at its tail, alive at `next`. */
  function Appended(edges: seq<Versioned>, id: string, found: Lookup, next: nat): seq<Versioned>
    requires found.Stale? ==> found.index < |edges|
  {
    if found.Stale? then
      edges[..found.index] + edges[found.index + 1..]
      + [edges[found.index].(versions := edges[found.index].versions + [next])]
    else
      edges + [Versioned(id, [next])]
  }

  /** The first position holding `id`, or the length of the list. */
  function IndexOf(edges: seq<Versioned>, id: string, from: nat): (r: nat)
    requires from <= |edges|
    ensures from <= r <= |edges|
    ensures r < |edges| ==> edges[r].id == id
    ensures forall i | from <= i < r :: edges[i].id != id
    decreases |edges| - from
  {
    if from == |edges| || edges[from].id == id then from else IndexOf(edges, id, from + 1)
  }

  function DropLast(versions: seq<nat>): seq<nat>
  {
    if versions == [] then [] else versions[..|versions| - 1]
  }

  // ----- tags -----

  predicate Mapped(vm: seq<VersionPair>, v: nat)
  {
    exists i | 0 <= i < |vm| :: vm[i].listVersion == v
  }

  function CarryKey(kv: KeyValue, cmp: nat, next: nat): KeyValue
  {
    if cmp in kv.versions || next in kv.versions then
      kv.(versions := Carried(kv.versions, cmp, next), versionMap := kv.versionMap + [VersionPair(next, kv.keyVersion)])
    else kv
  }

  /** `update_tag_versions` from key `from` on, including its early return when a live key already
      maps the new list version. */
  function CarryTags(tags: seq<KeyValue>, cmp: nat, next: nat, from: nat): (r: seq<KeyValue>)
    requires from <= |tags|
    ensures |r| == |tags|
    decreases |tags| - from
  {
    if from == |tags| then tags
    else if (cmp in tags[from].versions || next in tags[from].versions) && Mapped(tags[from].versionMap, next) then
      tags[from := tags[from].(versions := Carried(tags[from].versions, cmp, next))]
    else
      CarryTags(tags[from := CarryKey(tags[from], cmp, next)], cmp, next, from + 1)
  }

  function IndexOfKey(tags: seq<KeyValue>, key: string, from: nat): (r: nat)
    requires from <= |tags|
    ensures from <= r <= |tags|
    ensures r < |tags| ==> tags[r].key == key
    ensures forall i | from <= i < r :: tags[i].key != key
    decreases |tags| - from
  {
    if from == |tags| || tags[from].key == key then from else IndexOfKey(tags, key, from + 1)
  }

  /** One value recorded at key version `k`. */
  function AddValue(values: seq<Versioned>, data: string, k: nat): seq<Versioned>
  {
    var i := IndexOf(values, data, 0);
    if i == |values| then values + [Versioned(data, [k])]
    else if k in values[i].versions then values
    else values[i := values[i].(versions := values[i].versions + [k])]
  }

  function AddValues(values: seq<Versioned>, data: seq<string>, k: nat): seq<Versioned>
  {
    if data == [] then values
    else AddValue(AddValues(values, data[..|data| - 1], k), data[|data| - 1], k)
  }

  /** The key version the map gives for a list version; entries are read newest first and the last one
      read wins. */
  function KeyVersionAt(vm: seq<VersionPair>, v: nat): nat
    requires Mapped(vm, v)
  {
    if vm[0].listVersion == v then vm[0].keyVersion
    else
      assert Mapped(vm[1..], v) by {
        var i :| 0 <= i < |vm| && vm[i].listVersion == v;
        assert vm[1..][i - 1].listVersion == v;
      }
      KeyVersionAt(vm[1..], v)
  }

  // ----- the operations -----

  datatype Op =
    | AddEdge(dir: Direction, other: string)
    | RemoveEdge(dir: Direction, other: string)
    | UpdateTag(key: string, values: seq<string>)
    | DeleteTag(key: string)
    | SetType(nodeType: NodeType)

  /** Every mutation copies what is alive forward to the next list version. */
  function Bump(info: NodeInfo): NodeInfo
  {
    var cmp, next := info.listVersion, info.listVersion + 1;
    NodeInfo(next, info.nodeType, CarryEdges(info.forward, cmp, next), CarryEdges(info.reverse, cmp, next),
             CarryTags(info.tags, cmp, next, 0))
  }

  function ApplyAddEdge(info: NodeInfo, dir: Direction, other: string): (NodeInfo, bool)
  {
    var found := LookupEdge(info.Edges(dir), other, info.listVersion, 0);
    if found.Present? then (info, false)
    else (Bump(info.WithEdges(dir, Appended(info.Edges(dir), other, found, info.listVersion + 1))), true)
  }

  function ApplyRemoveEdge(info: NodeInfo, dir: Direction, other: string): (NodeInfo, bool)
  {
    var i := IndexOf(info.Edges(dir), other, 0);
    if i == |info.Edges(dir)| || !ScanBack(info.Edges(dir)[i].versions, info.listVersion).Found? then (info, false)
    else
      var edges := Bump(info).Edges(dir);
      (Bump(info).WithEdges(dir, edges[i := edges[i].(versions := DropLast(edges[i].versions))]), true)
  }

  function ApplyUpdateTag(info: NodeInfo, key: string, values: seq<string>): NodeInfo
  {
    var next := info.listVersion + 1;
    var i := IndexOfKey(info.tags, key, 0);
    var tags := if i == |info.tags| then info.tags + [KeyValue(key, 0, [], [], [])] else info.tags;
    var kv := tags[i];
    var raised := kv.(versions := kv.versions + [next], keyVersion := kv.keyVersion + 1);
    var bumped := Bump(info.(tags := tags[i := raised]));
    var kv' := bumped.tags[i];
    bumped.(tags := bumped.tags[i := kv'.(values := AddValues(kv'.values, values, kv'.keyVersion))])
  }

  function ApplyDeleteTag(info: NodeInfo, key: string): (NodeInfo, bool)
  {
    var i := IndexOfKey(info.tags, key, 0);
    if i == |info.tags| || !ScanBack(info.tags[i].versions, info.listVersion).Found? then (info, false)
    else
      var tags := Bump(info).tags;
      (Bump(info).(tags := tags[i := tags[i].(versions := DropLast(tags[i].versions))]), true)
  }

  function Apply(info: NodeInfo, op: Op): (NodeInfo, bool)
  {
    match op
    case AddEdge(dir, other) => ApplyAddEdge(info, dir, other)
    case RemoveEdge(dir, other) => ApplyRemoveEdge(info, dir, other)
    case UpdateTag(key, values) => (ApplyUpdateTag(info, key, values), true)
    case DeleteTag(key) => ApplyDeleteTag(info, key)
    case SetType(t) => (Bump(info).(nodeType := t), true)
  }
}
