/** The node object: its mutators and readers as loops over the record, each proved equal to the
    corresponding function, hence subject to the history theorem. */
module ProtobufNode {
  import opened Basics
  import opened NodeRecord
  import opened NodeHistory
  import opened NodeTags
  import opened NodeRefinement
  import opened TagOrder

  /** Version lists are scanned from the newest entry; an older entry ends the scan. */
  method ScanVersions(versions: seq<nat>, v: nat) returns (r: Scan)
    ensures r == ScanBack(versions, v)
  {
    var i := |versions|;
    assert versions[..i] == versions;
    while i > 0
      invariant 0 <= i <= |versions| && ScanBack(versions[..i], v) == ScanBack(versions, v)
    {
      assert versions[..i][..i - 1] == versions[..i - 1];
      if versions[i - 1] == v {
        return Found;
      }
      if versions[i - 1] < v {
        return Older;
      }
      i := i - 1;
    }
    r := Exhausted;
  }

  method AddUniqueNewVersion(versions: seq<nat>, next: nat) returns (r: seq<nat>)
    ensures r == if next in versions then versions else versions + [next]
  {
    var i := |versions|;
    while i > 0
      invariant 0 <= i <= |versions| && next !in versions[i..]
    {
      i := i - 1;
      if versions[i] == next {
        return versions;
      }
    }
    r := versions + [next];
  }

  method UpdateUniqueNewVersion(versions: seq<nat>, cmp: nat, next: nat) returns (r: seq<nat>, updated: bool)
    ensures r == Carried(versions, cmp, next)
    ensures updated <==> cmp in versions || next in versions
  {
    var i := |versions|;
    while i > 0
      invariant 0 <= i <= |versions| && next !in versions[i..] && cmp !in versions[i..]
    {
      i := i - 1;
      if versions[i] == next {
        return versions, true;
      }
      if versions[i] == cmp {
        r := AddUniqueNewVersion(versions, next);
        return r, true;
      }
    }
    return versions, false;
  }

  method UpdateEdgeVersions(edges: seq<Versioned>, cmp: nat, next: nat) returns (r: seq<Versioned>)
    ensures r == CarryEdges(edges, cmp, next)
  {
    r := edges;
    for i := 0 to |edges|
      invariant |r| == |edges|
      invariant forall j | 0 <= j < i :: r[j] == CarryEdges(edges, cmp, next)[j]
      invariant forall j | i <= j < |edges| :: r[j] == edges[j]
    {
      var versions, _ := UpdateUniqueNewVersion(r[i].versions, cmp, next);
      r := r[i := r[i].(versions := versions)];
    }
  }

  method UpdateTagVersions(tags: seq<KeyValue>, cmp: nat, next: nat) returns (r: seq<KeyValue>)
    ensures r == CarryTags(tags, cmp, next, 0)
  {
    r := tags;
    var i := 0;
    while i < |tags|
      invariant i <= |tags| == |r|
      invariant CarryTags(r, cmp, next, i) == CarryTags(tags, cmp, next, 0)
    {
      var before := r[i];
      var versions, updated := UpdateUniqueNewVersion(before.versions, cmp, next);
      if updated {
        var mapped := IsMapped(before.versionMap, next);
        if mapped {
          r := r[i := before.(versions := versions)];
          return;
        }
        var mapping := before.versionMap + [VersionPair(next, before.keyVersion)];
        r := r[i := before.(versions := versions, versionMap := mapping)];
      } else {
        assert r[i := CarryKey(before, cmp, next)] == r;
      }
      i := i + 1;
    }
  }

  method IsMapped(vm: seq<VersionPair>, v: nat) returns (r: bool)
    ensures r <==> Mapped(vm, v)
  {
    for i := 0 to |vm|
      invariant forall j | 0 <= j < i :: vm[j].listVersion != v
    {
      if vm[i].listVersion == v {
        return true;
      }
    }
    r := false;
  }

  method FindEdge(edges: seq<Versioned>, id: string, v: nat) returns (r: Lookup)
    ensures r == LookupEdge(edges, id, v, 0)
  {
    var i := 0;
    while i < |edges|
      invariant i <= |edges| && LookupEdge(edges, id, v, i) == LookupEdge(edges, id, v, 0)
    {
      if edges[i].id == id {
        var found := ScanVersions(edges[i].versions, v);
        if found.Found? {
          return Present;
        }
        if found.Older? {
          return Stale(i);
        }
      }
      i := i + 1;
    }
    r := Absent;
  }

  /** Rebuild the list without position `i`, as the mutator does entry by entry. */
  method SkipOver(edges: seq<Versioned>, i: nat) returns (r: seq<Versioned>)
    requires i < |edges|
    ensures r == edges[..i] + edges[i + 1..]
  {
    r := [];
    for j := 0 to |edges|
      invariant r == if j <= i then edges[..j] else edges[..i] + edges[i + 1..j]
    {
      if j != i {
        r := r + [edges[j]];
      }
    }
  }

  /** The table of what `read` says of each key. */
  ghost predicate TableOf(
    tags: seq<KeyValue>, read: KeyValue -> Option<seq<string>>, table: map<string, seq<string>>)
  {
    && (forall key | key in table :: exists j :: 0 <= j < |tags| && tags[j].key == key)
    && forall j | 0 <= j < |tags| :: read(tags[j]) == if tags[j].key in table then Some(table[tags[j].key]) else None
  }

  lemma TableGrows(tags: seq<KeyValue>, read: KeyValue -> Option<seq<string>>, i: nat,
                   table: map<string, seq<string>>, table': map<string, seq<string>>)
    requires i < |tags| && TableOf(tags[..i], read, table)
    requires forall j, k | 0 <= j < k < |tags| :: tags[j].key != tags[k].key
    requires table' == match read(tags[i]) case Some(values) => table[tags[i].key := values] case None => table
    ensures TableOf(tags[..i + 1], read, table')
  {
    assert tags[i].key !in table;
    var now := tags[..i + 1];
    forall key | key in table' ensures exists j :: 0 <= j < |now| && now[j].key == key {
      if key in table {
        var j :| 0 <= j < i && tags[..i][j].key == key;
        assert now[j].key == key;
      } else {
        assert now[i].key == key;
      }
    }
    assert forall j | 0 <= j < i :: tags[..i][j] == tags[j];
  }

  lemma TableLookup(
    tags: seq<KeyValue>, read: KeyValue -> Option<seq<string>>, table: map<string, seq<string>>, key: string)
    requires TableOf(tags, read, table)
    ensures var i := IndexOfKey(tags, key, 0);
            if key in table then i < |tags| && read(tags[i]) == Some(table[key])
            else i == |tags| || read(tags[i]).None?
  {
  }

  lemma TagIsList(kv: KeyValue, v: nat)
    ensures TagAt(kv, v) == match ListAt(kv, v) case Some(values) => Some(Names(values)) case None => None
  {
  }

  lemma TableReads(
    info: NodeInfo, v: nat, read: KeyValue -> Option<seq<string>>, table: map<string, seq<string>>, key: string)
    requires InfoOk(info) && TableOf(info.tags, read, table) && forall kv :: read(kv) == ListAt(kv, v)
    ensures ReadTag(info, key, v) == if key in table then Some(table[key]) else None
    ensures key in table <==> key in TagsAt(info.tags, v)
    ensures key in table ==> Names(table[key]) == TagsAt(info.tags, v)[key]
  {
    TableLookup(info.tags, read, table, key);
    TagsAtLookup(info.tags, 0, v, key);
    var i := IndexOfKey(info.tags, key, 0);
    if i < |info.tags| {
      TagIsList(info.tags[i], v);
    }
  }

  class Node {
    var info: NodeInfo

    constructor ()
      ensures info == NEW_NODE
    {
      info := NEW_NODE;
    }

    /** Copy everything alive to the next list version. */
    method CarryForward(cmp: nat, next: nat)
      requires cmp == info.listVersion && next == cmp + 1
      modifies this
      ensures info == Bump(old(info))
    {
      var forward := UpdateEdgeVersions(info.forward, cmp, next);
      var reverse := UpdateEdgeVersions(info.reverse, cmp, next);
      var tags := UpdateTagVersions(info.tags, cmp, next);
      info := info.(forward := forward, reverse := reverse, tags := tags, listVersion := next);
    }

    method AddEdge(dir: Direction, other: string) returns (ok: bool)
      modifies this
      ensures (info, ok) == Apply(old(info), Op.AddEdge(dir, other))
    {
      var next := info.listVersion + 1;
      var edges := info.Edges(dir);
      var found := FindEdge(edges, other, info.listVersion);
      match found {
        case Present =>
          return false;
        case Absent =>
          edges := edges + [Versioned(other, [next])];
        case Stale(i) =>
          var rest := SkipOver(edges, i);
          edges := rest + [edges[i].(versions := edges[i].versions + [next])];
      }
      info := info.WithEdges(dir, edges);
      CarryForward(info.listVersion, next);
      ok := true;
    }

    method RemoveEdge(dir: Direction, other: string) returns (ok: bool)
      modifies this
      ensures (info, ok) == Apply(old(info), Op.RemoveEdge(dir, other))
    {
      var edges := info.Edges(dir);
      var i := 0;
      while i < |edges| && edges[i].id != other
        invariant i <= |edges| && IndexOf(edges, other, i) == IndexOf(edges, other, 0)
      {
        i := i + 1;
      }
      if i == |edges| {
        return false;
      }
      var found := ScanVersions(edges[i].versions, info.listVersion);
      if !found.Found? {
        return false;
      }
      CarryForward(info.listVersion, info.listVersion + 1);
      edges := info.Edges(dir);
      info := info.WithEdges(dir, edges[i := edges[i].(versions := DropLast(edges[i].versions))]);
      ok := true;
    }

    method SetType(nodeType: NodeType) returns (was: NodeType)
      modifies this
      ensures info == Apply(old(info), Op.SetType(nodeType)).0 && was == old(info).nodeType
    {
      was := info.nodeType;
      CarryForward(info.listVersion, info.listVersion + 1);
      info := info.(nodeType := nodeType);
    }

    method FindKey(key: string) returns (i: nat)
      ensures i == IndexOfKey(info.tags, key, 0)
    {
      i := 0;
      while i < |info.tags| && info.tags[i].key != key
        invariant i <= |info.tags| && IndexOfKey(info.tags, key, i) == IndexOfKey(info.tags, key, 0)
      {
        i := i + 1;
      }
    }

    method DeleteTag(key: string) returns (ok: bool)
      modifies this
      ensures (info, ok) == Apply(old(info), Op.DeleteTag(key))
    {
      var i := FindKey(key);
      if i == |info.tags| {
        return false;
      }
      var found := ScanVersions(info.tags[i].versions, info.listVersion);
      if !found.Found? {
        return false;
      }
      CarryForward(info.listVersion, info.listVersion + 1);
      var tags := info.tags;
      info := info.(tags := tags[i := tags[i].(versions := DropLast(tags[i].versions))]);
      ok := true;
    }

    method UpdateTag(key: string, values: seq<string>)
      modifies this
      ensures info == Apply(old(info), Op.UpdateTag(key, values)).0
    {
      var next := info.listVersion + 1;
      var i := FindKey(key);
      var tags := info.tags;
      if i == |tags| {
        tags := tags + [KeyValue(key, 0, [], [], [])];
      }
      tags := tags[i := tags[i].(versions := tags[i].versions + [next], keyVersion := tags[i].keyVersion + 1)];
      info := info.(tags := tags);
      CarryForward(info.listVersion, next);
      var kv := info.tags[i];
      var recorded := RecordValues(kv.values, values, kv.keyVersion);
      info := info.(tags := info.tags[i := kv.(values := recorded)]);
    }

    method RecordValues(values: seq<Versioned>, data: seq<string>, k: nat) returns (r: seq<Versioned>)
      ensures r == AddValues(values, data, k)
    {
      r := values;
      for n := 0 to |data|
        invariant r == AddValues(values, data[..n], k)
      {
        assert data[..n + 1][..n] == data[..n];
        var i := 0;
        while i < |r| && r[i].id != data[n]
          invariant i <= |r| && IndexOf(r, data[n], i) == IndexOf(r, data[n], 0)
        {
          i := i + 1;
        }
        if i == |r| {
          r := r + [Versioned(data[n], [k])];
        } else {
          var versions := AddUniqueNewVersion(r[i].versions, k);
          r := r[i := r[i].(versions := versions)];
        }
      }
      assert data[..|data|] == data;
    }

    /** `get_edges`: the names alive at the wanted version, in list order. */
    method GetEdges(dir: Direction, wanted: nat) returns (names: seq<string>)
      ensures names == Visible(info.Edges(dir), wanted)
      ensures InfoOk(info) ==> Names(names) == SnapAt(info, wanted).Edges(dir)
    {
      names := AliveNames(info.Edges(dir), wanted);
    }

    static method AliveNames(edges: seq<Versioned>, wanted: nat) returns (names: seq<string>)
      ensures names == Visible(edges, wanted)
    {
      names := [];
      for i := 0 to |edges|
        invariant names == Visible(edges[..i], wanted)
      {
        assert edges[..i + 1][..i] == edges[..i];
        var found := ScanVersions(edges[i].versions, wanted);
        if found.Found? {
          names := names + [edges[i].id];
        }
      }
      assert edges[..|edges|] == edges;
    }

    /** `tags`: for every key alive at the wanted version, its values at the key version mapped to it. */
    method Tags(wanted: nat) returns (table: map<string, seq<string>>)
      requires InfoOk(info)
      ensures table.Keys == SnapAt(info, wanted).tags.Keys
      ensures forall key | key in table :: Names(table[key]) == SnapAt(info, wanted).tags[key]
      ensures forall key :: ReadTag(info, key, wanted) == if key in table then Some(table[key]) else None
    {
      table := map[];
      ghost var read: KeyValue -> Option<seq<string>> := kv => ListAt(kv, wanted);
      for i := 0 to |info.tags|
        invariant TableOf(info.tags[..i], read, table)
      {
        var kv := info.tags[i];
        ghost var before := table;
        var found := ScanVersions(kv.versions, wanted);
        if found.Found? {
          var mapped, k := LastMapped(kv.versionMap, wanted);
          if mapped {
            var values := AliveNames(kv.values, k);
            table := table[kv.key := values];
          }
        }
        TableGrows(info.tags, read, i, before, table);
      }
      assert info.tags[..|info.tags|] == info.tags;
      forall key
        ensures ReadTag(info, key, wanted) == if key in table then Some(table[key]) else None
        ensures key in table <==> key in SnapAt(info, wanted).tags
        ensures key in table ==> Names(table[key]) == SnapAt(info, wanted).tags[key]
      {
        TableReads(info, wanted, read, table, key);
      }
    }

    /** The map is read newest entry first and a later match overwrites an earlier one. */
    static method LastMapped(vm: seq<VersionPair>, v: nat) returns (mapped: bool, k: nat)
      ensures mapped <==> Mapped(vm, v)
      ensures mapped ==> k == KeyVersionAt(vm, v)
    {
      mapped, k := false, 0;
      var i := |vm|;
      while i > 0
        invariant 0 <= i <= |vm|
        invariant mapped <==> Mapped(vm[i..], v)
        invariant mapped ==> k == KeyVersionAt(vm[i..], v)
      {
        i := i - 1;
        assert vm[i..][1..] == vm[i + 1..] && vm[i..][0] == vm[i];
        if vm[i].listVersion == v {
          mapped, k := true, vm[i].keyVersion;
        }
      }
      assert vm[0..] == vm;
    }
  }
}
