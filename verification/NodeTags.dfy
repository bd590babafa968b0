/** Tags read back at every version as they were: the key versions and the map from list versions to
    them are a faithful index too. */
module NodeTags {
  import opened Basics
  import opened NodeRecord
  import opened NodeHistory

  /** The map's list versions ascend up to `top` and its key versions stay within `keyTop`. */
  ghost predicate MapOk(vm: seq<VersionPair>, top: nat, keyTop: nat)
  {
    && (forall i, j | 0 <= i < j < |vm| :: vm[i].listVersion < vm[j].listVersion)
    && (forall i | 0 <= i < |vm| :: vm[i].listVersion <= top && vm[i].keyVersion <= keyTop)
  }

  ghost predicate KeyOk(kv: KeyValue, top: nat)
  {
    && VersionsOk(kv.versions, top)
    && MapOk(kv.versionMap, top, kv.keyVersion)
    && EdgesOk(kv.values, kv.keyVersion)
    && (forall v | v in kv.versions :: Mapped(kv.versionMap, v))
    && (top in kv.versions ==> KeyVersionAt(kv.versionMap, top) == kv.keyVersion)
  }

  /** The values a key has at list version `v`, if it is there at all. */
  ghost function TagAt(kv: KeyValue, v: nat): Option<set<string>>
  {
    if ScanBack(kv.versions, v).Found? && Mapped(kv.versionMap, v)
    then Some(Names(Visible(kv.values, KeyVersionAt(kv.versionMap, v)))) else None
  }

  lemma {:induction false} MapEntry(vm: seq<VersionPair>, i: nat)
    requires forall j, k | 0 <= j < k < |vm| :: vm[j].listVersion < vm[k].listVersion
    requires i < |vm|
    ensures KeyVersionAt(vm, vm[i].listVersion) == vm[i].keyVersion
  {
    if i > 0 {
      assert vm[0].listVersion != vm[i].listVersion;
      assert vm[1..][i - 1] == vm[i];
      MapEntry(vm[1..], i - 1);
    }
  }

  /** Appending an entry for a new list version changes no older answer. */
  lemma MapExtended(vm: seq<VersionPair>, top: nat, keyTop: nat, k: nat, v: nat)
    requires MapOk(vm, top, keyTop) && keyTop <= k
    ensures var vm' := vm + [VersionPair(top + 1, k)];
            && MapOk(vm', top + 1, k)
            && (v <= top ==> (Mapped(vm', v) <==> Mapped(vm, v)))
            && (v <= top && Mapped(vm, v) ==> KeyVersionAt(vm', v) == KeyVersionAt(vm, v))
            && (v == top + 1 ==> Mapped(vm', v) && KeyVersionAt(vm', v) == k)
  {
    var vm' := vm + [VersionPair(top + 1, k)];
    if v == top + 1 {
      assert vm'[|vm|].listVersion == v;
      MapEntry(vm', |vm|);
    } else if v <= top {
      if i :| 0 <= i < |vm| && vm[i].listVersion == v {
        assert vm'[i].listVersion == v;
        MapEntry(vm, i);
        MapEntry(vm', i);
      }
      if i :| 0 <= i < |vm'| && vm'[i].listVersion == v {
        assert vm[i].listVersion == v;
      }
    }
  }

  /** What `key version` an older list version answers with never exceeds the current one. */
  lemma KeyVersionBounded(kv: KeyValue, top: nat, v: nat)
    requires KeyOk(kv, top) && Mapped(kv.versionMap, v)
    ensures KeyVersionAt(kv.versionMap, v) <= kv.keyVersion
  {
    var i :| 0 <= i < |kv.versionMap| && kv.versionMap[i].listVersion == v;
    MapEntry(kv.versionMap, i);
  }

  lemma NotYetMapped(kv: KeyValue, top: nat)
    requires MapOk(kv.versionMap, top, kv.keyVersion)
    ensures !Mapped(kv.versionMap, top + 1)
  {
  }

  /** A key's entry for the new list version, with its values as they then are. */
  ghost function Entered(kv: KeyValue, versions: seq<nat>, k: nat, values: seq<Versioned>, next: nat): KeyValue
  {
    KeyValue(kv.key, k, values, versions, kv.versionMap + [VersionPair(next, k)])
  }

  /** An entry that keeps the old versions' values: what it takes to append one. */
  ghost predicate Enterable(kv: KeyValue, top: nat, versions: seq<nat>, k: nat, values: seq<Versioned>)
  {
    && KeyOk(kv, top) && kv.keyVersion <= k && EdgesOk(values, k)
    && VersionsOk(versions, top + 1) && (forall v: nat | v <= top :: v in versions <==> v in kv.versions)
    && (forall j: nat | j <= kv.keyVersion :: Names(Visible(values, j)) == Names(Visible(kv.values, j)))
  }

  /** Old list versions read the same after an entry. */
  lemma EnteredOld(kv: KeyValue, top: nat, versions: seq<nat>, k: nat, values: seq<Versioned>, v: nat)
    requires Enterable(kv, top, versions, k, values) && v <= top
    ensures var kv' := Entered(kv, versions, k, values, top + 1);
            TagAt(kv', v) == TagAt(kv, v) && (v in versions ==> Mapped(kv'.versionMap, v))
  {
    MapExtended(kv.versionMap, top, kv.keyVersion, k, v);
    ScanFinds(versions, v);
    ScanFinds(kv.versions, v);
    if v in kv.versions {
      KeyVersionBounded(kv, top, v);
    }
  }

  lemma EnteredNew(kv: KeyValue, top: nat, versions: seq<nat>, k: nat, values: seq<Versioned>)
    requires Enterable(kv, top, versions, k, values)
    ensures var kv' := Entered(kv, versions, k, values, top + 1);
            && Mapped(kv'.versionMap, top + 1) && KeyVersionAt(kv'.versionMap, top + 1) == k
            && MapOk(kv'.versionMap, top + 1, k)
            && TagAt(kv', top + 1) == if top + 1 in versions then Some(Names(Visible(values, k))) else None
  {
    MapExtended(kv.versionMap, top, kv.keyVersion, k, top + 1);
    ScanFinds(versions, top + 1);
  }

  lemma EnteredReads(kv: KeyValue, top: nat, versions: seq<nat>, k: nat, values: seq<Versioned>)
    requires Enterable(kv, top, versions, k, values)
    ensures var kv' := Entered(kv, versions, k, values, top + 1);
            && KeyOk(kv', top + 1)
            && (forall v: nat | v <= top :: TagAt(kv', v) == TagAt(kv, v))
            && TagAt(kv', top + 1) == if top + 1 in versions then Some(Names(Visible(values, k))) else None
  {
    var kv' := Entered(kv, versions, k, values, top + 1);
    EnteredNew(kv, top, versions, k, values);
    forall v: nat | v <= top ensures TagAt(kv', v) == TagAt(kv, v) && (v in versions ==> Mapped(kv'.versionMap, v)) {
      EnteredOld(kv, top, versions, k, values, v);
    }
  }

  // ----- carrying tags forward -----

  ghost predicate TagsOk(tags: seq<KeyValue>, top: nat)
  {
    && (forall i, j | 0 <= i < j < |tags| :: tags[i].key != tags[j].key)
    && (forall i | 0 <= i < |tags| :: KeyOk(tags[i], top))
  }

  /** The tag table at list version `v`. */
  ghost function TagsAt(tags: seq<KeyValue>, v: nat): map<string, set<string>>
  {
    if tags == [] then map[]
    else
      var last := tags[|tags| - 1];
      var before := TagsAt(tags[..|tags| - 1], v);
      if TagAt(last, v).Some? then before[last.key := TagAt(last, v).value] else before
  }

  lemma CarryKeyReads(kv: KeyValue, top: nat)
    requires KeyOk(kv, top)
    ensures var kv' := CarryKey(kv, top, top + 1);
            && KeyOk(kv', top + 1) && kv'.key == kv.key
            && (forall v: nat | v <= top :: TagAt(kv', v) == TagAt(kv, v))
            && TagAt(kv', top + 1) == TagAt(kv, top)
  {
    ExtendOk(kv.versions, top);
    CarriedOk(kv.versions, top);
    ScanFinds(kv.versions, top);
    if top in kv.versions {
      EnteredReads(kv, top, Carried(kv.versions, top, top + 1), kv.keyVersion, kv.values);
    } else {
      ScanFinds(kv.versions, top + 1);
    }
  }

  /** With no key mapping the new list version yet, the early return is never taken. */
  lemma {:induction false} CarryTagsEach(tags: seq<KeyValue>, cmp: nat, next: nat, from: nat)
    requires from <= |tags|
    requires forall i | from <= i < |tags| :: !Mapped(tags[i].versionMap, next)
    ensures forall i | 0 <= i < |tags| ::
        CarryTags(tags, cmp, next, from)[i] == if i < from then tags[i] else CarryKey(tags[i], cmp, next)
    decreases |tags| - from
  {
    if from < |tags| {
      CarryTagsEach(tags[from := CarryKey(tags[from], cmp, next)], cmp, next, from + 1);
    }
  }

  /** The table is determined key by key. */
  lemma {:induction false} TagsAtLookup(tags: seq<KeyValue>, top: nat, v: nat, key: string)
    requires forall i, j | 0 <= i < j < |tags| :: tags[i].key != tags[j].key
    ensures (forall i | 0 <= i < |tags| :: tags[i].key != key) ==> key !in TagsAt(tags, v)
    ensures forall i | 0 <= i < |tags| && tags[i].key == key ::
        && (key in TagsAt(tags, v) <==> TagAt(tags[i], v).Some?)
        && (key in TagsAt(tags, v) ==> TagsAt(tags, v)[key] == TagAt(tags[i], v).value)
  {
    if tags != [] {
      var n := |tags| - 1;
      TagsAtLookup(tags[..n], top, v, key);
      assert forall i | 0 <= i < n :: tags[..n][i] == tags[i];
    }
  }

  lemma {:induction false} TagsAtSame(tags: seq<KeyValue>, tags': seq<KeyValue>, v: nat, w: nat)
    requires |tags| == |tags'|
    requires forall i | 0 <= i < |tags| :: tags'[i].key == tags[i].key && TagAt(tags'[i], w) == TagAt(tags[i], v)
    ensures TagsAt(tags', w) == TagsAt(tags, v)
  {
    if tags != [] {
      TagsAtSame(tags[..|tags| - 1], tags'[..|tags'| - 1], v, w);
    }
  }

  /** A key's new values override its old entry, and losing them removes it. */
  ghost function WithTag(
    table: map<string, set<string>>, key: string, values: Option<set<string>>): map<string, set<string>>
  {
    if values.Some? then table[key := values.value] else table - {key}
  }

  lemma TagsAtOneChanged(tags: seq<KeyValue>, tags': seq<KeyValue>, v: nat, w: nat, i: nat)
    requires |tags| == |tags'| && i < |tags|
    requires forall j, k | 0 <= j < k < |tags| :: tags[j].key != tags[k].key
    requires forall j | 0 <= j < |tags| :: tags'[j].key == tags[j].key
    requires forall j | 0 <= j < |tags| && j != i :: TagAt(tags'[j], w) == TagAt(tags[j], v)
    ensures TagsAt(tags', w) == WithTag(TagsAt(tags, v), tags[i].key, TagAt(tags'[i], w))
  {
    var want := WithTag(TagsAt(tags, v), tags[i].key, TagAt(tags'[i], w));
    forall key
      ensures key in TagsAt(tags', w) <==> key in want
      ensures key in want ==> TagsAt(tags', w)[key] == want[key]
    {
      TagsAtLookup(tags, 0, v, key);
      TagsAtLookup(tags', 0, w, key);
      if j :| 0 <= j < |tags| && tags[j].key == key {
        assert tags'[j].key == key;
      }
    }
  }

  lemma {:induction false} TagsAtAppendFresh(tags: seq<KeyValue>, key: string, v: nat)
    ensures TagsAt(tags + [KeyValue(key, 0, [], [], [])], v) == TagsAt(tags, v)
  {
    var blank := KeyValue(key, 0, [], [], []);
    assert (tags + [blank])[..|tags|] == tags;
    assert TagAt(blank, v).None?;
  }

  // ----- values of one key -----

  lemma AddValueOk(values: seq<Versioned>, data: string, k: nat)
    requires EdgesOk(values, k) && k > 0
    ensures EdgesOk(AddValue(values, data, k), k)
  {
    var i := IndexOf(values, data, 0);
    if i < |values| && k !in values[i].versions {
      var vs := values[i].versions;
      assert forall j | 0 <= j < |vs| :: vs[j] in vs;
      assert VersionsOk(vs + [k], k);
    }
  }

  lemma AddValueAlive(values: seq<Versioned>, data: string, k: nat, j: nat, x: string)
    ensures AliveAt(AddValue(values, data, k), x, j) <==> AliveAt(values, x, j) || (j == k && x == data)
  {
    var values' := AddValue(values, data, k);
    var i := IndexOf(values, data, 0);
    if m :| 0 <= m < |values| && values[m].id == x && j in values[m].versions {
      assert values'[m].id == x && j in values'[m].versions;
    }
    if m :| 0 <= m < |values'| && values'[m].id == x && j in values'[m].versions {
      if m < |values| && j in values[m].versions {
        assert values[m].id == x;
      }
    }
    if j == k && x == data {
      assert values'[i].id == data && k in values'[i].versions;
    }
  }

  /** One value more at key version `k`; nothing else changes at any key version. */
  lemma AddValueReads(values: seq<Versioned>, data: string, k: nat, j: nat)
    requires EdgesOk(values, k) && k > 0
    ensures Names(Visible(AddValue(values, data, k), j)) == Names(Visible(values, j)) + if j == k then {data} else {}
  {
    AddValueOk(values, data, k);
    VisibleIds(values, k, j);
    VisibleIds(AddValue(values, data, k), k, j);
    forall x
      ensures x in Visible(AddValue(values, data, k), j) <==> x in Visible(values, j) || (j == k && x == data)
    {
      AddValueAlive(values, data, k, j, x);
    }
  }

  lemma {:induction false} AddValuesReads(values: seq<Versioned>, data: seq<string>, k: nat)
    requires EdgesOk(values, k) && k > 0
    ensures EdgesOk(AddValues(values, data, k), k)
    ensures forall j: nat ::
        Names(Visible(AddValues(values, data, k), j)) == Names(Visible(values, j)) + if j == k then Names(data) else {}
  {
    if data == [] {
      assert Names(data) == {};
    } else {
      var n := |data| - 1;
      AddValuesReads(values, data[..n], k);
      AddValueOk(AddValues(values, data[..n], k), data[n], k);
      assert data == data[..n] + [data[n]];
      assert Names(data) == Names(data[..n]) + {data[n]};
      forall j: nat
        ensures Names(Visible(AddValues(values, data, k), j))
             == Names(Visible(values, j)) + if j == k then Names(data) else {}
      {
        AddValueReads(AddValues(values, data[..n], k), data[n], k, j);
      }
    }
  }

  /** `k + 1` is a new key version, so nothing was recorded at it. */
  lemma NothingBeyond(values: seq<Versioned>, k: nat)
    requires EdgesOk(values, k)
    ensures EdgesOk(values, k + 1) && Names(Visible(values, k + 1)) == {}
  {
    VisibleIds(values, k, k + 1);
  }
}
