/** The order in which a key lists its values: that in which they were first given to it.  Old versions
    keep their lists. */
module TagOrder {
  import opened Basics
  import opened NodeRecord
  import opened NodeHistory
  import opened NodeTags
  import opened NodeRefinement

  // ----- lists of names -----

  /** The names in the order in which they first occur, each once. */
  function Firsts(s: seq<string>): seq<string>
  {
    if s == [] then []
    else
      var n := |s| - 1;
      Firsts(s[..n]) + if s[n] in s[..n] then [] else [s[n]]
  }

  /** Those of the names that are to be kept, in their order. */
  ghost function Picked(s: seq<string>, keep: set<string>): seq<string>
  {
    if s == [] then []
    else Picked(s[..|s| - 1], keep) + if s[|s| - 1] in keep then [s[|s| - 1]] else []
  }

  function Ids(values: seq<Versioned>): (r: seq<string>)
    ensures |r| == |values| && forall i | 0 <= i < |r| :: r[i] == values[i].id
  {
    seq(|values|, i requires 0 <= i < |values| => values[i].id)
  }

  lemma {:induction false} FirstsNames(s: seq<string>)
    ensures forall x :: x in Firsts(s) <==> x in s
  {
    if s != [] {
      var n := |s| - 1;
      FirstsNames(s[..n]);
      assert s == s[..n] + [s[n]];
    }
  }

  lemma {:induction false} FirstsDistinct(s: seq<string>)
    ensures NoRepeats(Firsts(s))
    ensures NoRepeats(s) ==> Firsts(s) == s
  {
    if s != [] {
      var n := |s| - 1;
      FirstsDistinct(s[..n]);
      FirstsNames(s[..n]);
      assert s == s[..n] + [s[n]];
      assert NoRepeats(s) ==> NoRepeats(s[..n]);
    }
  }

  lemma FirstsAppend(s: seq<string>, t: seq<string>)
    requires t != []
    ensures var n := |t| - 1;
            Firsts(s + t) == Firsts(s + t[..n]) + if t[n] in s || t[n] in t[..n] then [] else [t[n]]
  {
    assert (s + t)[..|s + t| - 1] == s + t[..|t| - 1];
  }

  lemma {:induction false} FirstsOfFirsts(s: seq<string>, t: seq<string>)
    ensures Firsts(Firsts(s) + t) == Firsts(s + t)
  {
    if t == [] {
      FirstsDistinct(s);
      FirstsDistinct(Firsts(s));
      assert s + t == s && Firsts(s) + t == Firsts(s);
    } else {
      var n := |t| - 1;
      FirstsOfFirsts(s, t[..n]);
      FirstsNames(s);
      FirstsAppend(s, t);
      FirstsAppend(Firsts(s), t);
    }
  }

  lemma {:induction false} PickedAll(s: seq<string>, keep: set<string>)
    requires forall x | x in s :: x in keep
    ensures Picked(s, keep) == s
  {
    if s != [] {
      PickedAll(s[..|s| - 1], keep);
      assert s == s[..|s| - 1] + [s[|s| - 1]];
    }
  }

  // ----- the values of one key -----

  /** The list a key has at list version `v`, if it is there at all. */
  ghost function ListAt(kv: KeyValue, v: nat): Option<seq<string>>
  {
    if ScanBack(kv.versions, v).Found? && Mapped(kv.versionMap, v)
    then Some(Visible(kv.values, KeyVersionAt(kv.versionMap, v))) else None
  }

  lemma {:induction false} VisiblePicked(values: seq<Versioned>, k: nat, keep: set<string>)
    requires forall i | 0 <= i < |values| :: values[i].id in keep <==> ScanBack(values[i].versions, k).Found?
    ensures Visible(values, k) == Picked(Ids(values), keep)
  {
    if values != [] {
      var n := |values| - 1;
      VisiblePicked(values[..n], k, keep);
      assert Ids(values)[..n] == Ids(values[..n]);
    }
  }

  lemma ListPicked(values: seq<Versioned>, k: nat)
    requires EdgesOk(values, k)
    ensures Visible(values, k) == Picked(Ids(values), Names(Visible(values, k)))
  {
    VisibleIds(values, k, k);
    forall i | 0 <= i < |values|
      ensures values[i].id in Names(Visible(values, k)) <==> ScanBack(values[i].versions, k).Found?
    {
      ScanFinds(values[i].versions, k);
      assert k in values[i].versions ==> AliveAt(values, values[i].id, k);
    }
    VisiblePicked(values, k, Names(Visible(values, k)));
  }

  lemma AddValueOrder(values: seq<Versioned>, data: string, k: nat)
    ensures Ids(AddValue(values, data, k)) == Ids(values) + if data in Ids(values) then [] else [data]
  {
    var i := IndexOf(values, data, 0);
    if i < |values| {
      assert Ids(values)[i] == data;
    }
  }

  lemma {:induction false} AddValuesOrder(values: seq<Versioned>, data: seq<string>, k: nat)
    requires NoRepeats(Ids(values))
    ensures Ids(AddValues(values, data, k)) == Firsts(Ids(values) + data)
  {
    if data == [] {
      FirstsDistinct(Ids(values));
      assert Ids(values) + data == Ids(values);
    } else {
      var n := |data| - 1;
      AddValuesOrder(values, data[..n], k);
      AddValueOrder(AddValues(values, data[..n], k), data[n], k);
      FirstsNames(Ids(values) + data[..n]);
      assert (Ids(values) + data)[..|Ids(values) + data| - 1] == Ids(values) + data[..n];
    }
  }

  /** A value recorded at a new key version is not listed at the old ones. */
  lemma AddValueKeeps(values: seq<Versioned>, data: string, k: nat, j: nat)
    requires EdgesOk(values, k) && j < k
    ensures Visible(AddValue(values, data, k), j) == Visible(values, j)
  {
    var values' := AddValue(values, data, k);
    AddValueOk(values, data, k);
    var i := IndexOf(values, data, 0);
    if i == |values| {
      assert values'[..|values|] == values;
      ScanFinds(values'[i].versions, j);
    } else {
      forall m | 0 <= m < |values|
        ensures values[m].id == values'[m].id
            && (ScanBack(values[m].versions, j).Found? <==> ScanBack(values'[m].versions, j).Found?)
      {
        ScanFinds(values[m].versions, j);
        ScanFinds(values'[m].versions, j);
      }
      VisibleSame(values, values', j, j);
    }
  }

  lemma {:induction false} AddValuesKeep(values: seq<Versioned>, data: seq<string>, k: nat, j: nat)
    requires EdgesOk(values, k) && j < k
    ensures Visible(AddValues(values, data, k), j) == Visible(values, j)
  {
    if data != [] {
      var n := |data| - 1;
      AddValuesKeep(values, data[..n], k, j);
      AddValuesReads(values, data[..n], k);
      AddValueKeeps(AddValues(values, data[..n], k), data[n], k, j);
    }
  }

  ghost predicate ListedSame(values: seq<Versioned>, values': seq<Versioned>, k: nat)
  {
    forall j: nat | j <= k :: Visible(values', j) == Visible(values, j)
  }

  // ----- one key, carried to the next version -----

  /** The key's lists at the old versions as they were, and `now` at the new one. */
  ghost predicate ListsCarried(kv: KeyValue, kv': KeyValue, top: nat, now: Option<seq<string>>)
  {
    (forall v: nat | v <= top :: ListAt(kv', v) == ListAt(kv, v)) && ListAt(kv', top + 1) == now
  }

  lemma EnteredLists(kv: KeyValue, top: nat, versions: seq<nat>, k: nat, values: seq<Versioned>)
    requires Enterable(kv, top, versions, k, values)
    requires forall j: nat | j <= kv.keyVersion :: Visible(values, j) == Visible(kv.values, j)
    ensures ListsCarried(kv, Entered(kv, versions, k, values, top + 1), top,
        if top + 1 in versions then Some(Visible(values, k)) else None)
  {
    var kv' := Entered(kv, versions, k, values, top + 1);
    EnteredNew(kv, top, versions, k, values);
    forall v: nat | v <= top ensures ListAt(kv', v) == ListAt(kv, v) {
      MapExtended(kv.versionMap, top, kv.keyVersion, k, v);
      ScanFinds(versions, v);
      ScanFinds(kv.versions, v);
      if v in kv.versions {
        KeyVersionBounded(kv, top, v);
      }
    }
    ScanFinds(versions, top + 1);
  }

  lemma CarriedLists(kv: KeyValue, top: nat)
    requires KeyOk(kv, top)
    ensures ListsCarried(kv, CarryKey(kv, top, top + 1), top, ListAt(kv, top))
  {
    ExtendOk(kv.versions, top);
    CarriedOk(kv.versions, top);
    ScanFinds(kv.versions, top);
    if top in kv.versions {
      EnteredLists(kv, top, Carried(kv.versions, top, top + 1), kv.keyVersion, kv.values);
    } else {
      ScanFinds(kv.versions, top + 1);
    }
  }

  lemma DeletedLists(kv: KeyValue, top: nat)
    requires KeyOk(kv, top) && top in kv.versions
    ensures var carried := CarryKey(kv, top, top + 1);
            ListsCarried(kv, carried.(versions := DropLast(carried.versions)), top, None)
  {
    CarriedOk(kv.versions, top);
    ExtendOk(kv.versions, top);
    EnteredLists(kv, top, kv.versions, kv.keyVersion, kv.values);
  }

  /** The values given, in the order in which the key first got them. */
  lemma UpdatedLists(kv: KeyValue, kv': KeyValue, top: nat, values: seq<string>, known: seq<string>)
    requires KeyOk(kv, top) && kv' == UpdatedKey(kv, values, top + 1) && known == Firsts(Ids(kv.values) + values)
    ensures Ids(kv'.values) == known && ListsCarried(kv, kv', top, Some(Picked(known, Names(values))))
  {
    UpdatedValues(kv, kv', top, values, known);
    NewValuesLists(kv, kv', top, Picked(known, Names(values)));
  }

  lemma UpdatedValues(kv: KeyValue, kv': KeyValue, top: nat, values: seq<string>, known: seq<string>)
    requires EdgesOk(kv.values, kv.keyVersion)
    requires kv' == UpdatedKey(kv, values, top + 1) && known == Firsts(Ids(kv.values) + values)
    ensures EdgesOk(kv'.values, kv.keyVersion + 1) && ListedSame(kv.values, kv'.values, kv.keyVersion)
    ensures Ids(kv'.values) == known && Visible(kv'.values, kv.keyVersion + 1) == Picked(known, Names(values))
    ensures kv' == Entered(kv, kv.versions + [top + 1], kv.keyVersion + 1, kv'.values, top + 1)
  {
    ValuesListed(kv.values, kv'.values, values, kv.keyVersion);
  }

  /** The key with new values at a new key version, whatever they are. */
  lemma NewValuesLists(kv: KeyValue, kv': KeyValue, top: nat, now: seq<string>)
    requires KeyOk(kv, top) && EdgesOk(kv'.values, kv.keyVersion + 1) && Visible(kv'.values, kv.keyVersion + 1) == now
    requires ListedSame(kv.values, kv'.values, kv.keyVersion)
    requires kv' == Entered(kv, kv.versions + [top + 1], kv.keyVersion + 1, kv'.values, top + 1)
    ensures ListsCarried(kv, kv', top, Some(now))
  {
    ExtendOk(kv.versions, top);
    assert (kv.versions + [top + 1])[|kv.versions|] == top + 1;
    EnteredLists(kv, top, kv.versions + [top + 1], kv.keyVersion + 1, kv'.values);
  }

  lemma ValuesListed(values: seq<Versioned>, values': seq<Versioned>, data: seq<string>, k: nat)
    requires EdgesOk(values, k) && values' == AddValues(values, data, k + 1)
    ensures EdgesOk(values', k + 1) && Ids(values') == Firsts(Ids(values) + data)
    ensures Visible(values', k + 1) == Picked(Firsts(Ids(values) + data), Names(data))
    ensures ListedSame(values, values', k)
  {
    NothingBeyond(values, k);
    AddValuesOrder(values, data, k + 1);
    AddValuesReads(values, data, k + 1);
    forall j: nat | j <= k ensures Visible(values', j) == Visible(values, j) {
      AddValuesKeep(values, data, k + 1, j);
    }
    ListPicked(values', k + 1);
    assert Names(Visible(values', k + 1)) == Names(data);
  }

  // ----- the whole node -----

  /** What a reader at list version `v` gets for a key. */
  ghost function ReadTag(info: NodeInfo, key: string, v: nat): Option<seq<string>>
  {
    var i := IndexOfKey(info.tags, key, 0);
    if i < |info.tags| then ListAt(info.tags[i], v) else None
  }

  /** Every value the key ever got, in the order in which it first got them. */
  ghost function Known(info: NodeInfo, key: string): seq<string>
  {
    var i := IndexOfKey(info.tags, key, 0);
    if i < |info.tags| then Ids(info.tags[i].values) else []
  }

  /** What the key lists after an accepted operation. */
  ghost function ListedAfter(info: NodeInfo, op: Op, key: string): Option<seq<string>>
  {
    match op
    case UpdateTag(k, values) =>
      if k == key then Some(Picked(Firsts(Known(info, key) + values), Names(values)))
      else ReadTag(info, key, info.listVersion)
    case DeleteTag(k) => if k == key then None else ReadTag(info, key, info.listVersion)
    case _ => ReadTag(info, key, info.listVersion)
  }

  ghost function KnownAfter(info: NodeInfo, op: Op, key: string): seq<string>
  {
    if op.UpdateTag? && op.key == key then Firsts(Known(info, key) + op.values) else Known(info, key)
  }

  /** One key of the node, an operation later. */
  ghost predicate KeyAdvances(info: NodeInfo, info': NodeInfo, op: Op, key: string)
  {
    && (forall v: nat | v <= info.listVersion :: ReadTag(info', key, v) == ReadTag(info, key, v))
    && ReadTag(info', key, info.listVersion + 1) == ListedAfter(info, op, key)
    && Known(info', key) == KnownAfter(info, op, key)
  }

  lemma SameIndex(tags: seq<KeyValue>, tags': seq<KeyValue>, key: string, from: nat)
    requires |tags| == |tags'| && from <= |tags| && forall j | 0 <= j < |tags| :: tags'[j].key == tags[j].key
    ensures IndexOfKey(tags', key, from) == IndexOfKey(tags, key, from)
    decreases |tags| - from
  {
    if from < |tags| && tags[from].key != key {
      SameIndex(tags, tags', key, from + 1);
    }
  }

  /** A key that is nowhere in either list. */
  lemma NoKeyAdvances(info: NodeInfo, info': NodeInfo, op: Op, key: string)
    requires IndexOfKey(info.tags, key, 0) == |info.tags| && IndexOfKey(info'.tags, key, 0) == |info'.tags|
    requires op.UpdateTag? ==> op.key != key
    ensures KeyAdvances(info, info', op, key)
  {
  }

  lemma OneKeyAdvances(info: NodeInfo, info': NodeInfo, op: Op, key: string, i: nat, now: Option<seq<string>>)
    requires IndexOfKey(info.tags, key, 0) == IndexOfKey(info'.tags, key, 0) == i < |info.tags| == |info'.tags|
    requires ListsCarried(info.tags[i], info'.tags[i], info.listVersion, now) && now == ListedAfter(info, op, key)
    requires Ids(info'.tags[i].values) == KnownAfter(info, op, key)
    ensures KeyAdvances(info, info', op, key)
  {
  }

  lemma CarriedAdvances(info: NodeInfo, info': NodeInfo, op: Op, key: string, i: nat)
    requires IndexOfKey(info.tags, key, 0) == IndexOfKey(info'.tags, key, 0) == i < |info.tags| == |info'.tags|
    requires KeyOk(info.tags[i], info.listVersion)
    requires info'.tags[i] == CarryKey(info.tags[i], info.listVersion, info.listVersion + 1)
    requires op.UpdateTag? || op.DeleteTag? ==> op.key != key
    ensures KeyAdvances(info, info', op, key)
  {
    CarriedLists(info.tags[i], info.listVersion);
    OneKeyAdvances(info, info', op, key, i, ListAt(info.tags[i], info.listVersion));
  }

  lemma CarriedAll(info: NodeInfo, info': NodeInfo, op: Op, key: string)
    requires InfoOk(info) && info'.tags == CarryTags(info.tags, info.listVersion, info.listVersion + 1, 0)
    requires !op.UpdateTag? && !op.DeleteTag?
    ensures KeyAdvances(info, info', op, key)
  {
    CarryTagsOk(info.tags, info.listVersion);
    SameIndex(info.tags, info'.tags, key, 0);
    var i := IndexOfKey(info.tags, key, 0);
    if i < |info.tags| {
      CarriedAdvances(info, info', op, key, i);
    } else {
      NoKeyAdvances(info, info', op, key);
    }
  }

  lemma DeletedKey(info: NodeInfo, k: string, key: string)
    requires InfoOk(info) && ApplyDeleteTag(info, k).1
    ensures KeyAdvances(info, ApplyDeleteTag(info, k).0, DeleteTag(k), key)
  {
    var top, info', i := info.listVersion, ApplyDeleteTag(info, k).0, IndexOfKey(info.tags, key, 0);
    DeletedIs(info, k);
    SameIndex(info.tags, info'.tags, key, 0);
    if i == |info.tags| {
      NoKeyAdvances(info, info', DeleteTag(k), key);
    } else if key == k {
      DeletedLists(info.tags[i], top);
      OneKeyAdvances(info, info', DeleteTag(k), key, i, None);
    } else {
      CarriedAdvances(info, info', DeleteTag(k), key, i);
    }
  }

  lemma DeletedIs(info: NodeInfo, k: string)
    requires InfoOk(info) && ApplyDeleteTag(info, k).1
    ensures var i, tags, tags' := IndexOfKey(info.tags, k, 0), info.tags, ApplyDeleteTag(info, k).0.tags;
            && i < |tags| == |tags'| && info.listVersion in tags[i].versions
            && forall j | 0 <= j < |tags| ::
                 var carried := CarryKey(tags[j], info.listVersion, info.listVersion + 1);
                 tags'[j] == if j == i then carried.(versions := DropLast(carried.versions)) else carried
  {
    CarryTagsOk(info.tags, info.listVersion);
    ScanFinds(info.tags[IndexOfKey(info.tags, k, 0)].versions, info.listVersion);
  }

  ghost predicate SameTags(info: NodeInfo, info': NodeInfo, key: string)
  {
    && info'.listVersion == info.listVersion && Known(info', key) == Known(info, key)
    && forall v: nat :: ReadTag(info', key, v) == ReadTag(info, key, v)
  }

  /** Starting a key changes no reading of any key. */
  lemma WithKeyReads(info: NodeInfo, k: string, key: string)
    ensures SameTags(info, info.(tags := WithKey(info.tags, k)), key)
  {
    var i := IndexOfKey(info.tags, k, 0);
    if i == |info.tags| {
      AppendedIndex(info.tags, KeyValue(k, 0, [], [], []), key, 0);
    }
  }

  lemma AdvancesFrom(info: NodeInfo, started: NodeInfo, info': NodeInfo, op: Op, key: string)
    requires SameTags(info, started, key) && KeyAdvances(started, info', op, key)
    ensures KeyAdvances(info, info', op, key)
  {
  }

  lemma AppendedIndex(tags: seq<KeyValue>, kv: KeyValue, key: string, from: nat)
    requires from <= |tags|
    ensures var i := IndexOfKey(tags, key, from);
            IndexOfKey(tags + [kv], key, from) == if i < |tags| || kv.key == key then i else |tags| + 1
    decreases |tags| - from
  {
    if from < |tags| && tags[from].key != key {
      AppendedIndex(tags, kv, key, from + 1);
    }
  }

  lemma UpdatedKeyAdvances(info: NodeInfo, k: string, values: seq<string>, key: string)
    requires InfoOk(info)
    ensures KeyAdvances(info, ApplyUpdateTag(info, k, values), UpdateTag(k, values), key)
  {
    var top, info' := info.listVersion, ApplyUpdateTag(info, k, values);
    var started := info.(tags := WithKey(info.tags, k));
    WithKeyOk(info.tags, top, k);
    WithKeyReads(info, k, key);
    UpdateTagIs(info, k, values);
    StartedAdvances(started, info', k, values, key);
    AdvancesFrom(info, started, info', UpdateTag(k, values), key);
  }

  lemma UpdatedAdvances(info: NodeInfo, info': NodeInfo, key: string, values: seq<string>, i: nat)
    requires IndexOfKey(info.tags, key, 0) == IndexOfKey(info'.tags, key, 0) == i < |info.tags| == |info'.tags|
    requires KeyOk(info.tags[i], info.listVersion)
    requires info'.tags[i] == UpdatedKey(info.tags[i], values, info.listVersion + 1)
    ensures KeyAdvances(info, info', UpdateTag(key, values), key)
  {
    var known := Firsts(Ids(info.tags[i].values) + values);
    UpdatedLists(info.tags[i], info'.tags[i], info.listVersion, values, known);
    OneKeyAdvances(info, info', UpdateTag(key, values), key, i, Some(Picked(known, Names(values))));
  }

  lemma StartedAdvances(info: NodeInfo, info': NodeInfo, k: string, values: seq<string>, key: string)
    requires InfoOk(info) && IndexOfKey(info.tags, k, 0) < |info.tags|
    requires IsUpdated(info.tags, info'.tags, info.listVersion, IndexOfKey(info.tags, k, 0), values)
    ensures KeyAdvances(info, info', UpdateTag(k, values), key)
  {
    SameIndex(info.tags, info'.tags, key, 0);
    var i := IndexOfKey(info.tags, key, 0);
    if i == |info.tags| {
      NoKeyAdvances(info, info', UpdateTag(k, values), key);
    } else if key == k {
      UpdatedAdvances(info, info', key, values, i);
    } else {
      CarriedAdvances(info, info', UpdateTag(k, values), key, i);
    }
  }

  /** Every accepted operation leaves the lists of old versions as they were, and of the new one only
      the list of the key it names differs. */
  lemma StepKeepsLists(info: NodeInfo, op: Op, key: string)
    requires InfoOk(info) && Apply(info, op).1
    ensures KeyAdvances(info, Apply(info, op).0, op, key)
  {
    match op
    case UpdateTag(k, values) => UpdatedKeyAdvances(info, k, values, key);
    case DeleteTag(k) => DeletedKey(info, k, key);
    case _ => CarriedAll(info, Apply(info, op).0, op, key);
  }

  // ----- runs -----

  /** All the values that a run gives to the key, one after the other. */
  ghost function Given(ops: seq<Op>, key: string): seq<string>
  {
    if ops == [] then []
    else
      var op := ops[|ops| - 1];
      Given(ops[..|ops| - 1], key) + if op.UpdateTag? && op.key == key then op.values else []
  }

  lemma RunIsOk(ops: seq<Op>)
    ensures InfoOk(Run(ops))
  {
    RunRefinesHistory(ops);
  }

  lemma {:induction false} RunKnows(ops: seq<Op>, key: string)
    ensures Known(Run(ops), key) == Firsts(Given(ops, key))
  {
    if ops != [] {
      var n := |ops| - 1;
      RunKnows(ops[..n], key);
      RunIsOk(ops[..n]);
      StepKnows(Run(ops[..n]), ops[n], key, Given(ops[..n], key));
    }
  }

  lemma StepKnows(info: NodeInfo, op: Op, key: string, given: seq<string>)
    requires InfoOk(info) && Known(info, key) == Firsts(given)
    ensures Known(Apply(info, op).0, key) == Firsts(given + if op.UpdateTag? && op.key == key then op.values else [])
  {
    StepRefines(info, op);
    if Apply(info, op).1 {
      StepKeepsLists(info, op, key);
    }
    if op.UpdateTag? && op.key == key {
      FirstsOfFirsts(given, op.values);
    } else {
      assert given + [] == given;
    }
  }

  /** After any run, setting a key makes it list the values given, each once, in the order in which the
      whole run first gave them to it; other keys list what they did, and so do all at earlier versions. */
  lemma SetKeyLists(ops: seq<Op>, key: string, values: seq<string>, other: string, v: nat)
    ensures var before, after := Run(ops), Run(ops + [UpdateTag(key, values)]);
            && after.listVersion == before.listVersion + 1
            && ReadTag(after, key, after.listVersion)
                == Some(Picked(Firsts(Given(ops, key) + values), Names(values)))
            && (v <= before.listVersion ==> ReadTag(after, other, v) == ReadTag(before, other, v))
            && (other != key ==>
                  ReadTag(after, other, after.listVersion) == ReadTag(before, other, before.listVersion))
  {
    var op := UpdateTag(key, values);
    assert (ops + [op])[..|ops|] == ops;
    RunIsOk(ops);
    RunKnows(ops, key);
    FirstsOfFirsts(Given(ops, key), values);
    StepKeepsLists(Run(ops), op, key);
    StepKeepsLists(Run(ops), op, other);
    SetLists(Run(ops), Run(ops + [op]), key, values, other, v);
  }

  lemma SetLists(info: NodeInfo, info': NodeInfo, key: string, values: seq<string>, other: string, v: nat)
    requires KeyAdvances(info, info', UpdateTag(key, values), key)
    requires KeyAdvances(info, info', UpdateTag(key, values), other)
    ensures ReadTag(info', key, info.listVersion + 1) == Some(Picked(Firsts(Known(info, key) + values), Names(values)))
    ensures v <= info.listVersion ==> ReadTag(info', other, v) == ReadTag(info, other, v)
    ensures other != key ==> ReadTag(info', other, info.listVersion + 1) == ReadTag(info, other, info.listVersion)
  {
  }

  /** A key set for the first time, without repeats, lists its values as they were given. */
  lemma FirstSetLists(ops: seq<Op>, key: string, values: seq<string>)
    requires Given(ops, key) == [] && NoRepeats(values)
    ensures var after := Run(ops + [UpdateTag(key, values)]);
            ReadTag(after, key, after.listVersion) == Some(values)
  {
    SetKeyLists(ops, key, values, key, 0);
    FirstsDistinct(values);
    assert Given(ops, key) + values == values;
    PickedAll(values, Names(values));
  }
}
