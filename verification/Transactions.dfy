/** Pending changes laid over the stored records of a graph, and the change list that counts versions. */
module Transactions {

  datatype RecordType = NODE | GRAPH_META | NODE_META | RESERVED | UNKNOWN

  datatype Change = Change(kind: RecordType, name: string, version: nat, data: string)

  datatype Item = Item(key: string, version: nat)

  datatype Recorded = Recorded(time: nat, items: seq<Item>)

  datatype ChangeList = ChangeList(currentVersion: nat, changes: seq<Recorded>)

  /** A record's contents: bytes, or a change list in serialized form. */
  datatype Data = Raw(bytes: string) | Changes(list: ChangeList)

  type Records = map<string, Data>

  type Pending = map<string, Change>

  // ----- keys -----

  const BELL := '\U{0007}'

  function TypeCode(t: RecordType): string
  {
    match t
    case NODE => "0"
    case GRAPH_META => "1"
    case NODE_META => "2"
    case RESERVED => "254"
    case UNKNOWN => "255"
  }

  function KeyName(t: RecordType, name: string): string
  {
    TypeCode(t) + [BELL, '0', BELL] + name
  }

  /** Records of different types or names never share a key. */
  lemma KeyNameInjective(t: RecordType, n: string, u: RecordType, m: string)
    ensures KeyName(t, n) == KeyName(u, m) <==> t == u && n == m
  {
    var a, b := KeyName(t, n), KeyName(u, m);
    var i, j := |TypeCode(t)|, |TypeCode(u)|;
    assert a[0] == TypeCode(t)[0] && b[0] == TypeCode(u)[0];
    assert a[1] == (if i == 1 then BELL else TypeCode(t)[1]) && b[1] == (if j == 1 then BELL else TypeCode(u)[1]);
    assert i == 3 ==> a[2] == TypeCode(t)[2];
    assert j == 3 ==> b[2] == TypeCode(u)[2];
    assert a[i + 3..] == n && b[j + 3..] == m;
  }

  function ChangeListKey(): string
  {
    KeyName(GRAPH_META, "changelist")
  }

  // ----- reading -----

  datatype State = State(records: Records, pending: Pending)

  function Stored(records: Records, k: string): Data
  {
    if k in records then records[k] else Raw("")
  }

  /** A read inside the transaction sees the pending change first. */
  function Read(s: State, k: string): Data
  {
    if k in s.pending then Raw(s.pending[k].data) else Stored(s.records, k)
  }

  function ReadChangeList(records: Records): ChangeList
  {
    if Stored(records, ChangeListKey()).Changes? then Stored(records, ChangeListKey()).list else ChangeList(0, [])
  }

  /** Pending changes are under their own keys, and the change list itself is only written by commits. */
  ghost predicate Ok(s: State)
  {
    && (forall k | k in s.pending :: k == KeyName(s.pending[k].kind, s.pending[k].name))
    && ChangeListKey() !in s.pending
  }

  predicate NodePending(p: Pending)
  {
    exists k | k in p :: p[k].kind.NODE?
  }

  // ----- writing -----

  predicate Writes(p: Pending, k: string)
  {
    k in p && p[k].data != ""
  }

  /** The records with every non-empty pending change put in. */
  ghost function Written(records: Records, p: Pending): Records
  {
    map k | k in records.Keys + p.Keys && (k in records || Writes(p, k)) ::
      if Writes(p, k) then Raw(p[k].data) else records[k]
  }

  ghost predicate IsItem(p: Pending, it: Item)
  {
    it.key in p && p[it.key].kind.NODE? && p[it.key].version == it.version
  }

  /** One item for each pending node record, in any order. */
  ghost predicate ItemsOf(p: Pending, items: seq<Item>)
  {
    forall it :: multiset(items)[it] == if IsItem(p, it) then 1 else 0
  }

  function Appended(l: ChangeList, r: Recorded): ChangeList
  {
    ChangeList(l.currentVersion + 1, l.changes + [r])
  }

  /** What a commit does, for some order of the items. */
  ghost predicate Committed(s: State, time: nat, s': State)
  {
    && s'.pending == map[]
    && if NodePending(s.pending) then exists items :: CommittedWith(s, time, items, s'.records)
       else s'.records == Written(s.records, s.pending)
  }

  ghost predicate CommittedWith(s: State, time: nat, items: seq<Item>, records: Records)
  {
    && ItemsOf(s.pending, items)
    && var list := Appended(ReadChangeList(s.records), Recorded(time, items));
       records == Written(s.records, s.pending)[ChangeListKey() := Changes(list)]
  }

  // ----- what transactions promise -----

  /** The overlay is faithful: a read inside the transaction is the read after its commit, except exactly
      for a pending change without data over a record that has some. */
  lemma OverlayFaithful(s: State, time: nat, s': State, k: string)
    requires Ok(s) && Committed(s, time, s') && k != ChangeListKey()
    ensures Read(s, k) == Read(s', k) <==>
        !(k in s.pending && s.pending[k].data == "" && Stored(s.records, k) != Raw(""))
  {
    var w := Written(s.records, s.pending);
    assert Stored(s'.records, k) == Stored(w, k) by {
      if NodePending(s.pending) {
        var items :| CommittedWith(s, time, items, s'.records);
      }
    }
  }

  ghost function Flushed(s: State): State
  {
    s.(records := Written(s.records, s.pending))
  }

  lemma WrittenTwice(records: Records, p: Pending)
    ensures Written(Written(records, p), p) == Written(records, p)
  {
  }

  /** Flushing first changes nothing about what a commit can do. */
  lemma FlushThenCommit(s: State, time: nat, s': State)
    requires Ok(s)
    ensures Committed(Flushed(s), time, s') <==> Committed(s, time, s')
  {
    WrittenTwice(s.records, s.pending);
    if Committed(s, time, s') && NodePending(s.pending) {
      var items :| CommittedWith(s, time, items, s'.records);
      assert CommittedWith(Flushed(s), time, items, s'.records);
    }
    if Committed(Flushed(s), time, s') && NodePending(s.pending) {
      var items :| CommittedWith(Flushed(s), time, items, s'.records);
      assert CommittedWith(s, time, items, s'.records);
    }
  }

  /** A commit moves the version on by one exactly when a node record was pending. */
  lemma CommitVersion(s: State, time: nat, s': State)
    requires Ok(s) && Committed(s, time, s')
    ensures var before, after := ReadChangeList(s.records), ReadChangeList(s'.records);
            && after.currentVersion == before.currentVersion + (if NodePending(s.pending) then 1 else 0)
            && |after.changes| == |before.changes| + (if NodePending(s.pending) then 1 else 0)
            && before.changes <= after.changes
  {
    if NodePending(s.pending) {
      var items :| CommittedWith(s, time, items, s'.records);
    }
  }

  /** A pending node record's key and version. */
  ghost predicate PendingItem(s: State, it: Item)
  {
    && it.key in s.pending && s.pending[it.key].version == it.version
    && exists name :: it.key == KeyName(NODE, name)
  }

  /** The change recorded by a commit: its time, and for each pending node record once its key and version;
      records of other types are written without being recorded. */
  lemma CommitRecords(s: State, time: nat, s': State)
    requires Ok(s) && Committed(s, time, s') && NodePending(s.pending)
    ensures var changes := ReadChangeList(s'.records).changes;
            var last := changes[|changes| - 1];
            && last.time == time
            && (forall name, v: nat | KeyName(NODE, name) in s.pending && s.pending[KeyName(NODE, name)].version == v ::
                  multiset(last.items)[Item(KeyName(NODE, name), v)] == 1)
            && (forall it: Item | it in last.items :: PendingItem(s, it))
  {
    var items :| CommittedWith(s, time, items, s'.records);
    var changes := ReadChangeList(s'.records).changes;
    assert changes[|changes| - 1] == Recorded(time, items);
    forall name, v: nat | KeyName(NODE, name) in s.pending && s.pending[KeyName(NODE, name)].version == v
      ensures multiset(items)[Item(KeyName(NODE, name), v)] == 1
    {
      PendingNode(s, KeyName(NODE, name), name);
      assert IsItem(s.pending, Item(KeyName(NODE, name), v));
    }
    forall it: Item | it in items ensures PendingItem(s, it) {
      assert multiset(items)[it] > 0;
      assert IsItem(s.pending, it);
      assert it.key == KeyName(NODE, s.pending[it.key].name);
    }
  }

  lemma PendingNode(s: State, k: string, name: string)
    requires Ok(s) && k == KeyName(NODE, name) && k in s.pending
    ensures s.pending[k].kind == NODE && s.pending[k].name == name
  {
    KeyNameInjective(s.pending[k].kind, s.pending[k].name, NODE, name);
  }

  /** An aborted transaction leaves every read as it was before its first change, unless it was flushed. */
  lemma AbortForgets(s: State, s': State, k: string)
    requires Step(s, Abort, s')
    ensures Read(s', k) == (if k in s.records then s.records[k] else Raw("")) && s'.records == s.records
  {
  }

  /** The version a transaction shows while changes are pending. */
  function ShownVersion(s: State): nat
  {
    ReadChangeList(s.records).currentVersion + if s.pending != map[] then 1 else 0
  }

  /** It is the version after the commit exactly when nothing or a node record is pending. */
  lemma ShownVersionExact(s: State, time: nat, s': State)
    requires Ok(s) && Committed(s, time, s')
    ensures ShownVersion(s) == ShownVersion(s') <==> s.pending == map[] || NodePending(s.pending)
  {
    CommitVersion(s, time, s');
    if s.pending != map[] {
      assert s.pending.Keys != {};
    }
  }

  // ----- runs -----

  datatype Op = Add(change: Change) | Flush | Commit(time: nat) | Abort

  ghost predicate Step(s: State, op: Op, s': State)
  {
    match op
    case Add(c) =>
      var k := KeyName(c.kind, c.name);
      s' == s.(pending := s.pending[k := c]) && k != ChangeListKey()
    case Flush => s' == Flushed(s)
    case Commit(time) => Committed(s, time, s')
    case Abort => s' == s.(pending := map[])
  }

  ghost predicate IsRun(ss: seq<State>, ops: seq<Op>)
  {
    |ss| == |ops| + 1 && forall i | 0 <= i < |ops| :: Step(ss[i], ops[i], ss[i + 1])
  }

  ghost function NodeCommits(ss: seq<State>, ops: seq<Op>): nat
    requires |ss| == |ops| + 1
  {
    if ops == [] then 0
    else
      var n := |ops| - 1;
      NodeCommits(ss[..n + 1], ops[..n]) + if ops[n].Commit? && NodePending(ss[n].pending) then 1 else 0
  }

  /** Over every run the version grows by the number of commits with node records, and so does the list
      of recorded changes: from a fresh store they stay equal. */
  lemma {:induction false} RunVersions(ss: seq<State>, ops: seq<Op>)
    requires IsRun(ss, ops) && Ok(ss[0])
    ensures var before, after := ReadChangeList(ss[0].records), ReadChangeList(ss[|ops|].records);
            && Ok(ss[|ops|])
            && after.currentVersion == before.currentVersion + NodeCommits(ss, ops)
            && |after.changes| == |before.changes| + NodeCommits(ss, ops)
  {
    if ops != [] {
      var n := |ops| - 1;
      var ss', ops' := ss[..n + 1], ops[..n];
      forall i | 0 <= i < |ops'| ensures Step(ss'[i], ops'[i], ss'[i + 1]) {
        assert Step(ss[i], ops[i], ss[i + 1]);
      }
      RunVersions(ss', ops');
      assert Step(ss[n], ops[n], ss[n + 1]);
    }
  }

  // ----- the transaction object -----

  /** The records while the changes under `todo` are still to be written. */
  ghost predicate Partly(before: Records, p: Pending, todo: set<string>, records: Records)
  {
    && (forall k :: k in records <==> k in before || (Writes(p, k) && k !in todo))
    && (forall k | k in records :: records[k] == if Writes(p, k) && k !in todo then Raw(p[k].data) else before[k])
  }

  ghost predicate PartlyItems(p: Pending, todo: set<string>, items: seq<Item>)
  {
    forall it :: multiset(items)[it] == if IsItem(p, it) && it.key !in todo then 1 else 0
  }

  lemma OneItemMore(p: Pending, todo: set<string>, items: seq<Item>, k: string)
    requires PartlyItems(p, todo, items) && k in todo && k in p
    ensures PartlyItems(p, todo - {k}, if p[k].kind.NODE? then items + [Item(k, p[k].version)] else items)
  {
    var items' := if p[k].kind.NODE? then items + [Item(k, p[k].version)] else items;
    forall it ensures multiset(items')[it] == if IsItem(p, it) && it.key !in todo - {k} then 1 else 0 {
      assert multiset(items)[it] == if IsItem(p, it) && it.key !in todo then 1 else 0;
      assert p[k].kind.NODE? ==> multiset(items') == multiset(items) + multiset{Item(k, p[k].version)};
    }
  }

  class Transaction {
    var records: Records
    var pending: Pending

    ghost function Now(): State
      reads this
    {
      State(records, pending)
    }

    ghost predicate Valid()
      reads this
    {
      Ok(Now())
    }

    constructor (stored: Records)
      ensures Valid() && Now() == State(stored, map[])
    {
      records := stored;
      pending := map[];
    }

    method AddChange(c: Change)
      requires Valid() && KeyName(c.kind, c.name) != ChangeListKey()
      modifies this
      ensures Valid() && Step(old(Now()), Add(c), Now())
    {
      pending := pending[KeyName(c.kind, c.name) := c];
    }

    method GetRecord(t: RecordType, name: string) returns (d: Data)
      ensures d == Read(Now(), KeyName(t, name))
    {
      var k := KeyName(t, name);
      if k in pending {
        d := Raw(pending[k].data);
      } else if k in records {
        d := records[k];
      } else {
        d := Raw("");
      }
    }

    /** Writes the pending changes in whatever order they come. */
    method Flush()
      requires Valid()
      modifies this`records
      ensures Valid() && Step(old(Now()), Op.Flush, Now())
    {
      var todo := pending.Keys;
      while todo != {}
        invariant todo <= pending.Keys && Partly(old(records), pending, todo, records)
      {
        var k :| k in todo;
        var c := pending[k];
        todo := todo - {k};
        if c.data != "" {
          records := records[KeyName(c.kind, c.name) := Raw(c.data)];
        }
      }
    }

    method Commit(time: nat)
      requires Valid()
      modifies this
      ensures Valid() && Step(old(Now()), Op.Commit(time), Now())
    {
      var changes := ReadChangeList(records);
      if pending != map[] {
        var items, nodes := WriteItems();
        if nodes {
          records := records[ChangeListKey() := Changes(Appended(changes, Recorded(time, items)))];
          assert CommittedWith(old(Now()), time, items, records);
        }
        pending := map[];
      }
    }

    /** Writes the pending changes, collecting the items of the node records. */
    method WriteItems() returns (items: seq<Item>, nodes: bool)
      requires Valid()
      modifies this`records
      ensures records == Written(old(records), pending) && ItemsOf(pending, items) && (nodes <==> NodePending(pending))
    {
      items, nodes := [], false;
      var todo := pending.Keys;
      while todo != {}
        invariant todo <= pending.Keys && Partly(old(records), pending, todo, records)
        invariant PartlyItems(pending, todo, items)
        invariant nodes <==> exists k | k in pending && k !in todo :: pending[k].kind.NODE?
      {
        var k :| k in todo;
        var c := pending[k];
        OneItemMore(pending, todo, items, k);
        todo := todo - {k};
        if c.kind.NODE? {
          nodes := true;
          items := items + [Item(KeyName(c.kind, c.name), c.version)];
        }
        if c.data != "" {
          records := records[KeyName(c.kind, c.name) := Raw(c.data)];
        }
      }
    }

    /** Forgets what is pending; the records stay as they are. */
    method Abort()
      requires Valid()
      modifies this`pending
      ensures Valid() && Step(old(Now()), Op.Abort, Now()) && records == old(records)
    {
      pending := map[];
    }
  }
}
