/** What the node operators of an expression list, spelled out on the graph: the members of a cluster, the
    clusters of a node, the values of a key, the admins. */
module ExpressionNodes {
  import opened Basics
  import opened SortedMerges
  import opened BreadthFirst
  import opened Expressions
  import opened ExpressionMeaning

  /** The node a word names: the one with the environment's prefix in front, if the word does not have it
      already and there is such a node; otherwise the word itself. */
  ghost predicate Names(ctx: Context, w: string, n: string)
  {
    && n in ctx.graph
    && n == if ctx.prefix != "" && !(ctx.prefix <= w) && ctx.prefix + w in ctx.graph then ctx.prefix + w else w
  }

  lemma NamesResolved(ctx: Context, w: string)
    ensures forall n :: Names(ctx, w, n) <==> Resolves(ctx, w) && n == PrefixChild(ctx, w)
  {
  }

  ghost predicate AllName(ctx: Context, words: seq<string>)
  {
    forall w | w in words :: exists n :: Names(ctx, w, n)
  }

  lemma AllNameResolve(ctx: Context, words: seq<string>)
    ensures AllName(ctx, words) <==> AllResolve(ctx, Elements(words))
  {
    forall w ensures (exists n :: Names(ctx, w, n)) <==> Resolves(ctx, w) {
      NamesResolved(ctx, w);
      if Resolves(ctx, w) {
        assert Names(ctx, w, PrefixChild(ctx, w));
      }
    }
    assert forall w :: w in words <==> w in Elements(words);
  }

  // ----- one kind of list after the other -----

  ghost predicate IsMemberOf(ctx: Context, words: seq<string>, y: string)
  {
    exists w, n :: w in words && Names(ctx, w, n) && y in ctx.graph[n].forward
  }

  ghost predicate IsClusterOf(ctx: Context, words: seq<string>, y: string)
  {
    exists w, n :: w in words && Names(ctx, w, n) && y in ctx.graph[n].reverse
  }

  /** For "KEYS" the names of the keys, otherwise the values of the key. */
  ghost predicate IsValueOf(ctx: Context, words: seq<string>, key: string, y: string)
  {
    exists w, n :: w in words && Names(ctx, w, n)
      && if key == "KEYS" then y in ctx.graph[n].tags
         else key in ctx.graph[n].tags && y in ctx.graph[n].tags[key]
  }

  lemma GatheredNames(ctx: Context, words: seq<string>, kind: Kind)
    ensures Gathered(ctx, words, kind).Some? <==> AllName(ctx, words)
    ensures Gathered(ctx, words, kind).Some? ==>
        forall y :: y in Gathered(ctx, words, kind).value <==>
          exists w :: w in words && y in Listed(ctx, PrefixChild(ctx, w), kind)
  {
    AllNameResolve(ctx, words);
    GatheredAgrees(ctx, words, kind);
    assert AllResolve(ctx, Elements(words)) ==> forall w | w in words :: w in Elements(words) && Resolves(ctx, w);
    if Gathered(ctx, words, kind).Some? {
      forall y ensures y in Gathered(ctx, words, kind).value <==>
          exists w :: w in words && y in Listed(ctx, PrefixChild(ctx, w), kind)
      {
        ElementOfListed(ctx, words, kind, y);
      }
    }
  }

  lemma ElementOfListed(ctx: Context, words: seq<string>, kind: Kind, y: string)
    requires Gathered(ctx, words, kind).Some? && AllResolve(ctx, Elements(words))
    requires forall w | w in words :: Resolves(ctx, w)
    requires Same(Gathered(ctx, words, kind), ListedAll(ctx, Elements(words), kind))
    ensures y in Gathered(ctx, words, kind).value <==>
        exists w :: w in words && y in Listed(ctx, PrefixChild(ctx, w), kind)
  {
    var v, all := Gathered(ctx, words, kind).value, ListedAll(ctx, Elements(words), kind).value;
    assert y in v <==> y in Elements(v);
    assert y in all <==> exists w :: w in Elements(words) && y in Listed(ctx, PrefixChild(ctx, w), kind);
  }

  lemma MembersListed(ctx: Context, words: seq<string>, y: string)
    requires AllName(ctx, words)
    ensures IsMemberOf(ctx, words, y) <==> exists w :: w in words && y in Listed(ctx, PrefixChild(ctx, w), Members)
  {
    forall w | w in words ensures Names(ctx, w, PrefixChild(ctx, w)) {
      NamesResolved(ctx, w);
    }
    if IsMemberOf(ctx, words, y) {
      var w, n :| w in words && Names(ctx, w, n) && y in ctx.graph[n].forward;
      NamesResolved(ctx, w);
    }
  }

  lemma ClustersListed(ctx: Context, words: seq<string>, y: string)
    requires AllName(ctx, words)
    ensures IsClusterOf(ctx, words, y) <==> exists w :: w in words && y in Listed(ctx, PrefixChild(ctx, w), Clusters)
  {
    forall w | w in words ensures Names(ctx, w, PrefixChild(ctx, w)) {
      NamesResolved(ctx, w);
    }
    if IsClusterOf(ctx, words, y) {
      var w, n :| w in words && Names(ctx, w, n) && y in ctx.graph[n].reverse;
      NamesResolved(ctx, w);
    }
  }

  lemma ValuesListed(ctx: Context, words: seq<string>, key: string, y: string)
    requires AllName(ctx, words) && Orders(ctx)
    ensures IsValueOf(ctx, words, key, y) <==>
        exists w :: w in words && y in Listed(ctx, PrefixChild(ctx, w), Values(key))
  {
    forall w | w in words ensures Names(ctx, w, PrefixChild(ctx, w)) {
      NamesResolved(ctx, w);
    }
    forall w | w in words
      ensures var tags := ctx.graph[PrefixChild(ctx, w)].tags;
              y in Listed(ctx, PrefixChild(ctx, w), Values(key)) <==>
              if key == "KEYS" then y in tags else key in tags && y in tags[key]
    {
      KeysListed(ctx, PrefixChild(ctx, w), y);
    }
    if IsValueOf(ctx, words, key, y) {
      var w, n :| w in words && Names(ctx, w, n)
        && if key == "KEYS" then y in ctx.graph[n].tags
           else key in ctx.graph[n].tags && y in ctx.graph[n].tags[key];
      NamesResolved(ctx, w);
      assert y in Listed(ctx, PrefixChild(ctx, w), Values(key));
    }
  }

  lemma KeysListed(ctx: Context, n: string, y: string)
    requires Orders(ctx) && n in ctx.graph
    ensures y in ctx.order(ctx.graph[n].tags.Keys) <==> y in ctx.graph[n].tags
  {
    var keys := ctx.graph[n].tags.Keys;
    assert Elements(ctx.order(keys)) == keys;
    assert y in ctx.order(keys) <==> y in Elements(ctx.order(keys));
  }

  // ----- the operators -----

  lemma UniqueHas(s: seq<string>)
    ensures NoRepeats(Unique(Sort(s))) && forall y :: y in Unique(Sort(s)) <==> y in s
  {
    UniqueDistinct(s);
    forall y ensures y in Unique(Sort(s)) <==> y in s {
      assert y in Unique(Sort(s)) <==> y in Elements(Unique(Sort(s)));
      assert y in s <==> y in Elements(s);
    }
  }

  /** `%e` is the members of the nodes that the names of `e` name, in ascending order and each once; it
      fails if some name names no node. */
  lemma ExpandIs(e: Expr, ctx: Context)
    requires Eval(e, ctx).Some? && !e.KeyExpand?
    ensures var words, r := Eval(e, ctx).value, Eval(Expand(e), ctx);
            && (r.Some? <==> AllName(ctx, words))
            && (r.Some? ==> NoRepeats(r.value) && forall y :: y in r.value <==> IsMemberOf(ctx, words, y))
  {
    var words, r := Eval(e, ctx).value, Eval(Expand(e), ctx);
    GatheredNames(ctx, words, Members);
    if r.Some? {
      var all := Gathered(ctx, words, Members).value;
      assert r == Some(Unique(Sort(all)));
      UniqueHas(all);
      forall y ensures y in r.value <==> IsMemberOf(ctx, words, y) {
        MembersListed(ctx, words, y);
      }
    }
  }

  /** Of the values of a key, `%` takes nothing but the repeats and the order. */
  lemma ExpandOfValues(e: Expr, key: string, ctx: Context)
    ensures var v, r := Eval(KeyExpand(e, key), ctx), Eval(Expand(KeyExpand(e, key)), ctx);
            && (r.Some? <==> v.Some?)
            && (r.Some? ==> NoRepeats(r.value) && forall y :: y in r.value <==> y in v.value)
  {
    var v, r := Eval(KeyExpand(e, key), ctx), Eval(Expand(KeyExpand(e, key)), ctx);
    if v.Some? {
      assert r == Some(Unique(Sort(v.value)));
      UniqueHas(v.value);
    }
  }

  lemma ClustersAre(e: Expr, ctx: Context)
    requires Eval(e, ctx).Some?
    ensures var words, r := Eval(e, ctx).value, Eval(GetCluster(e), ctx);
            && (r.Some? <==> AllName(ctx, words))
            && (r.Some? ==> forall y :: y in r.value <==> IsClusterOf(ctx, words, y))
  {
    var words, r := Eval(e, ctx).value, Eval(GetCluster(e), ctx);
    GatheredNames(ctx, words, Clusters);
    if r.Some? {
      forall y ensures y in r.value <==> IsClusterOf(ctx, words, y) {
        ClustersListed(ctx, words, y);
      }
    }
  }

  lemma ValuesAre(e: Expr, key: string, ctx: Context)
    requires Eval(e, ctx).Some? && Orders(ctx)
    ensures var words, r := Eval(e, ctx).value, Eval(KeyExpand(e, key), ctx);
            && (r.Some? <==> AllName(ctx, words))
            && (r.Some? ==> forall y :: y in r.value <==> IsValueOf(ctx, words, key, y))
  {
    var words, r := Eval(e, ctx).value, Eval(KeyExpand(e, key), ctx);
    GatheredNames(ctx, words, Values(key));
    if r.Some? {
      forall y ensures y in r.value <==> IsValueOf(ctx, words, key, y) {
        ValuesListed(ctx, words, key, y);
      }
    }
  }

  // ----- admins -----

  /** `h` is a node nearest above (or is) the node of a word among those that hold the key ADMIN_NODE. */
  ghost predicate AdminHolder(ctx: Context, words: seq<string>, w: string, h: string)
  {
    w in words && exists n :: Names(ctx, w, n) && NearestHolder(ctx.graph, n, "ADMIN_NODE", Some(h))
  }

  ghost predicate AllIn(ctx: Context, h: string, r: seq<string>)
    requires HoldsKey(ctx.graph, h, "ADMIN_NODE")
  {
    forall y | y in ctx.graph[h].tags["ADMIN_NODE"] :: y in r
  }

  /** Every name is a value of a nearest holder. */
  ghost predicate AllHeld(ctx: Context, words: seq<string>, r: seq<string>)
  {
    forall y | y in r :: exists w, h :: AdminHolder(ctx, words, w, h) && y in ctx.graph[h].tags["ADMIN_NODE"]
  }

  /** Every word with a holder at or above its node has all values of a nearest one among the names. */
  ghost predicate AllContribute(ctx: Context, words: seq<string>, r: seq<string>)
  {
    forall w, n | w in words && Names(ctx, w, n) && !NearestHolder(ctx.graph, n, "ADMIN_NODE", None) ::
      exists h :: AdminHolder(ctx, words, w, h) && AllIn(ctx, h, r)
  }

  /** The admins are values of nearest holders, and every word that has a holder above it contributes all
      values of a nearest one. */
  lemma AdminsAre(e: Expr, ctx: Context)
    requires Eval(e, ctx).Some? && Orders(ctx)
    ensures var words, r := Eval(e, ctx).value, Eval(Admin(e), ctx);
            && (r.Some? <==> AllName(ctx, words))
            && (r.Some? ==> AllHeld(ctx, words, r.value) && AllContribute(ctx, words, r.value))
  {
    AdminsListed(ctx, Eval(e, ctx).value);
  }

  lemma AdminsListed(ctx: Context, words: seq<string>)
    requires Orders(ctx)
    ensures Admins(ctx, words).Some? <==> AllName(ctx, words)
    ensures Admins(ctx, words).Some? ==>
        var r := ctx.order(Admins(ctx, words).value);
        AllHeld(ctx, words, r) && AllContribute(ctx, words, r)
  {
    AdminsAgree(ctx, words);
    AllNameResolve(ctx, words);
    if Admins(ctx, words).Some? {
      var r := ctx.order(Admins(ctx, words).value);
      assert Elements(r) == AdminsAll(ctx, Elements(words)).value;
      HeldByNearest(ctx, words, r);
      EachContributes(ctx, words, r);
    }
  }

  lemma HeldByNearest(ctx: Context, words: seq<string>, r: seq<string>)
    requires AdminsAll(ctx, Elements(words)) == Some(Elements(r))
    ensures AllHeld(ctx, words, r)
  {
    forall y | y in r
      ensures exists w, h :: AdminHolder(ctx, words, w, h) && y in ctx.graph[h].tags["ADMIN_NODE"]
    {
      assert y in Elements(r);
      var w :| w in Elements(words) && y in AdminsOf(ctx, w);
      var h := HolderOf(ctx, words, w);
    }
  }

  lemma EachContributes(ctx: Context, words: seq<string>, r: seq<string>)
    requires AdminsAll(ctx, Elements(words)) == Some(Elements(r))
    ensures AllContribute(ctx, words, r)
  {
    forall w, n | w in words && Names(ctx, w, n) && !NearestHolder(ctx.graph, n, "ADMIN_NODE", None)
      ensures exists h :: AdminHolder(ctx, words, w, h) && AllIn(ctx, h, r)
    {
      var h := Contributes(ctx, words, w, n, r);
    }
  }

  lemma Contributes(ctx: Context, words: seq<string>, w: string, n: string, r: seq<string>) returns (h: string)
    requires AdminsAll(ctx, Elements(words)) == Some(Elements(r))
    requires w in words && Names(ctx, w, n) && !NearestHolder(ctx.graph, n, "ADMIN_NODE", None)
    ensures AdminHolder(ctx, words, w, h) && AllIn(ctx, h, r)
  {
    NamesResolved(ctx, w);
    NearestCarrierLaw(ctx.graph, n, ADMIN_KEY);
    h := HolderOf(ctx, words, w);
    forall y | y in ctx.graph[h].tags["ADMIN_NODE"] ensures y in r {
      assert w in Elements(words) && y in AdminsOf(ctx, w);
      assert y in Elements(r);
    }
  }

  lemma HolderOf(ctx: Context, words: seq<string>, w: string) returns (h: string)
    requires w in words && Resolves(ctx, w) && NearestCarrier(ctx.graph, PrefixChild(ctx, w), ADMIN_KEY).Some?
    ensures AdminHolder(ctx, words, w, h) && AdminsOf(ctx, w) == Elements(ctx.graph[h].tags["ADMIN_NODE"])
  {
    var n := PrefixChild(ctx, w);
    NamesResolved(ctx, w);
    NearestCarrierLaw(ctx.graph, n, ADMIN_KEY);
    h := NearestCarrier(ctx.graph, n, ADMIN_KEY).value;
    assert Names(ctx, w, n) && NearestHolder(ctx.graph, n, "ADMIN_NODE", Some(h));
  }

  // ----- single words -----

  lemma OneWord(ctx: Context, w: string, n: string, kind: Kind)
    requires Names(ctx, w, n)
    ensures Gathered(ctx, [w], kind) == Some(Listed(ctx, n, kind))
  {
    NamesResolved(ctx, w);
    assert [w][..0] == [];
    assert Gathered(ctx, [], kind) == Some([]);
    assert [] + Listed(ctx, n, kind) == Listed(ctx, n, kind);
  }

  /** Of a single word, the clusters and the values come in the order of the record. */
  lemma WordLists(ctx: Context, w: string, n: string, key: string)
    requires Names(ctx, w, n)
    ensures Eval(GetCluster(Word(w)), ctx) == Some(ctx.graph[n].reverse)
    ensures key != "KEYS" ==>
        Eval(KeyExpand(Word(w), key), ctx) == Some(if key in ctx.graph[n].tags then ctx.graph[n].tags[key] else [])
    ensures Eval(Expand(Word(w)), ctx).Some?
    ensures forall y :: y in Eval(Expand(Word(w)), ctx).value <==> y in ctx.graph[n].forward
  {
    OneWord(ctx, w, n, Clusters);
    OneWord(ctx, w, n, Values(key));
    OneWord(ctx, w, n, Members);
    var all := ctx.graph[n].forward;
    UniqueHas(all);
    assert Eval(Word(w), ctx) == Some([w]);
    assert Eval(Expand(Word(w)), ctx) == Some(Unique(Sort(all)));
  }

  // ----- the order of the lists -----

  /** The list that a word's node has in its record. */
  ghost predicate IsRecordList(ctx: Context, w: string, kind: Kind, l: seq<string>)
  {
    exists n :: Names(ctx, w, n) && match kind
      case Members => l == ctx.graph[n].forward
      case Clusters => l == ctx.graph[n].reverse
      case Values(key) =>
        if key == "KEYS" then l == ctx.order(ctx.graph[n].tags.Keys)
        else l == if key in ctx.graph[n].tags then ctx.graph[n].tags[key] else []
  }

  lemma {:induction false} GatheredInOrder(ctx: Context, words: seq<string>, kind: Kind, lists: seq<seq<string>>)
    requires |lists| == |words| && forall i | 0 <= i < |words| :: IsRecordList(ctx, words[i], kind, lists[i])
    ensures Gathered(ctx, words, kind) == Some(Concat(lists))
  {
    if words != [] {
      var m := |words| - 1;
      GatheredInOrder(ctx, words[..m], kind, lists[..m]);
      assert IsRecordList(ctx, words[m], kind, lists[m]);
      NamesResolved(ctx, words[m]);
    }
  }

  ghost predicate AreRecordLists(ctx: Context, words: seq<string>, kind: Kind, lists: seq<seq<string>>)
  {
    |lists| == |words| && forall i | 0 <= i < |words| :: IsRecordList(ctx, words[i], kind, lists[i])
  }

  /** Of several words, the lists of clusters follow each other in the order of the words, repeats and all. */
  lemma ClustersInOrder(e: Expr, ctx: Context, words: seq<string>, lists: seq<seq<string>>)
    requires Eval(e, ctx) == Some(words) && AreRecordLists(ctx, words, Clusters, lists)
    ensures Eval(GetCluster(e), ctx) == Some(Concat(lists))
  {
    GatheredInOrder(ctx, words, Clusters, lists);
  }

  /** So do the lists of values. */
  lemma ValuesInOrder(e: Expr, key: string, ctx: Context, words: seq<string>, lists: seq<seq<string>>)
    requires Eval(e, ctx) == Some(words) && AreRecordLists(ctx, words, Values(key), lists)
    ensures Eval(KeyExpand(e, key), ctx) == Some(Concat(lists))
  {
    GatheredInOrder(ctx, words, Values(key), lists);
  }

  // ----- the order of brace expansion -----

  /** The place of row `i`, column `j` in a table with rows of `n`, read row by row. */
  ghost function Place(i: nat, n: nat, j: nat): nat
  {
    i * n + j
  }

  lemma {:induction false} CrossAt(a: seq<string>, b: seq<string>, i: nat, j: nat)
    requires i < |a| && j < |b|
    ensures Place(i, |b|, j) < |Cross(a, b)| && Cross(a, b)[Place(i, |b|, j)] == a[i] + b[j]
  {
    var n := |a| - 1;
    CrossSize(a[..n], b);
    if i < n {
      CrossAt(a[..n], b, i, j);
    }
  }

  lemma {:induction false} CrossSize(a: seq<string>, b: seq<string>)
    ensures |Cross(a, b)| == Product(|a|, |b|)
  {
    if a != [] {
      CrossSize(a[..|a| - 1], b);
      assert |a| * |b| == (|a| - 1) * |b| + |b|;
    }
  }

  /** What the three sides of a brace evaluate to, and what the whole does. */
  ghost predicate Braces(b: Expr, ctx: Context, l: seq<string>, c: seq<string>, r: seq<string>, v: seq<string>)
  {
    && b.Brace? && Eval(b.left, ctx) == Some(l) && Eval(b.center, ctx) == Some(c) && Eval(b.right, ctx) == Some(r)
    && Eval(b, ctx) == Some(v)
  }

  lemma BraceIsJoined(
    b: Expr, ctx: Context, l: seq<string>, c: seq<string>, r: seq<string>, v: seq<string>)
    requires Braces(b, ctx, l, c, r, v)
    ensures v == Joined(l, c, r)
  {
  }

  /** The left side varies slowest, the right one fastest. */
  lemma BraceInOrder(b: Expr, ctx: Context, l: seq<string>, c: seq<string>, r: seq<string>, v: seq<string>,
                     i: nat, j: nat, k: nat)
    requires Braces(b, ctx, l, c, r, v) && i < |l| && j < |c| && k < |r|
    ensures var at := Place(Place(i, |c|, j), |r|, k);
            at < |v| && v[at] == l[i] + c[j] + r[k]
  {
    BraceIsJoined(b, ctx, l, c, r, v);
    JoinedAt(l, c, r, i, j, k);
  }

  lemma JoinedAt(l: seq<string>, c: seq<string>, r: seq<string>, i: nat, j: nat, k: nat)
    requires i < |l| && j < |c| && k < |r|
    ensures var at := Place(Place(i, |c|, j), |r|, k);
            at < |Joined(l, c, r)| && Joined(l, c, r)[at] == l[i] + c[j] + r[k]
  {
    CrossAt(l, c, i, j);
    CrossAt(Cross(l, c), r, Place(i, |c|, j), k);
  }

  /** An outer side without names is left out. */
  lemma BraceOfTwo(b: Expr, ctx: Context, l: seq<string>, c: seq<string>, r: seq<string>, v: seq<string>,
                   i: nat, j: nat)
    requires Braces(b, ctx, l, c, r, v)
    ensures l == [] && r == [] ==> v == c
    ensures l == [] && i < |c| && j < |r| ==> Place(i, |r|, j) < |v| && v[Place(i, |r|, j)] == c[i] + r[j]
    ensures r == [] && i < |l| && j < |c| ==> Place(i, |c|, j) < |v| && v[Place(i, |c|, j)] == l[i] + c[j]
  {
    BraceIsJoined(b, ctx, l, c, r, v);
    if l == [] && i < |c| && j < |r| {
      CrossAt(c, r, i, j);
    }
    if r == [] && i < |l| && j < |c| {
      CrossAt(l, c, i, j);
    }
  }

  ghost function Product(m: nat, n: nat): nat
  {
    m * n
  }

  ghost function OneIfNone(s: seq<string>): nat
  {
    if s == [] then 1 else |s|
  }

  /** As many names as the sides allow, one that has none not counting. */
  lemma BraceSize(b: Expr, ctx: Context, l: seq<string>, c: seq<string>, r: seq<string>, v: seq<string>)
    requires Braces(b, ctx, l, c, r, v)
    ensures |v| == Product(Product(OneIfNone(l), |c|), OneIfNone(r))
  {
    BraceIsJoined(b, ctx, l, c, r, v);
    JoinedSize(l, c, r);
  }

  lemma JoinedSize(l: seq<string>, c: seq<string>, r: seq<string>)
    ensures |Joined(l, c, r)| == Product(Product(OneIfNone(l), |c|), OneIfNone(r))
  {
    var t := if l == [] then c else Cross(l, c);
    CrossSize(l, c);
    CrossSize(t, r);
    assert |t| == Product(OneIfNone(l), |c|);
    assert r == [] ==> Product(|t|, 1) == |t|;
  }
}
