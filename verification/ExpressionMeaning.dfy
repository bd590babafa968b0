/** Evaluation agrees with denotation: which trees leave no repeats, and which evaluate to the set they
    stand for. */
module ExpressionMeaning {
  import opened Basics
  import opened SortedMerges
  import opened SequenceExpansion
  import opened Expressions

  lemma ElementsCount(s: seq<string>)
    ensures forall x :: x in Elements(s) <==> Count(s, x) > 0
  {
  }

  // ----- trees that leave no repeats -----

  predicate SequenceFits(first: string, last: string)
  {
    Numeric(Split(first, last)) ==> DigitsFit(Split(first, last))
  }

  predicate Distinct(e: Expr)
  {
    match e
    case Null => true
    case Word(_) => true
    case Literal(_) => true
    case Regex(_, _) => true
    case Expand(_) => true
    case Admin(_) => true
    case Group(c) => Distinct(c)
    case Sequence(first, last) => SequenceFits(first, last)
    case Union(l, r) => Distinct(l) && Distinct(r)
    case Intersection(l, r) => Distinct(l) || (!r.Regex? && Distinct(r))
    case Difference(l, _) => Distinct(l)
    case GetCluster(_) => false
    case KeyExpand(_, _) => false
    case Brace(_, _, _) => false
  }

  lemma {:induction false} AtMostOnce(s: seq<string>)
    requires NoRepeats(s)
    ensures forall x :: Count(s, x) <= 1
  {
    if s != [] {
      AtMostOnce(s[1..]);
      forall x ensures Count(s, x) <= 1 {
        CountHead(s, x);
        assert x == s[0] ==> x !in s[1..];
      }
    }
  }

  /** A list has no repeats exactly when it counts every name at most once. */
  lemma NoRepeatsCounts(s: seq<string>)
    ensures NoRepeats(s) <==> forall x :: Count(s, x) <= 1
  {
    if NoRepeats(s) {
      AtMostOnce(s);
    } else {
      var i, k :| 0 <= i < k < |s| && s[i] == s[k];
      assert s == s[..k] + s[k..];
      assert s[..k][i] == s[i] && s[k..][0] == s[k];
      assert Count(s, s[i]) == Count(s[..k], s[i]) + Count(s[k..], s[i]);
    }
  }

  lemma KeptDistinct(ctx: Context, s: seq<string>, re: string, want: bool)
    requires NoRepeats(s)
    ensures NoRepeats(Kept(ctx, Sort(s), re, want))
  {
    var kept := Kept(ctx, Sort(s), re, want);
    forall x ensures Count(kept, x) <= 1 {
      SortSorts(s);
      AtMostOnce(s);
      KeptCounts(ctx, Sort(s), re, want, x);
      assert Count(Sort(s), x) == Count(s, x);
    }
    NoRepeatsCounts(kept);
  }

  lemma FilterDistinct(e: Expr, ctx: Context, l: Option<seq<string>>)
    requires Filters(e) && l.Some? && NoRepeats(l.value)
    ensures EvalFilter(e, ctx, l).Some? ==> NoRepeats(EvalFilter(e, ctx, l).value)
  {
    KeptDistinct(ctx, l.value, e.rhs.word, Wanted(e));
  }

  lemma OperatorDistinct(e: Expr, l: seq<string>, r: seq<string>)
    requires e.Union? || e.Difference? || e.Intersection?
    requires e.Union? ==> NoRepeats(l) && NoRepeats(r)
    requires e.Difference? ==> NoRepeats(l)
    requires e.Intersection? ==> NoRepeats(l) || NoRepeats(r)
    ensures NoRepeats(Operated(e, l, r))
  {
    NoRepeatsCounts(l);
    NoRepeatsCounts(r);
    forall x ensures Count(Operated(e, l, r), x) <= 1 {
      OperatorCounts(e, l, r, x);
    }
    NoRepeatsCounts(Operated(e, l, r));
  }

  lemma UniqueDistinct(s: seq<string>)
    ensures NoRepeats(Unique(Sort(s))) && Elements(Unique(Sort(s))) == Elements(s)
  {
    SortSorts(s);
    forall x ensures Count(Unique(Sort(s)), x) == Min(Count(s, x), 1) {
      UniqueCounts(Sort(s), x);
    }
    ElementsCount(s);
    ElementsCount(Unique(Sort(s)));
    NoRepeatsCounts(Unique(Sort(s)));
  }

  /** These trees evaluate without repeats. */
  lemma {:induction false} DistinctEval(e: Expr, ctx: Context)
    requires Distinct(e) && Orders(ctx) && Eval(e, ctx).Some?
    ensures NoRepeats(Eval(e, ctx).value)
    decreases e, 1
  {
    if e.Group? {
      DistinctEval(e.child, ctx);
    } else if e.Sequence? {
      SequenceLaws(e.first, e.last);
    } else if e.Expand? {
      var v := Eval(e.child, ctx);
      UniqueDistinct(if e.child.KeyExpand? then v.value else Gathered(ctx, v.value, Members).value);
    } else if e.Union? || e.Difference? || e.Intersection? {
      DistinctOperator(e, ctx);
    }
  }

  lemma {:induction false} DistinctOperator(e: Expr, ctx: Context)
    requires e.Union? || e.Difference? || e.Intersection?
    requires Distinct(e) && Orders(ctx) && Eval(e, ctx).Some?
    ensures NoRepeats(Eval(e, ctx).value)
    decreases e, 0
  {
    if Distinct(e.lhs) {
      DistinctEval(e.lhs, ctx);
    }
    if Filters(e) {
      FilterDistinct(e, ctx, Eval(e.lhs, ctx));
    } else {
      if Distinct(e.rhs) {
        DistinctEval(e.rhs, ctx);
      }
      OperatorDistinct(e, Eval(e.lhs, ctx).value, Eval(e.rhs, ctx).value);
    }
  }

  // ----- trees that evaluate to what they denote -----

  /** Nothing with repeats is on the left of a difference. */
  predicate Settled(e: Expr)
  {
    match e
    case Null => true
    case Word(_) => true
    case Literal(_) => true
    case Regex(_, _) => true
    case Sequence(_, _) => true
    case Expand(c) => Settled(c)
    case Admin(c) => Settled(c)
    case Group(c) => Settled(c)
    case GetCluster(c) => Settled(c)
    case KeyExpand(c, _) => Settled(c)
    case Union(l, r) => Settled(l) && Settled(r)
    case Intersection(l, r) => Settled(l) && Settled(r)
    case Difference(l, r) => Settled(l) && Settled(r) && (r.Regex? || Distinct(l))
    case Brace(l, c, r) => Settled(l) && Settled(c) && Settled(r)
  }

  lemma FilterAgrees(e: Expr, ctx: Context, l: Option<seq<string>>, d: Option<set<string>>)
    requires Filters(e) && Same(l, d)
    ensures Same(EvalFilter(e, ctx, l), DenoteFilter(e, ctx, d))
  {
    if EvalFilter(e, ctx, l).Some? {
      var v, r := EvalFilter(e, ctx, l).value, DenoteFilter(e, ctx, d).value;
      SortSorts(l.value);
      ElementsCount(l.value);
      ElementsCount(v);
      forall x ensures x in Elements(v) <==> x in r {
        KeptCounts(ctx, Sort(l.value), e.rhs.word, Wanted(e), x);
      }
    }
  }

  /** A difference is the difference of the sets exactly when no name of the right operand occurs more
      often on the left. */
  lemma DifferenceExact(l: seq<string>, r: seq<string>)
    ensures Elements(SetDifference(Sort(l), Sort(r))) == Elements(l) - Elements(r)
      <==> forall x | x in r :: Count(l, x) <= Count(r, x)
  {
    var v := SetDifference(Sort(l), Sort(r));
    SortSorts(l);
    SortSorts(r);
    forall x ensures Count(v, x) == Monus(Count(l, x), Count(r, x)) {
      DifferenceCounts(Sort(l), Sort(r), x);
    }
    ElementsCount(l);
    ElementsCount(r);
    ElementsCount(v);
    forall x
      ensures (x in v <==> Count(l, x) > Count(r, x)) && (x in l <==> Count(l, x) > 0) && (x in r <==> Count(r, x) > 0)
    {
    }
    if forall x | x in r :: Count(l, x) <= Count(r, x) {
      assert forall x :: x in Elements(v) <==> x in Elements(l) - Elements(r);
    } else {
      var x :| x in r && Count(l, x) > Count(r, x);
      assert x in Elements(v) && x !in Elements(l) - Elements(r);
    }
  }

  lemma OperatorAgrees(e: Expr, l: seq<string>, r: seq<string>)
    requires e.Union? || e.Difference? || e.Intersection?
    requires e.Difference? ==> NoRepeats(l)
    ensures Elements(Operated(e, l, r)) == SetOf(e, Elements(l), Elements(r))
  {
    if e.Difference? {
      DifferenceExact(l, r);
      NoRepeatsCounts(l);
    } else {
      ElementsCount(l);
      ElementsCount(r);
      ElementsCount(Operated(e, l, r));
      forall x ensures x in Elements(Operated(e, l, r)) <==> x in SetOf(e, Elements(l), Elements(r)) {
        OperatorCounts(e, l, r, x);
      }
    }
  }

  lemma ElementsConcat(a: seq<string>, b: seq<string>)
    ensures Elements(a + b) == Elements(a) + Elements(b)
  {
  }

  lemma ListedOneMore(ctx: Context, names: set<string>, x: string, kind: Kind)
    requires AllResolve(ctx, names) && Resolves(ctx, x)
    ensures AllResolve(ctx, names + {x})
    ensures ListedAll(ctx, names + {x}, kind).value
        == ListedAll(ctx, names, kind).value + Elements(Listed(ctx, PrefixChild(ctx, x), kind))
  {
  }

  lemma {:induction false} GatheredAgrees(ctx: Context, names: seq<string>, kind: Kind)
    ensures Same(Gathered(ctx, names, kind), ListedAll(ctx, Elements(names), kind))
  {
    if names != [] {
      var n := |names| - 1;
      var init := names[..n];
      GatheredAgrees(ctx, init, kind);
      assert names == init + [names[n]];
      assert Elements(names) == Elements(init) + {names[n]};
      assert AllResolve(ctx, Elements(names)) <==> AllResolve(ctx, Elements(init)) && Resolves(ctx, names[n]);
      if AllResolve(ctx, Elements(names)) {
        ListedOneMore(ctx, Elements(init), names[n], kind);
        ElementsConcat(Gathered(ctx, init, kind).value, Listed(ctx, PrefixChild(ctx, names[n]), kind));
      }
    }
  }

  lemma {:induction false} AdminsAgree(ctx: Context, names: seq<string>)
    ensures Admins(ctx, names) == AdminsAll(ctx, Elements(names))
  {
    if names == [] {
      assert AdminsAll(ctx, Elements(names)).value == {};
    }
    if names != [] {
      var n := |names| - 1;
      var init := names[..n];
      AdminsAgree(ctx, init);
      assert names == init + [names[n]];
      assert Elements(names) == Elements(init) + {names[n]};
      assert AllResolve(ctx, Elements(names)) <==> AllResolve(ctx, Elements(init)) && Resolves(ctx, names[n]);
      if AllResolve(ctx, Elements(names)) {
        assert AdminsAll(ctx, Elements(names)).value == AdminsAll(ctx, Elements(init)).value + AdminsOf(ctx, names[n]);
      }
    }
  }

  lemma {:induction false} CrossAgrees(a: seq<string>, b: seq<string>)
    ensures Elements(Cross(a, b)) == Products(Elements(a), Elements(b))
  {
    if a != [] {
      var n := |a| - 1;
      var init := a[..n];
      CrossAgrees(init, b);
      assert a == init + [a[n]];
      RowAgrees(a[n], b);
      assert Elements(Cross(a, b)) == Elements(Cross(init, b)) + Elements(Row(a[n], b));
      assert Products(Elements(a), Elements(b))
          == Products(Elements(init), Elements(b)) + Products({a[n]}, Elements(b));
    }
  }

  lemma RowAgrees(x: string, b: seq<string>)
    ensures Elements(Row(x, b)) == Products({x}, Elements(b))
  {
    forall y | y in b ensures x + y in Row(x, b) {
      var i :| 0 <= i < |b| && b[i] == y;
      assert Row(x, b)[i] == x + y;
    }
  }

  lemma JoinedAgrees(l: seq<string>, c: seq<string>, r: seq<string>)
    ensures Elements(Joined(l, c, r)) == JoinedSet(Elements(l), Elements(c), Elements(r))
  {
    CrossAgrees(l, c);
    EmptyElements(l);
    EmptyElements(r);
    CrossAgrees(if l == [] then c else Cross(l, c), r);
  }

  lemma EmptyElements(s: seq<string>)
    ensures Elements(s) == {} <==> s == []
  {
    if s != [] {
      assert s[0] in Elements(s);
    }
  }

  lemma SequenceAgrees(first: string, last: string, ctx: Context)
    ensures Same(SequenceNames(first, last), Denote(Sequence(first, last), ctx))
  {
    var p := Split(first, last);
    if Numeric(p) {
      NamesAgree(p);
    }
  }

  lemma NamesAgree(p: Parts)
    requires Numeric(p)
    ensures NamesBetween(p) == Elements(NamesTo(p, Hi(p)))
  {
    var s := NamesTo(p, Hi(p));
    forall x | x in NamesBetween(p) ensures x in s {
      var n: nat :| Lo(p) <= n <= Hi(p) && x == NameOf(p, n);
      assert s[n - Lo(p)] == x;
    }
    forall x | x in s ensures x in NamesBetween(p) {
      var i :| 0 <= i < |s| && s[i] == x;
      assert x == NameOf(p, Lo(p) + i);
    }
  }

  /** Evaluation and denotation agree, on the result as on whether there is one. */
  lemma {:induction false} EvalAgrees(e: Expr, ctx: Context)
    requires Settled(e) && Orders(ctx)
    ensures Same(Eval(e, ctx), Denote(e, ctx))
    decreases e, 1
  {
    match e
    case Null => assert Elements([]) == {};
    case Word(w) => assert Elements([w]) == {w};
    case Literal(w) => assert Elements([w]) == {w};
    case Regex(w, _) => assert Elements([w]) == {w};
    case Sequence(first, last) => SequenceAgrees(first, last, ctx);
    case Group(c) => EvalAgrees(c, ctx);
    case Brace(_, _, _) => BraceAgrees(e, ctx);
    case Union(_, _) => BothAgree(e, ctx);
    case Difference(_, _) => BothAgree(e, ctx);
    case Intersection(_, _) => BothAgree(e, ctx);
    case Expand(_) => ListingAgrees(e, ctx);
    case GetCluster(_) => ListingAgrees(e, ctx);
    case KeyExpand(_, _) => ListingAgrees(e, ctx);
    case Admin(c) =>
      EvalAgrees(c, ctx);
      if Eval(c, ctx).Some? {
        AdminsAgree(ctx, Eval(c, ctx).value);
      }
  }

  lemma {:induction false} ListingAgrees(e: Expr, ctx: Context)
    requires e.Expand? || e.GetCluster? || e.KeyExpand?
    requires Settled(e) && Orders(ctx)
    ensures Same(Eval(e, ctx), Denote(e, ctx))
    decreases e, 0
  {
    EvalAgrees(e.child, ctx);
    var v := Eval(e.child, ctx);
    if v.Some? {
      var kind := if e.Expand? then Members else if e.GetCluster? then Clusters else Values(e.key);
      GatheredAgrees(ctx, v.value, kind);
      if e.Expand? {
        var s := if e.child.KeyExpand? then v else Gathered(ctx, v.value, Members);
        if s.Some? {
          UniqueDistinct(s.value);
        }
      }
    }
  }

  lemma {:induction false} BraceAgrees(e: Expr, ctx: Context)
    requires e.Brace? && Settled(e) && Orders(ctx)
    ensures Same(Eval(e, ctx), Denote(e, ctx))
    decreases e, 0
  {
    EvalAgrees(e.left, ctx);
    EvalAgrees(e.center, ctx);
    EvalAgrees(e.right, ctx);
    if Eval(e, ctx).Some? {
      JoinedAgrees(Eval(e.left, ctx).value, Eval(e.center, ctx).value, Eval(e.right, ctx).value);
    }
  }

  lemma {:induction false} BothAgree(e: Expr, ctx: Context)
    requires e.Union? || e.Difference? || e.Intersection?
    requires Settled(e) && Orders(ctx)
    ensures Same(Eval(e, ctx), Denote(e, ctx))
    decreases e, 0
  {
    EvalAgrees(e.lhs, ctx);
    if Filters(e) {
      FilterAgrees(e, ctx, Eval(e.lhs, ctx), Denote(e.lhs, ctx));
    } else {
      EvalAgrees(e.rhs, ctx);
      if Eval(e, ctx).Some? {
        if e.Difference? {
          DistinctEval(e.lhs, ctx);
        }
        OperatorAgrees(e, Eval(e.lhs, ctx).value, Eval(e.rhs, ctx).value);
      }
    }
  }

  // ----- the plain fragment -----

  /** Words, literals, groups, sequences that fit, `%`, union, difference and intersection. */
  predicate Plain(e: Expr)
  {
    match e
    case Word(_) => true
    case Literal(_) => true
    case Sequence(first, last) => SequenceFits(first, last)
    case Group(c) => Plain(c)
    case Expand(c) => Plain(c)
    case Union(l, r) => Plain(l) && Plain(r)
    case Difference(l, r) => Plain(l) && Plain(r)
    case Intersection(l, r) => Plain(l) && Plain(r)
    case _ => false
  }

  lemma {:induction false} PlainSettled(e: Expr)
    requires Plain(e)
    ensures Distinct(e) && Settled(e)
  {
    if e.Group? || e.Expand? {
      PlainSettled(e.child);
    } else if e.Union? || e.Difference? || e.Intersection? {
      PlainSettled(e.lhs);
      PlainSettled(e.rhs);
    }
  }

  /** Every plain tree evaluates, without repeats, to the set it stands for. */
  lemma PlainAgrees(e: Expr, ctx: Context)
    requires Plain(e) && Orders(ctx)
    ensures Same(Eval(e, ctx), Denote(e, ctx))
    ensures Eval(e, ctx).Some? ==> NoRepeats(Eval(e, ctx).value)
  {
    PlainSettled(e);
    EvalAgrees(e, ctx);
    if Eval(e, ctx).Some? {
      DistinctEval(e, ctx);
    }
  }

  lemma OneSorted(x: string)
    ensures Sort([x]) == [x]
  {
    assert [x][1..] == [];
  }

  lemma TwoMerged(a: string, b: string)
    requires a != b
    ensures SetUnion([a], [b]) == [a, b] || SetUnion([a], [b]) == [b, a]
  {
    LessTotal(a, b);
    assert [a][1..] == [] && [b][1..] == [];
    assert SetUnion([], [b]) == [b] && SetUnion([a], []) == [a];
  }

  lemma TwoGathered(ctx: Context, a: string, b: string, c: string)
    requires a in ctx.graph && b in ctx.graph && ctx.prefix == ""
    requires ctx.graph[a].reverse == [c] && ctx.graph[b].reverse == [c]
    ensures Gathered(ctx, [a, b], Clusters) == Some([c, c])
  {
    assert [a, b][..1] == [a] && [a][..0] == [];
    assert Gathered(ctx, [], Clusters) == Some([]);
    assert [] + [c] == [c] && [c] + [c] == [c, c];
    assert Gathered(ctx, [a], Clusters) == Some([] + [c]);
  }

  /** With repeats on the left a difference can keep what it should remove: two hosts of one cluster,
      asked for their clusters less that cluster, still give the cluster. */
  lemma RepeatsSurvive(ctx: Context, a: string, b: string, c: string)
    requires a in ctx.graph && b in ctx.graph && a != b && ctx.prefix == "" && Orders(ctx)
    requires ctx.graph[a].reverse == [c] && ctx.graph[b].reverse == [c]
    ensures var e := Difference(GetCluster(Union(Word(a), Word(b))), Word(c));
            Denote(e, ctx) == Some({}) && Eval(e, ctx).Some? && c in Eval(e, ctx).value
  {
    var e := GetCluster(Union(Word(a), Word(b)));
    ClustersOfTwo(ctx, a, b, c);
    EvalAgrees(e, ctx);
    SameAsOne(Eval(e, ctx), Denote(e, ctx), c);
    DifferenceKeeps(e, ctx, c);
  }

  lemma DifferenceKeeps(e: Expr, ctx: Context, c: string)
    requires Eval(e, ctx) == Some([c, c]) && Denote(e, ctx) == Some({c})
    ensures var d := Difference(e, Word(c));
            Denote(d, ctx) == Some({}) && Eval(d, ctx).Some? && c in Eval(d, ctx).value
  {
    var d := Difference(e, Word(c));
    assert Denote(d, ctx) == DenoteBoth(d, Some({c}), Some({c})) && {c} - {c} == {};
    assert Eval(d, ctx) == Some(Operated(d, [c, c], [c]));
    OperatorCounts(d, [c, c], [c], c);
  }

  lemma SameAsOne(v: Option<seq<string>>, d: Option<set<string>>, c: string)
    requires Same(v, d) && v == Some([c, c])
    ensures d == Some({c})
  {
    assert Elements([c, c]) == {c};
  }

  lemma UnionOfWords(ctx: Context, a: string, b: string)
    requires ctx.prefix == ""
    ensures Eval(Union(Word(a), Word(b)), ctx) == Some(SetUnion([a], [b]))
  {
    OneSorted(a);
    OneSorted(b);
  }

  lemma ClustersOfTwo(ctx: Context, a: string, b: string, c: string)
    requires a in ctx.graph && b in ctx.graph && a != b && ctx.prefix == ""
    requires ctx.graph[a].reverse == [c] && ctx.graph[b].reverse == [c]
    ensures Eval(GetCluster(Union(Word(a), Word(b))), ctx) == Some([c, c])
  {
    var u := SetUnion([a], [b]);
    UnionOfWords(ctx, a, b);
    TwoMerged(a, b);
    TwoGathered(ctx, u[0], u[1], c);
  }
}
