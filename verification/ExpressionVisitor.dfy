/** The expanding visitor: each node's names are computed by looping over its operands' names. */
module ExpressionVisitor {
  import opened Basics
  import opened SortedMerges
  import opened SequenceExpansion
  import opened BreadthFirst
  import opened Expressions
  import opened ExpressionMeaning

  /** Every sequence has numbers the visitor's arithmetic can hold. */
  predicate NumbersSmall(e: Expr)
  {
    match e
    case Sequence(first, last) => SmallNumbers(first, last)
    case Expand(c) => NumbersSmall(c)
    case GetCluster(c) => NumbersSmall(c)
    case Admin(c) => NumbersSmall(c)
    case Group(c) => NumbersSmall(c)
    case KeyExpand(c, _) => NumbersSmall(c)
    case Union(l, r) => NumbersSmall(l) && NumbersSmall(r)
    case Difference(l, r) => NumbersSmall(l) && NumbersSmall(r)
    case Intersection(l, r) => NumbersSmall(l) && NumbersSmall(r)
    case Brace(l, c, r) => NumbersSmall(l) && NumbersSmall(c) && NumbersSmall(r)
    case _ => true
  }

  method Gather(ctx: Context, names: seq<string>, kind: Kind) returns (r: Option<seq<string>>)
    ensures r == Gathered(ctx, names, kind)
  {
    var all: seq<string> := [];
    for i := 0 to |names|
      invariant Gathered(ctx, names[..i], kind) == Some(all)
    {
      assert names[..i + 1][..i] == names[..i];
      var child := PrefixChild(ctx, names[i]);
      if child !in ctx.graph {
        GatheredStops(ctx, names, kind, i + 1);
        return None;
      }
      all := all + Listed(ctx, child, kind);
    }
    assert names[..|names|] == names;
    r := Some(all);
  }

  /** One unresolved name fails the whole. */
  lemma {:induction false} GatheredStops(ctx: Context, names: seq<string>, kind: Kind, i: nat)
    requires i <= |names| && Gathered(ctx, names[..i], kind).None?
    ensures Gathered(ctx, names, kind).None?
    decreases |names|
  {
    if i == |names| {
      assert names[..i] == names;
    } else {
      var n := |names| - 1;
      assert names[..n][..i] == names[..i];
      GatheredStops(ctx, names[..n], kind, i);
    }
  }

  lemma {:induction false} AdminsStop(ctx: Context, names: seq<string>, i: nat)
    requires i <= |names| && Admins(ctx, names[..i]).None?
    ensures Admins(ctx, names).None?
    decreases |names|
  {
    if i == |names| {
      assert names[..i] == names;
    } else {
      var n := |names| - 1;
      assert names[..n][..i] == names[..i];
      AdminsStop(ctx, names[..n], i);
    }
  }

  method FindAdmins(ctx: Context, names: seq<string>) returns (r: Option<seq<string>>)
    ensures r == match Admins(ctx, names) case Some(s) => Some(ctx.order(s)) case None => None
  {
    var found: set<string> := {};
    for i := 0 to |names|
      invariant Admins(ctx, names[..i]) == Some(found)
    {
      assert names[..i + 1][..i] == names[..i];
      var child := PrefixChild(ctx, names[i]);
      if child !in ctx.graph {
        AdminsStop(ctx, names, i + 1);
        return None;
      }
      ghost var before := found;
      var holder := SearchParentsForFirstKey(ctx.graph, child, ADMIN_KEY);
      if holder.Some? {
        var values := ctx.graph[holder.value].tags[ADMIN_KEY];
        found := found + set x | x in values;
      }
      assert found == before + AdminsOf(ctx, names[i]);
    }
    assert names[..|names|] == names;
    r := Some(ctx.order(found));
  }

  method FilterRegex(ctx: Context, s: seq<string>, re: string, want: bool) returns (r: seq<string>)
    ensures r == Kept(ctx, s, re, want)
  {
    r := [];
    for i := 0 to |s|
      invariant r == Kept(ctx, s[..i], re, want)
    {
      assert s[..i + 1][..i] == s[..i];
      if ctx.matches(s[i], re) == want {
        r := r + [s[i]];
      }
    }
    assert s[..|s|] == s;
  }

  method Combine(a: seq<string>, b: seq<string>) returns (r: seq<string>)
    ensures r == Cross(a, b)
  {
    r := [];
    for i := 0 to |a|
      invariant r == Cross(a[..i], b)
    {
      assert a[..i + 1][..i] == a[..i];
      var row: seq<string> := [];
      for j := 0 to |b|
        invariant |row| == j && forall k | 0 <= k < j :: row[k] == a[i] + b[k]
      {
        row := row + [a[i] + b[j]];
      }
      assert row == Row(a[i], b);
      r := r + row;
    }
    assert a[..|a|] == a;
  }

  /** Evaluates a tree: the names are those of `Eval`, and on settled trees they are the set the tree
      stands for. */
  method Visit(e: Expr, ctx: Context) returns (r: Option<seq<string>>)
    requires NumbersSmall(e)
    ensures r == Eval(e, ctx)
    ensures Settled(e) && Orders(ctx) ==> Same(r, Denote(e, ctx))
  {
    r := VisitNode(e, ctx);
    if Settled(e) && Orders(ctx) {
      EvalAgrees(e, ctx);
    }
  }

  method VisitNode(e: Expr, ctx: Context) returns (r: Option<seq<string>>)
    requires NumbersSmall(e)
    ensures r == Eval(e, ctx)
    decreases e, 1
  {
    match e {
      case Null => r := Some([]);
      case Word(w) => r := Some([w]);
      case Literal(w) => r := Some([w]);
      case Regex(w, _) => r := Some([w]);
      case Group(c) => r := VisitNode(c, ctx);
      case Sequence(first, last) => r := ExpandSequence(first, last);
      case Union(_, _) => r := VisitOperator(e, ctx);
      case Difference(_, _) => r := VisitOperator(e, ctx);
      case Intersection(_, _) => r := VisitOperator(e, ctx);
      case Brace(_, _, _) => r := VisitBrace(e, ctx);
      case Expand(_) => r := VisitListing(e, ctx);
      case GetCluster(_) => r := VisitListing(e, ctx);
      case KeyExpand(_, _) => r := VisitListing(e, ctx);
      case Admin(c) =>
        r := VisitNode(c, ctx);
        if r.Some? {
          r := FindAdmins(ctx, r.value);
        }
    }
  }

  method VisitOperator(e: Expr, ctx: Context) returns (r: Option<seq<string>>)
    requires (e.Union? || e.Difference? || e.Intersection?) && NumbersSmall(e)
    ensures r == Eval(e, ctx)
    decreases e, 0
  {
    var l := VisitNode(e.lhs, ctx);
    if l.None? {
      return None;
    }
    if Filters(e) {
      if !ctx.valid(e.rhs.word) {
        return None;
      }
      var kept := FilterRegex(ctx, Sort(l.value), e.rhs.word, Wanted(e));
      return Some(kept);
    }
    var rv := VisitNode(e.rhs, ctx);
    if rv.None? {
      return None;
    }
    r := Some(Operated(e, l.value, rv.value));
  }

  method VisitListing(e: Expr, ctx: Context) returns (r: Option<seq<string>>)
    requires (e.Expand? || e.GetCluster? || e.KeyExpand?) && NumbersSmall(e)
    ensures r == Eval(e, ctx)
    decreases e, 0
  {
    r := VisitNode(e.child, ctx);
    if r.None? {
      return;
    }
    if e.GetCluster? {
      r := Gather(ctx, r.value, Clusters);
    } else if e.KeyExpand? {
      r := Gather(ctx, r.value, Values(e.key));
    } else {
      if !e.child.KeyExpand? {
        r := Gather(ctx, r.value, Members);
      }
      if r.Some? {
        r := Some(Unique(Sort(r.value)));
      }
    }
  }

  method VisitBrace(e: Expr, ctx: Context) returns (r: Option<seq<string>>)
    requires e.Brace? && NumbersSmall(e)
    ensures r == Eval(e, ctx)
    decreases e, 0
  {
    var l := VisitNode(e.left, ctx);
    var c := VisitNode(e.center, ctx);
    var rv := VisitNode(e.right, ctx);
    if l.None? || c.None? || rv.None? {
      return None;
    }
    var t := c.value;
    if l.value != [] {
      t := Combine(l.value, c.value);
    }
    if rv.value != [] {
      t := Combine(t, rv.value);
    }
    r := Some(t);
  }
}
