/** Range expressions: how the visitor evaluates a syntax tree to a list of names, and what the tree
    denotes as a set. */
module Expressions {
  import opened Basics
  import opened RangeGraph
  import opened SortedMerges
  import opened SequenceExpansion
  import opened BreadthFirst

  datatype Expr =
    | Null
    | Word(word: string)
    | Literal(word: string)
    | Regex(word: string, positive: bool)
    | Union(lhs: Expr, rhs: Expr)
    | Difference(lhs: Expr, rhs: Expr)
    | Intersection(lhs: Expr, rhs: Expr)
    | Sequence(first: string, last: string)
    | Expand(child: Expr)
    | GetCluster(child: Expr)
    | Admin(child: Expr)
    | Group(child: Expr)
    | Brace(left: Expr, center: Expr, right: Expr)
    | KeyExpand(child: Expr, key: string)

  /** The graph, the name prefix of the environment, regular expressions as opaque matchers, and the
      order in which a hash table happens to list its keys. */
  datatype Context = Context(
    graph: Graph, prefix: string,
    valid: string -> bool, matches: (string, string) -> bool, order: set<string> -> seq<string>)

  ghost function Elements(s: seq<string>): set<string>
  {
    set x | x in s
  }

  ghost predicate Orders(ctx: Context)
  {
    forall s: set<string> :: Elements(ctx.order(s)) == s && NoRepeats(ctx.order(s))
  }

  const ADMIN_KEY := "ADMIN_NODE"

  // ----- evaluation -----

  /** The prefixed name, if there is such a node. */
  function PrefixChild(ctx: Context, child: string): string
  {
    if ctx.prefix != "" && !(ctx.prefix <= child) && ctx.prefix + child in ctx.graph then ctx.prefix + child else child
  }

  datatype Kind = Members | Clusters | Values(key: string)

  function Listed(ctx: Context, x: string, kind: Kind): seq<string>
    requires x in ctx.graph
  {
    match kind
    case Members => ctx.graph[x].forward
    case Clusters => ctx.graph[x].reverse
    case Values(key) =>
      if key == "KEYS" then ctx.order(ctx.graph[x].tags.Keys)
      else if key in ctx.graph[x].tags then ctx.graph[x].tags[key] else []
  }

  predicate Resolves(ctx: Context, name: string)
  {
    PrefixChild(ctx, name) in ctx.graph
  }

  function Gathered(ctx: Context, names: seq<string>, kind: Kind): Option<seq<string>>
  {
    if names == [] then Some([])
    else
      var n := |names| - 1;
      var init := Gathered(ctx, names[..n], kind);
      if init.Some? && Resolves(ctx, names[n])
      then Some(init.value + Listed(ctx, PrefixChild(ctx, names[n]), kind)) else None
  }

  ghost function AdminsOf(ctx: Context, name: string): set<string>
    requires Resolves(ctx, name)
  {
    var holder := NearestCarrier(ctx.graph, PrefixChild(ctx, name), ADMIN_KEY);
    if holder.Some? && Carries(ctx.graph, holder.value, ADMIN_KEY)
    then Elements(ctx.graph[holder.value].tags[ADMIN_KEY]) else {}
  }

  ghost function Admins(ctx: Context, names: seq<string>): Option<set<string>>
  {
    if names == [] then Some({})
    else
      var n := |names| - 1;
      var init := Admins(ctx, names[..n]);
      if init.Some? && Resolves(ctx, names[n]) then Some(init.value + AdminsOf(ctx, names[n])) else None
  }

  function Kept(ctx: Context, s: seq<string>, re: string, want: bool): seq<string>
  {
    if s == [] then []
    else Kept(ctx, s[..|s| - 1], re, want) + if ctx.matches(s[|s| - 1], re) == want then [s[|s| - 1]] else []
  }

  function Row(a: string, bs: seq<string>): (r: seq<string>)
    ensures |r| == |bs| && forall i | 0 <= i < |bs| :: r[i] == a + bs[i]
  {
    seq(|bs|, i requires 0 <= i < |bs| => a + bs[i])
  }

  function Cross(as_: seq<string>, bs: seq<string>): seq<string>
  {
    if as_ == [] then [] else Cross(as_[..|as_| - 1], bs) + Row(as_[|as_| - 1], bs)
  }

  /** An empty side of a brace adds nothing. */
  function Joined(l: seq<string>, c: seq<string>, r: seq<string>): seq<string>
  {
    var t := if l == [] then c else Cross(l, c);
    if r == [] then t else Cross(t, r)
  }

  function Operated(e: Expr, l: seq<string>, r: seq<string>): seq<string>
    requires e.Union? || e.Difference? || e.Intersection?
  {
    if e.Union? then SetUnion(Sort(l), Sort(r))
    else if e.Difference? then SetDifference(Sort(l), Sort(r))
    else SetIntersection(Sort(l), Sort(r))
  }

  /** Both `,&/re/` and `,-/re/` filter the left operand. */
  predicate Filters(e: Expr)
  {
    (e.Difference? || e.Intersection?) && e.rhs.Regex?
  }

  /** Whether matching names are kept. */
  function Wanted(e: Expr): bool
    requires Filters(e)
  {
    e.rhs.positive == e.Intersection?
  }

  /** The names the visitor leaves in a node, or nothing if it raises. */
  ghost function Eval(e: Expr, ctx: Context): Option<seq<string>>
  {
    match e
    case Null => Some([])
    case Word(w) => Some([w])
    case Literal(w) => Some([w])
    case Regex(w, _) => Some([w])
    case Group(c) => Eval(c, ctx)
    case Sequence(first, last) => SequenceNames(first, last)
    case Expand(c) =>
      var v := Eval(c, ctx);
      var s := if v.None? || c.KeyExpand? then v else Gathered(ctx, v.value, Members);
      if s.Some? then Some(Unique(Sort(s.value))) else None
    case GetCluster(c) =>
      var v := Eval(c, ctx);
      if v.Some? then Gathered(ctx, v.value, Clusters) else None
    case KeyExpand(c, key) =>
      var v := Eval(c, ctx);
      if v.Some? then Gathered(ctx, v.value, Values(key)) else None
    case Admin(c) =>
      var v := Eval(c, ctx);
      var s := if v.Some? then Admins(ctx, v.value) else None;
      if s.Some? then Some(ctx.order(s.value)) else None
    case Brace(l, c, r) =>
      var vl, vc, vr := Eval(l, ctx), Eval(c, ctx), Eval(r, ctx);
      if vl.Some? && vc.Some? && vr.Some? then Some(Joined(vl.value, vc.value, vr.value)) else None
    case Union(l, r) => EvalBoth(e, Eval(l, ctx), Eval(r, ctx))
    case Difference(l, r) =>
      if r.Regex? then EvalFilter(e, ctx, Eval(l, ctx)) else EvalBoth(e, Eval(l, ctx), Eval(r, ctx))
    case Intersection(l, r) =>
      if r.Regex? then EvalFilter(e, ctx, Eval(l, ctx)) else EvalBoth(e, Eval(l, ctx), Eval(r, ctx))
  }

  function EvalBoth(e: Expr, l: Option<seq<string>>, r: Option<seq<string>>): Option<seq<string>>
    requires e.Union? || e.Difference? || e.Intersection?
  {
    if l.Some? && r.Some? then Some(Operated(e, l.value, r.value)) else None
  }

  function EvalFilter(e: Expr, ctx: Context, l: Option<seq<string>>): Option<seq<string>>
    requires Filters(e)
  {
    if l.Some? && ctx.valid(e.rhs.word) then Some(Kept(ctx, Sort(l.value), e.rhs.word, Wanted(e))) else None
  }

  // ----- denotation -----

  ghost function Products(a: set<string>, b: set<string>): set<string>
  {
    set x, y | x in a && y in b :: x + y
  }

  ghost predicate AllResolve(ctx: Context, names: set<string>)
  {
    forall x | x in names :: Resolves(ctx, x)
  }

  ghost function ListedAll(ctx: Context, names: set<string>, kind: Kind): Option<set<string>>
  {
    if AllResolve(ctx, names)
    then Some(set x, y | x in names && y in Listed(ctx, PrefixChild(ctx, x), kind) :: y) else None
  }

  ghost function AdminsAll(ctx: Context, names: set<string>): Option<set<string>>
  {
    if AllResolve(ctx, names) then Some(set x, y | x in names && y in AdminsOf(ctx, x) :: y) else None
  }

  ghost function SetOf(e: Expr, l: set<string>, r: set<string>): set<string>
    requires e.Union? || e.Difference? || e.Intersection?
  {
    if e.Union? then l + r else if e.Difference? then l - r else l * r
  }

  ghost function JoinedSet(l: set<string>, c: set<string>, r: set<string>): set<string>
  {
    var t := if l == {} then c else Products(l, c);
    if r == {} then t else Products(t, r)
  }

  ghost function NamesBetween(p: Parts): set<string>
    requires Numeric(p)
  {
    set n: nat | Lo(p) <= n <= Hi(p) :: NameOf(p, n)
  }

  /** The set a tree stands for; none if some name does not resolve or some part is malformed. */
  ghost function Denote(e: Expr, ctx: Context): Option<set<string>>
  {
    match e
    case Null => Some({})
    case Word(w) => Some({w})
    case Literal(w) => Some({w})
    case Regex(w, _) => Some({w})
    case Group(c) => Denote(c, ctx)
    case Sequence(first, last) =>
      var p := Split(first, last);
      if Numeric(p) then Some(NamesBetween(p)) else None
    case Expand(c) =>
      var d := Denote(c, ctx);
      if d.None? || c.KeyExpand? then d else ListedAll(ctx, d.value, Members)
    case GetCluster(c) =>
      var d := Denote(c, ctx);
      if d.Some? then ListedAll(ctx, d.value, Clusters) else None
    case KeyExpand(c, key) =>
      var d := Denote(c, ctx);
      if d.Some? then ListedAll(ctx, d.value, Values(key)) else None
    case Admin(c) =>
      var d := Denote(c, ctx);
      if d.Some? then AdminsAll(ctx, d.value) else None
    case Brace(l, c, r) =>
      var dl, dc, dr := Denote(l, ctx), Denote(c, ctx), Denote(r, ctx);
      if dl.Some? && dc.Some? && dr.Some? then Some(JoinedSet(dl.value, dc.value, dr.value)) else None
    case Union(l, r) => DenoteBoth(e, Denote(l, ctx), Denote(r, ctx))
    case Difference(l, r) =>
      if r.Regex? then DenoteFilter(e, ctx, Denote(l, ctx)) else DenoteBoth(e, Denote(l, ctx), Denote(r, ctx))
    case Intersection(l, r) =>
      if r.Regex? then DenoteFilter(e, ctx, Denote(l, ctx)) else DenoteBoth(e, Denote(l, ctx), Denote(r, ctx))
  }

  ghost function DenoteBoth(e: Expr, l: Option<set<string>>, r: Option<set<string>>): Option<set<string>>
    requires e.Union? || e.Difference? || e.Intersection?
  {
    if l.Some? && r.Some? then Some(SetOf(e, l.value, r.value)) else None
  }

  ghost function DenoteFilter(e: Expr, ctx: Context, l: Option<set<string>>): Option<set<string>>
    requires Filters(e)
  {
    if l.Some? && ctx.valid(e.rhs.word)
    then Some(set x | x in l.value && ctx.matches(x, e.rhs.word) == Wanted(e)) else None
  }

  ghost predicate Same(v: Option<seq<string>>, d: Option<set<string>>)
  {
    if v.Some? then d.Some? && d.value == Elements(v.value) else d.None?
  }

  // ----- multiplicities -----

  /** The set operators compute the maximum, the truncated difference and the minimum of how often a
      name occurs. */
  lemma OperatorCounts(e: Expr, l: seq<string>, r: seq<string>, x: string)
    requires e.Union? || e.Difference? || e.Intersection?
    ensures e.Union? ==> Count(Operated(e, l, r), x) == Max(Count(l, x), Count(r, x))
    ensures e.Difference? ==> Count(Operated(e, l, r), x) == Monus(Count(l, x), Count(r, x))
    ensures e.Intersection? ==> Count(Operated(e, l, r), x) == Min(Count(l, x), Count(r, x))
  {
    SortSorts(l);
    SortSorts(r);
    UnionCounts(Sort(l), Sort(r), x);
    DifferenceCounts(Sort(l), Sort(r), x);
    IntersectionCounts(Sort(l), Sort(r), x);
  }

  lemma {:induction false} KeptCounts(ctx: Context, s: seq<string>, re: string, want: bool, x: string)
    ensures Count(Kept(ctx, s, re, want), x) == if ctx.matches(x, re) == want then Count(s, x) else 0
  {
    if s != [] {
      var n := |s| - 1;
      KeptCounts(ctx, s[..n], re, want, x);
      assert s == s[..n] + [s[n]];
    }
  }

  /** `,&/re/` and `,-/re/` divide the left operand between them: every occurrence goes to exactly one. */
  lemma RegexPartitions(l: Expr, re: string, positive: bool, ctx: Context)
    ensures var both := Eval(Intersection(l, Regex(re, positive)), ctx);
            var less := Eval(Difference(l, Regex(re, positive)), ctx);
            && (both.Some? <==> Eval(l, ctx).Some? && ctx.valid(re)) && (less.Some? <==> both.Some?)
            && (both.Some? ==> forall x ::
                  && Count(both.value, x) + Count(less.value, x) == Count(Eval(l, ctx).value, x)
                  && (Count(both.value, x) > 0 ==> ctx.matches(x, re) == positive)
                  && (Count(less.value, x) > 0 ==> ctx.matches(x, re) != positive))
  {
    if Eval(l, ctx).Some? && ctx.valid(re) {
      var s := Eval(l, ctx).value;
      SortSorts(s);
      var both, less := Kept(ctx, Sort(s), re, positive), Kept(ctx, Sort(s), re, !positive);
      assert Eval(Intersection(l, Regex(re, positive)), ctx) == Some(both);
      assert Eval(Difference(l, Regex(re, positive)), ctx) == Some(less);
      forall x
        ensures Count(both, x) == (if ctx.matches(x, re) == positive then Count(s, x) else 0)
        ensures Count(less, x) == (if ctx.matches(x, re) == positive then 0 else Count(s, x))
      {
        KeptCounts(ctx, Sort(s), re, positive, x);
        KeptCounts(ctx, Sort(s), re, !positive, x);
      }
    }
  }
}
