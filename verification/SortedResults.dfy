/** The set operators and `%` list their names in ascending order, whatever the order of their operands. */
module SortedResults {
  import opened SortedMerges
  import opened Expressions

  /** Dictionary order, spelled out: equal up to where one ends or has the smaller character. */
  ghost predicate NotAfter(a: string, b: string)
  {
    a <= b || exists i :: 0 <= i < |a| && i < |b| && a[..i] == b[..i] && a[i] < b[i]
  }

  ghost predicate Ascending(s: seq<string>)
  {
    forall i, j | 0 <= i < j < |s| :: NotAfter(s[i], s[j])
  }

  lemma {:induction false} NotAfterTail(a: string, b: string)
    requires a != "" && b != "" && a[0] == b[0]
    ensures NotAfter(a, b) <==> NotAfter(a[1..], b[1..])
  {
    assert a <= b <==> a[1..] <= b[1..] by {
      assert a == [a[0]] + a[1..] && b == [b[0]] + b[1..];
    }
    if i :| 0 <= i < |a| && i < |b| && a[..i] == b[..i] && a[i] < b[i] {
      assert i > 0 && a[1..][..i - 1] == a[..i][1..] && b[1..][..i - 1] == b[..i][1..];
      assert a[1..][i - 1] < b[1..][i - 1];
    }
    if i :| 0 <= i < |a[1..]| && i < |b[1..]| && a[1..][..i] == b[1..][..i] && a[1..][i] < b[1..][i] {
      assert a[..i + 1] == [a[0]] + a[1..][..i] && b[..i + 1] == [b[0]] + b[1..][..i];
      assert a[i + 1] < b[i + 1];
    }
  }

  lemma {:induction false} LessSpelled(a: string, b: string)
    ensures !Less(b, a) <==> NotAfter(a, b)
  {
    if a != "" && b != "" {
      if a[0] == b[0] {
        LessSpelled(a[1..], b[1..]);
        NotAfterTail(a, b);
      } else {
        FirstDecides(a, b);
      }
    }
  }

  lemma FirstDecides(a: string, b: string)
    requires a != "" && b != "" && a[0] != b[0]
    ensures NotAfter(a, b) <==> a[0] < b[0]
  {
    if a[0] < b[0] {
      assert a[..0] == b[..0];
    }
    if i :| 0 <= i < |a| && i < |b| && a[..i] == b[..i] && a[i] < b[i] {
      assert i > 0 ==> a[..i][0] == b[..i][0];
    }
  }

  lemma SortedAscending(s: seq<string>)
    requires Sorted(s)
    ensures Ascending(s)
  {
    forall i, j | 0 <= i < j < |s| ensures NotAfter(s[i], s[j]) {
      LessSpelled(s[i], s[j]);
    }
  }

  // ----- merging keeps the order -----

  lemma ConsSorted(h: string, rest: seq<string>)
    requires Sorted(rest) && forall y | y in rest :: !Less(y, h)
    ensures Sorted([h] + rest)
  {
    assert forall i | 0 <= i < |rest| :: rest[i] in rest;
  }

  lemma HeadLeast(s: seq<string>, h: string, y: string)
    requires Sorted(s) && s != [] && y in s && !Less(s[0], h)
    ensures !Less(y, h)
  {
    var i :| 0 <= i < |s| && s[i] == y;
    LessTotal(s[0], y);
    LessTotal(y, h);
    if Less(y, h) && Less(s[0], y) {
      LessTransitive(s[0], y, h);
    }
  }

  lemma FromHeads(a: seq<string>, b: seq<string>, y: string, h: string, m: nat, n: nat)
    requires Sorted(a) && Sorted(b) && a != [] && b != [] && !Less(a[0], h) && !Less(b[0], h)
    requires m <= Count(a, y) && n <= Count(b, y) && (m > 0 || n > 0)
    ensures !Less(y, h)
  {
    if m > 0 {
      HeadLeast(a, h, y);
    } else {
      HeadLeast(b, h, y);
    }
  }

  lemma UnionStep(a: seq<string>, b: seq<string>, a': seq<string>, b': seq<string>, h: string)
    requires Sorted(a) && Sorted(b) && a != [] && b != [] && !Less(a[0], h) && !Less(b[0], h)
    requires Sorted(a') && Sorted(b') && Sorted(SetUnion(a', b'))
    requires forall y :: Count(a', y) <= Count(a, y) && Count(b', y) <= Count(b, y)
    ensures Sorted([h] + SetUnion(a', b'))
  {
    forall y | y in SetUnion(a', b') ensures !Less(y, h) {
      UnionCounts(a', b', y);
      FromHeads(a, b, y, h, Count(a', y), Count(b', y));
    }
    ConsSorted(h, SetUnion(a', b'));
  }

  lemma TailCounts(s: seq<string>)
    requires s != []
    ensures forall y :: Count(s[1..], y) <= Count(s, y)
  {
    forall y ensures Count(s[1..], y) <= Count(s, y) {
      CountHead(s, y);
    }
  }

  lemma {:induction false} UnionSorted(a: seq<string>, b: seq<string>)
    requires Sorted(a) && Sorted(b)
    ensures Sorted(SetUnion(a, b))
  {
    if a != [] && b != [] {
      LessTotal(a[0], b[0]);
      LessTotal(a[0], a[0]);
      LessTotal(b[0], b[0]);
      TailCounts(a);
      TailCounts(b);
      if Less(a[0], b[0]) {
        UnionSorted(a[1..], b);
        UnionStep(a, b, a[1..], b, a[0]);
      } else if Less(b[0], a[0]) {
        UnionSorted(a, b[1..]);
        UnionStep(a, b, a, b[1..], b[0]);
      } else {
        UnionSorted(a[1..], b[1..]);
        UnionStep(a, b, a[1..], b[1..], a[0]);
      }
    }
  }

  lemma {:induction false} DifferenceSorted(a: seq<string>, b: seq<string>)
    requires Sorted(a) && Sorted(b)
    ensures Sorted(SetDifference(a, b))
  {
    if a != [] && b != [] {
      if Less(a[0], b[0]) {
        DifferenceSorted(a[1..], b);
        forall y | y in SetDifference(a[1..], b) ensures !Less(y, a[0]) {
          DifferenceCounts(a[1..], b, y);
          LessTotal(a[0], a[0]);
          HeadLeast(a, a[0], y);
        }
        ConsSorted(a[0], SetDifference(a[1..], b));
      } else if Less(b[0], a[0]) {
        DifferenceSorted(a, b[1..]);
      } else {
        DifferenceSorted(a[1..], b[1..]);
      }
    }
  }

  lemma {:induction false} IntersectionSorted(a: seq<string>, b: seq<string>)
    requires Sorted(a) && Sorted(b)
    ensures Sorted(SetIntersection(a, b))
  {
    if a != [] && b != [] {
      if Less(a[0], b[0]) {
        IntersectionSorted(a[1..], b);
      } else if Less(b[0], a[0]) {
        IntersectionSorted(a, b[1..]);
      } else {
        IntersectionSorted(a[1..], b[1..]);
        forall y | y in SetIntersection(a[1..], b[1..]) ensures !Less(y, a[0]) {
          IntersectionCounts(a[1..], b[1..], y);
          LessTotal(a[0], a[0]);
          HeadLeast(a, a[0], y);
        }
        ConsSorted(a[0], SetIntersection(a[1..], b[1..]));
      }
    }
  }

  lemma {:induction false} UniqueSorted(s: seq<string>)
    requires Sorted(s)
    ensures Sorted(Unique(s))
  {
    if |s| > 1 {
      UniqueSorted(s[1..]);
      if s[0] != s[1] {
        forall y | y in Unique(s[1..]) ensures !Less(y, s[0]) {
          UniqueCounts(s[1..], y);
          LessTotal(s[0], s[0]);
          HeadLeast(s, s[0], y);
        }
        ConsSorted(s[0], Unique(s[1..]));
      }
    }
  }

  lemma {:induction false} KeptSorted(ctx: Context, s: seq<string>, re: string, want: bool)
    requires Sorted(s)
    ensures Sorted(Kept(ctx, s, re, want))
  {
    if s != [] {
      var n := |s| - 1;
      KeptSorted(ctx, s[..n], re, want);
      forall y | y in Kept(ctx, s[..n], re, want) ensures !Less(s[n], y) {
        KeptCounts(ctx, s[..n], re, want, y);
        var i :| 0 <= i < n && s[i] == y;
      }
      SnocSorted(Kept(ctx, s[..n], re, want), s[n]);
    }
  }

  lemma SnocSorted(s: seq<string>, x: string)
    requires Sorted(s) && forall y | y in s :: !Less(x, y)
    ensures Sorted(s + [x])
  {
    assert forall i | 0 <= i < |s| :: s[i] in s;
  }

  // ----- the operators -----

  lemma OperatedSorted(e: Expr, l: seq<string>, r: seq<string>)
    requires e.Union? || e.Difference? || e.Intersection?
    ensures Sorted(Operated(e, l, r))
  {
    SortSorts(l);
    SortSorts(r);
    UnionSorted(Sort(l), Sort(r));
    DifferenceSorted(Sort(l), Sort(r));
    IntersectionSorted(Sort(l), Sort(r));
  }

  /** Union, difference, intersection, both regular-expression filters and `%` give their names in
      dictionary order. */
  lemma ResultsAscend(e: Expr, ctx: Context)
    requires e.Union? || e.Difference? || e.Intersection? || e.Expand?
    requires Eval(e, ctx).Some?
    ensures Ascending(Eval(e, ctx).value)
  {
    if e.Expand? {
      var v := Eval(e.child, ctx).value;
      var s := if e.child.KeyExpand? then v else Gathered(ctx, v, Members).value;
      SortSorts(s);
      UniqueSorted(Sort(s));
    } else if Filters(e) {
      SortSorts(Eval(e.lhs, ctx).value);
      KeptSorted(ctx, Sort(Eval(e.lhs, ctx).value), e.rhs.word, Wanted(e));
    } else {
      OperatedSorted(e, Eval(e.lhs, ctx).value, Eval(e.rhs, ctx).value);
    }
    SortedAscending(Eval(e, ctx).value);
  }
}
