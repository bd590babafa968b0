/** Sorting and the sorted-range set algorithms the set operators rest on, with what they do to
    multiplicities. */
module SortedMerges {

  /** Strings in dictionary order. */
  predicate Less(a: string, b: string)
  {
    b != "" && (a == "" || a[0] < b[0] || (a[0] == b[0] && Less(a[1..], b[1..])))
  }

  lemma {:induction false} LessTotal(a: string, b: string)
    ensures Less(a, b) || a == b || Less(b, a)
    ensures !(Less(a, b) && Less(b, a)) && !Less(a, a)
  {
    if a != "" {
      LessTotal(a[1..], a[1..]);
      if b != "" {
        LessTotal(a[1..], b[1..]);
        assert a == [a[0]] + a[1..] && b == [b[0]] + b[1..];
      }
    }
  }

  lemma {:induction false} LessTransitive(a: string, b: string, c: string)
    requires Less(a, b) && Less(b, c)
    ensures Less(a, c)
  {
    if a != "" && a[0] == b[0] == c[0] {
      LessTransitive(a[1..], b[1..], c[1..]);
    }
  }

  ghost predicate Sorted(s: seq<string>)
  {
    forall i, j | 0 <= i < j < |s| :: !Less(s[j], s[i])
  }

  function Count(s: seq<string>, x: string): nat
  {
    multiset(s)[x]
  }

  lemma CountHead(s: seq<string>, x: string)
    requires s != []
    ensures Count(s, x) == (if s[0] == x then 1 else 0) + Count(s[1..], x)
  {
    assert s == [s[0]] + s[1..];
  }

  /** Nothing below its head occurs in a sorted sequence. */
  lemma BelowHead(s: seq<string>, x: string)
    requires Sorted(s) && s != [] && Less(x, s[0])
    ensures Count(s, x) == 0
  {
    LessTotal(x, x);
    assert forall i | 0 <= i < |s| :: s[i] != x;
  }

  // ----- sorting -----

  function Insert(x: string, s: seq<string>): seq<string>
  {
    if s == [] || !Less(s[0], x) then [x] + s else [s[0]] + Insert(x, s[1..])
  }

  function Sort(s: seq<string>): seq<string>
  {
    if s == [] then [] else Insert(s[0], Sort(s[1..]))
  }

  lemma NoneBelow(x: string, s: seq<string>)
    requires Sorted(s) && s != [] && !Less(s[0], x)
    ensures forall i | 0 <= i < |s| :: !Less(s[i], x)
  {
    forall i | 0 <= i < |s| ensures !Less(s[i], x) {
      LessTotal(s[0], s[i]);
      if i > 0 && Less(s[i], x) && Less(s[0], s[i]) {
        LessTransitive(s[0], s[i], x);
      }
    }
  }

  lemma InsertBehind(x: string, s: seq<string>, rest: seq<string>)
    requires Sorted(s) && s != [] && Less(s[0], x)
    requires Sorted(rest) && multiset(rest) == multiset(s[1..]) + multiset{x}
    ensures Sorted([s[0]] + rest) && multiset([s[0]] + rest) == multiset(s) + multiset{x}
  {
    assert s == [s[0]] + s[1..];
    LessTotal(s[0], x);
    forall y | y in rest ensures !Less(y, s[0]) {
      assert y in multiset(rest);
      assert y == x || y in s[1..];
    }
    assert forall k | 0 <= k < |rest| :: rest[k] in rest;
  }

  lemma {:induction false} InsertSorted(x: string, s: seq<string>)
    requires Sorted(s)
    ensures Sorted(Insert(x, s)) && multiset(Insert(x, s)) == multiset(s) + multiset{x}
  {
    if s == [] {
    } else if !Less(s[0], x) {
      NoneBelow(x, s);
    } else {
      InsertSorted(x, s[1..]);
      InsertBehind(x, s, Insert(x, s[1..]));
    }
  }

  lemma {:induction false} SortSorts(s: seq<string>)
    ensures Sorted(Sort(s)) && multiset(Sort(s)) == multiset(s)
  {
    if s != [] {
      SortSorts(s[1..]);
      InsertSorted(s[0], Sort(s[1..]));
      assert s == [s[0]] + s[1..];
    }
  }

  // ----- merging -----

  function SetUnion(a: seq<string>, b: seq<string>): seq<string>
  {
    if a == [] then b
    else if b == [] then a
    else if Less(a[0], b[0]) then [a[0]] + SetUnion(a[1..], b)
    else if Less(b[0], a[0]) then [b[0]] + SetUnion(a, b[1..])
    else [a[0]] + SetUnion(a[1..], b[1..])
  }

  function SetDifference(a: seq<string>, b: seq<string>): seq<string>
  {
    if a == [] then []
    else if b == [] then a
    else if Less(a[0], b[0]) then [a[0]] + SetDifference(a[1..], b)
    else if Less(b[0], a[0]) then SetDifference(a, b[1..])
    else SetDifference(a[1..], b[1..])
  }

  function SetIntersection(a: seq<string>, b: seq<string>): seq<string>
  {
    if a == [] || b == [] then []
    else if Less(a[0], b[0]) then SetIntersection(a[1..], b)
    else if Less(b[0], a[0]) then SetIntersection(a, b[1..])
    else [a[0]] + SetIntersection(a[1..], b[1..])
  }

  function Max(m: nat, n: nat): nat { if m >= n then m else n }

  function Min(m: nat, n: nat): nat { if m <= n then m else n }

  function Monus(m: nat, n: nat): nat { if m >= n then m - n else 0 }

  lemma Heads(a: seq<string>, b: seq<string>, x: string)
    requires Sorted(a) && Sorted(b) && a != [] && b != []
    ensures Count(a, x) == (if a[0] == x then 1 else 0) + Count(a[1..], x)
    ensures Count(b, x) == (if b[0] == x then 1 else 0) + Count(b[1..], x)
    ensures Less(a[0], b[0]) ==> Count(b, a[0]) == 0
    ensures Less(b[0], a[0]) ==> Count(a, b[0]) == 0
    ensures Less(a[0], b[0]) || Less(b[0], a[0]) || a[0] == b[0]
  {
    CountHead(a, x);
    CountHead(b, x);
    LessTotal(a[0], b[0]);
    if Less(a[0], b[0]) {
      BelowHead(b, a[0]);
    } else if Less(b[0], a[0]) {
      BelowHead(a, b[0]);
    }
  }

  lemma {:induction false} UnionCounts(a: seq<string>, b: seq<string>, x: string)
    requires Sorted(a) && Sorted(b)
    ensures Count(SetUnion(a, b), x) == Max(Count(a, x), Count(b, x))
  {
    if a != [] && b != [] {
      Heads(a, b, x);
      if Less(a[0], b[0]) {
        UnionCounts(a[1..], b, x);
      } else if Less(b[0], a[0]) {
        UnionCounts(a, b[1..], x);
      } else {
        UnionCounts(a[1..], b[1..], x);
      }
    }
  }

  lemma {:induction false} DifferenceCounts(a: seq<string>, b: seq<string>, x: string)
    requires Sorted(a) && Sorted(b)
    ensures Count(SetDifference(a, b), x) == Monus(Count(a, x), Count(b, x))
  {
    if a != [] && b != [] {
      Heads(a, b, x);
      if Less(a[0], b[0]) {
        DifferenceCounts(a[1..], b, x);
      } else if Less(b[0], a[0]) {
        DifferenceCounts(a, b[1..], x);
      } else {
        DifferenceCounts(a[1..], b[1..], x);
      }
    }
  }

  lemma {:induction false} IntersectionCounts(a: seq<string>, b: seq<string>, x: string)
    requires Sorted(a) && Sorted(b)
    ensures Count(SetIntersection(a, b), x) == Min(Count(a, x), Count(b, x))
  {
    if a != [] && b != [] {
      Heads(a, b, x);
      if Less(a[0], b[0]) {
        IntersectionCounts(a[1..], b, x);
      } else if Less(b[0], a[0]) {
        IntersectionCounts(a, b[1..], x);
      } else {
        IntersectionCounts(a[1..], b[1..], x);
      }
    }
  }

  // ----- dropping adjacent repeats -----

  function Unique(s: seq<string>): seq<string>
  {
    if |s| <= 1 then s
    else if s[0] == s[1] then Unique(s[1..])
    else [s[0]] + Unique(s[1..])
  }

  /** On a sorted sequence every element is left exactly once. */
  lemma {:induction false} UniqueCounts(s: seq<string>, x: string)
    requires Sorted(s)
    ensures Count(Unique(s), x) == Min(Count(s, x), 1)
  {
    if |s| == 1 {
      CountHead(s, x);
    } else if |s| > 1 {
      UniqueCounts(s[1..], x);
      CountHead(s, x);
      CountHead(s[1..], x);
      if s[0] != s[1] {
        LessTotal(s[0], s[1]);
        assert !Less(s[1], s[0]);
        BelowHead(s[1..], s[0]);
      }
    }
  }
}
