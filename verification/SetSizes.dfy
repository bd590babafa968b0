/** Counting facts about finite sets. */
module SetSizes {

  lemma SubsetSize<T>(small: set<T>, big: set<T>)
    requires small <= big
    ensures |small| <= |big|
  {
    if small != {} {
      var x :| x in small;
      SubsetSize(small - {x}, big - {x});
    }
  }

  lemma ProperSubsetSize<T>(small: set<T>, big: set<T>)
    requires small < big
    ensures |small| < |big|
  {
    var x :| x in big && x !in small;
    SubsetSize(small, big - {x});
  }

  /** Two subsets too large to be disjoint share a member. */
  lemma Overlap<T>(all: set<T>, left: set<T>, right: set<T>) returns (common: T)
    requires left <= all && right <= all
    requires |left| + |right| > |all|
    ensures common in left && common in right
  {
    SubsetSize(left + right, all);
    assert |left + right| + |left * right| == |left| + |right|;
    common :| common in left * right;
  }

  /** A set whose members carry pairwise different keys is no larger than the set of keys. */
  lemma InjectionSize<S, T>(source: set<S>, target: set<T>, key: S -> T)
    requires forall x | x in source :: key(x) in target
    requires forall x, y | x in source && y in source && key(x) == key(y) :: x == y
    ensures |source| <= |target|
  {
    if source != {} {
      var x :| x in source;
      InjectionSize(source - {x}, target - {key(x)}, key);
    }
  }
}
