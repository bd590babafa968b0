/** Quorum arithmetic. */
module Quorums {
  import opened SetSizes

  /** The quorum size ceil(0.60 n): the least q with 5q >= 3n. */
  function Quorum(n: nat): (q: nat)
    ensures 5 * q >= 3 * n && 5 * q < 3 * n + 5
    ensures n > 0 ==> 0 < q <= n < 2 * q
  {
    (3 * n + 4) / 5
  }

  /** Any two quorums of the same non-empty membership intersect. */
  lemma QuorumsIntersect<T>(members: set<T>, left: set<T>, right: set<T>) returns (common: T)
    requires members != {}
    requires left <= members && right <= members
    requires |left| >= Quorum(|members|) && |right| >= Quorum(|members|)
    ensures common in left && common in right
  {
    common := Overlap(members, left, right);
  }
}
