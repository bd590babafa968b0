/** The early exit of `nearest_common_ancestor`: when it cannot matter, and that it can. */
module EarlyBreak {
  import opened RangeGraph
  import opened Walks
  import opened BreadthFirst
  import opened CommonAncestor

  // ----- when the early exit cannot happen -----

  /** What is queued at a positive depth was queued from a visited node one nearer. */
  ghost predicate Sourced(side: Side)
  {
    forall i | 0 <= i < |side.q| && side.q[i].depth > 0 :: HasDepth(side.visited, side.q[i].depth - 1)
  }

  ghost predicate HasDepth(visited: map<string, nat>, k: nat)
  {
    exists x :: x in visited && visited[x] == k
  }

  lemma VisitSourced(g: Graph, side: Side)
    requires side.q != [] && Sourced(side)
    ensures Sourced(Visit(g, side))
  {
    var v, side' := side.q[0], Visit(g, side);
    assert forall i | 0 <= i < |side.q| - 1 :: side.q[1..][i] == side.q[i + 1];
    forall i | 0 <= i < |side'.q| && side'.q[i].depth > 0 ensures HasDepth(side'.visited, side'.q[i].depth - 1) {
      if i < |side.q| - 1 {
        assert side'.q[i] == side.q[i + 1];
        var x :| x in side.visited && side.visited[x] == side'.q[i].depth - 1;
        assert x in side'.visited && side'.visited[x] == side'.q[i].depth - 1;
      } else {
        assert side'.q[i].depth == v.depth + 1;
        assert v.v in side'.visited && side'.visited[v.v] == v.depth;
      }
    }
  }

  lemma {:induction false} RunSourced(g: Graph, x: string, y: string, all: set<string>, run: seq<State>, k: nat)
    requires IsRun(g, x, y, run) && k < |run| && Inv(g, x, y, all, Start(x, y))
    ensures Inv(g, x, y, all, run[k]) && Sourced(run[k].one) && Sourced(run[k].two)
    decreases k
  {
    if k > 0 {
      RunSourced(g, x, y, all, run, k - 1);
      assert TurnAt(g, run, k - 1);
      TurnKeeps(g, x, y, all, run[k - 1]);
      HalvesSourced(g, run[k - 1]);
    }
  }

  lemma HalvesSourced(g: Graph, s: State)
    requires Sourced(s.one) && Sourced(s.two)
    ensures Sourced(Turn(g, s).one) && Sourced(Turn(g, s).two)
  {
    if s.one.q != [] {
      VisitSourced(g, s.one);
    }
    if s.two.q != [] {
      VisitSourced(g, s.two);
    }
  }

  /** The least sum of distances to a common ancestor. */
  ghost predicate LeastSum(g: Graph, x: string, y: string, m: nat)
  {
    && (exists a, i: nat, j: nat :: CommonAt(g, x, y, a, i, j) && i + j == m)
    && (forall a, i: nat, j: nat | CommonAt(g, x, y, a, i, j) :: m <= i + j)
  }

  /** No ancestor of either node is further away. */
  ghost predicate AncestorsWithin(g: Graph, x: string, y: string, bound: nat)
  {
    forall z, k: nat | IsDistance(ParentsOf(g), x, z, k) || IsDistance(ParentsOf(g), y, z, k) :: k <= bound
  }

  lemma NotDeeper(g: Graph, root: string, all: set<string>, side: Side, bound: nat)
    requires SideInv(g, root, all, side) && Sourced(side) && side.q != []
    requires forall z, k: nat | IsDistance(ParentsOf(g), root, z, k) :: k <= bound
    ensures side.q[0].depth <= bound + 1
  {
    var d := side.q[0].depth;
    if d > 0 {
      var z :| z in side.visited && side.visited[z] == d - 1;
      assert IsDistance(ParentsOf(g), root, z, d - 1);
    }
  }

  /** A turn that breaks off has popped something more than twice the best distance away. */
  lemma BreakNeedsDepth(g: Graph, x: string, y: string, all: set<string>, s: State, s': State, bound: nat)
    requires SideInv(g, x, all, s.one) && SideInv(g, y, all, s.two) && Sourced(s.one) && Sourced(s.two)
    requires AncestorsWithin(g, x, y, bound) && BreaksOff(s, s')
    ensures s'.best.Best? && 2 * s'.best.distance <= bound
  {
    if Deeper(s.one.q, s'.best) {
      NotDeeper(g, x, all, s.one, bound);
    } else {
      NotDeeper(g, y, all, s.two, bound);
    }
  }

  /** A node meets itself in the first turn, and nothing is nearer than that. */
  lemma {:induction false} MeetsItself(g: Graph, x: string, run: seq<State>, k: nat)
    requires IsRun(g, x, x, run) && 0 < k < |run|
    ensures run[k].best.Best? && run[k].best.distance == 0
    decreases k
  {
    assert TurnAt(g, run, k - 1);
    if k > 1 {
      MeetsItself(g, x, run, k - 1);
    }
  }

  lemma OnlyItselfAtZero(g: Graph, x: string, y: string)
    requires LeastSum(g, x, y, 0)
    ensures x == y
  {
    var a, i: nat, j: nat :| CommonAt(g, x, y, a, i, j) && i + j == 0;
    ZeroIsSelf(ParentsOf(g), x, a);
    ZeroIsSelf(ParentsOf(g), y, a);
  }

  lemma ZeroIsSelf(succ: Successors, x: string, a: string)
    requires IsDistance(succ, x, a, 0)
    ensures a == x
  {
    var p :| WalkFromTo(succ, p, x, a) && |p| <= 1;
  }

  lemma NearestWithinBound(g: Graph, x: string, y: string, run: seq<State>, m: nat)
    requires x in g && y in g
    requires run != [] && Complete(g, x, y, run, run[|run| - 1])
    requires LeastSum(g, x, y, m) && AncestorsWithin(g, x, y, 2 * m + 1)
    ensures Least(g, x, y, run[|run| - 1].best)
  {
    var all := NamesOf(g);
    StartInv(g, x, y, all);
    var n := |run| - 1;
    RunSourced(g, x, y, all, run, n);
    if QueuesDrained(run[n]) {
      DrainedIsBest(g, x, y, all, run[n]);
    } else {
      RunSourced(g, x, y, all, run, n - 1);
      BreakNeedsDepth(g, x, y, all, run[n - 1], run[n], 2 * m + 1);
      BestIsCommon(g, x, y, all, run[n]);
      assert run[n].best.distance == m;
    }
  }

  /** With all ancestors within 2m + 1, where m is the least sum, or with m = 0, the answer is a nearest
      common ancestor, whether the loop breaks off or not. */
  lemma NearestWithin(g: Graph, x: string, y: string, run: seq<State>, m: nat)
    requires x in g && y in g
    requires run != [] && Complete(g, x, y, run, run[|run| - 1])
    requires LeastSum(g, x, y, m) && (m == 0 || AncestorsWithin(g, x, y, 2 * m + 1))
    ensures Least(g, x, y, run[|run| - 1].best)
  {
    if m == 0 {
      OnlyItselfAtZero(g, x, y);
      MeetsItself(g, x, run, |run| - 1);
    } else {
      NearestWithinBound(g, x, y, run, m);
    }
  }
}
