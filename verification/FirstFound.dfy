/** Which node a search upwards settles on among several that are equally near: the one it comes upon
    first, in the order of the reverse edges. */
module FirstFound {
  import opened Basics
  import opened RangeGraph
  import opened BreadthFirst
  import opened CommonAncestor

  // ----- the search for a key -----

  lemma {:induction false} FirstAmong(
    g: Graph, key: string, all: set<string>, es: seq<string>, rest: seq<Queued>, visited: map<string, nat>, i: nat)
    requires HoldsParents(g, all) && Inside(Neighbours(es, 1) + rest, all)
    requires forall x | x in visited :: !HoldsKey(g, x, key)
    requires i < |es| && HoldsKey(g, es[i], key) && forall j | 0 <= j < i :: !HoldsKey(g, es[j], key)
    ensures FirstCarrier(g, key, all, Neighbours(es, 1) + rest, visited) == Some(es[i])
    decreases i
  {
    var q := Neighbours(es, 1) + rest;
    assert q[0] == Queued(es[0], 1);
    if i > 0 {
      assert q[1..] == Neighbours(es[1..], 1) + rest;
      var more := Neighbours(ReverseEdges(g, es[0]), 2);
      InsideGrows(g, q, all);
      if es[0] in visited {
        FirstAmong(g, key, all, es[1..], rest, visited, i - 1);
      } else {
        assert q[1..] + more == Neighbours(es[1..], 1) + (rest + more);
        FirstAmong(g, key, all, es[1..], rest + more, visited[es[0] := 1], i - 1);
      }
    }
  }

  /** When the node itself does not hold the key, the first of its parents that does is the answer. */
  lemma FirstParentFound(g: Graph, start: string, key: string, i: nat)
    requires start in g && !HoldsKey(g, start, key) && i < |g[start].reverse|
    requires HoldsKey(g, g[start].reverse[i], key)
    requires forall j | 0 <= j < i :: !HoldsKey(g, g[start].reverse[j], key)
    ensures NearestCarrier(g, start, key) == Some(g[start].reverse[i])
  {
    var all, q := Universe(g), [Queued(start, 0)];
    var parents := g[start].reverse;
    InsideGrows(g, q, all);
    assert q[1..] + Neighbours(parents, 1) == Neighbours(parents, 1) + [];
    FirstAmong(g, key, all, parents, [], map[start := 0], i);
  }

  // ----- the nearest common ancestor -----

  /** An answer gives way only to a nearer one. */
  lemma {:induction false} OnlyNearerReplaces(g: Graph, x: string, y: string, run: seq<State>, i: nat)
    requires IsRun(g, x, y, run) && i < |run| && run[i].best.Best?
    ensures var last := run[|run| - 1].best;
            last.Best? && (last == run[i].best || last.distance < run[i].best.distance)
    decreases |run| - i
  {
    if i + 1 < |run| {
      assert TurnAt(g, run, i);
      OnlyNearerReplaces(g, x, y, run, i + 1);
    }
  }

  ghost predicate TookDeep(q: seq<Queued>, best: Best)
  {
    q != [] && best.Best? && q[0].depth > 2 * best.distance
  }

  /** A turn is the last one exactly when it leaves both queues empty or took from either of them a node
      more than twice the best distance away. */
  lemma LastTurnExactly(g: Graph, x: string, y: string, run: seq<State>, i: nat)
    requires IsRun(g, x, y, run) && Stopped(run) && i + 1 < |run|
    ensures i + 1 == |run| - 1 <==>
            || (run[i + 1].one.q == [] && run[i + 1].two.q == [])
            || TookDeep(run[i].one.q, run[i + 1].best) || TookDeep(run[i].two.q, run[i + 1].best)
  {
    if i + 2 < |run| {
      assert TurnAt(g, run, i + 1) && KeepsOn(run, i);
    }
  }

  /** Two different nodes, neither a parent of the other or of itself. */
  ghost predicate Apart(g: Graph, x: string, y: string)
  {
    && x in g && y in g && x != y
    && x !in g[x].reverse && y !in g[y].reverse && x !in g[y].reverse && y !in g[x].reverse
  }

  /** The two lists of parents up to `m`: the first place at which one list has a name that the other has
      had by then, the first node's list being looked at first. */
  ghost predicate MeetAt(a: seq<string>, b: seq<string>, m: nat)
  {
    && m < |a| && m < |b| && (a[m] in b[..m] || b[m] in a[..m + 1])
    && forall k | 0 <= k < m :: a[k] !in b[..k] && b[k] !in a[..k + 1]
  }

  /** One side after its first `k` parents. */
  ghost predicate Climbed(side: Side, root: string, parents: seq<string>, k: nat)
    requires k <= |parents|
  {
    && |side.q| >= |parents| - k && (forall i | k <= i < |parents| :: side.q[i - k] == Queued(parents[i], 1))
    && (forall v :: v in side.visited <==> v == root || v in parents[..k])
    && forall v | v in parents[..k] :: side.visited[v] == 1
  }

  ghost predicate NoneMet(g: Graph, x: string, y: string, k: nat, s: State)
    requires Apart(g, x, y) && k <= |g[x].reverse| && k <= |g[y].reverse|
  {
    s.best.NoneYet? && Climbed(s.one, x, g[x].reverse, k) && Climbed(s.two, y, g[y].reverse, k)
  }

  lemma ClimbsOn(g: Graph, side: Side, root: string, parents: seq<string>, k: nat)
    requires k < |parents| && root !in parents && Climbed(side, root, parents, k)
    ensures side.q != [] && side.q[0] == Queued(parents[k], 1) && Climbed(Visit(g, side), root, parents, k + 1)
  {
    assert side.q[k - k] == Queued(parents[k], 1);
    assert parents[..k + 1] == parents[..k] + [parents[k]];
    var q' := Visit(g, side).q;
    forall i | k + 1 <= i < |parents| ensures q'[i - (k + 1)] == Queued(parents[i], 1) {
      assert side.q[i - k] == Queued(parents[i], 1);
    }
  }

  lemma FirstClimb(g: Graph, root: string)
    requires root in g && root !in g[root].reverse
    ensures Climbed(Visit(g, Side([Queued(root, 0)], map[])), root, g[root].reverse, 0)
  {
    var side, parents := Side([Queued(root, 0)], map[]), g[root].reverse;
    assert Visit(g, side) == Side(Neighbours(parents, 1), map[root := 0]) by {
      assert side.q[1..] + Neighbours(parents, 1) == Neighbours(parents, 1);
    }
    assert parents[..0] == [];
  }

  lemma FirstTurn(g: Graph, x: string, y: string)
    requires Apart(g, x, y)
    ensures NoneMet(g, x, y, 0, Turn(g, Start(x, y)))
  {
    FirstClimb(g, x);
    FirstClimb(g, y);
  }

  /** While nothing is met the loop goes on. */
  lemma GoesOn(g: Graph, x: string, y: string, k: nat, run: seq<State>)
    requires Apart(g, x, y) && k < |g[x].reverse| && k <= |g[y].reverse|
    requires IsRun(g, x, y, run) && Stopped(run) && k + 1 < |run| && NoneMet(g, x, y, k, run[k + 1])
    ensures k + 2 < |run|
  {
    ClimbsOn(g, run[k + 1].one, x, g[x].reverse, k);
  }

  /** One turn further up the lists: nothing is met before `m`, and there the answer is. */
  lemma TurnMeets(g: Graph, x: string, y: string, m: nat, k: nat, s: State)
    requires Apart(g, x, y) && MeetAt(g[x].reverse, g[y].reverse, m) && k <= m && NoneMet(g, x, y, k, s)
    ensures k < m ==> NoneMet(g, x, y, k + 1, Turn(g, s))
    ensures k == m ==> Turn(g, s).best == Best(MetFirst(g[x].reverse, g[y].reverse, m), 2)
  {
    var a, b := g[x].reverse, g[y].reverse;
    ClimbsOn(g, s.one, x, a, k);
    ClimbsOn(g, s.two, y, b, k);
    assert a[k] != y && b[k] != x;
    assert a[k] in s.two.visited <==> a[k] in b[..k];
    assert b[k] in Visit(g, s.one).visited <==> b[k] in a[..k + 1];
  }

  ghost function MetFirst(a: seq<string>, b: seq<string>, m: nat): string
    requires MeetAt(a, b, m)
  {
    if a[m] in b[..m] then a[m] else b[m]
  }

  lemma {:induction false} ClimbTogether(g: Graph, x: string, y: string, m: nat, run: seq<State>, k: nat)
    requires Apart(g, x, y) && MeetAt(g[x].reverse, g[y].reverse, m) && k <= m
    requires IsRun(g, x, y, run) && Stopped(run)
    ensures k + 2 < |run| && NoneMet(g, x, y, k, run[k + 1])
  {
    if k == 0 {
      assert TurnAt(g, run, 0);
      FirstTurn(g, x, y);
    } else {
      ClimbTogether(g, x, y, m, run, k - 1);
      assert TurnAt(g, run, k);
      NextTurn(g, x, y, m, k, run[k], run[k + 1]);
    }
    GoesOn(g, x, y, k, run);
  }

  lemma NextTurn(g: Graph, x: string, y: string, m: nat, k: nat, s: State, s': State)
    requires Apart(g, x, y) && MeetAt(g[x].reverse, g[y].reverse, m) && 0 < k <= m
    requires NoneMet(g, x, y, k - 1, s) && s' == Turn(g, s)
    ensures NoneMet(g, x, y, k, s')
  {
    TurnMeets(g, x, y, m, k - 1, s);
  }

  lemma NoFurtherThanParents(g: Graph, x: string, a: string, i: nat)
    requires x in g && AncestorAt(g, x, a, i) && i < 2
    ensures if i == 0 then a == x else a in g[x].reverse
  {
    var p :| PathUp(g, p, x, a) && |p| == i + 1;
  }

  lemma FarApart(g: Graph, x: string, y: string, a: string, i: nat, j: nat)
    requires Apart(g, x, y) && AboveBoth(g, x, y, a, i, j)
    ensures i + j >= 2
  {
    if i + j < 2 {
      NoFurtherThanParents(g, x, a, i);
      NoFurtherThanParents(g, y, a, j);
    }
  }

  /** Two nodes that share a parent: of the shared parents the answer is the one that both lists have
      shown first, read side by side. */
  lemma SharedParentMetFirst(g: Graph, x: string, y: string, m: nat, run: seq<State>)
    requires Apart(g, x, y) && MeetAt(g[x].reverse, g[y].reverse, m)
    requires IsRun(g, x, y, run) && Stopped(run) && SumOfDistances(g, x, y, run[|run| - 1].best)
    ensures run[|run| - 1].best == Best(MetFirst(g[x].reverse, g[y].reverse, m), 2)
  {
    ClimbTogether(g, x, y, m, run, m);
    assert TurnAt(g, run, m + 1);
    TurnMeets(g, x, y, m, m, run[m + 1]);
    OnlyNearerReplaces(g, x, y, run, m + 2);
    var last := run[|run| - 1].best;
    var i: nat, j: nat :| AboveBoth(g, x, y, last.node, i, j) && last.distance == i + j;
    FarApart(g, x, y, last.node, i, j);
  }
}
