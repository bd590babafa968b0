/** `nearest_common_ancestor`: two breadth-first searches upwards, one step each in turn. */
module CommonAncestor {
  import opened RangeGraph
  import opened Walks
  import opened BreadthFirst
  import opened SetSizes

  datatype Best = NoneYet | Best(node: string, distance: nat)

  datatype Side = Side(q: seq<Queued>, visited: map<string, nat>)

  datatype State = State(one: Side, two: Side, best: Best)

  function Start(x: string, y: string): State
  {
    State(Side([Queued(x, 0)], map[]), Side([Queued(y, 0)], map[]), NoneYet)
  }

  /** A node popped on one side and already visited on the other improves the best, if nearer. */
  function Improve(best: Best, v: Queued, other: map<string, nat>): Best
  {
    if v.v in other && (best.NoneYet? || other[v.v] + v.depth < best.distance)
    then Best(v.v, other[v.v] + v.depth) else best
  }

  function Visit(g: Graph, side: Side): Side
    requires side.q != []
  {
    var v := side.q[0];
    if v.v in side.visited then Side(side.q[1..], side.visited)
    else Side(side.q[1..] + Neighbours(ReverseEdges(g, v.v), v.depth + 1), side.visited[v.v := v.depth])
  }

  function OneHalf(g: Graph, s: State): State
  {
    if s.one.q == [] then s
    else s.(one := Visit(g, s.one), best := Improve(s.best, s.one.q[0], s.two.visited))
  }

  function OtherHalf(g: Graph, s: State): State
  {
    if s.two.q == [] then s
    else s.(two := Visit(g, s.two), best := Improve(s.best, s.two.q[0], s.one.visited))
  }

  /** One turn of the loop: the first side, then the second. */
  function Turn(g: Graph, s: State): State
  {
    OtherHalf(g, OneHalf(g, s))
  }

  predicate Deeper(q: seq<Queued>, best: Best)
  {
    q != [] && best.Best? && q[0].depth > best.distance * 2
  }

  /** The early exit: a node popped in this turn was more than twice the best distance away. */
  predicate BreaksOff(s: State, s': State)
  {
    Deeper(s.one.q, s'.best) || Deeper(s.two.q, s'.best)
  }

  predicate QueuesDrained(s: State)
  {
    s.one.q == [] && s.two.q == []
  }

  // ----- the invariant -----

  /** The best is attained, and no node visited on both sides beats it. */
  ghost predicate Paired(a: map<string, nat>, b: map<string, nat>, best: Best)
  {
    && (best.Best? ==> best.node in a && best.node in b && best.distance == a[best.node] + b[best.node])
    && (forall x | x in a && x in b :: best.Best? && best.distance <= a[x] + b[x])
  }

  ghost predicate SideInv(g: Graph, root: string, all: set<string>, side: Side)
  {
    Search(ParentsOf(g), root, side.q, side.visited) && Inside(side.q, all) && side.visited.Keys <= all
  }

  ghost predicate Inv(g: Graph, x: string, y: string, all: set<string>, s: State)
  {
    && HoldsParents(g, all) && SideInv(g, x, all, s.one) && SideInv(g, y, all, s.two)
    && Paired(s.one.visited, s.two.visited, s.best)
  }

  lemma StartInv(g: Graph, x: string, y: string, all: set<string>)
    requires HoldsParents(g, all) && x in all && y in all
    ensures Inv(g, x, y, all, Start(x, y))
  {
    SearchStart(ParentsOf(g), x);
    SearchStart(ParentsOf(g), y);
  }

  lemma VisitKeeps(g: Graph, root: string, all: set<string>, side: Side)
    requires HoldsParents(g, all) && SideInv(g, root, all, side) && side.q != []
    ensures SideInv(g, root, all, Visit(g, side))
    ensures side.q[0].v in side.visited ==> side.visited[side.q[0].v] <= side.q[0].depth
  {
    InsideGrows(g, side.q, all);
    if side.q[0].v in side.visited {
      PopSeen(ParentsOf(g), root, side.q, side.visited);
    } else {
      VisitNew(g, root, all, side);
    }
  }

  lemma VisitNew(g: Graph, root: string, all: set<string>, side: Side)
    requires SideInv(g, root, all, side) && side.q != [] && side.q[0].v !in side.visited
    ensures Search(ParentsOf(g), root, Visit(g, side).q, Visit(g, side).visited)
    ensures Visit(g, side).visited.Keys <= all
  {
    assert side.q[0].v in all;
    PopNew(ParentsOf(g), root, side.q, side.visited);
  }

  lemma PairedSwap(a: map<string, nat>, b: map<string, nat>, best: Best)
    requires Paired(a, b, best)
    ensures Paired(b, a, best)
  {
  }

  /** What is visited again was nearer before, so the best changes only with what is new. */
  lemma VisitPairs(g: Graph, side: Side, other: map<string, nat>, best: Best)
    requires side.q != [] && Paired(side.visited, other, best)
    requires side.q[0].v in side.visited ==> side.visited[side.q[0].v] <= side.q[0].depth
    ensures Paired(Visit(g, side).visited, other, Improve(best, side.q[0], other))
  {
  }

  lemma TurnKeeps(g: Graph, x: string, y: string, all: set<string>, s: State)
    requires Inv(g, x, y, all, s)
    ensures Inv(g, x, y, all, Turn(g, s))
  {
    OneKeeps(g, x, y, all, s);
    OtherKeeps(g, x, y, all, OneHalf(g, s));
  }

  lemma OneKeeps(g: Graph, x: string, y: string, all: set<string>, s: State)
    requires Inv(g, x, y, all, s)
    ensures Inv(g, x, y, all, OneHalf(g, s))
  {
    if s.one.q != [] {
      VisitKeeps(g, x, all, s.one);
      VisitPairs(g, s.one, s.two.visited, s.best);
    }
  }

  lemma OtherKeeps(g: Graph, x: string, y: string, all: set<string>, s: State)
    requires Inv(g, x, y, all, s)
    ensures Inv(g, x, y, all, OtherHalf(g, s))
  {
    if s.two.q != [] {
      VisitKeeps(g, y, all, s.two);
      PairedSwap(s.one.visited, s.two.visited, s.best);
      VisitPairs(g, s.two, s.one.visited, s.best);
      PairedSwap(OtherHalf(g, s).two.visited, s.one.visited, OtherHalf(g, s).best);
    }
  }

  // ----- what the result means -----

  ghost predicate Common(g: Graph, x: string, y: string, a: string)
  {
    Reaches(ParentsOf(g), x, a) && Reaches(ParentsOf(g), y, a)
  }

  /** `a` is a common ancestor-or-self at shortest distances `i` and `j`. */
  ghost predicate CommonAt(g: Graph, x: string, y: string, a: string, i: nat, j: nat)
  {
    IsDistance(ParentsOf(g), x, a, i) && IsDistance(ParentsOf(g), y, a, j)
  }

  lemma BestIsCommon(g: Graph, x: string, y: string, all: set<string>, s: State)
    requires Inv(g, x, y, all, s) && s.best.Best?
    ensures Common(g, x, y, s.best.node)
    ensures var i, j := s.one.visited[s.best.node], s.two.visited[s.best.node];
            CommonAt(g, x, y, s.best.node, i, j) && s.best.distance == i + j
  {
    WithinReaches(ParentsOf(g), x, s.best.node);
    WithinReaches(ParentsOf(g), y, s.best.node);
  }

  /** With both queues drained the best is a nearest common ancestor, and there is one if any exists. */
  lemma DrainedIsBest(g: Graph, x: string, y: string, all: set<string>, s: State)
    requires Inv(g, x, y, all, s) && QueuesDrained(s)
    ensures s.best.Best? <==> exists a :: Common(g, x, y, a)
    ensures forall a, i: nat, j: nat | CommonAt(g, x, y, a, i, j) :: s.best.Best? && s.best.distance <= i + j
  {
    forall a | Common(g, x, y, a) ensures s.best.Best? {
      Drained(ParentsOf(g), x, s.one.visited, a);
      Drained(ParentsOf(g), y, s.two.visited, a);
    }
    if s.best.Best? {
      BestIsCommon(g, x, y, all, s);
    }
    forall a, i: nat, j: nat | CommonAt(g, x, y, a, i, j) ensures s.best.Best? && s.best.distance <= i + j {
      BothVisited(g, x, y, all, s, a, i, j);
    }
  }

  lemma BothVisited(g: Graph, x: string, y: string, all: set<string>, s: State, a: string, i: nat, j: nat)
    requires Inv(g, x, y, all, s) && QueuesDrained(s) && CommonAt(g, x, y, a, i, j)
    ensures a in s.one.visited && a in s.two.visited && s.one.visited[a] == i && s.two.visited[a] == j
  {
    WithinReaches(ParentsOf(g), x, a);
    WithinReaches(ParentsOf(g), y, a);
    Drained(ParentsOf(g), x, s.one.visited, a);
    Drained(ParentsOf(g), y, s.two.visited, a);
    DistanceUnique(ParentsOf(g), x, a, i, s.one.visited[a]);
    DistanceUnique(ParentsOf(g), y, a, j, s.two.visited[a]);
  }

  // ----- the loop -----

  ghost predicate TurnAt(g: Graph, run: seq<State>, i: nat)
    requires i + 1 < |run|
  {
    run[i + 1] == Turn(g, run[i]) && !QueuesDrained(run[i])
  }

  ghost predicate KeepsOn(run: seq<State>, i: nat)
    requires i + 1 < |run|
  {
    !BreaksOff(run[i], run[i + 1])
  }

  /** A run of the loop, turn by turn; only its last turn may break off. */
  ghost predicate IsRun(g: Graph, x: string, y: string, run: seq<State>)
  {
    && run != [] && run[0] == Start(x, y)
    && (forall i: nat | i + 1 < |run| :: TurnAt(g, run, i))
    && (forall i: nat | i + 2 < |run| :: KeepsOn(run, i))
  }

  ghost predicate Stopped(run: seq<State>)
    requires run != []
  {
    QueuesDrained(run[|run| - 1]) || (|run| > 1 && BreaksOff(run[|run| - 2], run[|run| - 1]))
  }

  /** Nodes not yet visited, on either side. */
  ghost function Unvisited(all: set<string>, s: State): nat
  {
    |all - s.one.visited.Keys| + |all - s.two.visited.Keys|
  }

  lemma VisitShrinks(g: Graph, root: string, all: set<string>, side: Side)
    requires SideInv(g, root, all, side) && side.q != []
    ensures var side' := Visit(g, side);
            || |all - side'.visited.Keys| < |all - side.visited.Keys|
            || (side'.visited == side.visited && |side'.q| < |side.q|)
  {
    if side.q[0].v !in side.visited {
      var v, before, after := side.q[0].v, all - side.visited.Keys, all - Visit(g, side).visited.Keys;
      assert v in all && v in before && v !in after;
      assert after <= before;
      ProperSubsetSize(after, before);
    }
  }

  /** Every turn visits something new or shortens the queues. */
  lemma TurnShrinks(g: Graph, x: string, y: string, all: set<string>, s: State)
    requires Inv(g, x, y, all, s) && !QueuesDrained(s)
    ensures var s' := Turn(g, s);
            || Unvisited(all, s') < Unvisited(all, s)
            || (Unvisited(all, s') == Unvisited(all, s) && |s'.one.q| + |s'.two.q| < |s.one.q| + |s.two.q|)
  {
    if s.one.q != [] {
      VisitShrinks(g, x, all, s.one);
    }
    if s.two.q != [] {
      VisitShrinks(g, y, all, s.two);
    }
  }

  /** There is a result exactly when the ancestor sets meet; it is in both, and its distance is the sum
      of its two shortest distances. */
  ghost predicate Correct(g: Graph, x: string, y: string, best: Best)
  {
    && (best.Best? <==> exists a :: Common(g, x, y, a))
    && (best.Best? ==> exists i: nat, j: nat :: CommonAt(g, x, y, best.node, i, j) && best.distance == i + j)
  }

  /** No common ancestor has a smaller sum. */
  ghost predicate Least(g: Graph, x: string, y: string, best: Best)
  {
    forall a, i: nat, j: nat | CommonAt(g, x, y, a, i, j) :: best.Best? && best.distance <= i + j
  }

  /** A node above both at these distances, spelled out on the graph. */
  ghost predicate AboveBoth(g: Graph, x: string, y: string, a: string, i: nat, j: nat)
  {
    AncestorAt(g, x, a, i) && AncestorAt(g, y, a, j)
  }

  /** There is a result exactly when some node is both nodes' ancestor or self, and then it is one, with
      the sum of its two shortest distances. */
  ghost predicate SumOfDistances(g: Graph, x: string, y: string, best: Best)
  {
    && (best.Best? <==> exists a, i: nat, j: nat :: AboveBoth(g, x, y, a, i, j))
    && (best.Best? ==> exists i: nat, j: nat :: AboveBoth(g, x, y, best.node, i, j) && best.distance == i + j)
  }

  ghost predicate NoneNearer(g: Graph, x: string, y: string, best: Best)
  {
    forall a, i: nat, j: nat | AboveBoth(g, x, y, a, i, j) :: best.Best? && best.distance <= i + j
  }

  lemma CommonSpelled(g: Graph, x: string, y: string, a: string, i: nat, j: nat)
    ensures CommonAt(g, x, y, a, i, j) <==> AboveBoth(g, x, y, a, i, j)
  {
    DistanceIsAncestor(g, x, a, i);
    DistanceIsAncestor(g, y, a, j);
  }

  lemma SumSpelled(g: Graph, x: string, y: string, best: Best)
    requires Correct(g, x, y, best)
    ensures SumOfDistances(g, x, y, best)
  {
    forall a, i: nat, j: nat | AboveBoth(g, x, y, a, i, j) ensures Common(g, x, y, a) {
      CommonSpelled(g, x, y, a, i, j);
      WithinReaches(ParentsOf(g), x, a);
      WithinReaches(ParentsOf(g), y, a);
    }
    if best.Best? {
      var i: nat, j: nat :| CommonAt(g, x, y, best.node, i, j) && best.distance == i + j;
      CommonSpelled(g, x, y, best.node, i, j);
    }
  }

  lemma LeastSpelled(g: Graph, x: string, y: string, best: Best)
    ensures Least(g, x, y, best) <==> NoneNearer(g, x, y, best)
  {
    forall a, i: nat, j: nat ensures CommonAt(g, x, y, a, i, j) <==> AboveBoth(g, x, y, a, i, j) {
      CommonSpelled(g, x, y, a, i, j);
    }
  }

  lemma StateAfter(g: Graph, x: string, y: string, all: set<string>, s: State)
    requires Inv(g, x, y, all, s) && (QueuesDrained(s) || s.best.Best?)
    ensures Correct(g, x, y, s.best) && (QueuesDrained(s) ==> Least(g, x, y, s.best))
  {
    if s.best.Best? {
      BestIsCommon(g, x, y, all, s);
    }
    if QueuesDrained(s) {
      DrainedIsBest(g, x, y, all, s);
    }
  }

  /** The run so far, with its loop still going. */
  ghost predicate Recorded(g: Graph, x: string, y: string, run: seq<State>, s: State)
  {
    IsRun(g, x, y, run) && run[|run| - 1] == s && (|run| > 1 ==> !BreaksOff(run[|run| - 2], s))
  }

  /** The whole run. */
  ghost predicate Complete(g: Graph, x: string, y: string, run: seq<State>, s: State)
  {
    IsRun(g, x, y, run) && run[|run| - 1] == s && Stopped(run)
  }

  lemma RecordTurn(g: Graph, x: string, y: string, run: seq<State>, s: State, next: State)
    requires Recorded(g, x, y, run, s) && !QueuesDrained(s) && next == Turn(g, s)
    ensures if BreaksOff(s, next) then Complete(g, x, y, run + [next], next) else Recorded(g, x, y, run + [next], next)
  {
    ExtendRun(g, x, y, run, next);
    assert (run + [next])[|run| - 1] == s;
  }

  ghost predicate Shorter(rank: State -> nat, s: State, s': State)
  {
    rank(s') < rank(s) || (rank(s') == rank(s) && |s'.one.q| + |s'.two.q| < |s.one.q| + |s.two.q|)
  }

  /** A property of states that turns keep, with a rank that they lower. */
  ghost predicate TurnsKeep(g: Graph, inv: State -> bool, rank: State -> nat)
  {
    forall t: State {:trigger Turn(g, t)} :: inv(t) && !QueuesDrained(t) ==>
        inv(Turn(g, t)) && Shorter(rank, t, Turn(g, t))
  }

  /** The loop by itself, for any such property. */
  method Loop(g: Graph, x: string, y: string, ghost inv: State -> bool, ghost rank: State -> nat)
    returns (s: State, ghost run: seq<State>)
    requires inv(Start(x, y)) && TurnsKeep(g, inv, rank)
    ensures Complete(g, x, y, run, s) && inv(s)
  {
    s := Start(x, y);
    run := [s];
    var stop := false;
    while !stop && (s.one.q != [] || s.two.q != [])
      invariant inv(s)
      invariant if stop then Complete(g, x, y, run, s) else Recorded(g, x, y, run, s)
      decreases !stop, rank(s), |s.one.q| + |s.two.q|
    {
      var next := TakeTurn(g, s);
      RecordTurn(g, x, y, run, s, next);
      assert inv(next) && Shorter(rank, s, next);
      stop := BreaksOff(s, next);
      run := run + [next];
      s := next;
    }
  }

  lemma InvIsKept(g: Graph, x: string, y: string, all: set<string>, inv: State -> bool, rank: State -> nat)
    requires forall t: State :: inv(t) <==> Inv(g, x, y, all, t)
    requires forall t: State :: rank(t) == Unvisited(all, t)
    ensures TurnsKeep(g, inv, rank)
  {
    forall t: State | inv(t) && !QueuesDrained(t) ensures inv(Turn(g, t)) && Shorter(rank, t, Turn(g, t)) {
      TurnKeeps(g, x, y, all, t);
      TurnShrinks(g, x, y, all, t);
    }
  }

  /** The loop ends on every graph, cyclic or not, with a correct last state. */
  method NearestCommonAncestor(g: Graph, x: string, y: string) returns (best: Best, ghost run: seq<State>)
    requires x in g && y in g
    ensures run != [] && Complete(g, x, y, run, run[|run| - 1]) && best == run[|run| - 1].best
    ensures Correct(g, x, y, best) && SumOfDistances(g, x, y, best)
    ensures QueuesDrained(run[|run| - 1]) ==> Least(g, x, y, best) && NoneNearer(g, x, y, best)
  {
    ghost var all := NamesOf(g);
    ghost var inv: State -> bool := t => Inv(g, x, y, all, t);
    ghost var rank: State -> nat := t => Unvisited(all, t);
    StartInv(g, x, y, all);
    InvIsKept(g, x, y, all, inv, rank);
    var s;
    s, run := Loop(g, x, y, inv, rank);
    StateAfter(g, x, y, all, s);
    best := s.best;
    SumSpelled(g, x, y, best);
    if QueuesDrained(run[|run| - 1]) {
      LeastSpelled(g, x, y, best);
    }
  }

  lemma ExtendRun(g: Graph, x: string, y: string, run: seq<State>, next: State)
    requires IsRun(g, x, y, run) && !QueuesDrained(run[|run| - 1]) && next == Turn(g, run[|run| - 1])
    requires |run| > 1 ==> !BreaksOff(run[|run| - 2], run[|run| - 1])
    ensures IsRun(g, x, y, run + [next])
  {
    var run' := run + [next];
    forall i: nat | i + 1 < |run'| ensures TurnAt(g, run', i) {
      assert i + 1 < |run| ==> TurnAt(g, run, i);
    }
    forall i: nat | i + 2 < |run'| ensures KeepsOn(run', i) {
      assert i + 2 < |run| ==> KeepsOn(run, i);
    }
  }

  /** The body of the loop. */
  method TakeTurn(g: Graph, s: State) returns (next: State)
    ensures next == Turn(g, s)
  {
    var one, two, best := s.one, s.two, s.best;
    if one.q != [] {
      var v := one.q[0];
      var q := one.q[1..];
      if v.v in two.visited {
        var distance := two.visited[v.v] + v.depth;
        if best.NoneYet? || distance < best.distance {
          best := Best(v.v, distance);
        }
      }
      if v.v !in one.visited {
        one := Side(q + Neighbours(ReverseEdges(g, v.v), v.depth + 1), one.visited[v.v := v.depth]);
      } else {
        one := Side(q, one.visited);
      }
    }
    if two.q != [] {
      var v := two.q[0];
      var q := two.q[1..];
      if v.v in one.visited {
        var distance := one.visited[v.v] + v.depth;
        if best.NoneYet? || distance < best.distance {
          best := Best(v.v, distance);
        }
      }
      if v.v !in two.visited {
        two := Side(q + Neighbours(ReverseEdges(g, v.v), v.depth + 1), two.visited[v.v := v.depth]);
      } else {
        two := Side(q, two.visited);
      }
    }
    next := State(one, two, best);
  }
}
