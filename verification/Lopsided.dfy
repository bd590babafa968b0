/** The bound on the ancestors is exact: for every least sum m >= 1 there are graphs whose ancestors all lie
    within 2m + 2 on which the loop breaks off with a common ancestor that is not a nearest one. */
module Lopsided {
  import opened RangeGraph
  import opened Walks
  import opened BreadthFirst
  import opened CommonAncestor
  import opened EarlyBreak

  /** A chain a(0), a(1), ..., side branches j(0), j(1), ..., a node y and an environment e. */
  datatype Names = Names(a: nat -> string, j: nat -> string, y: string, e: string)

  /** The last node of the chain. */
  function Last(m: nat): nat { 2 * m + 2 }

  ghost predicate Apart(ns: Names, m: nat)
  {
    && (forall i: nat, k: nat | i < k <= Last(m) :: ns.a(i) != ns.a(k))
    && (forall i: nat, k: nat | i < k < Last(m) :: ns.j(i) != ns.j(k))
    && (forall i: nat, k: nat | i <= Last(m) && k < Last(m) :: ns.a(i) != ns.j(k))
    && (forall i: nat | i <= Last(m) :: ns.a(i) != ns.y && ns.a(i) != ns.e)
    && (forall k: nat | k < Last(m) :: ns.j(k) != ns.y && ns.j(k) != ns.e)
    && ns.y != ns.e
  }

  /** The next node up the chain; the last one leads back to the one before it. */
  function Next(ns: Names, m: nat, i: nat): string
  {
    if i == Last(m) then ns.a(2 * m + 1) else ns.a(i + 1)
  }

  /** The parents of y: a node at distance m from the chain's foot, many side branches, and only then the
      node at distance m - 1. */
  function Parent(ns: Names, m: nat, i: nat): string
    requires m > 0
  {
    if i == 0 then ns.a(m) else if i <= Last(m) then ns.j(i - 1) else ns.a(m - 1)
  }

  function Parents(ns: Names, m: nat): seq<string>
    requires m > 0
  {
    seq(Last(m) + 2, i requires 0 <= i < Last(m) + 2 => Parent(ns, m, i))
  }

  ghost predicate IsLopsided(g: Graph, ns: Names, m: nat)
  {
    && m > 0 && Apart(ns, m)
    && (forall i: nat {:trigger ReverseEdges(g, ns.a(i))} | i <= Last(m) ::
        ReverseEdges(g, ns.a(i)) == [Next(ns, m, i)])
    && (forall k: nat {:trigger ReverseEdges(g, ns.j(k))} | k < Last(m) :: ReverseEdges(g, ns.j(k)) == [ns.e])
    && ReverseEdges(g, ns.y) == Parents(ns, m) && ReverseEdges(g, ns.e) == []
  }

  // ----- the loop on such a graph -----

  /** What the first side pops in turn `t`. */
  function Popped(ns: Names, m: nat, t: nat): string
  {
    if t <= Last(m) then ns.a(t) else ns.a(2 * m + 1)
  }

  /** The first side after `t` turns: `t` steps up the chain. */
  ghost predicate Climbed(ns: Names, m: nat, side: Side, t: nat)
  {
    && side.q == (if t <= Last(m) + 1 then [Queued(Popped(ns, m, t), t)] else [])
    && (forall i: nat | i < t && i <= Last(m) :: ns.a(i) in side.visited && side.visited[ns.a(i)] == i)
    && (forall i: nat | t <= i <= Last(m) :: ns.a(i) !in side.visited)
    && (forall k: nat | k < Last(m) :: ns.j(k) !in side.visited)
  }

  /** The second side after `t` turns: still among the parents of y. */
  ghost predicate Browsed(ns: Names, m: nat, side: Side, t: nat)
    requires m > 0 && 0 < t <= Last(m) + 2
  {
    Ahead(ns, m, side.q, t) && Seen(ns, m, side.visited, t)
  }

  ghost predicate Climbing(ns: Names, m: nat, s: State, t: nat)
    requires m > 0 && 0 < t <= Last(m) + 2
  {
    && Climbed(ns, m, s.one, t) && Browsed(ns, m, s.two, t)
    && s.best == if t <= m then NoneYet else Best(ns.a(m), m + 1)
  }

  lemma FirstOne(g: Graph, ns: Names, m: nat)
    requires IsLopsided(g, ns, m)
    ensures Climbed(ns, m, Visit(g, Side([Queued(ns.a(0), 0)], map[])), 1)
  {
    assert [Queued(ns.a(0), 0)][1..] == [];
    assert ReverseEdges(g, ns.a(0)) == [Next(ns, m, 0)] && Next(ns, m, 0) == Popped(ns, m, 1);
    assert [] + Neighbours([Next(ns, m, 0)], 1) == [Queued(Popped(ns, m, 1), 1)];
  }

  lemma FirstTwo(g: Graph, ns: Names, m: nat)
    requires IsLopsided(g, ns, m)
    ensures Browsed(ns, m, Visit(g, Side([Queued(ns.y, 0)], map[])), 1)
  {
    var side := Visit(g, Side([Queued(ns.y, 0)], map[]));
    assert [Queued(ns.y, 0)][1..] == [];
    assert side == Side([] + Neighbours(Parents(ns, m), 1), map[ns.y := 0]);
    assert [] + Neighbours(Parents(ns, m), 1) == Neighbours(Parents(ns, m), 1);
  }

  lemma FirstTurn(g: Graph, ns: Names, m: nat)
    requires IsLopsided(g, ns, m)
    ensures Climbing(ns, m, Turn(g, Start(ns.a(0), ns.y)), 1)
    ensures !BreaksOff(Start(ns.a(0), ns.y), Turn(g, Start(ns.a(0), ns.y)))
  {
    var s := Start(ns.a(0), ns.y);
    FirstOne(g, ns, m);
    FirstTwo(g, ns, m);
    var half := OneHalf(g, s);
    assert half.best == NoneYet && half.two == s.two;
    assert half.one.visited == map[ns.a(0) := 0];
    assert Turn(g, s).best == NoneYet;
  }

  lemma VisitNew(g: Graph, side: Side)
    requires side.q != [] && side.q[0].v !in side.visited
    ensures var v := side.q[0];
            && Visit(g, side).visited == side.visited[v.v := v.depth]
            && Visit(g, side).q == side.q[1..] + Neighbours(ReverseEdges(g, v.v), v.depth + 1)
  {
  }

  /** The first side goes one step up. */
  lemma ClimbOne(g: Graph, ns: Names, m: nat, side: Side, t: nat)
    requires IsLopsided(g, ns, m) && 0 < t <= Last(m) + 1 && Climbed(ns, m, side, t)
    ensures Climbed(ns, m, Visit(g, side), t + 1)
  {
    assert side.q[1..] == [];
    if t <= Last(m) {
      var v, w := ns.a(t), Next(ns, m, t);
      VisitNew(g, side);
      assert ReverseEdges(g, v) == [w] && w == Popped(ns, m, t + 1);
      assert [] + Neighbours([w], t + 1) == [Queued(w, t + 1)];
    } else {
      assert ns.a(2 * m + 1) in side.visited;
    }
  }

  /** The second side takes the next parent of y. */
  lemma BrowseOne(g: Graph, ns: Names, m: nat, side: Side, t: nat)
    requires IsLopsided(g, ns, m) && 0 < t <= Last(m) + 1 && Browsed(ns, m, side, t)
    ensures side.q != [] && side.q[0] == Queued(Parent(ns, m, t - 1), 1) && Browsed(ns, m, Visit(g, side), t + 1)
  {
    NextParent(ns, m, side, t);
    VisitNew(g, side);
    QueueShifts(ns, m, side.q, Neighbours(ReverseEdges(g, side.q[0].v), 2), t);
    ParentVisited(ns, m, side, Visit(g, side).visited, t);
  }

  lemma NextParent(ns: Names, m: nat, side: Side, t: nat)
    requires m > 0 && Apart(ns, m) && 0 < t <= Last(m) + 1 && Browsed(ns, m, side, t)
    ensures side.q != [] && side.q[0] == Queued(Parent(ns, m, t - 1), 1) && side.q[0].v !in side.visited
  {
    assert side.q[(t - 1) - (t - 1)] == Queued(Parent(ns, m, t - 1), 1);
  }

  ghost predicate Ahead(ns: Names, m: nat, q: seq<Queued>, t: nat)
    requires m > 0 && 0 < t <= Last(m) + 2
  {
    && |q| >= Last(m) + 3 - t
    && (forall i: nat | t - 1 <= i < Last(m) + 2 :: q[i - (t - 1)] == Queued(Parent(ns, m, i), 1))
  }

  lemma QueueShifts(ns: Names, m: nat, q: seq<Queued>, more: seq<Queued>, t: nat)
    requires m > 0 && 0 < t <= Last(m) + 1 && Ahead(ns, m, q, t) && q != []
    ensures Ahead(ns, m, q[1..] + more, t + 1)
  {
    var q' := q[1..] + more;
    forall i: nat | t <= i < Last(m) + 2 ensures q'[i - t] == Queued(Parent(ns, m, i), 1) {
      assert q'[i - t] == q[i - (t - 1)];
    }
  }

  ghost predicate Seen(ns: Names, m: nat, visited: map<string, nat>, t: nat)
  {
    && (forall i: nat | i <= Last(m) && i != m :: ns.a(i) !in visited)
    && (ns.a(m) in visited <==> t > 1) && (t > 1 ==> visited[ns.a(m)] == 1)
    && (forall k: nat | k < Last(m) && t <= k + 2 :: ns.j(k) !in visited)
  }

  lemma ParentVisited(ns: Names, m: nat, side: Side, visited: map<string, nat>, t: nat)
    requires m > 0 && Apart(ns, m) && 0 < t <= Last(m) + 1 && Seen(ns, m, side.visited, t)
    requires visited == side.visited[Parent(ns, m, t - 1) := 1]
    ensures Seen(ns, m, visited, t + 1)
  {
  }

  /** Only at the common ancestor a(m) do the sides meet. */
  lemma MeetAtMiddle(ns: Names, m: nat, s: State, t: nat)
    requires m > 0 && Apart(ns, m) && 0 < t <= Last(m) + 1 && Climbing(ns, m, s, t)
    ensures Improve(s.best, s.one.q[0], s.two.visited)
         == if t < m || (t == m && m == 1) then NoneYet else Best(ns.a(m), m + 1)
  {
  }

  lemma MeetAtFoot(ns: Names, m: nat, best: Best, one: map<string, nat>, t: nat)
    requires m > 0 && Apart(ns, m) && 0 < t <= Last(m) + 1
    requires best == if t < m || (t == m && m == 1) then NoneYet else Best(ns.a(m), m + 1)
    requires forall i: nat | i <= t && i <= Last(m) :: ns.a(i) in one && one[ns.a(i)] == i
    requires forall i: nat | t < i <= Last(m) :: ns.a(i) !in one
    requires forall k: nat | k < Last(m) :: ns.j(k) !in one
    ensures Improve(best, Queued(Parent(ns, m, t - 1), 1), one) == if t < m then NoneYet else Best(ns.a(m), m + 1)
  {
  }

  lemma TurnClimbs(g: Graph, ns: Names, m: nat, s: State, t: nat)
    requires IsLopsided(g, ns, m) && 0 < t <= Last(m) + 1 && Climbing(ns, m, s, t)
    ensures Climbing(ns, m, Turn(g, s), t + 1) && !QueuesDrained(s)
    ensures BreaksOff(s, Turn(g, s)) <==> t == Last(m) + 1
  {
    ClimbOne(g, ns, m, s.one, t);
    BrowseOne(g, ns, m, s.two, t);
    MeetAtMiddle(ns, m, s, t);
    MeetAtFoot(ns, m, OneHalf(g, s).best, OneHalf(g, s).one.visited, t);
  }

  /** The run from the first climbing state to the break. */
  lemma {:induction false} ClimbRun(g: Graph, ns: Names, m: nat, run: seq<State>, t: nat) returns (full: seq<State>)
    requires IsLopsided(g, ns, m) && 0 < t <= Last(m) + 1
    requires run != [] && Recorded(g, ns.a(0), ns.y, run, run[|run| - 1]) && Climbing(ns, m, run[|run| - 1], t)
    ensures full != [] && Complete(g, ns.a(0), ns.y, full, full[|full| - 1])
    ensures full[|full| - 1].best == Best(ns.a(m), m + 1)
    decreases Last(m) + 1 - t
  {
    full := ClimbStep(g, ns, m, run, t);
    if t <= Last(m) {
      full := ClimbRun(g, ns, m, full, t + 1);
    }
  }

  lemma ClimbStep(g: Graph, ns: Names, m: nat, run: seq<State>, t: nat) returns (longer: seq<State>)
    requires IsLopsided(g, ns, m) && 0 < t <= Last(m) + 1
    requires run != [] && Recorded(g, ns.a(0), ns.y, run, run[|run| - 1]) && Climbing(ns, m, run[|run| - 1], t)
    ensures longer != [] && Climbing(ns, m, longer[|longer| - 1], t + 1)
    ensures if t == Last(m) + 1 then Complete(g, ns.a(0), ns.y, longer, longer[|longer| - 1])
            else Recorded(g, ns.a(0), ns.y, longer, longer[|longer| - 1])
  {
    var s := run[|run| - 1];
    var next := Turn(g, s);
    longer := run + [next];
    assert Climbing(ns, m, next, t + 1) && !QueuesDrained(s) && (BreaksOff(s, next) <==> t == Last(m) + 1) by {
      TurnClimbs(g, ns, m, s, t);
    }
    RecordTurn(g, ns.a(0), ns.y, run, s, next);
  }

  /** The loop breaks off with a(m) at distance m + 1. */
  lemma BreaksAtMiddle(g: Graph, ns: Names, m: nat) returns (run: seq<State>)
    requires IsLopsided(g, ns, m)
    ensures run != [] && Complete(g, ns.a(0), ns.y, run, run[|run| - 1])
    ensures run[|run| - 1].best == Best(ns.a(m), m + 1)
  {
    var s0 := Start(ns.a(0), ns.y);
    assert Recorded(g, ns.a(0), ns.y, [s0], s0);
    FirstTurn(g, ns, m);
    RecordTurn(g, ns.a(0), ns.y, [s0], s0, Turn(g, s0));
    run := ClimbRun(g, ns, m, [s0] + [Turn(g, s0)], 1);
  }

  // ----- how far its ancestors are -----

  /** After `l` steps up from the foot of the chain a walk is at most at a(l). */
  lemma {:induction false} WalkUp(g: Graph, ns: Names, m: nat, p: seq<string>, l: nat) returns (k: nat)
    requires IsLopsided(g, ns, m) && IsWalk(ParentsOf(g), p) && p[0] == ns.a(0) && l < |p|
    ensures k <= l && k <= Last(m) && p[l] == ns.a(k)
  {
    if l == 0 {
      k := 0;
    } else {
      var i := WalkUp(g, ns, m, p, l - 1);
      assert StepAt(ParentsOf(g), p, l - 1);
      assert p[l] in ReverseEdges(g, ns.a(i));
      k := if i == Last(m) then 2 * m + 1 else i + 1;
    }
  }

  /** Where a walk from y is after its first step. */
  ghost predicate OverY(ns: Names, m: nat, z: string)
    requires m > 0
  {
    || (exists k: nat :: m - 1 <= k <= Last(m) && z == ns.a(k))
    || (exists k: nat :: k < Last(m) && z == ns.j(k))
    || z == ns.e
  }

  lemma ParentOverY(ns: Names, m: nat, z: string)
    requires m > 0 && z in Parents(ns, m)
    ensures OverY(ns, m, z)
  {
    var i :| 0 <= i < |Parents(ns, m)| && Parents(ns, m)[i] == z;
    if i == 0 {
      assert z == ns.a(m);
    } else if i <= Last(m) {
      assert z == ns.j(i - 1);
    } else {
      assert z == ns.a(m - 1);
    }
  }

  lemma StepOverY(g: Graph, ns: Names, m: nat, z: string, w: string)
    requires IsLopsided(g, ns, m) && OverY(ns, m, z) && w in ReverseEdges(g, z)
    ensures OverY(ns, m, w)
  {
    if k: nat :| m - 1 <= k <= Last(m) && z == ns.a(k) {
      assert ReverseEdges(g, ns.a(k)) == [Next(ns, m, k)];
      assert w == if k == Last(m) then ns.a(2 * m + 1) else ns.a(k + 1);
    } else if k: nat :| k < Last(m) && z == ns.j(k) {
      assert ReverseEdges(g, ns.j(k)) == [ns.e];
    }
  }

  lemma {:induction false} WalkFromY(g: Graph, ns: Names, m: nat, p: seq<string>, l: nat)
    requires IsLopsided(g, ns, m) && IsWalk(ParentsOf(g), p) && p[0] == ns.y && 0 < l < |p|
    ensures OverY(ns, m, p[l])
  {
    assert StepAt(ParentsOf(g), p, l - 1);
    if l == 1 {
      ParentOverY(ns, m, p[1]);
    } else {
      WalkFromY(g, ns, m, p, l - 1);
      StepOverY(g, ns, m, p[l - 1], p[l]);
    }
  }

  lemma {:induction false} WithinUp(g: Graph, ns: Names, m: nat, x: string, d: nat, from: nat, i: nat)
    requires IsLopsided(g, ns, m) && from <= i <= Last(m) && Within(ParentsOf(g), x, ns.a(from), d)
    ensures Within(ParentsOf(g), x, ns.a(i), d + i - from)
  {
    if i > from {
      WithinUp(g, ns, m, x, d, from, i - 1);
      assert ReverseEdges(g, ns.a(i - 1)) == [Next(ns, m, i - 1)];
      WithinStep(ParentsOf(g), x, ns.a(i - 1), ns.a(i), d + i - 1 - from);
    }
  }

  lemma ParentWithin(g: Graph, ns: Names, m: nat, i: nat)
    requires IsLopsided(g, ns, m) && i < Last(m) + 2
    ensures Within(ParentsOf(g), ns.y, Parent(ns, m, i), 1)
  {
    WithinZero(ParentsOf(g), ns.y);
    assert Parents(ns, m)[i] == Parent(ns, m, i);
    WithinStep(ParentsOf(g), ns.y, ns.y, Parent(ns, m, i), 0);
  }

  lemma NearOverY(g: Graph, ns: Names, m: nat, z: string) returns (d: nat)
    requires IsLopsided(g, ns, m) && OverY(ns, m, z)
    ensures d <= Last(m) && Within(ParentsOf(g), ns.y, z, d)
  {
    if k: nat :| m - 1 <= k <= Last(m) && z == ns.a(k) {
      if k == m - 1 {
        ParentWithin(g, ns, m, Last(m) + 1);
        d := 1;
      } else {
        ParentWithin(g, ns, m, 0);
        WithinUp(g, ns, m, ns.y, 1, m, k);
        d := 1 + k - m;
      }
    } else if k: nat :| k < Last(m) && z == ns.j(k) {
      ParentWithin(g, ns, m, k + 1);
      d := 1;
    } else {
      ParentWithin(g, ns, m, 1);
      assert ReverseEdges(g, ns.j(0)) == [ns.e];
      WithinStep(ParentsOf(g), ns.y, ns.j(0), ns.e, 1);
      d := 2;
    }
  }

  /** All ancestors of both nodes lie within 2m + 2. */
  lemma AncestorsNear(g: Graph, ns: Names, m: nat)
    requires IsLopsided(g, ns, m)
    ensures AncestorsWithin(g, ns.a(0), ns.y, Last(m))
  {
    forall z, k: nat | IsDistance(ParentsOf(g), ns.a(0), z, k) ensures k <= Last(m) {
      var p :| WalkFromTo(ParentsOf(g), p, ns.a(0), z) && |p| == k + 1;
      var i := WalkUp(g, ns, m, p, k);
      WithinZero(ParentsOf(g), ns.a(0));
      WithinUp(g, ns, m, ns.a(0), 0, 0, i);
    }
    forall z, k: nat | IsDistance(ParentsOf(g), ns.y, z, k) ensures k <= Last(m) {
      if k > 0 {
        var p :| WalkFromTo(ParentsOf(g), p, ns.y, z) && |p| == k + 1;
        WalkFromY(g, ns, m, p, k);
        var d := NearOverY(g, ns, m, z);
      }
    }
  }

  /** The node at distance m - 1 from the chain's foot is a parent of y. */
  lemma LeastAttained(g: Graph, ns: Names, m: nat)
    requires IsLopsided(g, ns, m)
    ensures CommonAt(g, ns.a(0), ns.y, ns.a(m - 1), m - 1, 1)
  {
    WithinZero(ParentsOf(g), ns.a(0));
    WithinUp(g, ns, m, ns.a(0), 0, 0, m - 1);
    ParentWithin(g, ns, m, Last(m) + 1);
    var z := ns.a(m - 1);
    forall l: nat | Within(ParentsOf(g), ns.a(0), z, l) ensures m - 1 <= l {
      var p :| WalkFromTo(ParentsOf(g), p, ns.a(0), z) && |p| == l + 1;
      var k := WalkUp(g, ns, m, p, l);
    }
    assert !Within(ParentsOf(g), ns.y, ns.a(m - 1), 0);
  }

  lemma LeastBound(g: Graph, ns: Names, m: nat, z: string, i: nat, l: nat)
    requires IsLopsided(g, ns, m) && CommonAt(g, ns.a(0), ns.y, z, i, l)
    ensures m <= i + l
  {
    var p :| WalkFromTo(ParentsOf(g), p, ns.a(0), z) && |p| == i + 1;
    var q :| WalkFromTo(ParentsOf(g), q, ns.y, z) && |q| == l + 1;
    var k := WalkUp(g, ns, m, p, i);
    if l > 0 {
      WalkFromY(g, ns, m, q, l);
    }
  }

  /** On such a graph the least sum is m and all ancestors lie within 2m + 2, but the loop answers m + 1. */
  lemma NearestMissed(g: Graph, ns: Names, m: nat) returns (run: seq<State>)
    requires IsLopsided(g, ns, m)
    ensures LeastSum(g, ns.a(0), ns.y, m) && AncestorsWithin(g, ns.a(0), ns.y, 2 * m + 2)
    ensures run != [] && Complete(g, ns.a(0), ns.y, run, run[|run| - 1])
    ensures run[|run| - 1].best == Best(ns.a(m), m + 1) && !Least(g, ns.a(0), ns.y, run[|run| - 1].best)
  {
    AncestorsNear(g, ns, m);
    LeastAttained(g, ns, m);
    forall z, i: nat, l: nat | CommonAt(g, ns.a(0), ns.y, z, i, l) ensures m <= i + l {
      LeastBound(g, ns, m, z, i, l);
    }
    run := BreaksAtMiddle(g, ns, m);
  }
}
