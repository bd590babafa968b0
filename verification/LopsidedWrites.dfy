/** Such graphs arise: permitted writes, from the empty store, build one for every m >= 1. */
module LopsidedWrites {
  import opened NodeRecord
  import opened NodeHistory
  import opened RangeGraph
  import opened WriteApi
  import opened CommonAncestor
  import opened EarlyBreak
  import opened Lopsided

  const EMPTY := Store(map[], map[])
  const ENV := "e"

  /** Some permitted writes lead from the empty store to `s`. */
  ghost predicate Built(s: Store)
  {
    exists ws :: AllPermitted(ws) && AfterAll(EMPTY, ws) == s
  }

  lemma BuiltOk(s: Store)
    requires Built(s)
    ensures StoreOk(s)
  {
    var ws :| AllPermitted(ws) && AfterAll(EMPTY, ws) == s;
    RunsKeepStructure(EMPTY, ws);
  }

  lemma BuiltMore(s: Store, w: Write)
    requires Built(s) && Permitted(w)
    ensures Built(After(s, w))
  {
    var ws :| AllPermitted(ws) && AfterAll(EMPTY, ws) == s;
    var more := ws + [w];
    assert more[..|ws|] == ws;
    assert AfterAll(EMPTY, more) == After(s, w);
  }

  // ----- what single writes do to the parents -----

  /** Only `b` gets a parent more, `a`; nothing else changes that matters to walks upwards. */
  ghost predicate Gains(s: Store, s': Store, a: string, b: string)
  {
    && ReverseEdges(s'.primary, b) == ReverseEdges(s.primary, b) + [a]
    && (forall z | z != b :: ReverseEdges(s'.primary, z) == ReverseEdges(s.primary, z))
    && (forall z | z != b :: TypeOf(s'.primary, z) == TypeOf(s.primary, z) && (z in s'.primary <==> z in s.primary))
    && TypeOf(s'.primary, b).CLUSTER? && b in s'.primary
  }

  lemma LinkGains(s: Store, a: string, b: string)
    requires StoreOk(s) && a in s.primary && a != b && b !in ForwardEdges(s.primary, a)
    requires b in s.primary ==> TypeOf(s.primary, b).CLUSTER?
    ensures Gains(s, LinkedBelow(s, a, b, CLUSTER), a, b)
  {
    assert a !in ReverseEdges(s.primary, b);
    var g := Ensured(s.primary, b, CLUSTER);
    assert LinkedBelow(s, a, b, CLUSTER).primary == Linked(g, a, b);
    LinkedParents(g, a, b);
  }

  lemma LinkedParents(g: Graph, a: string, b: string)
    requires a in g && b in g && a != b && a !in g[b].reverse
    ensures ReverseEdges(Linked(g, a, b), b) == ReverseEdges(g, b) + [a]
    ensures forall z | z != b :: ReverseEdges(Linked(g, a, b), z) == ReverseEdges(g, z)
    ensures forall z :: TypeOf(Linked(g, a, b), z) == TypeOf(g, z) && (z in Linked(g, a, b) <==> z in g)
  {
  }

  lemma PutInCluster(s: Store, parent: string, child: string) returns (s': Store)
    requires Built(s) && parent != child
    requires var a, b := Prefixed(ENV, parent), Prefixed(ENV, child);
             && a != b && TypeOf(s.primary, a).CLUSTER? && (b in s.primary ==> TypeOf(s.primary, b).CLUSTER?)
             && a !in ReverseEdges(s.primary, b)
    ensures Built(s') && Gains(s, s', Prefixed(ENV, parent), Prefixed(ENV, child))
  {
    BuiltOk(s);
    var a, b := Prefixed(ENV, parent), Prefixed(ENV, child);
    var w := AddClusterToCluster(ENV, parent, child);
    assert b !in ForwardEdges(s.primary, a);
    LinkGains(s, a, b);
    s' := After(s, w);
    BuiltMore(s, w);
  }

  lemma PutInEnv(s: Store, child: string) returns (s': Store)
    requires Built(s) && TypeOf(s.primary, ENV).ENVIRONMENT?
    requires Prefixed(ENV, child) != ENV && Prefixed(ENV, child) !in s.primary
    ensures Built(s') && Gains(s, s', ENV, Prefixed(ENV, child))
  {
    BuiltOk(s);
    var b := Prefixed(ENV, child);
    var w := AddClusterToEnv(ENV, child);
    assert b in ForwardEdges(s.primary, ENV) ==> ENV in ReverseEdges(s.primary, b);
    LinkGains(s, ENV, b);
    s' := After(s, w);
    BuiltMore(s, w);
  }

  /** The environment loses a cluster. */
  lemma TakeFromEnv(s: Store, child: string) returns (s': Store)
    requires Built(s) && TypeOf(s.primary, ENV).ENVIRONMENT?
    requires var b := Prefixed(ENV, child); TypeOf(s.primary, b).CLUSTER? && ENV in ReverseEdges(s.primary, b)
    ensures Built(s')
    ensures var b := Prefixed(ENV, child);
            && ReverseEdges(s'.primary, b) == Without(ReverseEdges(s.primary, b), ENV)
            && (forall z | z != b :: ReverseEdges(s'.primary, z) == ReverseEdges(s.primary, z))
            && (forall z :: TypeOf(s'.primary, z) == TypeOf(s.primary, z) && (z in s'.primary <==> z in s.primary))
  {
    BuiltOk(s);
    var w := RemoveClusterFromEnv(ENV, child);
    s' := After(s, w);
    assert s'.primary == Unlinked(s.primary, ENV, Prefixed(ENV, child)) by {
      assert Prefixed(ENV, child) in ForwardEdges(s.primary, ENV);
    }
    UnlinkedParents(s.primary, ENV, Prefixed(ENV, child));
    BuiltMore(s, w);
  }

  lemma UnlinkedParents(g: Graph, a: string, b: string)
    requires a in g && b in g && a != b
    ensures ReverseEdges(Unlinked(g, a, b), b) == Without(ReverseEdges(g, b), a)
    ensures forall z | z != b :: ReverseEdges(Unlinked(g, a, b), z) == ReverseEdges(g, z)
    ensures forall z :: TypeOf(Unlinked(g, a, b), z) == TypeOf(g, z) && (z in Unlinked(g, a, b) <==> z in g)
  {
  }

  // ----- the names -----

  function Repeated(c: char, n: nat): (r: string)
    ensures |r| == n && forall i | 0 <= i < n :: r[i] == c
  {
    if n == 0 then "" else Repeated(c, n - 1) + [c]
  }

  function A(i: nat): string { Prefixed(ENV, Repeated('a', i + 1)) }

  function J(k: nat): string { Prefixed(ENV, Repeated('b', k + 1)) }

  const Y := Prefixed(ENV, "y")

  function TheNames(): Names { Names((i: nat) => A(i), (k: nat) => J(k), Y, ENV) }

  lemma ALooks(i: nat)
    ensures |A(i)| == i + 3 && A(i)[2] == 'a' && A(i) != ENV && A(i) != Y
  {
    assert A(i) == "e#" + Repeated('a', i + 1);
    assert Y[2] == 'y';
  }

  lemma JLooks(k: nat)
    ensures |J(k)| == k + 3 && J(k)[2] == 'b' && J(k) != ENV && J(k) != Y
  {
    assert J(k) == "e#" + Repeated('b', k + 1);
    assert Y[2] == 'y';
  }

  lemma TheNamesApart(m: nat)
    ensures Apart(TheNames(), m)
  {
    var ns := TheNames();
    forall i: nat, k: nat ensures A(i) != J(k) && (i != k ==> A(i) != A(k) && J(i) != J(k)) {
      ALooks(i);
      ALooks(k);
      JLooks(i);
      JLooks(k);
    }
    forall i: nat ensures A(i) != ENV && A(i) != Y && J(i) != ENV && J(i) != Y {
      ALooks(i);
      JLooks(i);
    }
    assert Y != ENV by { assert |Y| == 3; }
  }

  // ----- building it -----

  /** The environment is there, on top of everything. */
  ghost predicate Based(s: Store)
  {
    TypeOf(s.primary, ENV).ENVIRONMENT? && ReverseEdges(s.primary, ENV) == []
  }

  lemma StartEnv() returns (s: Store)
    ensures Built(s) && Based(s) && s.primary.Keys == {ENV}
  {
    var nothing: seq<Write> := [];
    assert AfterAll(EMPTY, nothing) == EMPTY && AllPermitted(nothing);
    BuiltMore(EMPTY, CreateEnv(ENV));
    s := After(EMPTY, CreateEnv(ENV));
  }

  ghost predicate ClusterWith(s: Store, x: string, parents: seq<string>)
  {
    x in s.primary && TypeOf(s.primary, x).CLUSTER? && ReverseEdges(s.primary, x) == parents
  }

  ghost predicate InChain(s: Store, m: nat, k: nat)
  {
    ClusterWith(s, A(k), if k == Last(m) then [ENV] else [A(k + 1)])
  }

  /** The chain is there from its last node down to a(i). */
  ghost predicate Chained(s: Store, m: nat, i: nat)
  {
    && Based(s) && i <= Last(m)
    && (forall k: nat | i <= k <= Last(m) :: InChain(s, m, k))
    && (forall k: nat | k < i :: A(k) !in s.primary)
    && (forall k: nat :: J(k) !in s.primary) && Y !in s.primary
  }

  lemma ChainOne(s: Store, m: nat, i: nat) returns (s': Store)
    requires Built(s) && Chained(s, m, i) && i > 0
    ensures Built(s') && Chained(s', m, i - 1)
  {
    TheNamesApart(Last(m));
    ALooks(i);
    ALooks(i - 1);
    assert InChain(s, m, i);
    s' := PutInCluster(s, Repeated('a', i + 1), Repeated('a', i));
    ChainKept(s, s', m, i);
  }

  lemma ChainKept(s: Store, s': Store, m: nat, i: nat)
    requires Chained(s, m, i) && i > 0 && Gains(s, s', A(i), A(i - 1))
    ensures Chained(s', m, i - 1)
  {
    assert ReverseEdges(s.primary, A(i - 1)) == [];
    forall k: nat ensures (k != i - 1 ==> A(k) != A(i - 1)) && J(k) != A(i - 1) && A(k) != ENV && A(i - 1) != Y {
      ALooks(k);
      ALooks(i - 1);
      JLooks(k);
    }
    forall k: nat | i - 1 <= k <= Last(m) ensures InChain(s', m, k) {
      assert k >= i ==> InChain(s, m, k);
    }
  }

  lemma {:induction false} ChainDown(s: Store, m: nat, i: nat) returns (s': Store)
    requires Built(s) && Chained(s, m, i)
    ensures Built(s') && Chained(s', m, 0)
    decreases i
  {
    if i == 0 {
      s' := s;
    } else {
      s' := ChainOne(s, m, i);
      s' := ChainDown(s', m, i - 1);
    }
  }

  lemma ChainTop(m: nat) returns (s: Store)
    ensures Built(s) && Chained(s, m, Last(m))
  {
    var top := Last(m);
    var s0 := StartEnv();
    forall k: nat ensures A(k) != ENV && J(k) != ENV && A(k) != Y && J(k) != A(top) && (k != top ==> A(k) != A(top)) {
      ALooks(k);
      ALooks(top);
      JLooks(k);
    }
    assert Y != ENV by { assert |Y| == 3; }
    BuiltOk(s0);
    s := PutInEnv(s0, Repeated('a', top + 1));
    assert ReverseEdges(s0.primary, A(top)) == [];
    assert InChain(s, m, top);
  }

  /** The finished chain, its last node leading back. */
  ghost predicate UpChain(s: Store, m: nat, k: nat)
  {
    ClusterWith(s, A(k), [if k == Last(m) then A(2 * m + 1) else A(k + 1)])
  }

  ghost predicate Looped(s: Store, m: nat)
  {
    Based(s) && forall k: nat | k <= Last(m) :: UpChain(s, m, k)
  }

  lemma ChainEnds(s: Store, m: nat)
    requires Chained(s, m, 0)
    ensures ClusterWith(s, A(Last(m)), [ENV]) && TypeOf(s.primary, A(2 * m + 1)).CLUSTER?
    ensures A(2 * m + 1) != A(Last(m)) && A(2 * m + 1) != ENV
  {
    assert InChain(s, m, Last(m)) && InChain(s, m, 2 * m + 1);
    ALooks(Last(m));
    ALooks(2 * m + 1);
  }

  lemma LinkBack(s: Store, m: nat) returns (s': Store)
    requires Built(s) && Chained(s, m, 0)
    ensures Built(s') && Gains(s, s', A(2 * m + 1), A(Last(m)))
    ensures ReverseEdges(s'.primary, A(Last(m))) == [ENV, A(2 * m + 1)]
  {
    ChainEnds(s, m);
    s' := PutInCluster(s, Repeated('a', 2 * m + 2), Repeated('a', 2 * m + 3));
    assert [ENV] + [A(2 * m + 1)] == [ENV, A(2 * m + 1)];
  }

  lemma WithoutFirst(x: string, y: string)
    requires x != y
    ensures Without([x, y], x) == [y]
  {
    assert [x, y][..1] == [x] && [x][..0] == [];
    assert Without([x], x) == Without([], x) + [];
    assert Without([x, y], x) == Without([x], x) + [y];
  }

  lemma LoopBack(s: Store, m: nat) returns (s': Store)
    requires Built(s) && Chained(s, m, 0)
    ensures Built(s') && Looped(s', m) && (forall k: nat :: J(k) !in s'.primary) && Y !in s'.primary
  {
    var top := Last(m);
    var s1 := LinkBack(s, m);
    forall k: nat ensures A(k) != ENV && (k != top ==> A(k) != A(top)) && J(k) != A(top) && A(k) != Y {
      ALooks(k);
      ALooks(top);
      JLooks(k);
    }
    s' := TakeFromEnv(s1, Repeated('a', top + 1));
    WithoutFirst(ENV, A(2 * m + 1));
    forall k: nat | k <= Last(m) ensures UpChain(s', m, k) {
      assert InChain(s, m, k);
    }
  }

  ghost predicate SideBranch(s: Store, k: nat)
  {
    ClusterWith(s, J(k), [ENV])
  }

  /** The first `n` side branches are there. */
  ghost predicate Branched(s: Store, m: nat, n: nat)
  {
    && Looped(s, m) && (forall k: nat | k < n :: SideBranch(s, k))
    && (forall k: nat | n <= k :: J(k) !in s.primary) && Y !in s.primary
  }

  lemma BranchOne(s: Store, m: nat, n: nat) returns (s': Store)
    requires Built(s) && Branched(s, m, n)
    ensures Built(s') && Branched(s', m, n + 1)
  {
    assert ReverseEdges(s.primary, J(n)) == [];
    forall k: nat ensures A(k) != J(n) && (k != n ==> J(k) != J(n)) && J(k) != ENV && J(k) != Y {
      ALooks(k);
      JLooks(k);
      JLooks(n);
    }
    s' := PutInEnv(s, Repeated('b', n + 1));
    forall k: nat | k <= Last(m) ensures UpChain(s', m, k) {
      assert UpChain(s, m, k);
    }
    forall k: nat | k < n + 1 ensures SideBranch(s', k) {
      assert k < n ==> SideBranch(s, k);
    }
  }

  lemma {:induction false} BranchAll(s: Store, m: nat, n: nat) returns (s': Store)
    requires Built(s) && Branched(s, m, 0)
    ensures Built(s') && Branched(s', m, n)
  {
    if n == 0 {
      s' := s;
    } else {
      s' := BranchAll(s, m, n - 1);
      s' := BranchOne(s', m, n - 1);
    }
  }

  function ParentName(m: nat, i: nat): string
    requires m > 0
  {
    if i == 0 then Repeated('a', m + 1) else if i <= Last(m) then Repeated('b', i) else Repeated('a', m)
  }

  lemma ParentNamed(m: nat, i: nat)
    requires m > 0
    ensures Prefixed(ENV, ParentName(m, i)) == Parent(TheNames(), m, i)
    ensures ParentName(m, i) != "y" && Parent(TheNames(), m, i) != Y && Parent(TheNames(), m, i) != ENV
  {
    ALooks(m);
    ALooks(m - 1);
    if 0 < i <= Last(m) {
      JLooks(i - 1);
    }
    assert ParentName(m, i)[0] != 'y';
  }

  lemma ParentNew(m: nat, n: nat)
    requires m > 0 && n < Last(m) + 2
    ensures Parent(TheNames(), m, n) !in Parents(TheNames(), m)[..n]
  {
    var ns := TheNames();
    TheNamesApart(m);
    forall i | 0 <= i < n ensures Parents(ns, m)[..n][i] != Parent(ns, m, n) {
      assert Parents(ns, m)[i] == Parent(ns, m, i);
    }
  }

  /** The first `n` parents of y are linked. */
  ghost predicate Crowned(s: Store, m: nat, n: nat)
    requires m > 0 && n <= Last(m) + 2
  {
    && Looped(s, m) && (forall k: nat | k < Last(m) :: SideBranch(s, k))
    && if n == 0 then Y !in s.primary else ClusterWith(s, Y, Parents(TheNames(), m)[..n])
  }

  lemma ParentIsCluster(s: Store, m: nat, n: nat)
    requires m > 0 && n < Last(m) + 2 && Crowned(s, m, n)
    ensures TypeOf(s.primary, Parent(TheNames(), m, n)).CLUSTER?
  {
    if n == 0 {
      assert UpChain(s, m, m);
    } else if n <= Last(m) {
      assert SideBranch(s, n - 1);
    } else {
      assert UpChain(s, m, m - 1);
    }
  }

  lemma CrownOne(s: Store, m: nat, n: nat) returns (s': Store)
    requires Built(s) && m > 0 && n < Last(m) + 2 && Crowned(s, m, n)
    ensures Built(s') && Crowned(s', m, n + 1)
  {
    var ns := TheNames();
    ParentNamed(m, n);
    ParentNew(m, n);
    ParentIsCluster(s, m, n);
    s' := PutInCluster(s, ParentName(m, n), "y");
    CrownKept(s, s', m, n);
  }

  lemma CrownKept(s: Store, s': Store, m: nat, n: nat)
    requires m > 0 && n < Last(m) + 2 && Crowned(s, m, n)
    requires Gains(s, s', Parent(TheNames(), m, n), Y)
    ensures Crowned(s', m, n + 1)
  {
    RestKept(s, s', m, Parent(TheNames(), m, n));
    OneParentMore(m, n);
    assert n == 0 ==> ReverseEdges(s.primary, Y) == [];
  }

  lemma OneParentMore(m: nat, n: nat)
    requires m > 0 && n < Last(m) + 2
    ensures var ps := Parents(TheNames(), m);
            ps[..n + 1] == ps[..n] + [Parent(TheNames(), m, n)] && (n == 0 ==> ps[..n] == [])
  {
  }

  lemma RestKept(s: Store, s': Store, m: nat, a: string)
    requires Looped(s, m) && (forall k: nat | k < Last(m) :: SideBranch(s, k)) && Gains(s, s', a, Y)
    ensures Looped(s', m) && (forall k: nat | k < Last(m) :: SideBranch(s', k))
  {
    assert Y != ENV by { assert |Y| == 3; }
    forall k: nat | k <= Last(m) ensures UpChain(s', m, k) {
      ALooks(k);
      assert UpChain(s, m, k);
    }
    forall k: nat | k < Last(m) ensures SideBranch(s', k) {
      JLooks(k);
      assert SideBranch(s, k);
    }
  }

  lemma {:induction false} CrownAll(s: Store, m: nat, n: nat) returns (s': Store)
    requires Built(s) && m > 0 && n <= Last(m) + 2 && Crowned(s, m, 0)
    ensures Built(s') && Crowned(s', m, n)
  {
    if n == 0 {
      s' := s;
    } else {
      s' := CrownAll(s, m, n - 1);
      s' := CrownOne(s', m, n - 1);
    }
  }

  lemma LoopedChain(s: Store, m: nat, i: nat)
    requires Looped(s, m) && i <= Last(m)
    ensures A(i) in s.primary && ReverseEdges(s.primary, TheNames().a(i)) == [Next(TheNames(), m, i)]
  {
    assert UpChain(s, m, i);
  }

  lemma CrownedRest(s: Store, m: nat)
    requires m > 0 && Crowned(s, m, Last(m) + 2)
    ensures forall k: nat | k < Last(m) :: ReverseEdges(s.primary, J(k)) == [ENV]
    ensures ReverseEdges(s.primary, Y) == Parents(TheNames(), m) && Y in s.primary
  {
    forall k: nat | k < Last(m) ensures ReverseEdges(s.primary, J(k)) == [ENV] {
      assert SideBranch(s, k);
    }
    assert Parents(TheNames(), m)[..Last(m) + 2] == Parents(TheNames(), m);
  }

  lemma CrownedIsLopsided(s: Store, m: nat)
    requires m > 0 && Crowned(s, m, Last(m) + 2)
    ensures IsLopsided(s.primary, TheNames(), m) && A(0) in s.primary && Y in s.primary
  {
    TheNamesApart(m);
    CrownedRest(s, m);
    assert Looped(s, m);
    IsLopsidedIf(s, m);
  }

  lemma IsLopsidedIf(s: Store, m: nat)
    requires m > 0 && Apart(TheNames(), m) && Looped(s, m)
    requires forall k: nat | k < Last(m) :: ReverseEdges(s.primary, J(k)) == [ENV]
    requires ReverseEdges(s.primary, Y) == Parents(TheNames(), m)
    ensures IsLopsided(s.primary, TheNames(), m) && A(0) in s.primary
  {
    var ns := TheNames();
    forall i: nat | i <= Last(m) ensures ReverseEdges(s.primary, ns.a(i)) == [Next(ns, m, i)] {
      LoopedChain(s, m, i);
    }
    LoopedChain(s, m, 0);
  }

  /** For every m >= 1 there are permitted writes after which the least sum for two clusters is m, all
      their ancestors lie within 2m + 2, and the loop answers m + 1. */
  lemma NearestCanBeMissed(m: nat) returns (ws: seq<Write>, x: string, y: string, run: seq<State>)
    requires m > 0
    ensures AllPermitted(ws)
    ensures var g := AfterAll(EMPTY, ws).primary;
            && x in g && y in g && LeastSum(g, x, y, m) && AncestorsWithin(g, x, y, 2 * m + 2)
            && run != [] && Complete(g, x, y, run, run[|run| - 1])
            && run[|run| - 1].best.Best? && run[|run| - 1].best.distance == m + 1
            && !Least(g, x, y, run[|run| - 1].best)
  {
    var s := ChainTop(m);
    s := ChainDown(s, m, Last(m));
    s := LoopBack(s, m);
    s := BranchAll(s, m, Last(m));
    s := CrownAll(s, m, Last(m) + 2);
    CrownedIsLopsided(s, m);
    x, y := A(0), Y;
    run := NearestMissed(s.primary, TheNames(), m);
    var found :| AllPermitted(found) && AfterAll(EMPTY, found) == s;
    ws := found;
  }
}
