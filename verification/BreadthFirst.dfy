/** Breadth-first search upwards: the queue discipline that makes first visits shortest, and the search
    for the nearest ancestor carrying a key. */
module BreadthFirst {
  import opened Basics
  import opened RangeGraph
  import opened Walks

  ghost function ParentsOf(g: Graph): Successors
  {
    (x: string) => ReverseEdges(g, x)
  }

  /** There is a walk of `k` edges. */
  ghost predicate Within(succ: Successors, a: string, b: string, k: nat)
  {
    exists p :: WalkFromTo(succ, p, a, b) && |p| == k + 1
  }

  ghost predicate IsDistance(succ: Successors, a: string, b: string, k: nat)
  {
    Within(succ, a, b, k) && forall j: nat | j < k :: !Within(succ, a, b, j)
  }

  // ----- ancestors, spelled out on the graph -----

  /** A path up along reverse edges. */
  ghost predicate PathUp(g: Graph, p: seq<string>, a: string, b: string)
  {
    && |p| > 0 && p[0] == a && p[|p| - 1] == b
    && forall i: nat | i + 1 < |p| :: p[i] in g && p[i + 1] in g[p[i]].reverse
  }

  /** `y` is `x` or above it, and the shortest path up has `k` edges. */
  ghost predicate AncestorAt(g: Graph, x: string, y: string, k: nat)
  {
    && (exists p :: PathUp(g, p, x, y) && |p| == k + 1)
    && (forall p | PathUp(g, p, x, y) :: |p| >= k + 1)
  }

  lemma UpIsWalk(g: Graph, p: seq<string>, a: string, b: string)
    ensures PathUp(g, p, a, b) <==> WalkFromTo(ParentsOf(g), p, a, b)
  {
    if PathUp(g, p, a, b) {
      forall i: nat | i + 1 < |p| ensures StepAt(ParentsOf(g), p, i) {
        assert p[i] in g && p[i + 1] in g[p[i]].reverse;
      }
    }
    if WalkFromTo(ParentsOf(g), p, a, b) {
      forall i: nat | i + 1 < |p| ensures p[i] in g && p[i + 1] in g[p[i]].reverse {
        assert StepAt(ParentsOf(g), p, i);
      }
    }
  }

  lemma WithinIsPath(g: Graph, a: string, b: string, k: nat)
    ensures Within(ParentsOf(g), a, b, k) <==> exists p :: PathUp(g, p, a, b) && |p| == k + 1
  {
    if Within(ParentsOf(g), a, b, k) {
      var p :| WalkFromTo(ParentsOf(g), p, a, b) && |p| == k + 1;
      UpIsWalk(g, p, a, b);
    }
    if p :| PathUp(g, p, a, b) && |p| == k + 1 {
      UpIsWalk(g, p, a, b);
    }
  }

  lemma DistanceIsAncestor(g: Graph, x: string, y: string, k: nat)
    ensures IsDistance(ParentsOf(g), x, y, k) <==> AncestorAt(g, x, y, k)
  {
    WithinIsPath(g, x, y, k);
    if IsDistance(ParentsOf(g), x, y, k) {
      forall p | PathUp(g, p, x, y) ensures |p| >= k + 1 {
        WithinIsPath(g, x, y, |p| - 1);
      }
    }
    if AncestorAt(g, x, y, k) {
      forall j: nat | j < k ensures !Within(ParentsOf(g), x, y, j) {
        WithinIsPath(g, x, y, j);
      }
    }
  }

  lemma WithinZero(succ: Successors, a: string)
    ensures Within(succ, a, a, 0)
  {
    assert WalkFromTo(succ, [a], a, a);
  }

  lemma WithinStep(succ: Successors, a: string, b: string, c: string, k: nat)
    requires Within(succ, a, b, k) && c in succ(b)
    ensures Within(succ, a, c, k + 1)
  {
    var p :| WalkFromTo(succ, p, a, b) && |p| == k + 1;
    WalkExtend(succ, p, a, b, c);
  }

  lemma WithinReaches(succ: Successors, a: string, b: string)
    ensures Reaches(succ, a, b) <==> exists k: nat :: Within(succ, a, b, k)
  {
    if Reaches(succ, a, b) {
      var p :| WalkFromTo(succ, p, a, b);
      assert Within(succ, a, b, |p| - 1);
    }
  }

  lemma DistanceUnique(succ: Successors, a: string, b: string, k: nat, j: nat)
    requires IsDistance(succ, a, b, k) && IsDistance(succ, a, b, j)
    ensures k == j
  {
  }

  // ----- the invariant of the search -----

  datatype Queued = Queued(v: string, depth: nat)

  ghost predicate Expected(q: seq<Queued>, visited: map<string, nat>, y: string, k: nat)
  {
    (y in visited && visited[y] <= k) || Queued(y, k) in q
  }

  ghost predicate Queue(succ: Successors, root: string, q: seq<Queued>)
  {
    && (forall i, j | 0 <= i < j < |q| :: q[i].depth <= q[j].depth)
    && (forall i | 0 <= i < |q| :: q[i].depth <= q[0].depth + 1 && Within(succ, root, q[i].v, q[i].depth))
  }

  /** Every neighbour of a visited node is visited or queued at the next depth. */
  ghost predicate Frontier(succ: Successors, q: seq<Queued>, visited: map<string, nat>)
  {
    forall x, y | x in visited && y in succ(x) :: Expected(q, visited, y, visited[x] + 1)
  }

  ghost predicate NoDeeper(q: seq<Queued>, visited: map<string, nat>)
  {
    forall x | x in visited && q != [] :: visited[x] <= q[0].depth
  }

  ghost predicate Search(succ: Successors, root: string, q: seq<Queued>, visited: map<string, nat>)
  {
    && Queue(succ, root, q) && Frontier(succ, q, visited) && NoDeeper(q, visited)
    && (forall x | x in visited :: IsDistance(succ, root, x, visited[x]))
    && Expected(q, visited, root, 0)
  }

  lemma SearchStart(succ: Successors, root: string)
    ensures Search(succ, root, [Queued(root, 0)], map[])
  {
    WithinZero(succ, root);
    assert [Queued(root, 0)][0] == Queued(root, 0);
  }

  /** Whatever is not visited is at least as far as the head of the queue. */
  lemma {:induction false} UnvisitedFar(
    succ: Successors, root: string, q: seq<Queued>, visited: map<string, nat>, p: seq<string>)
    requires Search(succ, root, q, visited) && IsWalk(succ, p) && p[0] == root
    ensures (p[|p| - 1] in visited && visited[p[|p| - 1]] <= |p| - 1) || (q != [] && q[0].depth <= |p| - 1)
    decreases |p|
  {
    if |p| == 1 {
      QueueHead(q, root, 0);
    } else {
      var n := |p| - 1;
      SubWalk(succ, p, 0, n);
      assert StepAt(succ, p, n - 1);
      UnvisitedFar(succ, root, q, visited, p[0..n]);
      var x, y := p[n - 1], p[n];
      if x in visited {
        assert Expected(q, visited, y, visited[x] + 1);
        QueueHead(q, y, visited[x] + 1);
      }
    }
  }

  lemma QueueHead(q: seq<Queued>, y: string, k: nat)
    requires forall i, j | 0 <= i < j < |q| :: q[i].depth <= q[j].depth
    ensures Queued(y, k) in q ==> q != [] && q[0].depth <= k
  {
    if Queued(y, k) in q {
      var i :| 0 <= i < |q| && q[i] == Queued(y, k);
      assert i == 0 || q[0].depth <= q[i].depth;
    }
  }

  /** So a node first popped is popped at its distance. */
  lemma PoppedAtDistance(succ: Successors, root: string, q: seq<Queued>, visited: map<string, nat>)
    requires Search(succ, root, q, visited) && q != []
    ensures q[0].v !in visited ==> IsDistance(succ, root, q[0].v, q[0].depth)
    ensures q[0].v in visited ==> visited[q[0].v] <= q[0].depth
  {
    forall j: nat | j < q[0].depth && Within(succ, root, q[0].v, j)
      ensures q[0].v in visited
    {
      var p :| WalkFromTo(succ, p, root, q[0].v) && |p| == j + 1;
      UnvisitedFar(succ, root, q, visited, p);
    }
  }

  /** Popping a node seen before. */
  lemma PopSeen(succ: Successors, root: string, q: seq<Queued>, visited: map<string, nat>)
    requires Search(succ, root, q, visited) && q != [] && q[0].v in visited
    ensures Search(succ, root, q[1..], visited)
  {
    PoppedAtDistance(succ, root, q, visited);
    var q' := q[1..];
    assert q == [q[0]] + q';
    forall y, k | Expected(q, visited, y, k) ensures Expected(q', visited, y, k) {
    }
    assert forall i | 0 <= i < |q'| :: q'[i] == q[i + 1];
  }

  /** The queue entries for the neighbours of a node. */
  function Neighbours(es: seq<string>, depth: nat): (r: seq<Queued>)
    ensures |r| == |es| && forall i | 0 <= i < |es| :: r[i] == Queued(es[i], depth)
  {
    seq(|es|, i requires 0 <= i < |es| => Queued(es[i], depth))
  }

  ghost function Grown(succ: Successors, q: seq<Queued>): (r: seq<Queued>)
    requires q != []
    ensures |r| == |q| - 1 + |succ(q[0].v)|
    ensures forall i | 0 <= i < |q| - 1 :: r[i] == q[i + 1]
    ensures forall i | |q| - 1 <= i < |r| :: r[i] == Queued(succ(q[0].v)[i - (|q| - 1)], q[0].depth + 1)
  {
    q[1..] + Neighbours(succ(q[0].v), q[0].depth + 1)
  }

  lemma GrownAt(succ: Successors, root: string, q: seq<Queued>, i: nat)
    requires Queue(succ, root, q) && q != [] && i < |Grown(succ, q)|
    ensures var e := Grown(succ, q)[i];
            && q[0].depth <= e.depth <= q[0].depth + 1 && Within(succ, root, e.v, e.depth)
            && (i >= |q| - 1 ==> e.depth == q[0].depth + 1)
  {
    if i >= |q| - 1 {
      WithinStep(succ, root, q[0].v, succ(q[0].v)[i - (|q| - 1)], q[0].depth);
    }
  }

  lemma GrownQueue(succ: Successors, root: string, q: seq<Queued>)
    requires Queue(succ, root, q) && q != []
    ensures Queue(succ, root, q[1..] + Neighbours(succ(q[0].v), q[0].depth + 1))
  {
    var q' := Grown(succ, q);
    forall i | 0 <= i < |q'|
      ensures q[0].depth <= q'[i].depth <= q[0].depth + 1 && Within(succ, root, q'[i].v, q'[i].depth)
    {
      GrownAt(succ, root, q, i);
    }
    forall i, j | 0 <= i < j < |q'| ensures q'[i].depth <= q'[j].depth {
      if j >= |q| - 1 {
        GrownAt(succ, root, q, i);
        GrownAt(succ, root, q, j);
      }
    }
  }

  lemma ExpectedKept(q: seq<Queued>, visited: map<string, nat>, more: seq<Queued>)
    requires q != [] && q[0].v !in visited
    ensures forall y, k | Expected(q, visited, y, k) :: Expected(q[1..] + more, visited[q[0].v := q[0].depth], y, k)
  {
    assert q == [q[0]] + q[1..];
  }

  lemma FrontierGrows(succ: Successors, q: seq<Queued>, visited: map<string, nat>)
    requires Frontier(succ, q, visited) && q != [] && q[0].v !in visited
    ensures Frontier(succ, q[1..] + Neighbours(succ(q[0].v), q[0].depth + 1), visited[q[0].v := q[0].depth])
  {
    var v, depth := q[0].v, q[0].depth;
    var q', visited' := q[1..] + Neighbours(succ(v), depth + 1), visited[v := depth];
    ExpectedKept(q, visited, Neighbours(succ(v), depth + 1));
    forall x, y | x in visited' && y in succ(x) ensures Expected(q', visited', y, visited'[x] + 1) {
      if x != v {
        assert Expected(q, visited, y, visited[x] + 1);
      }
    }
  }

  lemma NoDeeperGrows(succ: Successors, root: string, q: seq<Queued>, visited: map<string, nat>)
    requires Queue(succ, root, q) && NoDeeper(q, visited) && q != []
    ensures NoDeeper(q[1..] + Neighbours(succ(q[0].v), q[0].depth + 1), visited[q[0].v := q[0].depth])
  {
    var q' := q[1..] + Neighbours(succ(q[0].v), q[0].depth + 1);
    if q' != [] {
      assert |q| > 1 ==> q'[0] == q[1];
      assert q'[0].depth >= q[0].depth;
    }
  }

  /** Popping a new node: it is visited and its neighbours queue up. */
  lemma PopNew(succ: Successors, root: string, q: seq<Queued>, visited: map<string, nat>)
    requires Search(succ, root, q, visited) && q != [] && q[0].v !in visited
    ensures Search(succ, root, q[1..] + Neighbours(succ(q[0].v), q[0].depth + 1), visited[q[0].v := q[0].depth])
  {
    PoppedAtDistance(succ, root, q, visited);
    GrownQueue(succ, root, q);
    FrontierGrows(succ, q, visited);
    NoDeeperGrows(succ, root, q, visited);
    ExpectedKept(q, visited, Neighbours(succ(q[0].v), q[0].depth + 1));
  }

  /** With the queue drained, the visited are exactly the reachable. */
  lemma Drained(succ: Successors, root: string, visited: map<string, nat>, x: string)
    requires Search(succ, root, [], visited)
    ensures x in visited <==> Reaches(succ, root, x)
  {
    WithinReaches(succ, root, x);
    if Reaches(succ, root, x) {
      var p :| WalkFromTo(succ, p, root, x);
      UnvisitedFar(succ, root, [], visited, p);
    }
  }

  // ----- the nearest ancestor carrying a key -----

  predicate Carries(g: Graph, x: string, key: string)
  {
    x in g && key in g[x].tags
  }

  /** A set of names that holds every parent. */
  ghost predicate HoldsParents(g: Graph, all: set<string>)
  {
    forall x, y | y in ReverseEdges(g, x) :: y in all
  }

  lemma NamesOf(g: Graph) returns (all: set<string>)
    ensures HoldsParents(g, all) && g.Keys <= all
  {
    all := Universe(g);
  }

  /** The first carrier popped is a nearest one. */
  lemma FirstIsNearest(
    g: Graph, root: string, q: seq<Queued>, visited: map<string, nat>, key: string, y: string, k: nat)
    requires Search(ParentsOf(g), root, q, visited) && q != []
    requires forall x | x in visited :: !Carries(g, x, key)
    requires Carries(g, y, key) && Within(ParentsOf(g), root, y, k)
    ensures q[0].depth <= k
  {
    var p :| WalkFromTo(ParentsOf(g), p, root, y) && |p| == k + 1;
    UnvisitedFar(ParentsOf(g), root, q, visited, p);
  }

  /** What is queued are names of the graph, so a search visits finitely many. */
  ghost predicate Inside(q: seq<Queued>, all: set<string>)
  {
    forall i | 0 <= i < |q| :: q[i].v in all
  }

  lemma InsideGrows(g: Graph, q: seq<Queued>, all: set<string>)
    requires q != [] && Inside(q, all) && HoldsParents(g, all)
    ensures Inside(q[1..], all) && Inside(q[1..] + Neighbours(ReverseEdges(g, q[0].v), q[0].depth + 1), all)
  {
  }

  /** The state of the key search: so far nothing visited carries the key. */
  ghost predicate KeySearch(
    g: Graph, start: string, key: string, all: set<string>, q: seq<Queued>, visited: map<string, nat>)
  {
    && HoldsParents(g, all) && Search(ParentsOf(g), start, q, visited) && Inside(q, all)
    && forall x | x in visited :: !Carries(g, x, key)
  }

  lemma KeySearchGrows(
    g: Graph, start: string, key: string, all: set<string>, q: seq<Queued>, visited: map<string, nat>)
    requires KeySearch(g, start, key, all, q, visited) && q != []
    ensures q[0].v in visited ==> KeySearch(g, start, key, all, q[1..], visited)
    ensures q[0].v !in visited && !Carries(g, q[0].v, key) ==>
        KeySearch(g, start, key, all,
                  q[1..] + Neighbours(ReverseEdges(g, q[0].v), q[0].depth + 1), visited[q[0].v := q[0].depth])
  {
    InsideGrows(g, q, all);
    if q[0].v in visited {
      PopSeen(ParentsOf(g), start, q, visited);
    } else {
      PopNew(ParentsOf(g), start, q, visited);
    }
  }

  lemma KeyFound(g: Graph, start: string, key: string, all: set<string>, q: seq<Queued>, visited: map<string, nat>)
    requires KeySearch(g, start, key, all, q, visited) && q != [] && q[0].v !in visited && Carries(g, q[0].v, key)
    ensures IsDistance(ParentsOf(g), start, q[0].v, q[0].depth) && Reaches(ParentsOf(g), start, q[0].v)
    ensures forall y, k: nat | Carries(g, y, key) && Within(ParentsOf(g), start, y, k) :: q[0].depth <= k
  {
    PoppedAtDistance(ParentsOf(g), start, q, visited);
    WithinReaches(ParentsOf(g), start, q[0].v);
    forall y, k: nat | Carries(g, y, key) && Within(ParentsOf(g), start, y, k) ensures q[0].depth <= k {
      FirstIsNearest(g, start, q, visited, key, y, k);
    }
  }

  /** The carrier the search comes upon first, from a given state of it. */
  ghost function FirstCarrier(
    g: Graph, key: string, all: set<string>, q: seq<Queued>, visited: map<string, nat>): Option<string>
    requires HoldsParents(g, all) && Inside(q, all)
    decreases all - visited.Keys, |q|
  {
    if q == [] then None
    else
      var v, depth := q[0].v, q[0].depth;
      if v in visited then FirstCarrier(g, key, all, q[1..], visited)
      else if Carries(g, v, key) then Some(v)
      else
        assert v in all - visited.Keys && v !in all - visited[v := depth].Keys;
        InsideGrows(g, q, all);
        FirstCarrier(g, key, all, q[1..] + Neighbours(ReverseEdges(g, v), depth + 1), visited[v := depth])
  }

  ghost function NearestCarrier(g: Graph, start: string, key: string): Option<string>
    requires start in g
  {
    FirstCarrier(g, key, Universe(g), [Queued(start, 0)], map[])
  }

  /** An ancestor-or-self carrying the key such that none carrying it is nearer; or nothing, if none
      carries it. */
  ghost predicate IsNearest(g: Graph, start: string, key: string, found: Option<string>)
  {
    && (found.Some? ==> Carries(g, found.value, key) && Nearest(g, start, key, found.value))
    && (found.Some? <==> exists y :: Carries(g, y, key) && Reaches(ParentsOf(g), start, y))
  }

  ghost predicate Nearest(g: Graph, start: string, key: string, x: string)
  {
    exists d: nat :: IsDistance(ParentsOf(g), start, x, d)
      && forall y, k: nat | Carries(g, y, key) && Within(ParentsOf(g), start, y, k) :: d <= k
  }

  lemma NoneFound(g: Graph, start: string, key: string, all: set<string>, visited: map<string, nat>)
    requires KeySearch(g, start, key, all, [], visited)
    ensures IsNearest(g, start, key, None)
  {
    forall y | Reaches(ParentsOf(g), start, y) ensures !Carries(g, y, key) {
      Drained(ParentsOf(g), start, visited, y);
    }
  }

  lemma OneFound(g: Graph, start: string, key: string, all: set<string>, q: seq<Queued>, visited: map<string, nat>)
    requires KeySearch(g, start, key, all, q, visited) && q != [] && q[0].v !in visited && Carries(g, q[0].v, key)
    ensures IsNearest(g, start, key, Some(q[0].v))
  {
    KeyFound(g, start, key, all, q, visited);
  }

  lemma {:induction false} FirstCarrierNearest(
    g: Graph, start: string, key: string, all: set<string>, q: seq<Queued>, visited: map<string, nat>)
    requires KeySearch(g, start, key, all, q, visited)
    ensures IsNearest(g, start, key, FirstCarrier(g, key, all, q, visited))
    decreases all - visited.Keys, |q|
  {
    if q == [] {
      NoneFound(g, start, key, all, visited);
    } else {
      var v, depth := q[0].v, q[0].depth;
      KeySearchGrows(g, start, key, all, q, visited);
      if v in visited {
        FirstCarrierNearest(g, start, key, all, q[1..], visited);
      } else if Carries(g, v, key) {
        OneFound(g, start, key, all, q, visited);
      } else {
        assert v in all - visited.Keys && v !in all - visited[v := depth].Keys;
        FirstCarrierNearest(
          g, start, key, all, q[1..] + Neighbours(ReverseEdges(g, v), depth + 1), visited[v := depth]);
      }
    }
  }

  ghost predicate HoldsKey(g: Graph, x: string, key: string)
  {
    x in g && key in g[x].tags
  }

  /** A holder of the key among the node and its ancestors such that no other is nearer; none, if none of
      them holds it. */
  ghost predicate NearestHolder(g: Graph, start: string, key: string, found: Option<string>)
  {
    match found
    case None => forall y, j: nat | AncestorAt(g, start, y, j) :: !HoldsKey(g, y, key)
    case Some(x) =>
      && HoldsKey(g, x, key)
      && exists k: nat :: AncestorAt(g, start, x, k)
           && forall y, j: nat | AncestorAt(g, start, y, j) && HoldsKey(g, y, key) :: k <= j
  }

  lemma NearestSpelled(g: Graph, start: string, key: string, found: Option<string>)
    requires IsNearest(g, start, key, found)
    ensures NearestHolder(g, start, key, found)
  {
    forall y, j: nat | AncestorAt(g, start, y, j) && HoldsKey(g, y, key)
      ensures Within(ParentsOf(g), start, y, j) && Reaches(ParentsOf(g), start, y)
    {
      DistanceIsAncestor(g, start, y, j);
      WithinReaches(ParentsOf(g), start, y);
    }
    if found.Some? {
      var d: nat :| IsDistance(ParentsOf(g), start, found.value, d)
        && forall y, k: nat | Carries(g, y, key) && Within(ParentsOf(g), start, y, k) :: d <= k;
      DistanceIsAncestor(g, start, found.value, d);
    }
  }

  lemma NearestCarrierLaw(g: Graph, start: string, key: string)
    requires start in g
    ensures IsNearest(g, start, key, NearestCarrier(g, start, key))
    ensures NearestHolder(g, start, key, NearestCarrier(g, start, key))
  {
    SearchStart(ParentsOf(g), start);
    FirstCarrierNearest(g, start, key, Universe(g), [Queued(start, 0)], map[]);
    NearestSpelled(g, start, key, NearestCarrier(g, start, key));
  }

  /** The result is an ancestor-or-self carrying the key, none carrying it is nearer, and there is a
      result exactly when some ancestor-or-self carries it.  The search ends on cyclic graphs. */
  method SearchParentsForFirstKey(g: Graph, start: string, key: string) returns (found: Option<string>)
    requires start in g
    ensures found == NearestCarrier(g, start, key) && NearestHolder(g, start, key, found)
  {
    NearestCarrierLaw(g, start, key);
    found := FindCarrier(g, start, key);
  }

  method FindCarrier(g: Graph, start: string, key: string) returns (found: Option<string>)
    requires start in g
    ensures found == NearestCarrier(g, start, key)
  {
    var q := [Queued(start, 0)];
    var visited: map<string, nat> := map[];
    ghost var all, goal := Universe(g), NearestCarrier(g, start, key);
    while q != []
      invariant HoldsParents(g, all) && Inside(q, all)
      invariant FirstCarrier(g, key, all, q, visited) == goal
      decreases all - visited.Keys, |q|
    {
      var v, depth := q[0].v, q[0].depth;
      if v in visited {
        q := q[1..];
      } else if Carries(g, v, key) {
        return Some(v);
      } else {
        InsideGrows(g, q, all);
        assert v in all - visited.Keys && v !in all - visited[v := depth].Keys;
        q, visited := q[1..] + Neighbours(ReverseEdges(g, v), depth + 1), visited[v := depth];
      }
    }
    found := None;
  }
}
