/** `environment_topological_sort`: collect an environment's members, then sort what they depend on. */
module TopologicalSort {
  import opened Basics
  import opened NodeRecord
  import opened RangeGraph
  import opened Walks
  import opened ExpandHosts

  ghost function ForwardOf(g: Graph): Successors
  {
    (x: string) => ForwardEdges(g, x)
  }

  // ----- collecting the members -----

  lemma InUniverse(g: Graph, x: string, y: string)
    requires y in ForwardEdges(g, x)
    ensures y in Universe(g)
  {
  }

  /** The first search under way: what is visited was reached, what is reached is visited or on the stack,
      and the members are what is visited, environments aside. */
  ghost predicate Collecting(g: Graph, env: string, st: seq<string>, visited: set<string>, members: seq<string>)
  {
    && CanReach(g, env, st, visited)
    && NoneMissed(g, st, visited)
    && MembersAre(g, visited, members)
  }

  ghost predicate NoneMissed(g: Graph, st: seq<string>, visited: set<string>)
  {
    forall x, y | x in visited && y in ForwardEdges(g, x) :: y in visited || y in st
  }

  ghost predicate CanReach(g: Graph, env: string, st: seq<string>, visited: set<string>)
  {
    && visited <= Universe(g) && (env in visited || env in st)
    && (forall x | x in st :: x in Universe(g) && Reaches(ForwardOf(g), env, x))
    && (forall x | x in visited :: Reaches(ForwardOf(g), env, x))
  }

  ghost predicate MembersAre(g: Graph, visited: set<string>, members: seq<string>)
  {
    NoRepeats(members) && forall x :: x in members <==> x in visited && !TypeOf(g, x).ENVIRONMENT?
  }

  lemma CollectStart(g: Graph, env: string)
    requires env in g
    ensures Collecting(g, env, [env], {}, [])
  {
    ReachesSelf(ForwardOf(g), env);
  }

  lemma CollectSkip(g: Graph, env: string, st: seq<string>, visited: set<string>, members: seq<string>)
    requires Collecting(g, env, st, visited, members) && st != [] && st[|st| - 1] in visited
    ensures Collecting(g, env, st[..|st| - 1], visited, members)
  {
    assert st == st[..|st| - 1] + [st[|st| - 1]];
  }

  lemma CollectVisit(g: Graph, env: string, st: seq<string>, visited: set<string>, members: seq<string>)
    requires Collecting(g, env, st, visited, members) && st != [] && st[|st| - 1] !in visited
    ensures var v := st[|st| - 1];
            Collecting(g, env, st[..|st| - 1] + ForwardEdges(g, v), visited + {v},
                       if TypeOf(g, v).ENVIRONMENT? then members else members + [v])
  {
    var v, rest := st[|st| - 1], st[..|st| - 1];
    assert st == rest + [v];
    CanReachMore(g, env, rest, v, visited);
    NoneMissedMore(g, rest, v, visited);
    MembersMore(g, visited, members, v);
  }

  lemma CanReachMore(g: Graph, env: string, rest: seq<string>, v: string, visited: set<string>)
    requires CanReach(g, env, rest + [v], visited)
    ensures CanReach(g, env, rest + ForwardEdges(g, v), visited + {v})
  {
    assert v in rest + [v] && forall x | x in rest :: x in rest + [v];
    forall y | y in ForwardEdges(g, v) ensures y in Universe(g) && Reaches(ForwardOf(g), env, y) {
      InUniverse(g, v, y);
      ReachesStep(ForwardOf(g), env, v, y);
    }
  }

  lemma NoneMissedMore(g: Graph, rest: seq<string>, v: string, visited: set<string>)
    requires NoneMissed(g, rest + [v], visited)
    ensures NoneMissed(g, rest + ForwardEdges(g, v), visited + {v})
  {
    forall x, y | x in visited && y in ForwardEdges(g, x) ensures y in visited || y == v || y in rest {
      assert y in visited || y in rest + [v];
    }
  }

  lemma MembersMore(g: Graph, visited: set<string>, members: seq<string>, v: string)
    requires MembersAre(g, visited, members) && v !in visited
    ensures MembersAre(g, visited + {v}, if TypeOf(g, v).ENVIRONMENT? then members else members + [v])
  {
  }

  lemma CollectDone(g: Graph, env: string, visited: set<string>, members: seq<string>)
    requires Collecting(g, env, [], visited, members)
    ensures NoRepeats(members)
    ensures forall x :: x in members <==> Reaches(ForwardOf(g), env, x) && !TypeOf(g, x).ENVIRONMENT?
  {
    forall x | Reaches(ForwardOf(g), env, x) ensures x in visited {
      ClosedContains(ForwardOf(g), visited, env, x);
    }
  }

  /** The first depth-first search: every node below the environment that is not an environment. */
  method CollectMembers(g: Graph, env: string) returns (members: seq<string>)
    requires env in g
    ensures NoRepeats(members)
    ensures forall x :: x in members <==> Reaches(ForwardOf(g), env, x) && !TypeOf(g, x).ENVIRONMENT?
  {
    members := [];
    var st := [env];
    var visited: set<string> := {};
    CollectStart(g, env);
    while st != []
      invariant Collecting(g, env, st, visited, members)
      decreases Universe(g) - visited, |st|
    {
      var v := st[|st| - 1];
      if v !in visited {
        CollectVisit(g, env, st, visited, members);
        assert v in st && v in Universe(g);
        visited := visited + {v};
        if !TypeOf(g, v).ENVIRONMENT? {
          members := members + [v];
        }
        st := st[..|st| - 1] + ForwardEdges(g, v);
      } else {
        CollectSkip(g, env, st, visited, members);
        st := st[..|st| - 1];
      }
    }
    CollectDone(g, env, visited, members);
  }

  // ----- what a sorted list is -----

  /** Dependencies come earlier; the list is closed under them. */
  ghost predicate PostOrdered(d: Graph, s: seq<string>)
  {
    forall i, e | 0 <= i < |s| && e in Out(d, s[i]) :: e in s[..i]
  }

  /** Each node comes before each of its dependencies. */
  ghost predicate DependentsFirst(d: Graph, s: seq<string>)
  {
    forall i, e | 0 <= i < |s| && e in Out(d, s[i]) :: e in s[i + 1..]
  }

  ghost predicate OnCycle(d: Graph, x: string)
  {
    exists y :: y in Out(d, x) && Reaches(OutOf(d), y, x)
  }

  /** A cycle of dependencies can be reached from one of the roots. */
  ghost predicate CycleBelow(d: Graph, roots: seq<string>)
  {
    exists r, x :: r in roots && Reaches(OutOf(d), r, x) && OnCycle(d, x)
  }

  ghost predicate Needed(d: Graph, roots: seq<string>, x: string)
  {
    exists r :: r in roots && Reaches(OutOf(d), r, x)
  }

  /** Along a walk inside a post-ordered list the positions go down. */
  lemma {:induction false} WalkGoesDown(d: Graph, s: seq<string>, i: nat, p: seq<string>) returns (j: nat)
    requires PostOrdered(d, s) && i < |s| && IsWalk(OutOf(d), p) && p[0] == s[i]
    ensures j <= i && s[j] == p[|p| - 1] && (|p| > 1 ==> j < i)
    decreases |p|
  {
    if |p| == 1 {
      j := i;
    } else {
      assert StepAt(OutOf(d), p, 0);
      assert p[1] in s[..i];
      var k :| 0 <= k < i && s[k] == p[1];
      SubWalk(OutOf(d), p, 1, |p|);
      j := WalkGoesDown(d, s, k, p[1..|p|]);
    }
  }

  lemma CycleWalk(d: Graph, x: string) returns (p: seq<string>)
    requires OnCycle(d, x)
    ensures WalkFromTo(OutOf(d), p, x, x) && |p| > 1
  {
    var y :| y in Out(d, x) && Reaches(OutOf(d), y, x);
    var q :| WalkFromTo(OutOf(d), q, y, x);
    assert IsWalk(OutOf(d), [x]);
    JoinWalks(OutOf(d), [x], q);
    p := [x] + q;
  }

  /** A post-ordered list without repeats has no cycle in it. */
  lemma NoCycleInside(d: Graph, s: seq<string>, i: nat)
    requires PostOrdered(d, s) && NoRepeats(s) && i < |s|
    ensures !OnCycle(d, s[i])
  {
    if OnCycle(d, s[i]) {
      var p := CycleWalk(d, s[i]);
      var j := WalkGoesDown(d, s, i, p);
      assert false;
    }
  }

  /** What a post-ordered list contains is closed under dependency. */
  lemma NeededInside(d: Graph, s: seq<string>, roots: seq<string>, x: string)
    requires PostOrdered(d, s) && (forall r | r in roots :: r in s) && Needed(d, roots, x)
    ensures x in s
  {
    var r :| r in roots && Reaches(OutOf(d), r, x);
    var p :| WalkFromTo(OutOf(d), p, r, x);
    var i :| 0 <= i < |s| && s[i] == r;
    var j := WalkGoesDown(d, s, i, p);
  }

  lemma SortedMeansAcyclic(d: Graph, s: seq<string>, roots: seq<string>)
    requires PostOrdered(d, s) && NoRepeats(s) && forall r | r in roots :: r in s
    ensures !CycleBelow(d, roots)
  {
    if CycleBelow(d, roots) {
      var r, x :| r in roots && Reaches(OutOf(d), r, x) && OnCycle(d, x);
      assert Needed(d, roots, x);
      NeededInside(d, s, roots, x);
      var i :| 0 <= i < |s| && s[i] == x;
      NoCycleInside(d, s, i);
      assert false;
    }
  }

  // ----- the second search -----

  datatype Pending = Pending(v: string, outEdges: seq<string>)

  ghost function OnStack(st: seq<Pending>): set<string>
  {
    set i | 0 <= i < |st| :: st[i].v
  }

  /** The stack is a path of dependencies from the root, clear of what is already visited. */
  ghost predicate IsPath(d: Graph, root: string, st: seq<Pending>, visited: set<string>)
  {
    && (st != [] ==> st[0].v == root)
    && (forall i, j | 0 <= i < j < |st| :: st[i].v != st[j].v)
    && (forall i | 0 <= i < |st| :: st[i].v !in visited)
    && (forall i: nat | i + 1 < |st| :: Follows(d, st, i))
  }

  ghost predicate Follows(d: Graph, st: seq<Pending>, i: nat)
    requires i + 1 < |st|
  {
    st[i + 1].v in Out(d, st[i].v)
  }

  /** Of a frame's dependencies, each is still pending, visited, or the frame above it. */
  ghost predicate Accounted(d: Graph, st: seq<Pending>, visited: set<string>, i: nat)
    requires i < |st|
  {
    && (forall e | e in st[i].outEdges :: e in Out(d, st[i].v))
    && (forall e | e in Out(d, st[i].v) :: e in st[i].outEdges || e in visited || (i + 1 < |st| && e == st[i + 1].v))
  }

  ghost predicate StackInv(d: Graph, root: string, st: seq<Pending>, visited: set<string>)
  {
    IsPath(d, root, st, visited) && forall i: nat | i < |st| :: Accounted(d, st, visited, i)
  }

  /** What has been emitted so far. */
  ghost predicate EmittedInv(d: Graph, roots: seq<string>, sorted: seq<string>, visited: set<string>)
  {
    && NoRepeats(sorted) && PostOrdered(d, sorted)
    && (forall x :: x in visited <==> x in sorted)
    && (forall x | x in sorted :: Needed(d, roots, x))
  }

  lemma {:induction false} StackReaches(d: Graph, root: string, st: seq<Pending>, visited: set<string>, i: nat, j: nat)
    requires IsPath(d, root, st, visited) && i <= j < |st|
    ensures Reaches(OutOf(d), st[i].v, st[j].v)
    decreases j
  {
    if i == j {
      ReachesSelf(OutOf(d), st[i].v);
    } else {
      StackReaches(d, root, st, visited, i, j - 1);
      assert Follows(d, st, j - 1);
      ReachesStep(OutOf(d), st[i].v, st[j - 1].v, st[j].v);
    }
  }

  /** An edge back onto the stack closes a cycle below the root. */
  lemma BackEdge(d: Graph, roots: seq<string>, root: string, st: seq<Pending>, visited: set<string>, e: string)
    requires IsPath(d, root, st, visited) && root in roots && st != []
    requires e in OnStack(st) && e in Out(d, st[|st| - 1].v)
    ensures CycleBelow(d, roots)
  {
    var n := |st| - 1;
    var k :| 0 <= k < |st| && st[k].v == e;
    StackReaches(d, root, st, visited, 0, k);
    if k == n {
      ReachesSelf(OutOf(d), e);
    } else {
      assert Follows(d, st, k);
      StackReaches(d, root, st, visited, k + 1, n);
      ReachesStep(OutOf(d), st[k + 1].v, st[n].v, e);
    }
    assert OnCycle(d, e);
  }

  /** A set holding the root and every dependency bounds the stack. */
  ghost predicate Holds(d: Graph, root: string, all: set<string>)
  {
    root in all && forall x, y | y in Out(d, x) :: y in all
  }

  lemma UniverseHolds(d: Graph, root: string)
    ensures Holds(d, root, Universe(d) + {root})
  {
    forall x, y | y in Out(d, x) ensures y in Universe(d) {
      InUniverse(d, x, y);
    }
  }

  lemma StackInside(d: Graph, root: string, st: seq<Pending>, visited: set<string>, all: set<string>)
    requires IsPath(d, root, st, visited) && Holds(d, root, all)
    ensures forall i | 0 <= i < |st| :: st[i].v in all
  {
    forall i | 0 <= i < |st| ensures st[i].v in all {
      assert i > 0 ==> Follows(d, st, i - 1);
    }
  }

  lemma StackBounded(d: Graph, root: string, st: seq<Pending>, visited: set<string>, all: set<string>)
    requires IsPath(d, root, st, visited) && Holds(d, root, all)
    ensures |st| <= |all|
  {
    StackInside(d, root, st, visited, all);
    var names := seq(|st|, i requires 0 <= i < |st| => st[i].v);
    SimpleBounded(names, all);
  }

  /** The top frame with its last edge taken off. */
  ghost function Taken(st: seq<Pending>): seq<Pending>
    requires st != [] && st[|st| - 1].outEdges != []
  {
    var top := st[|st| - 1];
    st[|st| - 1 := Pending(top.v, top.outEdges[..|top.outEdges| - 1])]
  }

  lemma TakenPath(d: Graph, root: string, st: seq<Pending>, visited: set<string>)
    requires IsPath(d, root, st, visited) && st != [] && st[|st| - 1].outEdges != []
    ensures IsPath(d, root, Taken(st), visited) && OnStack(Taken(st)) == OnStack(st)
  {
    var st' := Taken(st);
    forall i: nat | i + 1 < |st'| ensures Follows(d, st', i) {
      assert Follows(d, st, i);
    }
    assert forall i | 0 <= i < |st| :: st'[i].v == st[i].v;
    forall x ensures x in OnStack(st') <==> x in OnStack(st) {
      if i :| 0 <= i < |st| && st[i].v == x {
        assert st'[i].v == x;
      }
      if i :| 0 <= i < |st'| && st'[i].v == x {
        assert st[i].v == x;
      }
    }
  }

  /** A dependency already visited needs no frame. */
  lemma TakeVisited(d: Graph, root: string, st: seq<Pending>, visited: set<string>)
    requires StackInv(d, root, st, visited) && st != [] && st[|st| - 1].outEdges != []
    requires var es := st[|st| - 1].outEdges; es[|es| - 1] in visited
    ensures StackInv(d, root, Taken(st), visited)
  {
    TakenPath(d, root, st, visited);
    var st', es := Taken(st), st[|st| - 1].outEdges;
    assert es == es[..|es| - 1] + [es[|es| - 1]];
    forall i: nat | i < |st'| ensures Accounted(d, st', visited, i) {
      assert Accounted(d, st, visited, i);
    }
  }

  /** A new dependency becomes the top frame. */
  lemma TakeNew(d: Graph, root: string, st: seq<Pending>, visited: set<string>, e: string)
    requires StackInv(d, root, st, visited) && st != [] && st[|st| - 1].outEdges != []
    requires var es := st[|st| - 1].outEdges; e == es[|es| - 1] && e !in visited && e !in OnStack(st)
    ensures StackInv(d, root, Taken(st) + [Pending(e, Out(d, e))], visited)
  {
    TakenPath(d, root, st, visited);
    var es := st[|st| - 1].outEdges;
    var st' := Taken(st) + [Pending(e, Out(d, e))];
    assert es == es[..|es| - 1] + [e];
    assert Accounted(d, st, visited, |st| - 1);
    forall i | 0 <= i < |st| ensures st[i].v != e {
      assert st[i].v in OnStack(st);
    }
    forall i: nat | i + 1 < |st'| ensures Follows(d, st', i) {
      assert i + 1 < |st| ==> Follows(d, st, i);
    }
    forall i: nat | i < |st'| ensures Accounted(d, st', visited, i) {
      assert i < |st| ==> Accounted(d, st, visited, i);
    }
  }

  /** A frame without pending edges has all its dependencies emitted, and is emitted next. */
  lemma EmitTop(d: Graph, roots: seq<string>, root: string, st: seq<Pending>, visited: set<string>, sorted: seq<string>)
    requires StackInv(d, root, st, visited) && EmittedInv(d, roots, sorted, visited) && root in roots
    requires st != [] && st[|st| - 1].outEdges == []
    ensures var n := |st| - 1;
            && StackInv(d, root, st[..n], visited + {st[n].v})
            && EmittedInv(d, roots, sorted + [st[n].v], visited + {st[n].v})
  {
    var n := |st| - 1;
    EmitStack(d, root, st, visited);
    assert Accounted(d, st, visited, n);
    StackReaches(d, root, st, visited, 0, n);
    assert Needed(d, roots, st[n].v);
    EmitSorted(d, sorted, st[n].v);
  }

  lemma EmitStack(d: Graph, root: string, st: seq<Pending>, visited: set<string>)
    requires StackInv(d, root, st, visited) && st != []
    ensures StackInv(d, root, st[..|st| - 1], visited + {st[|st| - 1].v})
  {
    var n := |st| - 1;
    var st' := st[..n];
    forall i: nat | i + 1 < |st'| ensures Follows(d, st', i) {
      assert Follows(d, st, i);
    }
    forall i: nat | i < |st'| ensures Accounted(d, st', visited + {st[n].v}, i) {
      assert Accounted(d, st, visited, i);
    }
  }

  lemma EmitSorted(d: Graph, sorted: seq<string>, x: string)
    requires NoRepeats(sorted) && PostOrdered(d, sorted) && x !in sorted && forall e | e in Out(d, x) :: e in sorted
    ensures NoRepeats(sorted + [x]) && PostOrdered(d, sorted + [x])
  {
    var s := sorted + [x];
    forall i, e | 0 <= i < |s| && e in Out(d, s[i]) ensures e in s[..i] {
      assert s[..i] == sorted[..i];
      assert i == |sorted| ==> sorted[..i] == sorted;
    }
  }

  /** The search below an unfinished root; the top frame enters `onStack` when it is looked at. */
  ghost predicate Running(d: Graph, roots: seq<string>, root: string, st: seq<Pending>, onStack: set<string>,
                          visiting: set<string>, visited: set<string>, sorted: seq<string>)
  {
    && st != [] && root !in visited && root in roots
    && StackInv(d, root, st, visited) && EmittedInv(d, roots, sorted, visited)
    && visiting <= visited + OnStack(st)
    && onStack + {st[|st| - 1].v} == OnStack(st)
  }

  /** Take the top frame's last edge: a cycle, a new frame, or nothing to do.  `visiting` never blocks an
      edge that `visited` would not. */
  method TakeEdge(d: Graph, ghost roots: seq<string>, root: string, st: seq<Pending>, onStack: set<string>,
                  visiting: set<string>, visited: set<string>, ghost sorted: seq<string>)
    returns (cyclic: bool, st': seq<Pending>, visiting': set<string>)
    requires Running(d, roots, root, st, onStack, visiting, visited, sorted) && onStack == OnStack(st)
    requires st[|st| - 1].outEdges != []
    ensures cyclic ==> CycleBelow(d, roots)
    ensures !cyclic ==> Running(d, roots, root, st', onStack, visiting', visited, sorted)
    ensures !cyclic ==> |st'| == |st| + 1 || (|st'| == |st| && |st'[|st| - 1].outEdges| < |st[|st| - 1].outEdges|)
  {
    cyclic, st', visiting' := false, st, visiting;
    var n := |st| - 1;
    var top := st[n];
    var e := top.outEdges[|top.outEdges| - 1];
    assert Accounted(d, st, visited, n);
    if e in onStack {
      BackEdge(d, roots, root, st, visited, e);
      cyclic := true;
      return;
    }
    st' := st[n := Pending(top.v, top.outEdges[..|top.outEdges| - 1])];
    TakenPath(d, root, st, visited);
    if e !in visited && e !in visiting {
      visiting' := visiting + {top.v};
      TakeNew(d, root, st, visited, e);
      PushedNames(st, e, Out(d, e));
      st' := st' + [Pending(e, Out(d, e))];
    } else {
      TakeVisited(d, root, st, visited);
    }
  }

  /** A finished frame below which more frames wait. */
  lemma EmitRunning(d: Graph, roots: seq<string>, root: string, st: seq<Pending>, onStack: set<string>,
                    visiting: set<string>, visited: set<string>, sorted: seq<string>)
    requires Running(d, roots, root, st, onStack, visiting, visited, sorted) && onStack == OnStack(st)
    requires st[|st| - 1].outEdges == []
    ensures var n := |st| - 1;
            var v := st[n].v;
            && EmittedInv(d, roots, sorted + [v], visited + {v})
            && (n > 0 ==> Running(d, roots, root, st[..n], onStack - {v}, visiting - {v}, visited + {v}, sorted + [v]))
            && (n == 0 ==> v == root && visiting - {v} <= visited + {v})
  {
    var n := |st| - 1;
    var v := st[n].v;
    EmitTop(d, roots, root, st, visited, sorted);
    PoppedNames(d, root, st, visited);
    if n > 0 {
      assert st[..n][n - 1].v in OnStack(st[..n]);
    } else {
      assert OnStack(st) == {v} by {
        assert OnStack(st[..0]) == {};
        assert st[0].v in OnStack(st);
      }
    }
  }

  /** One root of the second search. */
  method VisitFrom(
    d: Graph, ghost roots: seq<string>, root: string, visited0: set<string>, sorted0: seq<string>,
    visiting0: set<string>)
    returns (cyclic: bool, visited: set<string>, sorted: seq<string>, visiting: set<string>)
    requires root in roots && EmittedInv(d, roots, sorted0, visited0) && visiting0 <= visited0
    ensures cyclic ==> CycleBelow(d, roots)
    ensures !cyclic ==> EmittedInv(d, roots, sorted, visited) && visiting <= visited && visited0 + {root} <= visited
  {
    cyclic, visited, sorted := false, visited0, sorted0;
    var onStack: set<string> := {};
    var st := [Pending(root, Out(d, root))];
    visiting := visiting0 + {root};
    ghost var all := Universe(d) + {root};
    UniverseHolds(d, root);
    StartRunning(d, roots, root, visited, sorted, visiting0);
    while st != []
      invariant visited0 <= visited
      invariant root in visited ==> |st| <= 1 && EmittedInv(d, roots, sorted, visited) && visiting <= visited
      invariant root !in visited ==> Running(d, roots, root, st, onStack, visiting, visited, sorted)
      decreases if root in visited then |st| else 2, all - visited, |all| - |st|,
        if st == [] then 0 else |st[|st| - 1].outEdges|
    {
      var n := |st| - 1;
      var v := st[n].v;
      if root in visited {
        st := st[..n];
        continue;
      }
      onStack := onStack + {v};
      StackInside(d, root, st, visited, all);
      if st[n].outEdges != [] {
        cyclic, st, visiting := TakeEdge(d, roots, root, st, onStack, visiting, visited, sorted);
        if cyclic {
          return;
        }
        StackBounded(d, root, st, visited, all);
      } else {
        EmitRunning(d, roots, root, st, onStack, visiting, visited, sorted);
        visited, visiting, onStack := visited + {v}, visiting - {v}, onStack - {v};
        sorted := sorted + [v];
        st := st[..n];
      }
    }
  }

  lemma StartRunning(
    d: Graph, roots: seq<string>, root: string, visited: set<string>, sorted: seq<string>, visiting: set<string>)
    requires root in roots && EmittedInv(d, roots, sorted, visited) && visiting <= visited
    ensures root !in visited ==>
        Running(d, roots, root, [Pending(root, Out(d, root))], {}, visiting + {root}, visited, sorted)
    ensures root in visited ==> visiting + {root} <= visited
  {
    var st := [Pending(root, Out(d, root))];
    assert OnStack(st) == {root} by {
      assert st[0].v in OnStack(st);
    }
  }

  lemma PushedNames(st: seq<Pending>, e: string, es: seq<string>)
    requires st != [] && st[|st| - 1].outEdges != []
    ensures OnStack(Taken(st) + [Pending(e, es)]) == OnStack(st) + {e}
  {
    var st' := Taken(st) + [Pending(e, es)];
    assert forall i | 0 <= i < |st| :: st'[i].v == st[i].v;
    forall x ensures x in OnStack(st') <==> x in OnStack(st) || x == e {
      if i :| 0 <= i < |st| && st[i].v == x {
        assert st'[i].v == x;
      }
      if i :| 0 <= i < |st'| && st'[i].v == x {
        assert i < |st| ==> st[i].v == x;
      }
      assert st'[|st|].v == e;
    }
  }

  lemma PoppedNames(d: Graph, root: string, st: seq<Pending>, visited: set<string>)
    requires IsPath(d, root, st, visited) && st != []
    ensures OnStack(st[..|st| - 1]) == OnStack(st) - {st[|st| - 1].v}
  {
    var n := |st| - 1;
    var st' := st[..n];
    forall x ensures x in OnStack(st') <==> x in OnStack(st) && x != st[n].v {
      if i :| 0 <= i < |st'| && st'[i].v == x {
        assert st[i].v == x;
      }
      if i :| 0 <= i < |st| && st[i].v == x {
        assert i < n ==> st'[i].v == x;
      }
    }
  }

  // ----- the whole operation -----

  datatype SortResult = Ordered(names: seq<string>) | CycleFound | NotFound

  /** Along forward edges, whatever the types, `p` leads from `a` to `b`. */
  ghost predicate PathForward(g: Graph, p: seq<string>, a: string, b: string)
  {
    && |p| > 0 && p[0] == a && p[|p| - 1] == b
    && forall i: nat | i + 1 < |p| :: p[i] in g && p[i + 1] in g[p[i]].forward
  }

  ghost predicate PathDown(g: Graph, p: seq<string>, a: string, b: string)
  {
    IsPathDown(g, p) && p[0] == a && p[|p| - 1] == b
  }

  /** Below the environment, and not an environment. */
  ghost predicate IsMember(g: Graph, env: string, x: string)
  {
    (exists p :: PathForward(g, p, env, x)) && !(x in g && g[x].nodeType == ENVIRONMENT)
  }

  /** A member or something a member depends on, directly or not. */
  ghost predicate Relevant(g: Graph, d: Graph, env: string, x: string)
  {
    exists m, p :: IsMember(g, env, m) && PathDown(d, p, m, x)
  }

  /** Something relevant depends on itself. */
  ghost predicate DependencyCycle(g: Graph, d: Graph, env: string)
  {
    exists x, p :: Relevant(g, d, env, x) && PathDown(d, p, x, x) && |p| > 1
  }

  /** Each name comes before everything it depends on. */
  ghost predicate BeforeDependencies(d: Graph, s: seq<string>)
  {
    forall i, e | 0 <= i < |s| && Down(d, s[i], e) :: e in s[i + 1..]
  }

  lemma ForwardWalks(g: Graph, a: string, b: string)
    ensures Reaches(ForwardOf(g), a, b) <==> exists p :: PathForward(g, p, a, b)
  {
    if Reaches(ForwardOf(g), a, b) {
      var p :| WalkFromTo(ForwardOf(g), p, a, b);
      forall i: nat | i + 1 < |p| ensures p[i] in g && p[i + 1] in g[p[i]].forward {
        assert StepAt(ForwardOf(g), p, i);
      }
      assert PathForward(g, p, a, b);
    }
    if p :| PathForward(g, p, a, b) {
      forall i: nat | i + 1 < |p| ensures StepAt(ForwardOf(g), p, i) {
      }
      assert WalkFromTo(ForwardOf(g), p, a, b);
    }
  }

  lemma DownWalks(g: Graph, a: string, b: string)
    ensures Reaches(OutOf(g), a, b) <==> exists p :: PathDown(g, p, a, b)
  {
    if Reaches(OutOf(g), a, b) {
      var p :| WalkFromTo(OutOf(g), p, a, b);
      WalksGoDown(g, p);
      assert PathDown(g, p, a, b);
    }
    if p :| PathDown(g, p, a, b) {
      WalksGoDown(g, p);
      assert WalkFromTo(OutOf(g), p, a, b);
    }
  }

  lemma MemberReached(g: Graph, env: string, x: string)
    ensures IsMember(g, env, x) <==> Reaches(ForwardOf(g), env, x) && !TypeOf(g, x).ENVIRONMENT?
  {
    ForwardWalks(g, env, x);
  }

  lemma RelevantReached(g: Graph, d: Graph, env: string, x: string)
    ensures Relevant(g, d, env, x) <==> exists m :: IsMember(g, env, m) && Reaches(OutOf(d), m, x)
  {
    forall m ensures Reaches(OutOf(d), m, x) <==> exists p :: PathDown(d, p, m, x) {
      DownWalks(d, m, x);
    }
  }

  lemma CycleIsPath(d: Graph, x: string)
    ensures OnCycle(d, x) <==> exists p :: PathDown(d, p, x, x) && |p| > 1
  {
    if OnCycle(d, x) {
      var p := CycleWalk(d, x);
      WalksGoDown(d, p);
      assert PathDown(d, p, x, x);
    }
    if p :| PathDown(d, p, x, x) && |p| > 1 {
      WalksGoDown(d, p);
      assert StepAt(OutOf(d), p, 0);
      SubWalk(OutOf(d), p, 1, |p|);
      assert WalkFromTo(OutOf(d), p[1..|p|], p[1], x);
    }
  }

  function Reversed(s: seq<string>): (r: seq<string>)
    ensures |r| == |s| && forall i | 0 <= i < |s| :: r[i] == s[|s| - 1 - i]
  {
    if s == [] then [] else Reversed(s[1..]) + [s[0]]
  }

  function Shown(env: string, s: seq<string>): (r: seq<string>)
    ensures |r| == |s| && forall i | 0 <= i < |s| :: r[i] == Unprefixed(env, s[i])
  {
    seq(|s|, i requires 0 <= i < |s| => Unprefixed(env, s[i]))
  }

  lemma ReversedOrder(d: Graph, s: seq<string>)
    requires PostOrdered(d, s) && NoRepeats(s)
    ensures DependentsFirst(d, Reversed(s)) && NoRepeats(Reversed(s))
  {
    var r := Reversed(s);
    forall i, e | 0 <= i < |r| && e in Out(d, r[i]) ensures e in r[i + 1..] {
      var j := |s| - 1 - i;
      assert e in s[..j];
      var k :| 0 <= k < j && s[k] == e;
      assert r[i + 1..][|s| - 1 - k - (i + 1)] == e;
    }
  }

  lemma ReversedMembers(s: seq<string>, x: string)
    ensures x in Reversed(s) <==> x in s
  {
    var r := Reversed(s);
    if i :| 0 <= i < |s| && s[i] == x {
      assert r[|s| - 1 - i] == x;
    }
  }

  lemma NeededIsRelevant(g: Graph, d: Graph, env: string, members: seq<string>, x: string)
    requires forall m :: m in members <==> IsMember(g, env, m)
    ensures Needed(d, members, x) <==> Relevant(g, d, env, x)
  {
    RelevantReached(g, d, env, x);
  }

  /** The shown list repeats a name exactly when it holds both a bare name and that name under the
      environment's prefix. */
  lemma ShownRepeats(env: string, s: seq<string>)
    requires NoRepeats(s) && forall i | 0 <= i < |s| :: s[i] != ""
    ensures NoRepeats(Shown(env, s)) <==>
        !(env != "" && exists x :: x in s && EnvPrefix(env) + x in s && !(EnvPrefix(env) <= x))
  {
    var p := EnvPrefix(env);
    if i, j :| 0 <= i < j < |s| && Shown(env, s)[i] == Shown(env, s)[j] {
      ShownAlike(env, s[i], s[j]);
    }
    if x :| env != "" && x in s && p + x in s && !(p <= x) {
      var i :| 0 <= i < |s| && s[i] == x;
      var j :| 0 <= j < |s| && s[j] == p + x;
      assert |p + x| > |x|;
      ShownAlike(env, x, p + x);
      assert Shown(env, s)[i] == Shown(env, s)[j];
    }
  }

  /** The sort raises a cycle exactly when one is reachable; otherwise its list has no repeats, holds
      exactly the members and what they depend on, and puts dependents before dependencies.  `order` are
      the full names behind the shown ones. */
  method EnvironmentTopologicalSort(g: Graph, d: Graph, env: string) returns (r: SortResult, ghost order: seq<string>)
    requires env in g ==> forall x | IsMember(g, env, x) :: x in d
    ensures r.NotFound? <==> env !in g
    ensures env in g ==> (r.CycleFound? <==> DependencyCycle(g, d, env))
    ensures r.Ordered? ==>
        && |r.names| == |order| && (forall i | 0 <= i < |order| :: ShownAs(env, order[i], r.names[i]))
        && NoRepeats(order) && BeforeDependencies(d, order)
        && forall x :: x in order <==> Relevant(g, d, env, x)
  {
    order := [];
    if env !in g {
      return NotFound, order;
    }
    var members := CollectMembers(g, env);
    forall x ensures x in members <==> IsMember(g, env, x) {
      MemberReached(g, env, x);
    }
    var visited: set<string>, visiting: set<string>, sorted: seq<string> := {}, {}, [];
    for i := 0 to |members|
      invariant EmittedInv(d, members, sorted, visited) && visiting <= visited
      invariant forall j | 0 <= j < i :: members[j] in visited
    {
      var cyclic;
      cyclic, visited, sorted, visiting := VisitFrom(d, members, members[i], visited, sorted, visiting);
      if cyclic {
        CycleIsRelevant(g, d, env, members);
        return CycleFound, order;
      }
    }
    FinishedSort(g, d, env, members, sorted);
    order := Reversed(sorted);
    r := Ordered(Shown(env, Reversed(sorted)));
    forall i | 0 <= i < |order| ensures ShownAs(env, order[i], r.names[i]) {
      UnprefixedShows(env, order[i], r.names[i]);
    }
  }

  lemma CycleIsRelevant(g: Graph, d: Graph, env: string, members: seq<string>)
    requires forall m :: m in members <==> IsMember(g, env, m)
    ensures CycleBelow(d, members) <==> DependencyCycle(g, d, env)
  {
    if CycleBelow(d, members) {
      var m, x :| m in members && Reaches(OutOf(d), m, x) && OnCycle(d, x);
      RelevantReached(g, d, env, x);
      CycleIsPath(d, x);
    }
    if DependencyCycle(g, d, env) {
      var x, p :| Relevant(g, d, env, x) && PathDown(d, p, x, x) && |p| > 1;
      CycleIsPath(d, x);
      RelevantReached(g, d, env, x);
      var m :| IsMember(g, env, m) && Reaches(OutOf(d), m, x);
      assert m in members;
    }
  }

  lemma FinishedSort(g: Graph, d: Graph, env: string, members: seq<string>, sorted: seq<string>)
    requires forall m :: m in members <==> IsMember(g, env, m)
    requires NoRepeats(sorted) && PostOrdered(d, sorted) && (forall m | m in members :: m in sorted)
    requires forall x | x in sorted :: Needed(d, members, x)
    ensures !DependencyCycle(g, d, env)
    ensures BeforeDependencies(d, Reversed(sorted)) && NoRepeats(Reversed(sorted))
    ensures forall x :: x in Reversed(sorted) <==> Relevant(g, d, env, x)
  {
    SortedMeansAcyclic(d, sorted, members);
    CycleIsRelevant(g, d, env, members);
    ReversedOrder(d, sorted);
    FirstMeansBefore(d, Reversed(sorted));
    forall x ensures x in Reversed(sorted) <==> Relevant(g, d, env, x) {
      SortedIsRelevant(g, d, env, members, sorted, x);
    }
  }

  lemma FirstMeansBefore(d: Graph, s: seq<string>)
    requires DependentsFirst(d, s)
    ensures BeforeDependencies(d, s)
  {
    forall i, e | 0 <= i < |s| && Down(d, s[i], e) ensures e in s[i + 1..] {
      assert e in Out(d, s[i]);
    }
  }

  lemma SortedIsRelevant(g: Graph, d: Graph, env: string, members: seq<string>, sorted: seq<string>, x: string)
    requires forall m :: m in members <==> IsMember(g, env, m)
    requires PostOrdered(d, sorted) && (forall m | m in members :: m in sorted)
    requires forall x | x in sorted :: Needed(d, members, x)
    ensures x in Reversed(sorted) <==> Relevant(g, d, env, x)
  {
    ReversedMembers(sorted, x);
    NeededIsRelevant(g, d, env, members, x);
    if Needed(d, members, x) {
      NeededInside(d, sorted, members, x);
    }
  }
}
