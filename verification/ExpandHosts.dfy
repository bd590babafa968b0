/** What the expanded tree contains, and `expand_hosts` on top of it. */
module ExpandHosts {
  import opened Basics
  import opened NodeRecord
  import opened RangeGraph
  import opened Walks
  import opened Expand

  ghost function OutOf(g: Graph): Successors
  {
    (x: string) => Out(g, x)
  }

  // ----- the graph as the traversal sees it -----

  /** One step down: along a forward edge of a cluster or an environment. */
  ghost predicate Down(g: Graph, x: string, y: string)
  {
    x in g && (g[x].nodeType == CLUSTER || g[x].nodeType == ENVIRONMENT) && y in g[x].forward
  }

  ghost predicate IsPathDown(g: Graph, p: seq<string>)
  {
    |p| > 0 && forall i: nat | i + 1 < |p| :: Down(g, p[i], p[i + 1])
  }

  /** `h` is how node `y` is shown to a reader of environment `env`: without the environment's prefix. */
  ghost predicate ShownAs(env: string, y: string, h: string)
  {
    if env != "" && y != "" && env + "#" <= y then y == env + "#" + h else if y != "" then h == y else h == env
  }

  /** The node that a name asks for: an environment by its own name or by none; without an environment a
      host or a string; otherwise what has the environment's prefix, or else a host. */
  ghost predicate AsksFor(g: Graph, env: string, name: string, x: string)
  {
    && x in g
    && (|| (env != "" && (name == "" || name == env) && x == env && g[x].nodeType == ENVIRONMENT)
        || (env == "" && name != "" && x == name && (g[x].nodeType == HOST || g[x].nodeType == STRING))
        || (env != "" && name != "" && name != env && x == env + "#" + name)
        || (env != "" && name != "" && name != env && env + "#" + name !in g && x == name && g[x].nodeType == HOST))
  }

  lemma WalksGoDown(g: Graph, p: seq<string>)
    ensures IsWalk(OutOf(g), p) <==> IsPathDown(g, p)
  {
    forall i: nat | i + 1 < |p| ensures StepAt(OutOf(g), p, i) <==> Down(g, p[i], p[i + 1]) {
    }
  }

  lemma UnprefixedShows(env: string, y: string, h: string)
    ensures Unprefixed(env, y) == h <==> ShownAs(env, y, h)
  {
    if env != "" && y != "" && env + "#" <= y {
      assert y == env + "#" + y[|env| + 1..];
    }
  }

  lemma GetNodeExactly(g: Graph, env: string, name: string, x: string)
    ensures GetNode(g, env, name) == Some(x) <==> AsksFor(g, env, name, x)
  {
  }

  // ----- paths in the expanded tree -----

  /** `p` is a path of child keys from the root of `t`. */
  ghost predicate PathIn(t: Tree, p: seq<string>)
    decreases |p|
  {
    p == [] || (p[0] in t.children && PathIn(t.children[p[0]], p[1..]))
  }

  ghost function NodeAt(t: Tree, p: seq<string>): Tree
    requires PathIn(t, p)
    decreases |p|
  {
    if p == [] then t else NodeAt(t.children[p[0]], p[1..])
  }

  /** A simple walk from `x`, clear of `above`. */
  ghost predicate ClearWalk(g: Graph, x: string, above: set<string>, p: seq<string>)
  {
    && IsWalk(OutOf(g), [x] + p) && NoRepeats([x] + p)
    && forall i | 0 <= i < |p| :: p[i] !in above
  }

  /** A clear walk is a first step and a clear walk from there. */
  lemma ClearWalkCons(g: Graph, x: string, above: set<string>, p: seq<string>)
    requires p != [] && x !in above
    ensures ClearWalk(g, x, above, p) <==>
            p[0] in Out(g, x) && p[0] !in above + {x} && ClearWalk(g, p[0], above + {x}, p[1..])
  {
    var w, w' := [x] + p, [p[0]] + p[1..];
    assert w' == p && w[1..] == p;
    if ClearWalk(g, x, above, p) {
      assert StepAt(OutOf(g), w, 0);
      SubWalk(OutOf(g), w, 1, |w|);
      assert w[1..|w|] == p;
      assert forall i | 0 <= i < |p| :: w[i + 1] == p[i];
      assert forall i | 0 <= i < |p[1..]| :: p[1..][i] == p[i + 1];
    }
    if p[0] in Out(g, x) && p[0] !in above + {x} && ClearWalk(g, p[0], above + {x}, p[1..]) {
      assert IsWalk(OutOf(g), [x]);
      JoinWalks(OutOf(g), [x], p);
      forall i | 0 <= i < |p| ensures p[i] !in above + {x} {
        assert i > 0 ==> p[1..][i - 1] == p[i];
      }
    }
  }

  /** The paths in the tree are exactly the simple walks of at most `depth` edges. */
  lemma {:induction false} PathsAreSimpleWalks(
    g: Graph, env: string, x: string, above: set<string>, depth: nat, p: seq<string>)
    requires x !in above
    ensures PathIn(Below(g, env, x, above, depth), p) <==> |p| <= depth && ClearWalk(g, x, above, p)
    decreases |p|
  {
    if p == [] {
      assert [x] + p == [x];
      assert IsWalk(OutOf(g), [x]);
    } else {
      FirstStep(g, env, x, above, depth, p);
      ClearWalkCons(g, x, above, p);
      if depth > 0 && p[0] !in above + {x} {
        PathsAreSimpleWalks(g, env, p[0], above + {x}, depth - 1, p[1..]);
      }
    }
  }

  /** A path leads to the node its last key names. */
  lemma {:induction false} PathsLead(g: Graph, env: string, x: string, above: set<string>, depth: nat, p: seq<string>)
    requires PathIn(Below(g, env, x, above, depth), p)
    ensures var t := NodeAt(Below(g, env, x, above, depth), p);
            var last := ([x] + p)[|p|];
            t.name == Unprefixed(env, last) && t.nodeType == TypeOf(g, last)
    decreases |p|
  {
    if p != [] {
      FirstStep(g, env, x, above, depth, p);
      PathsLead(g, env, p[0], above + {x}, depth - 1, p[1..]);
      assert ([x] + p)[|p|] == ([p[0]] + p[1..])[|p| - 1];
    }
  }

  /** A path in the tree is a first step and a path in the tree below it. */
  lemma FirstStep(g: Graph, env: string, x: string, above: set<string>, depth: nat, p: seq<string>)
    requires p != []
    ensures PathIn(Below(g, env, x, above, depth), p) <==>
            && depth > 0 && p[0] in Out(g, x) && p[0] !in above + {x}
            && PathIn(Below(g, env, p[0], above + {x}, depth - 1), p[1..])
    ensures PathIn(Below(g, env, x, above, depth), p) ==>
            NodeAt(Below(g, env, x, above, depth), p) == NodeAt(Below(g, env, p[0], above + {x}, depth - 1), p[1..])
  {
    var t := Below(g, env, x, above, depth);
    assert t.children == Children(g, env, Out(g, x), above + {x}, depth);
    assert p[0] in t.children ==> t.children[p[0]] == Below(g, env, p[0], above + {x}, depth - 1);
  }

  /** `expand` returns the tree of all simple paths of at most `depth` edges through clusters and
      environments, each ending in the node it names. */
  lemma ExpandIsAllSimplePaths(g: Graph, env: string, x: string, depth: nat, p: seq<string>)
    ensures PathIn(Below(g, env, x, {}, depth), p) <==> |p| <= depth && IsPathDown(g, [x] + p) && NoRepeats([x] + p)
    ensures PathIn(Below(g, env, x, {}, depth), p) ==>
        var t := NodeAt(Below(g, env, x, {}, depth), p);
        var last := ([x] + p)[|p|];
        ShownAs(env, last, t.name) && t.nodeType == if last in g then g[last].nodeType else UNKNOWN
  {
    WalksGoDown(g, [x] + p);
    PathsAreSimpleWalks(g, env, x, {}, depth, p);
    if PathIn(Below(g, env, x, {}, depth), p) {
      PathsLead(g, env, x, {}, depth, p);
      UnprefixedShows(env, ([x] + p)[|p|], NodeAt(Below(g, env, x, {}, depth), p).name);
    }
  }

  // ----- hosts -----

  /** The names `ExpandHostsVisitor` collects from a tree. */
  ghost function HostsOf(t: Tree): set<string>
    decreases t
  {
    if t.nodeType.HOST? then {t.name}
    else set c, h | c in t.children && h in HostsOf(t.children[c]) :: h
  }

  ghost predicate HostAt(t: Tree, p: seq<string>, h: string)
  {
    PathIn(t, p) && NodeAt(t, p).nodeType.HOST? && NodeAt(t, p).name == h
  }

  lemma {:induction false} HostsHavePaths(t: Tree, h: string) returns (p: seq<string>)
    requires h in HostsOf(t)
    ensures HostAt(t, p, h)
    decreases t
  {
    if t.nodeType.HOST? {
      p := [];
    } else {
      var c :| c in t.children && h in HostsOf(t.children[c]);
      var q := HostsHavePaths(t.children[c], h);
      p := [c] + q;
      assert p[1..] == q;
    }
  }

  /** In an expanded tree a host has no children, so every host on a path is collected. */
  lemma {:induction false} PathsHaveHosts(
    g: Graph, env: string, x: string, above: set<string>, depth: nat, p: seq<string>, h: string)
    requires HostAt(Below(g, env, x, above, depth), p, h)
    ensures h in HostsOf(Below(g, env, x, above, depth))
    decreases |p|
  {
    if p != [] {
      var t := Below(g, env, x, above, depth);
      FirstStep(g, env, x, above, depth, p);
      assert t.children[p[0]] == Below(g, env, p[0], above + {x}, depth - 1);
      PathsHaveHosts(g, env, p[0], above + {x}, depth - 1, p[1..], h);
    }
  }

  /** A path down from `x` ends in a host shown as `h`. */
  ghost predicate ReachesHost(g: Graph, env: string, x: string, h: string)
  {
    exists p :: IsPathDown(g, p) && p[0] == x && IsHost(g, env, p[|p| - 1], h)
  }

  ghost predicate IsHost(g: Graph, env: string, y: string, h: string)
  {
    y in g && g[y].nodeType == HOST && ShownAs(env, y, h)
  }

  lemma WalkInUniverse(g: Graph, p: seq<string>)
    requires IsWalk(OutOf(g), p) && p[0] in g
    ensures forall i | 0 <= i < |p| :: p[i] in Universe(g)
  {
    forall i | 0 <= i < |p| ensures p[i] in Universe(g) {
      if i > 0 {
        assert StepAt(OutOf(g), p, i - 1);
      }
    }
  }

  lemma HostsReached(g: Graph, env: string, x: string, depth: nat, h: string)
    requires h in HostsOf(Below(g, env, x, {}, depth))
    ensures ReachesHost(g, env, x, h)
  {
    var p := HostsHavePaths(Below(g, env, x, {}, depth), h);
    ExpandIsAllSimplePaths(g, env, x, depth, p);
    assert IsPathDown(g, [x] + p) && ([x] + p)[0] == x && IsHost(g, env, ([x] + p)[|[x] + p| - 1], h);
  }

  /** Whatever is reachable is reachable by a simple walk, and a simple walk fits the depth. */
  lemma ShortWalk(g: Graph, x: string, y: string, depth: nat) returns (p: seq<string>)
    requires x in g && |Universe(g)| <= depth + 1
    requires exists w :: IsPathDown(g, w) && w[0] == x && w[|w| - 1] == y
    ensures |p| <= depth && IsPathDown(g, [x] + p) && NoRepeats([x] + p) && ([x] + p)[|p|] == y
  {
    var w :| IsPathDown(g, w) && w[0] == x && w[|w| - 1] == y;
    WalksGoDown(g, w);
    var q := SimpleWalkExists(OutOf(g), w);
    WalksGoDown(g, q);
    WalkInUniverse(g, q);
    SimpleBounded(q, Universe(g));
    p := q[1..];
    assert [x] + p == q;
  }

  lemma ShownOnce(env: string, y: string, a: string, b: string)
    requires ShownAs(env, y, a) && ShownAs(env, y, b)
    ensures a == b
  {
    UnprefixedShows(env, y, a);
    UnprefixedShows(env, y, b);
  }

  /** The hosts of the expanded tree are exactly the reachable hosts. */
  lemma {:induction false} HostsAreReachable(g: Graph, env: string, x: string, depth: nat, h: string)
    requires x in g && |Universe(g)| <= depth + 1
    ensures h in HostsOf(Below(g, env, x, {}, depth)) <==> ReachesHost(g, env, x, h)
  {
    if h in HostsOf(Below(g, env, x, {}, depth)) {
      HostsReached(g, env, x, depth, h);
    }
    if ReachesHost(g, env, x, h) {
      var w :| IsPathDown(g, w) && w[0] == x && IsHost(g, env, w[|w| - 1], h);
      var p := ShortWalk(g, x, w[|w| - 1], depth);
      ExpandIsAllSimplePaths(g, env, x, depth, p);
      ShownOnce(env, w[|w| - 1], NodeAt(Below(g, env, x, {}, depth), p).name, h);
      PathsHaveHosts(g, env, x, {}, depth, p, h);
    }
  }

  // ----- how often a host is collected -----

  /** The paths from the root of the tree to a host of this name. */
  ghost function HostPaths(t: Tree, h: string): set<seq<string>>
    decreases t
  {
    if t.nodeType.HOST? then if t.name == h then {[]} else {}
    else PathsThrough(t, t.children.Keys, h)
  }

  /** Those that start with one of the given children. */
  ghost function PathsThrough(t: Tree, cs: set<string>, h: string): set<seq<string>>
    decreases t, 0
  {
    set c, p | c in cs && c in t.children && p in HostPaths(t.children[c], h) :: [c] + p
  }

  ghost function Prefixes(c: string, ps: set<seq<string>>): set<seq<string>>
  {
    set p | p in ps :: [c] + p
  }

  lemma {:induction false} PrefixesSize(c: string, ps: set<seq<string>>)
    ensures |Prefixes(c, ps)| == |ps|
    decreases |ps|
  {
    if ps != {} {
      var p :| p in ps;
      PrefixesSize(c, ps - {p});
      assert ([c] + p)[1..] == p;
      assert Prefixes(c, ps) == Prefixes(c, ps - {p}) + {[c] + p};
      forall q | q in ps - {p} ensures [c] + q != [c] + p {
        assert ([c] + q)[1..] == q;
      }
    }
  }

  /** One child more. */
  lemma OneMoreChild(t: Tree, cs: set<string>, c: string, h: string)
    requires c in t.children && c !in cs
    ensures |PathsThrough(t, cs + {c}, h)| == |PathsThrough(t, cs, h)| + |HostPaths(t.children[c], h)|
  {
    var before, new_ := PathsThrough(t, cs, h), Prefixes(c, HostPaths(t.children[c], h));
    PrefixesSize(c, HostPaths(t.children[c], h));
    assert PathsThrough(t, cs + {c}, h) == before + new_;
    assert before !! new_ by {
      assert forall p | p in before :: p[0] in cs;
    }
  }

  /** In an expanded tree these are all the paths to such hosts, hosts having no children there. */
  lemma {:induction false} HostPathsAre(
    g: Graph, env: string, x: string, above: set<string>, depth: nat, p: seq<string>, h: string)
    ensures p in HostPaths(Below(g, env, x, above, depth), h) <==> HostAt(Below(g, env, x, above, depth), p, h)
    decreases |p|
  {
    var t := Below(g, env, x, above, depth);
    if p != [] {
      FirstStep(g, env, x, above, depth, p);
      assert p == [p[0]] + p[1..];
      if p[0] in t.children {
        assert t.children == Children(g, env, Out(g, x), above + {x}, depth);
        HostPathsAre(g, env, p[0], above + {x}, depth - 1, p[1..], h);
      }
      StartsWith(t, p, h);
    }
  }

  lemma StartsWith(t: Tree, p: seq<string>, h: string)
    requires p != []
    ensures p in HostPaths(t, h) <==>
        !t.nodeType.HOST? && p[0] in t.children && p[1..] in HostPaths(t.children[p[0]], h)
  {
    assert p == [p[0]] + p[1..];
    if p in HostPaths(t, h) && !t.nodeType.HOST? {
      assert p in PathsThrough(t, t.children.Keys, h);
      var c, q :| c in t.children.Keys && c in t.children && q in HostPaths(t.children[c], h) && p == [c] + q;
      assert p[1..] == q;
    }
  }

  /** A path down without repeats from `x` to a host shown as `h`. */
  ghost predicate SimplePathTo(g: Graph, env: string, x: string, h: string, p: seq<string>)
  {
    IsPathDown(g, p) && p[0] == x && NoRepeats(p) && IsHost(g, env, p[|p| - 1], h)
  }

  /** There are `k` such paths. */
  ghost predicate PathsToHost(g: Graph, env: string, x: string, h: string, k: nat)
  {
    exists ps: set<seq<string>> :: |ps| == k && forall p :: p in ps <==> SimplePathTo(g, env, x, h, p)
  }

  lemma HostPathIsSimple(g: Graph, env: string, x: string, depth: nat, p: seq<string>, h: string)
    requires x in g && |Universe(g)| <= depth + 1
    ensures p in HostPaths(Below(g, env, x, {}, depth), h) <==> SimplePathTo(g, env, x, h, [x] + p)
  {
    HostPathsAre(g, env, x, {}, depth, p, h);
    ExpandIsAllSimplePaths(g, env, x, depth, p);
    if SimplePathTo(g, env, x, h, [x] + p) {
      WalksGoDown(g, [x] + p);
      WalkInUniverse(g, [x] + p);
      SimpleBounded([x] + p, Universe(g));
    }
    if PathIn(Below(g, env, x, {}, depth), p) && ShownAs(env, ([x] + p)[|p|], h) {
      ShownOnce(env, ([x] + p)[|p|], NodeAt(Below(g, env, x, {}, depth), p).name, h);
    }
  }

  /** A host is collected once for every simple path down to it. */
  lemma HostsCounted(g: Graph, env: string, x: string, depth: nat, h: string)
    requires x in g && |Universe(g)| <= depth + 1
    ensures PathsToHost(g, env, x, h, |HostPaths(Below(g, env, x, {}, depth), h)|)
  {
    var found := HostPaths(Below(g, env, x, {}, depth), h);
    var ps := Prefixes(x, found);
    PrefixesSize(x, found);
    forall p ensures p in ps <==> SimplePathTo(g, env, x, h, p) {
      if p in ps {
        var q :| q in found && p == [x] + q;
        HostPathIsSimple(g, env, x, depth, q, h);
      }
      if SimplePathTo(g, env, x, h, p) {
        assert p == [x] + p[1..];
        HostPathIsSimple(g, env, x, depth, p[1..], h);
      }
    }
  }

  class HostsVisitor {
    var hosts: seq<string>

    constructor ()
      ensures hosts == []
    {
      hosts := [];
    }

    /** Visit a tree; a map's children come in no particular order. */
    method Visit(t: Tree)
      modifies this
      ensures old(hosts) <= hosts
      ensures forall h :: h in hosts <==> h in old(hosts) || h in HostsOf(t)
      ensures forall h :: multiset(hosts)[h] == multiset(old(hosts))[h] + |HostPaths(t, h)|
      decreases t
    {
      if t.nodeType.HOST? {
        hosts := hosts + [t.name];
      } else {
        var left := t.children.Keys;
        assert forall h :: PathsThrough(t, t.children.Keys - left, h) == {};
        while left != {}
          invariant left <= t.children.Keys && old(hosts) <= hosts
          invariant forall h :: h in hosts <==>
              h in old(hosts) || exists c :: c in t.children && c !in left && h in HostsOf(t.children[c])
          invariant forall h ::
              multiset(hosts)[h] == multiset(old(hosts))[h] + |PathsThrough(t, t.children.Keys - left, h)|
          decreases left
        {
          var c :| c in left;
          Visit(t.children[c]);
          forall h {
            OneMoreChild(t, t.children.Keys - left, c, h);
          }
          assert t.children.Keys - left + {c} == t.children.Keys - (left - {c});
          left := left - {c};
        }
        assert t.children.Keys - left == t.children.Keys;
        assert forall h :: HostPaths(t, h) == PathsThrough(t, t.children.Keys, h);
      }
    }
  }

  /** `h` is a host under the node that `elem` asks for. */
  ghost predicate Covers(g: Graph, env: string, elem: string, h: string)
  {
    exists x :: AsksFor(g, env, elem, x) && ReachesHost(g, env, x, h)
  }

  lemma CoversOne(g: Graph, env: string, elem: string, x: string, h: string)
    requires GetNode(g, env, elem) == Some(x)
    ensures Covers(g, env, elem, h) <==> ReachesHost(g, env, x, h)
  {
    GetNodeExactly(g, env, elem, x);
    forall y | AsksFor(g, env, elem, y) ensures y == x {
      GetNodeExactly(g, env, elem, y);
    }
  }

  /** One of the first `upto` elements covers the host. */
  ghost predicate AnyCovers(g: Graph, env: string, elems: seq<string>, upto: nat, h: string)
    requires upto <= |elems|
  {
    exists i :: 0 <= i < upto && Covers(g, env, elems[i], h)
  }

  /** The depth limit when none is given. */
  const MAX_DEPTH: nat := 0xFFFF_FFFF_FFFF_FFFF

  /** The hosts of one element: each once for every simple path down to it; none, if the name asks for
      no node. */
  ghost predicate HostsOfElement(g: Graph, env: string, elem: string, hosts: seq<string>)
  {
    && (forall x, h | AsksFor(g, env, elem, x) :: PathsToHost(g, env, x, h, multiset(hosts)[h]))
    && ((forall x :: !AsksFor(g, env, elem, x)) ==> hosts == [])
  }

  lemma OneElement(g: Graph, env: string, elem: string, x: string, t: Tree, hosts: seq<string>)
    requires |Universe(g)| <= MAX_DEPTH + 1 && GetNode(g, env, elem) == Some(x)
    requires t == Below(g, env, x, {}, MAX_DEPTH) && forall h :: multiset(hosts)[h] == |HostPaths(t, h)|
    ensures HostsOfElement(g, env, elem, hosts)
  {
    GetNodeExactly(g, env, elem, x);
    forall y, h | AsksFor(g, env, elem, y) ensures PathsToHost(g, env, y, h, multiset(hosts)[h]) {
      GetNodeExactly(g, env, elem, y);
      HostsCounted(g, env, x, MAX_DEPTH, h);
    }
  }

  /** One argument of `expand_hosts`; a name that resolves to nothing is skipped. */
  method HostsFor(g: Graph, env: string, elem: string) returns (hosts: seq<string>)
    requires |Universe(g)| <= MAX_DEPTH + 1
    ensures forall h :: h in hosts <==> Covers(g, env, elem, h)
    ensures HostsOfElement(g, env, elem, hosts)
  {
    hosts := [];
    var node := GetNode(g, env, elem);
    if node.Some? {
      var top := ExpandNode(g, env, node.value, MAX_DEPTH);
      var visitor := new HostsVisitor();
      visitor.Visit(top);
      hosts := visitor.hosts;
      forall h ensures h in hosts <==> Covers(g, env, elem, h) {
        HostsAreReachable(g, env, node.value, MAX_DEPTH, h);
        CoversOne(g, env, elem, node.value, h);
      }
      OneElement(g, env, elem, node.value, top, hosts);
    } else {
      forall x ensures !AsksFor(g, env, elem, x) {
        GetNodeExactly(g, env, elem, x);
      }
    }
  }

  /** The hosts of the first elements, one list after the other. */
  ghost predicate Collected(
    g: Graph, env: string, elems: seq<string>, ret: seq<string>, parts: seq<seq<string>>)
  {
    && |parts| <= |elems| && ret == Concat(parts)
    && (forall h :: h in ret <==> AnyCovers(g, env, elems, |parts|, h))
    && forall i | 0 <= i < |parts| :: HostsOfElement(g, env, elems[i], parts[i])
  }

  lemma CollectedMore(
    g: Graph, env: string, elems: seq<string>, ret: seq<string>, parts: seq<seq<string>>, hosts: seq<string>)
    requires Collected(g, env, elems, ret, parts) && |parts| < |elems|
    requires forall h :: h in hosts <==> Covers(g, env, elems[|parts|], h)
    requires HostsOfElement(g, env, elems[|parts|], hosts)
    ensures Collected(g, env, elems, ret + hosts, parts + [hosts])
  {
    assert (parts + [hosts])[..|parts|] == parts;
    forall h ensures h in ret + hosts <==> AnyCovers(g, env, elems, |parts| + 1, h) {
      OneMoreCovers(g, env, elems, |parts|, h);
    }
  }

  lemma OneMoreCovers(g: Graph, env: string, elems: seq<string>, n: nat, h: string)
    requires n < |elems|
    ensures AnyCovers(g, env, elems, n + 1, h) <==> AnyCovers(g, env, elems, n, h) || Covers(g, env, elems[n], h)
  {
  }

  /** `expand_hosts` returns exactly the hosts reachable from its argument's elements through clusters and
      environments, element by element, each host once for every simple path down to it, on any graph
      whose names fit the depth limit. */
  method ExpandHostsFn(g: Graph, env: string, args: seq<seq<string>>)
    returns (ret: seq<string>, ghost parts: seq<seq<string>>)
    requires |Universe(g)| <= MAX_DEPTH + 1
    ensures |args| != 1 ==> ret == []
    ensures |args| == 1 ==> forall h :: h in ret <==> AnyCovers(g, env, args[0], |args[0]|, h)
    ensures |args| == 1 ==>
        && |parts| == |args[0]| && ret == Concat(parts)
        && forall i | 0 <= i < |parts| :: HostsOfElement(g, env, args[0][i], parts[i])
  {
    ret, parts := [], [];
    if |args| != 1 {
      return;
    }
    for i := 0 to |args[0]|
      invariant |parts| == i && Collected(g, env, args[0], ret, parts)
    {
      var hosts := HostsFor(g, env, args[0][i]);
      CollectedMore(g, env, args[0], ret, parts, hosts);
      ret, parts := ret + hosts, parts + [hosts];
    }
  }
}
