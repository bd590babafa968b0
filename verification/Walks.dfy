/** Walks along a successor function, and why a walk can be made simple. */
module Walks {
  import opened Basics

  type Successors = string -> seq<string>

  ghost predicate StepAt(succ: Successors, p: seq<string>, i: nat)
    requires i + 1 < |p|
  {
    p[i + 1] in succ(p[i])
  }

  ghost predicate IsWalk(succ: Successors, p: seq<string>)
  {
    |p| > 0 && forall i: nat | i + 1 < |p| :: StepAt(succ, p, i)
  }

  ghost predicate WalkFromTo(succ: Successors, p: seq<string>, a: string, b: string)
  {
    IsWalk(succ, p) && p[0] == a && p[|p| - 1] == b
  }

  ghost predicate Reaches(succ: Successors, a: string, b: string)
  {
    exists p :: WalkFromTo(succ, p, a, b)
  }

  lemma ReachesSelf(succ: Successors, a: string)
    ensures Reaches(succ, a, a)
  {
    assert WalkFromTo(succ, [a], a, a);
  }

  lemma WalkExtend(succ: Successors, p: seq<string>, a: string, b: string, c: string)
    requires WalkFromTo(succ, p, a, b) && c in succ(b)
    ensures WalkFromTo(succ, p + [c], a, c)
  {
    var q := p + [c];
    forall i: nat | i + 1 < |q| ensures StepAt(succ, q, i) {
      assert i + 1 < |p| ==> StepAt(succ, p, i);
    }
  }

  lemma ReachesStep(succ: Successors, a: string, b: string, c: string)
    requires Reaches(succ, a, b) && c in succ(b)
    ensures Reaches(succ, a, c)
  {
    var p :| WalkFromTo(succ, p, a, b);
    WalkExtend(succ, p, a, b, c);
  }

  /** A part of a walk is a walk. */
  lemma SubWalk(succ: Successors, p: seq<string>, i: nat, j: nat)
    requires IsWalk(succ, p) && i < j <= |p|
    ensures IsWalk(succ, p[i..j])
  {
    var q := p[i..j];
    forall k: nat | k + 1 < |q| ensures StepAt(succ, q, k) {
      assert StepAt(succ, p, i + k);
    }
  }

  lemma JoinWalks(succ: Successors, p: seq<string>, q: seq<string>)
    requires IsWalk(succ, p) && IsWalk(succ, q) && q[0] in succ(p[|p| - 1])
    ensures IsWalk(succ, p + q)
  {
    var r := p + q;
    forall k: nat | k + 1 < |r| ensures StepAt(succ, r, k) {
      if k + 1 < |p| {
        assert StepAt(succ, p, k);
      } else if k >= |p| {
        assert StepAt(succ, q, k - |p|);
      }
    }
  }

  /** A set closed under successors contains everything reachable from its members. */
  lemma {:induction false} ClosedReach(succ: Successors, s: set<string>, p: seq<string>)
    requires forall x, y | x in s && y in succ(x) :: y in s
    requires IsWalk(succ, p) && p[0] in s
    ensures p[|p| - 1] in s
  {
    if |p| > 1 {
      SubWalk(succ, p, 0, |p| - 1);
      ClosedReach(succ, s, p[0..|p| - 1]);
      assert StepAt(succ, p, |p| - 2);
    }
  }

  lemma ClosedContains(succ: Successors, s: set<string>, a: string, b: string)
    requires forall x, y | x in s && y in succ(x) :: y in s
    requires a in s && Reaches(succ, a, b)
    ensures b in s
  {
    var p :| WalkFromTo(succ, p, a, b);
    ClosedReach(succ, s, p);
  }

  /** Cutting a loop out of a walk leaves a shorter walk between the same ends. */
  lemma CutLoop(succ: Successors, p: seq<string>, i: nat, j: nat)
    requires IsWalk(succ, p) && i < j < |p| && p[i] == p[j]
    ensures WalkFromTo(succ, p[..i] + p[j..], p[0], p[|p| - 1])
  {
    SubWalk(succ, p, j, |p|);
    assert p[j..|p|] == p[j..];
    if i > 0 {
      SubWalk(succ, p, 0, i);
      assert p[0..i] == p[..i];
      assert StepAt(succ, p, i - 1);
      JoinWalks(succ, p[..i], p[j..]);
    } else {
      assert p[..i] + p[j..] == p[j..];
    }
  }

  /** Whatever is reachable is reachable by a simple walk. */
  lemma {:induction false} SimpleWalkExists(succ: Successors, p: seq<string>) returns (q: seq<string>)
    requires IsWalk(succ, p)
    ensures WalkFromTo(succ, q, p[0], p[|p| - 1]) && NoRepeats(q)
    decreases |p|
  {
    if NoRepeats(p) {
      q := p;
    } else {
      var i, j :| 0 <= i < j < |p| && p[i] == p[j];
      CutLoop(succ, p, i, j);
      q := SimpleWalkExists(succ, p[..i] + p[j..]);
    }
  }

  /** A simple walk is no longer than the set its nodes come from. */
  lemma {:induction false} SimpleBounded(p: seq<string>, universe: set<string>)
    requires NoRepeats(p) && forall i | 0 <= i < |p| :: p[i] in universe
    ensures |p| <= |universe|
  {
    if p != [] {
      var n := |p| - 1;
      SimpleBounded(p[..n], universe - {p[n]});
    }
  }
}
