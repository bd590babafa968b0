/** Leader failover: the proposers are the visible forward edges of a cluster node, in order, and a
    proposer that misses its predecessor's heartbeat rotates the predecessor to the tail. */
module Heartbeat {
  import opened Basics
  import opened NodeRecord
  import opened NodeHistory
  import opened NodeRefinement
  import opened ProtobufNode

  // ----- the visible edges as an ordered list -----

  lemma {:induction false} VisibleNoRepeats(edges: seq<Versioned>, v: nat)
    requires DistinctIds(edges)
    ensures NoRepeats(Visible(edges, v))
  {
    if edges != [] {
      var n := |edges| - 1;
      VisibleNoRepeats(edges[..n], v);
      VisibleLacks(edges[..n], edges[n].id, v);
    }
  }

  lemma AddedEdges(info: NodeInfo, dir: Direction, other: string)
    requires !LookupEdge(info.Edges(dir), other, info.listVersion, 0).Present?
    ensures var info' := Apply(info, AddEdge(dir, other)).0;
            var top := info.listVersion;
            && info'.listVersion == top + 1
            && info'.Edges(dir)
                == CarryEdges(Appended(info.Edges(dir), other, LookupEdge(info.Edges(dir), other, top, 0), top + 1),
                    top, top + 1)
  {
  }

  lemma AddedReads(edges: seq<Versioned>, edges': seq<Versioned>, top: nat, other: string)
    requires EdgesOk(edges, top) && other !in Visible(edges, top)
    requires edges' == CarryEdges(Appended(edges, other, LookupEdge(edges, other, top, 0), top + 1), top, top + 1)
    ensures Visible(edges', top + 1) == Visible(edges, top) + [other]
    ensures forall v: nat | v <= top :: Visible(edges', v) == MovedLast(Visible(edges, v), other)
  {
    AddEdgeReads(edges, top, other);
  }

  /** Adding an edge appends to the current order, even when the edge was there before. */
  lemma AddAppends(info: NodeInfo, dir: Direction, other: string)
    requires InfoOk(info) && other !in Visible(info.Edges(dir), info.listVersion)
    ensures var info' := Apply(info, AddEdge(dir, other)).0;
            && info'.listVersion == info.listVersion + 1
            && Visible(info'.Edges(dir), info'.listVersion) == Visible(info.Edges(dir), info.listVersion) + [other]
            && forall v: nat | v <= info.listVersion ::
                 Visible(info'.Edges(dir), v) == MovedLast(Visible(info.Edges(dir), v), other)
  {
    var edges, top := info.Edges(dir), info.listVersion;
    assert !LookupEdge(edges, other, top, 0).Present? by {
      PresentIsVisible(edges, top, other);
    }
    AddedEdges(info, dir, other);
    AddedReads(edges, Apply(info, AddEdge(dir, other)).0.Edges(dir), top, other);
  }

  /** Removing an edge deletes it in place, and old orders stay. */
  lemma RemoveDeletes(info: NodeInfo, dir: Direction, other: string)
    requires InfoOk(info) && other in Visible(info.Edges(dir), info.listVersion)
    ensures var info' := Apply(info, RemoveEdge(dir, other)).0;
            && info'.listVersion == info.listVersion + 1
            && Visible(info'.Edges(dir), info'.listVersion)
                == Without(Visible(info.Edges(dir), info.listVersion), other)
            && forall v: nat | v <= info.listVersion :: Visible(info'.Edges(dir), v) == Visible(info.Edges(dir), v)
  {
    var top := info.listVersion;
    var i := IndexOf(info.Edges(dir), other, 0);
    RemoveEdgeFinds(info.Edges(dir), top, other);
    ScanFinds(info.Edges(dir)[i].versions, top);
    RemoveEdgeReads(info.Edges(dir), top, i);
    assert Apply(info, RemoveEdge(dir, other)).0.Edges(dir) == Removed(info.Edges(dir), top, i);
  }

  /** The order read at an old version survives adding `other` exactly when `other` was not there or was
      already last. */
  lemma OldOrderKept(info: NodeInfo, dir: Direction, other: string, v: nat)
    requires InfoOk(info) && other !in Visible(info.Edges(dir), info.listVersion) && v <= info.listVersion
    ensures var was := Visible(info.Edges(dir), v);
            Visible(Apply(info, AddEdge(dir, other)).0.Edges(dir), v) == was <==>
            (other !in was || was[|was| - 1] == other)
  {
    var was, now := Visible(info.Edges(dir), v), Visible(Apply(info, AddEdge(dir, other)).0.Edges(dir), v);
    assert now == MovedLast(was, other) by {
      AddAppends(info, dir, other);
    }
    assert NoRepeats(was) by {
      VisibleNoRepeats(info.Edges(dir), v);
    }
    MovedKeeps(was, now, other);
  }

  lemma MovedKeeps(s: seq<string>, s': seq<string>, x: string)
    requires NoRepeats(s) && s' == MovedLast(s, x)
    ensures s' == s <==> x !in s || s[|s| - 1] == x
  {
    if x in s && s[|s| - 1] == x {
      var n := |s| - 1;
      assert x !in s[..n];
      WithoutAbsent(s[..n], x);
      assert s == s[..n] + [x];
    }
  }

  /** Re-adding a removed edge does change an old order: where version v read a, b it now reads b, a. */
  lemma OldOrderLost(info: NodeInfo, dir: Direction, a: string, b: string)
    requires InfoOk(info) && Visible(info.Edges(dir), info.listVersion) == [a, b] && a != b
    ensures var info' := Apply(Apply(info, RemoveEdge(dir, a)).0, AddEdge(dir, a)).0;
            Visible(info'.Edges(dir), info.listVersion) == [b, a]
  {
    var mid := Apply(info, RemoveEdge(dir, a)).0;
    assert a in [a, b] by { assert [a, b][0] == a; }
    SwapPair(a, b);
    RemoveDeletes(info, dir, a);
    StaysOk(info, RemoveEdge(dir, a));
    AddAppends(mid, dir, a);
  }

  lemma SwapPair(a: string, b: string)
    requires a != b
    ensures Without([a, b], a) == [b] && MovedLast([a, b], a) == [b, a]
  {
    assert [a, b][..1] == [a] && [a][..0] == [] && [a, b][0] == a;
    WithoutOne([a], a);
    assert Without([a, b], a) == Without([a], a) + [b];
  }

  lemma StaysOk(info: NodeInfo, op: Op)
    requires InfoOk(info)
    ensures InfoOk(Apply(info, op).0)
  {
    StepRefines(info, op);
    var now := SnapAt(info, info.listVersion);
    if Enabled(now, op) {
      AdvancesMeans(info, Apply(info, op).0, Effect(now, op));
    }
  }

  lemma AddsOne(info: NodeInfo, x: string, order: seq<string>)
    requires InfoOk(info) && Visible(info.forward, info.listVersion) == order && x !in order
    ensures var info' := Apply(info, AddEdge(Forward, x)).0;
            InfoOk(info') && Visible(info'.forward, info'.listVersion) == order + [x]
  {
    StaysOk(info, AddEdge(Forward, x));
    AddAppends(info, Forward, x);
  }

  lemma RunOfTwo(p: Op, q: Op)
    ensures Run([p, q]) == Apply(Apply(NEW_NODE, p).0, q).0
  {
    assert [p][..0] == [];
    assert Run([p]) == Apply(NEW_NODE, p).0;
    assert [p, q][..1] == [p];
  }

  /** There is such a node: a new one after adding a and b. */
  lemma TwoEdges(a: string, b: string)
    requires a != b
    ensures var info := Run([AddEdge(Forward, a), AddEdge(Forward, b)]);
            InfoOk(info) && Visible(info.forward, info.listVersion) == [a, b]
  {
    var one := Apply(NEW_NODE, AddEdge(Forward, a)).0;
    RunOfTwo(AddEdge(Forward, a), AddEdge(Forward, b));
    AddsOne(NEW_NODE, a, []);
    AddsOne(one, b, [a]);
    assert [] + [a] == [a] && [a] + [b] == [a, b];
  }

  // ----- rotation -----

  /** The list with its entry at `i` moved to the tail. */
  ghost function Rotated(s: seq<string>, i: nat): seq<string>
    requires i < |s|
  {
    s[..i] + s[i + 1..] + [s[i]]
  }

  lemma {:induction false} WithoutSplits(s: seq<string>, i: nat)
    requires NoRepeats(s) && i < |s|
    ensures Without(s, s[i]) == s[..i] + s[i + 1..]
  {
    assert s == s[..i] + [s[i]] + s[i + 1..];
    DropMiddle(s[..i], [s[i]], s[i + 1..], s[i]);
  }

  /** Proposers of the cell, in order of precedence. */
  ghost function Proposers(info: NodeInfo): seq<string>
  {
    Visible(info.forward, info.listVersion)
  }

  /** The record after a remove write and an add write of one proposer. */
  ghost function Reordered(info: NodeInfo, proposer: string): NodeInfo
  {
    Apply(Apply(info, RemoveEdge(Forward, proposer)).0, AddEdge(Forward, proposer)).0
  }

  /** Removing a proposer and adding it again rotates it to the tail. */
  lemma ReorderRotates(info: NodeInfo, i: nat)
    requires InfoOk(info) && i < |Proposers(info)|
    ensures var p := Proposers(info)[i];
            var info' := Reordered(info, p);
            InfoOk(info') && Proposers(info') == Rotated(Proposers(info), i)
  {
    var p := Proposers(info)[i];
    var mid := Apply(info, RemoveEdge(Forward, p)).0;
    VisibleNoRepeats(info.forward, info.listVersion);
    RemoveDeletes(info, Forward, p);
    WithoutSplits(Proposers(info), i);
    StaysOk(info, RemoveEdge(Forward, p));
    StaysOk(mid, AddEdge(Forward, p));
    AddAppends(mid, Forward, p);
  }

  /** What a rotation means: the same proposers, the moved one last, all others in their old relative
      order, those behind it one place up. */
  lemma RotationLaws(s: seq<string>, i: nat)
    requires NoRepeats(s) && i < |s|
    ensures var r := Rotated(s, i);
            && |r| == |s| && NoRepeats(r) && multiset(r) == multiset(s)
            && r[|r| - 1] == s[i]
            && (forall j | 0 <= j < i :: r[j] == s[j])
            && (forall j | i < j < |s| :: r[j - 1] == s[j])
  {
    var r := Rotated(s, i);
    assert forall j | 0 <= j < i :: r[j] == s[j];
    assert forall j | i < j < |s| :: r[j - 1] == s[j];
    RotatedSame(s, i);
    forall j, k | 0 <= j < k < |r| ensures r[j] != r[k] {
      assert r[j] == s[if j < i then j else j + 1];
      assert k < |r| - 1 ==> r[k] == s[if k < i then k else k + 1];
    }
  }

  lemma RotatedSame(s: seq<string>, i: nat)
    requires i < |s|
    ensures multiset(Rotated(s, i)) == multiset(s)
  {
    var a, b := s[..i], s[i + 1..];
    assert s == a + [s[i]] + b;
    assert multiset(s) == multiset(a) + multiset([s[i]]) + multiset(b);
  }

  /** The proposer that handles requests: the first, or the second for failover requests. */
  function DistinguishedProposer(proposers: seq<string>, secondary: bool): string
  {
    if proposers == [] then ""
    else if secondary && |proposers| > 1 then proposers[1]
    else proposers[0]
  }

  ghost function Backwards(s: seq<string>): (r: seq<string>)
    ensures |r| == |s| && forall i | 0 <= i < |s| :: r[i] == s[|s| - 1 - i]
  {
    if s == [] then [] else Backwards(s[1..]) + [s[0]]
  }

  /** Who carries out the two writes of a reordering, the removal on the old list `s` and the addition on
      the list `t` without the failed predecessor: if the acting proposer is second, it itself and then
      the third, if there is one; otherwise the first. The failed one is never asked. */
  lemma WhoReorders(s: seq<string>, t: seq<string>, i: nat)
    requires NoRepeats(s) && 0 < i < |s| && t == s[..i - 1] + s[i..]
    ensures DistinguishedProposer(s, i == 1) == (if i == 1 then s[1] else s[0]) != s[i - 1]
    ensures DistinguishedProposer(t, i == 1) == if i > 1 then s[0] else if |s| > 2 then s[2] else s[1]
    ensures DistinguishedProposer(t, i == 1) != s[i - 1]
  {
    assert i > 1 ==> t[0] == s[0];
    assert i == 1 ==> t == s[1..];
  }

  // ----- the heartbeat on the record -----

  /** The first place of `x`, or the length if it has none. */
  ghost function Place(s: seq<string>, x: string): (i: nat)
    ensures i <= |s| && (i < |s| ==> s[i] == x) && forall j | 0 <= j < i :: s[j] != x
  {
    if s == [] || s[0] == x then 0 else 1 + Place(s[1..], x)
  }

  lemma {:induction false} PlaceIs(s: seq<string>, x: string, i: nat)
    requires i <= |s| && (i < |s| ==> s[i] == x) && forall j | 0 <= j < i :: s[j] != x
    ensures Place(s, x) == i
  {
  }

  /** The record after one round of the heartbeat of `me`. */
  ghost function Beat(info: NodeInfo, me: string, answered: bool): NodeInfo
  {
    var s := Proposers(info);
    var i := Place(s, me);
    if 0 < i < |s| && !answered then Reordered(info, s[i - 1]) else info
  }

  /** The record after a run of rounds with the given answers. */
  ghost function Beats(info: NodeInfo, me: string, answers: seq<bool>): NodeInfo
  {
    if answers == [] then info
    else Beat(Beats(info, me, answers[..|answers| - 1]), me, answers[|answers| - 1])
  }

  ghost function Missed(answers: seq<bool>): nat
  {
    if answers == [] then 0
    else Missed(answers[..|answers| - 1]) + if answers[|answers| - 1] then 0 else 1
  }

  /** The order once the `f` nearest predecessors of the proposer at place `k` have gone to the tail. */
  ghost function Moved(s: seq<string>, k: nat, f: nat): seq<string>
    requires f <= k < |s|
  {
    s[..k - f] + s[k..] + Backwards(s[k - f..k])
  }

  lemma MovedOneMore(s: seq<string>, k: nat, f: nat)
    requires f < k < |s|
    ensures |Moved(s, k, f)| == |s| && Rotated(Moved(s, k, f), k - f - 1) == Moved(s, k, f + 1)
  {
    var from, rest := s[k - f - 1..k], s[k - f..k];
    assert from[1..] == rest && from[0] == s[k - f - 1];
    assert Backwards(from) == Backwards(rest) + [s[k - f - 1]];
    var r := Moved(s, k, f);
    assert r[..k - f - 1] == s[..k - f - 1] && r[k - f..] == s[k..] + Backwards(rest);
  }

  lemma MovedPlace(s: seq<string>, k: nat, f: nat)
    requires NoRepeats(s) && f <= k < |s|
    ensures |Moved(s, k, f)| == |s| && Place(Moved(s, k, f), s[k]) == k - f
  {
    var r := Moved(s, k, f);
    assert r[k - f] == s[k] && forall j | 0 <= j < k - f :: r[j] == s[j];
  }

  function Least(a: nat, b: nat): nat
  {
    if a < b then a else b
  }

  lemma MovedFirst(s: seq<string>, k: nat, f: nat)
    requires NoRepeats(s) && f <= k < |s|
    ensures |Moved(s, k, f)| > 0 && (Moved(s, k, f)[0] == s[k] <==> f == k)
  {
  }

  /** A round on a record whose order is `r`, seen from the proposer at place `i`. */
  lemma BeatGives(info: NodeInfo, me: string, answered: bool, r: seq<string>, r': seq<string>, i: nat)
    requires InfoOk(info) && Proposers(info) == r && i < |r| && Place(r, me) == i
    requires i > 0 ==> r' == Rotated(r, i - 1)
    ensures InfoOk(Beat(info, me, answered))
    ensures Proposers(Beat(info, me, answered)) == if answered || i == 0 then r else r'
  {
    if i > 0 {
      ReorderRotates(info, i - 1);
    }
  }

  lemma BeatMoves(info: NodeInfo, s: seq<string>, k: nat, f: nat, f': nat, me: string, answered: bool)
    requires InfoOk(info) && NoRepeats(s) && f <= k < |s| && s[k] == me && Proposers(info) == Moved(s, k, f)
    requires f' == if answered || f == k then f else f + 1
    ensures InfoOk(Beat(info, me, answered)) && Proposers(Beat(info, me, answered)) == Moved(s, k, f')
  {
    if f < k {
      MovedPlace(s, k, f);
      MovedOneMore(s, k, f);
      BeatGives(info, me, answered, Moved(s, k, f), Moved(s, k, f + 1), k - f);
    } else {
      MovedPlace(s, k, f);
      BeatGives(info, me, answered, Moved(s, k, f), [], 0);
    }
  }

  lemma MissedOneMore(answers: seq<bool>, k: nat)
    requires answers != []
    ensures var n := |answers| - 1; var f := Least(Missed(answers[..n]), k);
            Least(Missed(answers), k) == if answers[n] || f == k then f else f + 1
  {
  }

  lemma {:induction false} OrderAfter(info: NodeInfo, me: string, k: nat, answers: seq<bool>)
    requires InfoOk(info) && NoRepeats(Proposers(info)) && k < |Proposers(info)| && Proposers(info)[k] == me
    ensures InfoOk(Beats(info, me, answers))
    ensures Proposers(Beats(info, me, answers)) == Moved(Proposers(info), k, Least(Missed(answers), k))
  {
    var s := Proposers(info);
    if answers == [] {
      assert Moved(s, k, 0) == s;
    } else {
      var n := |answers| - 1;
      OrderAfter(info, me, k, answers[..n]);
      MissedOneMore(answers, k);
      BeatMoves(Beats(info, me, answers[..n]), s, k, Least(Missed(answers[..n]), k), Least(Missed(answers), k), me,
        answers[n]);
    }
  }

  /** Whatever the answers of its predecessors, after f failures a proposer at place k has the f nearest of
      them (all k, if f is larger) at the tail, nearest first, and all others in their old order: it is
      first as soon as k rounds have failed, and not before. */
  lemma TakesOver(info: NodeInfo, me: string, k: nat, answers: seq<bool>)
    requires InfoOk(info) && k < |Proposers(info)| && Proposers(info)[k] == me
    ensures InfoOk(Beats(info, me, answers))
    ensures Proposers(Beats(info, me, answers)) == Moved(Proposers(info), k, Least(Missed(answers), k))
    ensures |Proposers(Beats(info, me, answers))| > 0
    ensures Proposers(Beats(info, me, answers))[0] == me <==> Missed(answers) >= k
  {
    VisibleNoRepeats(info.forward, info.listVersion);
    OrderAfter(info, me, k, answers);
    MovedFirst(Proposers(info), k, Least(Missed(answers), k));
  }

  class Monitor {
    const me: string

    constructor (nodeId: string)
      ensures me == nodeId
    {
      me := nodeId;
    }

    /** One round of the heartbeat: find oneself, probe the predecessor, and on failure move it back.
        `answered` is the predecessor's reply, `failover` says that the caller takes over the lead. */
    method EventTask(cell: Node, answered: bool) returns (failover: bool)
      requires InfoOk(cell.info)
      modifies cell
      ensures InfoOk(cell.info) && cell.info == Beat(old(cell.info), me, answered)
      ensures var was, i := Proposers(old(cell.info)), Place(Proposers(old(cell.info)), me);
              if 0 < i < |was| && !answered
              then Proposers(cell.info) == Rotated(was, i - 1) && Proposers(cell.info)[i - 1] == me
                   && (failover <==> i == 1)
                   && (failover ==> DistinguishedProposer(Proposers(cell.info), false) == me)
              else cell.info == old(cell.info) && !failover
    {
      var proposers := cell.GetEdges(Forward, cell.info.listVersion);
      VisibleNoRepeats(cell.info.forward, cell.info.listVersion);
      var i := 0;
      while i < |proposers| && proposers[i] != me
        invariant 0 <= i <= |proposers| && forall j | 0 <= j < i :: proposers[j] != me
      {
        i := i + 1;
      }
      PlaceIs(proposers, me, i);
      failover := false;
      if 0 < i < |proposers| && !answered {
        failover := |proposers| > 1 && proposers[1] == me;
        Reorder(cell, proposers[i - 1], i - 1);
        RotationLaws(proposers, i - 1);
      }
    }

    /** The worker's loop: one round after the other. */
    method Run(cell: Node, answers: seq<bool>)
      requires InfoOk(cell.info)
      modifies cell
      ensures InfoOk(cell.info) && cell.info == Beats(old(cell.info), me, answers)
    {
      var i := 0;
      assert answers[..0] == [];
      while i < |answers|
        invariant 0 <= i <= |answers|
        invariant InfoOk(cell.info) && cell.info == Beats(old(cell.info), me, answers[..i])
      {
        var _ := EventTask(cell, answers[i]);
        assert answers[..i + 1][..i] == answers[..i];
        i := i + 1;
      }
      assert answers[..i] == answers;
    }

    /** `reorder_proposer`: a remove write followed by an add write. */
    method Reorder(cell: Node, proposer: string, ghost i: nat)
      requires InfoOk(cell.info) && i < |Proposers(cell.info)| && Proposers(cell.info)[i] == proposer
      modifies cell
      ensures InfoOk(cell.info) && cell.info == Reordered(old(cell.info), proposer)
      ensures Proposers(cell.info) == Rotated(Proposers(old(cell.info)), i)
    {
      ReorderRotates(cell.info, i);
      var _ := cell.RemoveEdge(Forward, proposer);
      var _ := cell.AddEdge(Forward, proposer);
    }
  }
}
