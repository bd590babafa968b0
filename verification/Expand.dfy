/** `expand`: an explicit-stack traversal that returns the tree of all simple paths below a node. */
module Expand {
  import opened NodeRecord
  import opened RangeGraph

  /** The returned object; children are keyed by full name. */
  datatype Tree = Tree(name: string, nodeType: NodeType, children: map<string, Tree>)

  // ----- the recursive meaning -----

  /** The tree below `x` when `above` are its ancestors on the path and `depth` edges may still be followed. */
  ghost function Below(g: Graph, env: string, x: string, above: set<string>, depth: nat): Tree
    decreases depth, 1
  {
    Tree(Unprefixed(env, x), TypeOf(g, x), Children(g, env, Out(g, x), above + {x}, depth))
  }

  /** The subtrees for those of `edges` that do not close a cycle. */
  ghost function Children(g: Graph, env: string, edges: seq<string>, path: set<string>, depth: nat): map<string, Tree>
    decreases depth, 0
  {
    if depth == 0 then map[]
    else map c | c in edges && c !in path :: Below(g, env, c, path, depth - 1)
  }

  // ----- the explicit stack -----

  datatype Frame = Frame(v: string, outEdges: seq<string>, children: map<string, Tree>)

  ghost function OnStack(st: seq<Frame>): set<string>
  {
    set i | 0 <= i < |st| :: st[i].v
  }

  /** The tree a frame at height `h` will return. */
  ghost function Finished(g: Graph, env: string, f: Frame, path: set<string>, depth: nat): Tree
  {
    Tree(Unprefixed(env, f.v), TypeOf(g, f.v), f.children + Children(g, env, f.outEdges, path, depth))
  }

  /** Frame at position `i` may follow `depth - i` more edges. */
  ghost predicate Fits(st: seq<Frame>, depth: nat)
  {
    |st| > 0 && |st| <= depth + 1
  }

  ghost function Answered(st: seq<Frame>, t: Tree): (r: seq<Frame>)
    requires |st| > 1
  {
    var n := |st| - 1;
    st[..n][n - 1 := st[n - 1].(children := st[n - 1].children[st[n].v := t])]
  }

  /** What the loop will return from this stack: finish the top frame, hand its tree to the one below. */
  ghost function Unwind(g: Graph, env: string, st: seq<Frame>, depth: nat): Tree
    requires Fits(st, depth)
    decreases |st|
  {
    var n := |st| - 1;
    var t := Finished(g, env, st[n], OnStack(st), depth - n);
    if n == 0 then t else Unwind(g, env, Answered(st, t), depth)
  }

  /** The stack with its top frame replaced. */
  ghost function Top(st: seq<Frame>, f: Frame): seq<Frame>
    requires |st| > 0
  {
    st[|st| - 1 := f]
  }

  /** The top frame matters only through the tree it will return. */
  lemma UnwindSame(g: Graph, env: string, st: seq<Frame>, f: Frame, depth: nat)
    requires Fits(st, depth) && f.v == st[|st| - 1].v
    requires Finished(g, env, f, OnStack(st), depth - (|st| - 1))
        == Finished(g, env, st[|st| - 1], OnStack(st), depth - (|st| - 1))
    ensures Unwind(g, env, Top(st, f), depth) == Unwind(g, env, st, depth)
  {
    SameNames(st, f);
    if |st| > 1 {
      var t := Finished(g, env, f, OnStack(st), depth - (|st| - 1));
      assert Answered(Top(st, f), t) == Answered(st, t);
    }
  }

  lemma SameNames(st: seq<Frame>, f: Frame)
    requires |st| > 0 && f.v == st[|st| - 1].v
    ensures OnStack(Top(st, f)) == OnStack(st)
  {
    var st' := Top(st, f);
    assert forall i | 0 <= i < |st| :: st'[i].v == st[i].v;
    forall x ensures x in OnStack(st') <==> x in OnStack(st) {
      if i :| 0 <= i < |st| && st[i].v == x {
        assert st'[i].v == x;
      }
      if i :| 0 <= i < |st'| && st'[i].v == x {
        assert st[i].v == x;
      }
    }
  }

  /** Skipping an edge back onto the path changes nothing. */
  lemma SkipEdge(g: Graph, env: string, st: seq<Frame>, depth: nat)
    requires Fits(st, depth)
    requires var es := st[|st| - 1].outEdges; |es| > 0 && es[|es| - 1] in OnStack(st)
    ensures var top := st[|st| - 1];
            Unwind(g, env, Top(st, top.(outEdges := top.outEdges[..|top.outEdges| - 1])), depth)
                == Unwind(g, env, st, depth)
  {
    var top := st[|st| - 1];
    var es := top.outEdges;
    assert forall c | c !in OnStack(st) :: c in es[..|es| - 1] <==> c in es by {
      assert es == es[..|es| - 1] + [es[|es| - 1]];
    }
    assert Children(g, env, es[..|es| - 1], OnStack(st), depth - (|st| - 1))
        == Children(g, env, es, OnStack(st), depth - (|st| - 1));
    UnwindSame(g, env, st, top.(outEdges := es[..|es| - 1]), depth);
  }

  lemma PushNames(st: seq<Frame>, f: Frame)
    ensures OnStack(st + [f]) == OnStack(st) + {f.v}
  {
    var st' := st + [f];
    forall x ensures x in OnStack(st') <==> x in OnStack(st) || x == f.v {
      if i :| 0 <= i < |st| && st[i].v == x {
        assert st'[i].v == x;
      }
      assert st'[|st|].v == f.v;
    }
  }

  /** A fresh frame returns the recursive tree of its node. */
  lemma FreshFrame(g: Graph, env: string, e: string, path: set<string>, depth: nat)
    ensures Finished(g, env, Frame(e, Out(g, e), map[]), path + {e}, depth) == Below(g, env, e, path, depth)
  {
    assert map[] + Children(g, env, Out(g, e), path + {e}, depth) == Children(g, env, Out(g, e), path + {e}, depth);
  }

  lemma AnsweredTop(st: seq<Frame>, less: Frame, e: string, es: seq<string>, t: Tree)
    requires |st| > 0
    ensures Answered(Top(st, less) + [Frame(e, es, map[])], t) == Top(st, less.(children := less.children[e := t]))
  {
  }

  /** The stack after the last edge of the top frame is popped and pushed as a frame of its own. */
  ghost function Pushed(g: Graph, st: seq<Frame>): seq<Frame>
    requires |st| > 0 && |st[|st| - 1].outEdges| > 0
  {
    var top := st[|st| - 1];
    var e := top.outEdges[|top.outEdges| - 1];
    Top(st, top.(outEdges := top.outEdges[..|top.outEdges| - 1])) + [Frame(e, Out(g, e), map[])]
  }

  lemma PushedTop(g: Graph, st: seq<Frame>)
    requires |st| > 0 && st[|st| - 1].outEdges != []
    ensures var es := st[|st| - 1].outEdges; var e := es[|es| - 1];
            Pushed(g, st)[|st|] == Frame(e, Out(g, e), map[]) && OnStack(Pushed(g, st)) == OnStack(st) + {e}
  {
    var top, es := st[|st| - 1], st[|st| - 1].outEdges;
    var less := top.(outEdges := es[..|es| - 1]);
    SameNames(st, less);
    PushNames(Top(st, less), Frame(es[|es| - 1], Out(g, es[|es| - 1]), map[]));
  }

  lemma PushedFrame(g: Graph, env: string, st: seq<Frame>, depth: nat, t: Tree)
    requires Fits(st, depth) && |st| <= depth && st[|st| - 1].outEdges != []
    requires var es := st[|st| - 1].outEdges; t == Below(g, env, es[|es| - 1], OnStack(st), depth - |st|)
    ensures Finished(g, env, Pushed(g, st)[|st|], OnStack(Pushed(g, st)), depth - |st|) == t
  {
    PushedTop(g, st);
    var es := st[|st| - 1].outEdges;
    FreshFrame(g, env, es[|es| - 1], OnStack(st), depth - |st|);
  }

  /** A child already answered for equals one still to be followed. */
  lemma AnswerCounts(g: Graph, env: string, top: Frame, t: Tree, path: set<string>, depth: nat)
    requires |top.outEdges| > 0 && depth > 0
    requires var e := top.outEdges[|top.outEdges| - 1]; e !in path && t == Below(g, env, e, path, depth - 1)
    ensures var es := top.outEdges;
            var answered := Frame(top.v, es[..|es| - 1], top.children[es[|es| - 1] := t]);
            Finished(g, env, answered, path, depth) == Finished(g, env, top, path, depth)
  {
    var es := top.outEdges;
    ChildrenOneMore(g, env, es, path, depth);
    AddThenMerge(top.children, Children(g, env, es[..|es| - 1], path, depth), es[|es| - 1], t);
  }

  lemma ChildrenOneMore(g: Graph, env: string, es: seq<string>, path: set<string>, depth: nat)
    requires |es| > 0 && depth > 0 && es[|es| - 1] !in path
    ensures var e := es[|es| - 1];
            && Children(g, env, es, path, depth)
                == Children(g, env, es[..|es| - 1], path, depth)[e := Below(g, env, e, path, depth - 1)]
            && (e in Children(g, env, es[..|es| - 1], path, depth) ==>
                Children(g, env, es[..|es| - 1], path, depth)[e] == Below(g, env, e, path, depth - 1))
  {
    var less := es[..|es| - 1];
    var e := es[|es| - 1];
    assert es == less + [e];
    var all, some := Children(g, env, es, path, depth), Children(g, env, less, path, depth);
    var t := Below(g, env, e, path, depth - 1);
    assert forall c :: c in es <==> c in less || c == e;
    assert all.Keys == some.Keys + {e};
    assert all == some[e := t];
  }

  lemma AddThenMerge(m: map<string, Tree>, n: map<string, Tree>, e: string, t: Tree)
    requires e in n ==> n[e] == t
    ensures m[e := t] + n == m + n[e := t]
  {
  }

  /** The child that the last pending edge of the top frame stands for. */
  ghost function LastChild(g: Graph, env: string, st: seq<Frame>, depth: nat): Tree
    requires Fits(st, depth) && |st| <= depth && st[|st| - 1].outEdges != []
  {
    var es := st[|st| - 1].outEdges;
    Below(g, env, es[|es| - 1], OnStack(st), depth - |st|)
  }

  /** The stack as if that child had been handed over already. */
  ghost function HandedOver(g: Graph, env: string, st: seq<Frame>, depth: nat): seq<Frame>
    requires Fits(st, depth) && |st| <= depth && st[|st| - 1].outEdges != []
  {
    var top, es := st[|st| - 1], st[|st| - 1].outEdges;
    Top(st, Frame(top.v, es[..|es| - 1], top.children[es[|es| - 1] := LastChild(g, env, st, depth)]))
  }

  lemma PushedAnswers(g: Graph, env: string, st: seq<Frame>, depth: nat)
    requires Fits(st, depth) && |st| <= depth && st[|st| - 1].outEdges != []
    ensures Fits(Pushed(g, st), depth) && |Pushed(g, st)| == |st| + 1
    ensures Answered(Pushed(g, st), LastChild(g, env, st, depth)) == HandedOver(g, env, st, depth)
  {
    var top, es := st[|st| - 1], st[|st| - 1].outEdges;
    var e := es[|es| - 1];
    AnsweredTop(st, top.(outEdges := es[..|es| - 1]), e, Out(g, e), LastChild(g, env, st, depth));
  }

  /** The pushed frame returns that child to the frame below it. */
  lemma PushedUnwinds(g: Graph, env: string, st: seq<Frame>, depth: nat)
    requires Fits(st, depth) && |st| <= depth && st[|st| - 1].outEdges != []
    ensures Fits(Pushed(g, st), depth)
    ensures Unwind(g, env, Pushed(g, st), depth) == Unwind(g, env, HandedOver(g, env, st, depth), depth)
  {
    PushedAnswers(g, env, st, depth);
    PushedFrame(g, env, st, depth, LastChild(g, env, st, depth));
    UnwindOnce(g, env, Pushed(g, st), LastChild(g, env, st, depth), depth);
  }

  lemma UnwindOnce(g: Graph, env: string, st: seq<Frame>, t: Tree, depth: nat)
    requires Fits(st, depth) && |st| > 1
    requires t == Finished(g, env, st[|st| - 1], OnStack(st), depth - (|st| - 1))
    ensures Unwind(g, env, st, depth) == Unwind(g, env, Answered(st, t), depth)
  {
  }

  lemma HandedOverUnwinds(g: Graph, env: string, st: seq<Frame>, depth: nat)
    requires Fits(st, depth) && |st| <= depth
    requires var es := st[|st| - 1].outEdges; |es| > 0 && es[|es| - 1] !in OnStack(st)
    ensures Unwind(g, env, HandedOver(g, env, st, depth), depth) == Unwind(g, env, st, depth)
  {
    var top, es := st[|st| - 1], st[|st| - 1].outEdges;
    var t := LastChild(g, env, st, depth);
    AnswerCounts(g, env, top, t, OnStack(st), depth - (|st| - 1));
    UnwindSame(g, env, st, Frame(top.v, es[..|es| - 1], top.children[es[|es| - 1] := t]), depth);
  }

  /** Pushing a fresh frame for the last edge: its tree is exactly the child that edge stands for. */
  lemma PushEdge(g: Graph, env: string, st: seq<Frame>, depth: nat)
    requires Fits(st, depth) && |st| <= depth
    requires var es := st[|st| - 1].outEdges; |es| > 0 && es[|es| - 1] !in OnStack(st)
    ensures Fits(Pushed(g, st), depth) && Unwind(g, env, Pushed(g, st), depth) == Unwind(g, env, st, depth)
  {
    PushedUnwinds(g, env, st, depth);
    HandedOverUnwinds(g, env, st, depth);
  }

  /** A frame with no edge left, or at the depth limit, is finished. */
  lemma PopFrame(g: Graph, env: string, st: seq<Frame>, depth: nat)
    requires Fits(st, depth) && (st[|st| - 1].outEdges == [] || |st| > depth)
    ensures var n := |st| - 1;
            var t := Tree(Unprefixed(env, st[n].v), TypeOf(g, st[n].v), st[n].children);
            Unwind(g, env, st, depth) == if n == 0 then t else Unwind(g, env, Answered(st, t), depth)
  {
    var n := |st| - 1;
    assert Children(g, env, st[n].outEdges, OnStack(st), depth - n) == map[];
    assert st[n].children + map[] == st[n].children;
  }

  // ----- termination: the work still ahead -----

  /** Loop turns needed for the subtrees of `edges`, a bound that each turn lowers. */
  ghost function EdgesWork(g: Graph, edges: seq<string>, path: set<string>, depth: nat): nat
    decreases depth, |edges|
  {
    if depth == 0 || edges == [] then 0
    else
      var e := edges[|edges| - 1];
      EdgesWork(g, edges[..|edges| - 1], path, depth) + 1
      + if e in path then 0 else 1 + EdgesWork(g, Out(g, e), path + {e}, depth - 1)
  }

  ghost function StackWork(g: Graph, st: seq<Frame>, depth: nat): nat
    requires |st| <= depth + 1
    decreases |st|
  {
    if st == [] then 0
    else
      var n := |st| - 1;
      StackWork(g, st[..n], depth) + 1 + EdgesWork(g, st[n].outEdges, OnStack(st), depth - n)
  }

  /** Only names and pending edges matter for the work. */
  lemma {:induction false} SameWork(g: Graph, st: seq<Frame>, st': seq<Frame>, depth: nat)
    requires |st| == |st'| <= depth + 1
    requires forall i | 0 <= i < |st| :: st[i].v == st'[i].v && st[i].outEdges == st'[i].outEdges
    ensures StackWork(g, st, depth) == StackWork(g, st', depth)
  {
    if st != [] {
      SameWork(g, st[..|st| - 1], st'[..|st| - 1], depth);
      assert OnStack(st) == OnStack(st') by {
        forall x ensures x in OnStack(st) <==> x in OnStack(st') {
          if i :| 0 <= i < |st| && st[i].v == x {
            assert st'[i].v == x;
          }
          if i :| 0 <= i < |st'| && st'[i].v == x {
            assert st[i].v == x;
          }
        }
      }
    }
  }

  lemma TopWork(g: Graph, st: seq<Frame>, f: Frame, depth: nat)
    requires Fits(st, depth) && f.v == st[|st| - 1].v
    ensures StackWork(g, Top(st, f), depth)
         == StackWork(g, st[..|st| - 1], depth) + 1 + EdgesWork(g, f.outEdges, OnStack(st), depth - (|st| - 1))
  {
    SameNames(st, f);
    assert Top(st, f)[..|st| - 1] == st[..|st| - 1];
  }

  lemma PushWork(g: Graph, st: seq<Frame>, depth: nat)
    requires Fits(st, depth) && |st| <= depth
    requires var es := st[|st| - 1].outEdges; |es| > 0 && es[|es| - 1] !in OnStack(st)
    ensures StackWork(g, Pushed(g, st), depth) < StackWork(g, st, depth)
  {
    var top := st[|st| - 1];
    var es := top.outEdges;
    var e := es[|es| - 1];
    var less := top.(outEdges := es[..|es| - 1]);
    TopWork(g, st, less, depth);
    SameNames(st, less);
    PushNames(Top(st, less), Frame(e, Out(g, e), map[]));
    assert Pushed(g, st)[..|st|] == Top(st, less);
  }

  // ----- the loop -----

  ghost predicate Distinct(st: seq<Frame>)
  {
    forall i, j | 0 <= i < j < |st| :: st[i].v != st[j].v
  }

  /** `onStack` is exact but for the top frame, which is entered when it is first looked at. */
  ghost predicate LoopInv(g: Graph, env: string, st: seq<Frame>, onStack: set<string>, depth: nat, goal: Tree)
  {
    && Fits(st, depth) && Distinct(st)
    && Unwind(g, env, st, depth) == goal
    && onStack + {st[|st| - 1].v} == OnStack(st)
  }

  ghost function LessOne(f: Frame): Frame
    requires f.outEdges != []
  {
    f.(outEdges := f.outEdges[..|f.outEdges| - 1])
  }

  lemma SkipStep(g: Graph, env: string, st: seq<Frame>, onStack: set<string>, depth: nat, goal: Tree)
    requires LoopInv(g, env, st, onStack, depth, goal) && |st| <= depth
    requires var es := st[|st| - 1].outEdges; es != [] && es[|es| - 1] in OnStack(st)
    ensures LoopInv(g, env, Top(st, LessOne(st[|st| - 1])), onStack, depth, goal)
    ensures StackWork(g, Top(st, LessOne(st[|st| - 1])), depth) < StackWork(g, st, depth)
  {
    var less := LessOne(st[|st| - 1]);
    SkipEdge(g, env, st, depth);
    TopWork(g, st, less, depth);
    SameNames(st, less);
  }

  lemma NotOnStack(st: seq<Frame>, e: string)
    requires e !in OnStack(st)
    ensures forall i | 0 <= i < |st| :: st[i].v != e
  {
  }

  lemma PushStep(g: Graph, env: string, st: seq<Frame>, onStack: set<string>, depth: nat, goal: Tree)
    requires LoopInv(g, env, st, onStack, depth, goal) && |st| <= depth
    requires var es := st[|st| - 1].outEdges; es != [] && es[|es| - 1] !in OnStack(st)
    ensures LoopInv(g, env, Pushed(g, st), OnStack(st), depth, goal)
    ensures StackWork(g, Pushed(g, st), depth) < StackWork(g, st, depth)
  {
    PushEdge(g, env, st, depth);
    PushWork(g, st, depth);
    PushedNames(g, st);
  }

  lemma PushedNames(g: Graph, st: seq<Frame>)
    requires |st| > 0 && Distinct(st)
    requires var es := st[|st| - 1].outEdges; es != [] && es[|es| - 1] !in OnStack(st)
    ensures var es := st[|st| - 1].outEdges; OnStack(Pushed(g, st)) == OnStack(st) + {es[|es| - 1]}
    ensures var es := st[|st| - 1].outEdges; Pushed(g, st)[|st|].v == es[|es| - 1]
    ensures Distinct(Pushed(g, st))
  {
    var top, st' := st[|st| - 1], Pushed(g, st);
    var e := top.outEdges[|top.outEdges| - 1];
    PushedTop(g, st);
    NotOnStack(st, e);
    assert forall i | 0 <= i < |st| :: st'[i].v == st[i].v;
  }

  lemma PopNames(st: seq<Frame>, t: Tree)
    requires |st| > 1 && Distinct(st)
    ensures OnStack(Answered(st, t)) == OnStack(st) - {st[|st| - 1].v}
  {
    var n := |st| - 1;
    var st' := Answered(st, t);
    forall x ensures x in OnStack(st') <==> x in OnStack(st) && x != st[n].v {
      if i :| 0 <= i < |st'| && st'[i].v == x {
        assert st[i].v == x;
      }
      if i :| 0 <= i < |st| && st[i].v == x {
        assert i < n ==> st'[i].v == x;
      }
    }
  }

  lemma PopWork(g: Graph, st: seq<Frame>, t: Tree, depth: nat)
    requires Fits(st, depth) && |st| > 1
    ensures StackWork(g, Answered(st, t), depth) < StackWork(g, st, depth)
  {
    SameWork(g, Answered(st, t), st[..|st| - 1], depth);
  }

  lemma PopDistinct(st: seq<Frame>, t: Tree)
    requires |st| > 1 && Distinct(st)
    ensures Distinct(Answered(st, t)) && Answered(st, t)[|st| - 2].v in OnStack(Answered(st, t))
  {
    var n, st' := |st| - 1, Answered(st, t);
    assert forall i | 0 <= i < n :: st'[i].v == st[i].v;
  }

  lemma PopUnwinds(g: Graph, env: string, st: seq<Frame>, depth: nat, t: Tree)
    requires Fits(st, depth) && |st| > 1 && (st[|st| - 1].outEdges == [] || |st| > depth)
    requires t == Tree(Unprefixed(env, st[|st| - 1].v), TypeOf(g, st[|st| - 1].v), st[|st| - 1].children)
    ensures Unwind(g, env, Answered(st, t), depth) == Unwind(g, env, st, depth)
  {
    PopFrame(g, env, st, depth);
  }

  lemma PopStep(g: Graph, env: string, st: seq<Frame>, onStack: set<string>, depth: nat, goal: Tree, t: Tree)
    requires LoopInv(g, env, st, onStack, depth, goal) && |st| > 1
    requires st[|st| - 1].outEdges == [] || |st| > depth
    requires t == Tree(Unprefixed(env, st[|st| - 1].v), TypeOf(g, st[|st| - 1].v), st[|st| - 1].children)
    ensures LoopInv(g, env, Answered(st, t), OnStack(st) - {st[|st| - 1].v}, depth, goal)
    ensures StackWork(g, Answered(st, t), depth) < StackWork(g, st, depth)
  {
    PopUnwinds(g, env, st, depth, t);
    PopWork(g, st, t, depth);
    PopNames(st, t);
    PopDistinct(st, t);
  }

  lemma OnlyFrame(f: Frame)
    ensures OnStack([f]) == {f.v}
  {
    assert [f][0].v == f.v;
  }

  lemma StartInv(g: Graph, env: string, start: string, depth: nat)
    ensures LoopInv(g, env, [Frame(start, Out(g, start), map[])], {}, depth, Below(g, env, start, {}, depth))
  {
    var f := Frame(start, Out(g, start), map[]);
    FreshFrame(g, env, start, {}, depth);
    OnlyFrame(f);
    assert {} + {start} == {start};
  }

  /** The top frame has an edge left to follow: skip it or push it. */
  method FollowEdge(
    g: Graph, env: string, st: seq<Frame>, onStack: set<string>, depth: nat, ghost goal: Tree) returns (st': seq<Frame>)
    requires LoopInv(g, env, st, onStack, depth, goal) && onStack == OnStack(st)
    requires st[|st| - 1].outEdges != [] && |st| <= depth
    ensures LoopInv(g, env, st', onStack, depth, goal)
    ensures StackWork(g, st', depth) < StackWork(g, st, depth)
  {
    var n := |st| - 1;
    var top := st[n];
    var e := top.outEdges[|top.outEdges| - 1];
    st' := st[n := top.(outEdges := top.outEdges[..|top.outEdges| - 1])];
    if e in onStack {
      SkipStep(g, env, st, onStack, depth, goal);
    } else {
      PushStep(g, env, st, onStack, depth, goal);
      st' := st' + [Frame(e, Out(g, e), map[])];
    }
  }

  /** The top frame is finished: hand its tree to the frame below, or return it. */
  method Retire(g: Graph, env: string, st: seq<Frame>, onStack: set<string>, depth: nat, ghost goal: Tree)
    returns (t: Tree, st': seq<Frame>)
    requires LoopInv(g, env, st, onStack, depth, goal) && onStack == OnStack(st)
    requires st[|st| - 1].outEdges == [] || |st| > depth
    ensures |st| == 1 ==> t == goal
    ensures |st| > 1 ==> LoopInv(g, env, st', onStack - {st[|st| - 1].v}, depth, goal)
    ensures |st| > 1 ==> StackWork(g, st', depth) < StackWork(g, st, depth)
  {
    var n := |st| - 1;
    t, st' := Tree(Unprefixed(env, st[n].v), TypeOf(g, st[n].v), st[n].children), st;
    if n == 0 {
      PopFrame(g, env, st, depth);
    } else {
      PopStep(g, env, st, onStack, depth, goal, t);
      st' := st[..n][n - 1 := st[n - 1].(children := st[n - 1].children[st[n].v := t])];
    }
  }

  /** The loop of `expand` ends on every finite graph, cyclic or not, with the recursive tree. */
  method ExpandNode(g: Graph, env: string, start: string, depth: nat) returns (t: Tree)
    ensures t == Below(g, env, start, {}, depth)
  {
    ghost var goal := Below(g, env, start, {}, depth);
    var onStack: set<string> := {};
    var st := [Frame(start, Out(g, start), map[])];
    StartInv(g, env, start, depth);
    while true
      invariant LoopInv(g, env, st, onStack, depth, goal)
      decreases StackWork(g, st, depth)
    {
      var top := st[|st| - 1];
      onStack := onStack + {top.v};
      if top.outEdges != [] && |st| <= depth {
        st := FollowEdge(g, env, st, onStack, depth, goal);
      } else {
        var height := |st|;
        t, st := Retire(g, env, st, onStack, depth, goal);
        if height == 1 {
          return;
        }
        onStack := onStack - {top.v};
      }
    }
  }
}
