/** The version lists are a faithful index of the node's history: after any sequence of operations,
    reading at version v shows the edges and tags that were current when the list version was v. */
module NodeHistory {
  import opened NodeRecord

  // ----- version lists -----

  ghost predicate Ascending(vs: seq<nat>)
  {
    forall i, j | 0 <= i < j < |vs| :: vs[i] < vs[j]
  }

  /** A version list of a record at list version `top`. */
  ghost predicate VersionsOk(vs: seq<nat>, top: nat)
  {
    Ascending(vs) && forall v | v in vs :: 0 < v <= top
  }

  lemma LastIsHighest(vs: seq<nat>)
    requires Ascending(vs) && vs != []
    ensures Ascending(vs[..|vs| - 1])
    ensures forall u | u in vs :: u == vs[|vs| - 1] || (u in vs[..|vs| - 1] && u < vs[|vs| - 1])
    ensures forall u | u in vs[..|vs| - 1] :: u in vs && u < vs[|vs| - 1]
  {
    var rest := vs[..|vs| - 1];
    assert vs == rest + [vs[|vs| - 1]];
    forall u | u in rest ensures u < vs[|vs| - 1] {
      var i :| 0 <= i < |rest| && rest[i] == u;
      assert vs[i] == u;
    }
  }

  lemma {:induction false} ScanFinds(vs: seq<nat>, v: nat)
    requires Ascending(vs)
    ensures ScanBack(vs, v).Found? <==> v in vs
    ensures ScanBack(vs, v).Exhausted? ==> forall u | u in vs :: u > v
  {
    if vs != [] {
      LastIsHighest(vs);
      ScanFinds(vs[..|vs| - 1], v);
    }
  }

  lemma ScanBelow(vs: seq<nat>, v: nat)
    requires VersionsOk(vs, v) && vs != []
    ensures !ScanBack(vs, v).Exhausted?
  {
    ScanFinds(vs, v);
    assert vs[0] in vs;
  }

  lemma ExtendOk(vs: seq<nat>, top: nat)
    requires VersionsOk(vs, top)
    ensures VersionsOk(vs + [top + 1], top + 1) && VersionsOk(vs, top + 1)
    ensures top + 1 !in vs
  {
    assert forall i | 0 <= i < |vs| :: vs[i] in vs;
  }

  lemma CarriedOk(vs: seq<nat>, top: nat)
    requires VersionsOk(vs, top)
    ensures VersionsOk(Carried(vs, top, top + 1), top + 1)
    ensures forall v: nat | v <= top :: v in Carried(vs, top, top + 1) <==> v in vs
    ensures top + 1 in Carried(vs, top, top + 1) <==> top in vs
    ensures top in vs ==> DropLast(Carried(vs, top, top + 1)) == vs
  {
    ExtendOk(vs, top);
  }

  /** A list that already got the new version is left as it is. */
  lemma CarriedFresh(vs: seq<nat>, top: nat)
    ensures Carried(vs + [top + 1], top, top + 1) == vs + [top + 1]
  {
    assert (vs + [top + 1])[|vs|] == top + 1;
  }

  // ----- sequences of names -----

  function Without(s: seq<string>, x: string): seq<string>
  {
    if s == [] then []
    else Without(s[..|s| - 1], x) + if s[|s| - 1] == x then [] else [s[|s| - 1]]
  }

  ghost function MovedLast(s: seq<string>, x: string): seq<string>
  {
    if x in s then Without(s, x) + [x] else s
  }

  ghost function Names(s: seq<string>): set<string>
  {
    set x | x in s
  }

  lemma {:induction false} WithoutConcat(s: seq<string>, t: seq<string>, x: string)
    ensures Without(s + t, x) == Without(s, x) + Without(t, x)
  {
    if t == [] {
      assert s + t == s;
    } else {
      WithoutConcat(s, t[..|t| - 1], x);
      assert (s + t)[..|s + t| - 1] == s + t[..|t| - 1];
    }
  }

  lemma {:induction false} WithoutNames(s: seq<string>, x: string)
    ensures Names(Without(s, x)) == Names(s) - {x}
  {
    if s != [] {
      var n := |s| - 1;
      WithoutNames(s[..n], x);
      assert s == s[..n] + [s[n]];
      assert forall y :: y in Without(s, x) <==> y in Without(s[..n], x) || (s[n] != x && y == s[n]);
      assert forall y :: y in Without(s[..n], x) <==> y in Names(Without(s[..n], x));
      assert forall y :: y in s <==> y in s[..n] || y == s[n];
    }
  }

  lemma {:induction false} WithoutAbsent(s: seq<string>, x: string)
    requires x !in s
    ensures Without(s, x) == s
  {
    if s != [] {
      WithoutAbsent(s[..|s| - 1], x);
    }
  }

  lemma MovedLastNames(s: seq<string>, x: string)
    ensures Names(MovedLast(s, x)) == Names(s)
  {
    WithoutNames(s, x);
    assert forall y :: y in Without(s, x) <==> y in Names(Without(s, x));
  }

  // ----- edges -----

  ghost predicate DistinctIds(edges: seq<Versioned>)
  {
    forall i, j | 0 <= i < j < |edges| :: edges[i].id != edges[j].id
  }

  ghost predicate EdgesOk(edges: seq<Versioned>, top: nat)
  {
    && DistinctIds(edges)
    && forall i | 0 <= i < |edges| :: VersionsOk(edges[i].versions, top) && edges[i].versions != []
  }

  lemma {:induction false} VisibleConcat(a: seq<Versioned>, b: seq<Versioned>, v: nat)
    ensures Visible(a + b, v) == Visible(a, v) + Visible(b, v)
  {
    if b == [] {
      assert a + b == a;
    } else {
      VisibleConcat(a, b[..|b| - 1], v);
      assert (a + b)[..|a + b| - 1] == a + b[..|b| - 1];
    }
  }

  ghost predicate AliveAt(edges: seq<Versioned>, id: string, v: nat)
  {
    exists i :: 0 <= i < |edges| && edges[i].id == id && v in edges[i].versions
  }

  /** What is listed is exactly the ids of the entries alive at `v`. */
  lemma {:induction false} VisibleIds(edges: seq<Versioned>, top: nat, v: nat)
    requires forall i | 0 <= i < |edges| :: VersionsOk(edges[i].versions, top)
    ensures forall x :: x in Visible(edges, v) <==> AliveAt(edges, x, v)
  {
    if edges != [] {
      var n := |edges| - 1;
      VisibleIds(edges[..n], top, v);
      ScanFinds(edges[n].versions, v);
      forall x ensures x in Visible(edges, v) <==> AliveAt(edges, x, v) {
        AliveSplit(edges, x, v);
      }
    }
  }

  lemma AliveSplit(edges: seq<Versioned>, x: string, v: nat)
    requires edges != []
    ensures var n := |edges| - 1;
            AliveAt(edges, x, v) <==> AliveAt(edges[..n], x, v) || (edges[n].id == x && v in edges[n].versions)
  {
    var n := |edges| - 1;
    if i :| 0 <= i < |edges| && edges[i].id == x && v in edges[i].versions {
      if i < n {
        assert edges[..n][i] == edges[i];
      }
    }
    if i :| 0 <= i < n && edges[..n][i].id == x && v in edges[..n][i].versions {
      assert edges[i] == edges[..n][i];
    }
  }

  /** Two lists with the same ids, alive at `v` and `w` in the same places, list the same names. */
  lemma {:induction false} VisibleSame(a: seq<Versioned>, b: seq<Versioned>, v: nat, w: nat)
    requires |a| == |b|
    requires forall i | 0 <= i < |a| ::
        a[i].id == b[i].id && (ScanBack(a[i].versions, v).Found? <==> ScanBack(b[i].versions, w).Found?)
    ensures Visible(a, v) == Visible(b, w)
  {
    if a != [] {
      VisibleSame(a[..|a| - 1], b[..|b| - 1], v, w);
    }
  }

  lemma CarryEdgesOk(edges: seq<Versioned>, top: nat)
    requires EdgesOk(edges, top)
    ensures EdgesOk(CarryEdges(edges, top, top + 1), top + 1)
  {
    var r := CarryEdges(edges, top, top + 1);
    forall i | 0 <= i < |r| ensures VersionsOk(r[i].versions, top + 1) && r[i].versions != [] {
      CarriedOk(edges[i].versions, top);
    }
  }

  lemma CarryEdgesOld(edges: seq<Versioned>, top: nat, v: nat)
    requires EdgesOk(edges, top) && v <= top
    ensures Visible(CarryEdges(edges, top, top + 1), v) == Visible(edges, v)
  {
    var r := CarryEdges(edges, top, top + 1);
    forall i | 0 <= i < |r|
      ensures r[i].id == edges[i].id && (ScanBack(r[i].versions, v).Found? <==> ScanBack(edges[i].versions, v).Found?)
    {
      CarriedOk(edges[i].versions, top);
      ScanFinds(edges[i].versions, v);
      ScanFinds(r[i].versions, v);
    }
    VisibleSame(r, edges, v, v);
  }

  lemma CarryEdgesNew(edges: seq<Versioned>, top: nat)
    requires EdgesOk(edges, top)
    ensures Visible(CarryEdges(edges, top, top + 1), top + 1) == Visible(edges, top)
  {
    var r := CarryEdges(edges, top, top + 1);
    forall i | 0 <= i < |r|
      ensures r[i].id == edges[i].id
          && (ScanBack(r[i].versions, top + 1).Found? <==> ScanBack(edges[i].versions, top).Found?)
    {
      CarriedOk(edges[i].versions, top);
      ScanFinds(edges[i].versions, top);
      ScanFinds(r[i].versions, top + 1);
    }
    VisibleSame(r, edges, top + 1, top);
  }

  lemma CarryEdgesConcat(a: seq<Versioned>, b: seq<Versioned>, cmp: nat, next: nat)
    ensures CarryEdges(a + b, cmp, next) == CarryEdges(a, cmp, next) + CarryEdges(b, cmp, next)
  {
  }

  // ----- adding an edge -----

  /** The search finds a live edge, a dead one, or none, and nothing else can happen. */
  lemma {:induction false} LookupMeans(edges: seq<Versioned>, top: nat, id: string, from: nat)
    requires EdgesOk(edges, top) && from <= |edges|
    ensures var r := LookupEdge(edges, id, top, from);
            && (r.Present? ==> exists i :: from <= i < |edges| && edges[i].id == id && top in edges[i].versions)
            && (r.Stale? ==> edges[r.index].id == id && top !in edges[r.index].versions)
            && (r.Absent? ==> forall i | from <= i < |edges| :: edges[i].id != id)
    decreases |edges| - from
  {
    if from < |edges| {
      ScanFinds(edges[from].versions, top);
      ScanBelow(edges[from].versions, top);
      LookupMeans(edges, top, id, from + 1);
    }
  }

  lemma PresentIsVisible(edges: seq<Versioned>, top: nat, id: string)
    requires EdgesOk(edges, top)
    ensures LookupEdge(edges, id, top, 0).Present? <==> id in Visible(edges, top)
  {
    LookupMeans(edges, top, id, 0);
    VisibleIds(edges, top, top);
  }

  /** The dead entry's neighbours, before and after. */
  lemma SplitAt(edges: seq<Versioned>, i: nat, top: nat)
    requires EdgesOk(edges, top) && i < |edges|
    ensures edges == edges[..i] + [edges[i]] + edges[i + 1..]
    ensures var rest := edges[..i] + edges[i + 1..];
            EdgesOk(rest, top) && forall j | 0 <= j < |rest| :: rest[j].id != edges[i].id
  {
  }

  lemma {:induction false} VisibleLacks(edges: seq<Versioned>, id: string, v: nat)
    requires forall i | 0 <= i < |edges| :: edges[i].id != id
    ensures id !in Visible(edges, v)
  {
    if edges != [] {
      VisibleLacks(edges[..|edges| - 1], id, v);
    }
  }

  /** The list that `add_edge` leaves: the untouched entries carried forward, the edge at the tail. */
  lemma AppendedCarried(edges: seq<Versioned>, rest: seq<Versioned>, e: Versioned, top: nat)
    requires EdgesOk(rest, top) && VersionsOk(e.versions, top)
    requires forall i | 0 <= i < |rest| :: rest[i].id != e.id
    requires edges == rest + [e.(versions := e.versions + [top + 1])]
    ensures EdgesOk(CarryEdges(edges, top, top + 1), top + 1)
    ensures Visible(CarryEdges(edges, top, top + 1), top + 1) == Visible(rest, top) + [e.id]
    ensures forall v: nat | v <= top ::
        Visible(CarryEdges(edges, top, top + 1), v) == Visible(rest, v) + if v in e.versions then [e.id] else []
  {
    var tail := e.(versions := e.versions + [top + 1]);
    CarryEdgesConcat(rest, [tail], top, top + 1);
    CarriedFresh(e.versions, top);
    var r := CarryEdges(rest, top, top + 1);
    assert CarryEdges([tail], top, top + 1) == [tail];
    CarryEdgesOk(rest, top);
    ExtendOk(e.versions, top);
    CarryEdgesNew(rest, top);
    SingleVisible(tail, top + 1, top + 1);
    VisibleConcat(r, [tail], top + 1);
    forall v: nat | v <= top
      ensures Visible(r + [tail], v) == Visible(rest, v) + if v in e.versions then [e.id] else []
    {
      CarryEdgesOld(rest, top, v);
      SingleVisible(tail, top + 1, v);
      VisibleConcat(r, [tail], v);
    }
  }

  lemma SingleVisible(e: Versioned, top: nat, v: nat)
    requires VersionsOk(e.versions, top)
    ensures Visible([e], v) == if v in e.versions then [e.id] else []
  {
    ScanFinds(e.versions, v);
    assert [e][..0] == [];
  }

  /** Adding an edge: the current list grows at its tail; an old list keeps its names and changes only
      by moving that edge, where it was alive, to the tail. */
  lemma AddEdgeReads(edges: seq<Versioned>, top: nat, id: string)
    requires EdgesOk(edges, top) && id !in Visible(edges, top)
    ensures var found := LookupEdge(edges, id, top, 0);
            var edges' := CarryEdges(Appended(edges, id, found, top + 1), top, top + 1);
            && EdgesOk(edges', top + 1)
            && Visible(edges', top + 1) == Visible(edges, top) + [id]
            && forall v: nat | v <= top :: Visible(edges', v) == MovedLast(Visible(edges, v), id)
  {
    var found := LookupEdge(edges, id, top, 0);
    PresentIsVisible(edges, top, id);
    LookupMeans(edges, top, id, 0);
    if found.Stale? {
      StaleReads(edges, top, id, found.index);
    } else {
      var e := Versioned(id, []);
      assert [] + [top + 1] == [top + 1];
      AppendedCarried(Appended(edges, id, found, top + 1), edges, e, top);
      forall v: nat | v <= top ensures id !in Visible(edges, v) {
        VisibleLacks(edges, id, v);
      }
    }
  }

  lemma StaleReads(edges: seq<Versioned>, top: nat, id: string, i: nat)
    requires EdgesOk(edges, top) && i < |edges| && edges[i].id == id && top !in edges[i].versions
    ensures var edges' := CarryEdges(Appended(edges, id, Stale(i), top + 1), top, top + 1);
            && EdgesOk(edges', top + 1)
            && Visible(edges', top + 1) == Visible(edges, top) + [id]
            && forall v: nat | v <= top :: Visible(edges', v) == MovedLast(Visible(edges, v), id)
  {
    var rest := edges[..i] + edges[i + 1..];
    SplitAt(edges, i, top);
    AppendedCarried(Appended(edges, id, Stale(i), top + 1), rest, edges[i], top);
    forall v: nat | v <= top
      ensures Visible(rest, v) + (if v in edges[i].versions then [id] else []) == MovedLast(Visible(edges, v), id)
    {
      SplitVisible(edges, top, i, v);
    }
    SplitVisible(edges, top, i, top);
  }

  lemma SplitVisible(edges: seq<Versioned>, top: nat, i: nat, v: nat)
    requires EdgesOk(edges, top) && i < |edges|
    ensures var rest := edges[..i] + edges[i + 1..];
            && Without(Visible(edges, v), edges[i].id) == Visible(rest, v)
            && (edges[i].id in Visible(edges, v) <==> v in edges[i].versions)
            && (v !in edges[i].versions ==> Visible(edges, v) == Visible(rest, v))
  {
    var a, b, e := edges[..i], edges[i + 1..], edges[i];
    var sa, se, sb := Visible(a, v), Visible([e], v), Visible(b, v);
    assert Visible(edges, v) == sa + se + sb && Visible(a + b, v) == sa + sb by {
      VisibleAround(edges, i, v);
    }
    assert se == if v in e.versions then [e.id] else [] by {
      SingleVisible(e, top, v);
    }
    assert e.id !in sa && e.id !in sb by {
      SplitAt(edges, i, top);
      VisibleLacks(a, e.id, v);
      VisibleLacks(b, e.id, v);
    }
    DropMiddle(sa, se, sb, e.id);
  }

  lemma VisibleAround(edges: seq<Versioned>, i: nat, v: nat)
    requires i < |edges|
    ensures Visible(edges, v) == Visible(edges[..i], v) + Visible([edges[i]], v) + Visible(edges[i + 1..], v)
    ensures Visible(edges[..i] + edges[i + 1..], v) == Visible(edges[..i], v) + Visible(edges[i + 1..], v)
  {
    var a, b, e := edges[..i], edges[i + 1..], edges[i];
    assert edges == a + [e] + b;
    VisibleConcat(a, b, v);
    VisibleConcat(a + [e], b, v);
    VisibleConcat(a, [e], v);
  }

  lemma DropMiddle(a: seq<string>, m: seq<string>, b: seq<string>, x: string)
    requires x !in a && x !in b && (m == [] || m == [x])
    ensures Without(a + m + b, x) == a + b
    ensures x in a + m + b <==> m != []
    ensures m == [] ==> a + m + b == a + b
  {
    calc {
      Without(a + m + b, x);
    == { WithoutConcat(a + m, b, x); WithoutAbsent(b, x); }
      Without(a + m, x) + b;
    == { WithoutConcat(a, m, x); WithoutAbsent(a, x); }
      a + Without(m, x) + b;
    == { WithoutOne(m, x); }
      a + [] + b;
    == { assert a + [] == a; }
      a + b;
    }
    MiddleIn(a, m, b, x);
  }

  lemma WithoutOne(m: seq<string>, x: string)
    requires m == [] || m == [x]
    ensures Without(m, x) == []
  {
    assert m != [] ==> m[..0] == [];
  }

  lemma MiddleIn(a: seq<string>, m: seq<string>, b: seq<string>, x: string)
    requires x !in a && x !in b && (m == [] || m == [x])
    ensures x in a + m + b <==> m != []
  {
    if m != [] {
      assert (a + m + b)[|a|] == x;
    }
  }

  // ----- removing an edge -----

  ghost function Removed(edges: seq<Versioned>, top: nat, i: nat): (r: seq<Versioned>)
    requires i < |edges|
  {
    var carried := CarryEdges(edges, top, top + 1);
    carried[i := carried[i].(versions := DropLast(carried[i].versions))]
  }

  lemma RemovedOk(edges: seq<Versioned>, top: nat, i: nat)
    requires EdgesOk(edges, top) && i < |edges| && top in edges[i].versions
    ensures EdgesOk(Removed(edges, top, i), top + 1) && Removed(edges, top, i)[i] == edges[i]
  {
    var carried := CarryEdges(edges, top, top + 1);
    CarryEdgesOk(edges, top);
    CarriedOk(edges[i].versions, top);
    ExtendOk(edges[i].versions, top);
    assert carried[i].(versions := DropLast(carried[i].versions)) == edges[i];
  }

  lemma RemovedOld(edges: seq<Versioned>, top: nat, i: nat, v: nat)
    requires EdgesOk(edges, top) && i < |edges| && top in edges[i].versions && v <= top
    ensures Visible(Removed(edges, top, i), v) == Visible(edges, v)
  {
    var edges' := Removed(edges, top, i);
    RemovedOk(edges, top, i);
    forall j | 0 <= j < |edges|
      ensures edges'[j].id == edges[j].id
          && (ScanBack(edges'[j].versions, v).Found? <==> ScanBack(edges[j].versions, v).Found?)
    {
      CarriedOk(edges[j].versions, top);
      ScanFinds(edges[j].versions, v);
      ScanFinds(edges'[j].versions, v);
    }
    VisibleSame(edges', edges, v, v);
  }

  lemma RemovedNew(edges: seq<Versioned>, top: nat, i: nat)
    requires EdgesOk(edges, top) && i < |edges| && top in edges[i].versions
    ensures Visible(Removed(edges, top, i), top + 1) == Without(Visible(edges, top), edges[i].id)
  {
    var edges' := Removed(edges, top, i);
    var rest := edges[..i] + edges[i + 1..];
    RemovedOk(edges, top, i);
    ExtendOk(edges[i].versions, top);
    SplitVisible(edges', top + 1, i, top + 1);
    SplitVisible(edges, top, i, top);
    RemovedRest(edges, top, i);
    SplitAt(edges, i, top);
    CarryEdgesNew(rest, top);
  }

  lemma RemovedRest(edges: seq<Versioned>, top: nat, i: nat)
    requires i < |edges|
    ensures var edges' := Removed(edges, top, i);
            |edges'| == |edges|
                && edges'[..i] + edges'[i + 1..] == CarryEdges(edges[..i] + edges[i + 1..], top, top + 1)
  {
  }

  /** Removing an edge deletes it in place from the current list and leaves every old list alone. */
  lemma RemoveEdgeReads(edges: seq<Versioned>, top: nat, i: nat)
    requires EdgesOk(edges, top) && i < |edges| && top in edges[i].versions
    ensures EdgesOk(Removed(edges, top, i), top + 1)
    ensures Visible(Removed(edges, top, i), top + 1) == Without(Visible(edges, top), edges[i].id)
    ensures forall v: nat | v <= top :: Visible(Removed(edges, top, i), v) == Visible(edges, v)
  {
    RemovedOk(edges, top, i);
    RemovedNew(edges, top, i);
    forall v: nat | v <= top ensures Visible(Removed(edges, top, i), v) == Visible(edges, v) {
      RemovedOld(edges, top, i, v);
    }
  }
}
