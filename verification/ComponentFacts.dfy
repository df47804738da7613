// What the lists and counts of a component are, element by element.
module ComponentFacts {
  import opened Common
  import opened Reachability
  import opened Sorting
  import opened Components

  // ---- degrees -----------------------------------------------------------------------------

  function EdgesOut(edges: seq<Edge>, n: int): set<nat> {
    set i: nat | i < |edges| && edges[i].0 == n
  }

  function EdgesIn(edges: seq<Edge>, n: int): set<nat> {
    set i: nat | i < |edges| && edges[i].1 == n
  }

  lemma {:induction false} OneMorePosition(front: set<nat>, all: set<nat>, m: nat, here: bool)
    requires m !in front && forall i: nat :: i in all <==> i in front || (here && i == m)
    ensures |all| == |front| + (if here then 1 else 0)
  {
    assert all == front + if here then {m} else {};
  }

  // The degrees are numbers of edges: two edges between the same nodes count twice.
  lemma {:induction false} DegreeIs(edges: seq<Edge>, n: int)
    ensures OutDegree(edges, n) == |EdgesOut(edges, n)| && InDegree(edges, n) == |EdgesIn(edges, n)|
  {
    if edges == [] {
      assert EdgesOut(edges, n) == {} && EdgesIn(edges, n) == {};
    } else {
      var m: nat := |edges| - 1;
      DegreeIs(edges[..m], n);
      OneMorePosition(EdgesOut(edges[..m], n), EdgesOut(edges, n), m, edges[m].0 == n);
      OneMorePosition(EdgesIn(edges[..m], n), EdgesIn(edges, n), m, edges[m].1 == n);
    }
  }

  lemma {:induction false} TwoOf(s: set<nat>)
    ensures |s| > 1 <==> exists i, j :: i in s && j in s && i < j
  {
    if s != {} {
      var i := Pick(s);
      var rest := s - {i};
      assert s == rest + {i};
      if rest != {} {
        var j := Pick(rest);
        assert i < j || j < i;
      }
    }
  }

  // A node branches iff two edges leave it or two edges enter it.
  lemma {:induction false} BranchesIff(edges: seq<Edge>, n: int)
    ensures IsBranchPoint(edges, n) <==>
      || (exists i, j :: 0 <= i < j < |edges| && edges[i].0 == n && edges[j].0 == n)
      || (exists i, j :: 0 <= i < j < |edges| && edges[i].1 == n && edges[j].1 == n)
  {
    DegreeIs(edges, n);
    TwoOf(EdgesOut(edges, n));
    TwoOf(EdgesIn(edges, n));
    if i: nat, j: nat :| i < j < |edges| && edges[i].0 == n && edges[j].0 == n {
      assert i in EdgesOut(edges, n) && j in EdgesOut(edges, n);
    }
    if i: nat, j: nat :| i < j < |edges| && edges[i].1 == n && edges[j].1 == n {
      assert i in EdgesIn(edges, n) && j in EdgesIn(edges, n);
    }
  }

  // ---- the edges of a component ----------------------------------------------------------------

  lemma {:induction false} EdgesFromCount(edges: seq<Edge>, members: set<int>, e: Edge)
    ensures multiset(EdgesFrom(edges, members))[e] == if e.0 in members then multiset(edges)[e] else 0
  {
    if edges != [] {
      var n := |edges| - 1;
      EdgesFromCount(edges[..n], members, e);
      assert edges == edges[..n] + [edges[n]];
    }
  }

  lemma {:induction false} PairOrder(a: int, b: int, c: int, d: int)
    ensures LexLe([a, b], [c, d]) <==> a < c || (a == c && b <= d)
  {
    assert [a, b][1..] == [b] && [c, d][1..] == [d] && [b][1..] == [] && [d][1..] == [];
    assert LexLe([b], [d]) <==> b <= d;
  }

  // A component lists each edge that starts in it as often as it was given, in ascending
  // order of its two ends.
  lemma {:induction false} EdgesOfComponent(edges: seq<Edge>, c: Component, e: Edge)
    requires IsComponent(edges, c)
    ensures multiset(c.edges)[e] == if e.0 in c.nodes then multiset(edges)[e] else 0
    ensures forall i, j :: 0 <= i < j < |c.edges| ==>
      c.edges[i].0 < c.edges[j].0 || (c.edges[i].0 == c.edges[j].0 && c.edges[i].1 <= c.edges[j].1)
  {
    var members := set n | n in c.nodes;
    EdgesFromCount(edges, members, e);
    SortBySorts(EdgeKey, EdgesFrom(edges, members));
    hide SortBy, EdgesFrom;
    forall i, j | 0 <= i < j < |c.edges|
      ensures c.edges[i].0 < c.edges[j].0 || (c.edges[i].0 == c.edges[j].0 && c.edges[i].1 <= c.edges[j].1)
    {
      assert LexLe(EdgeKey(c.edges[i]), EdgeKey(c.edges[j]));
      PairOrder(c.edges[i].0, c.edges[i].1, c.edges[j].0, c.edges[j].1);
    }
  }

  // ---- the order of the components -------------------------------------------------------------

  // Larger components come first, and of two equally large ones that with the smaller number.
  lemma {:induction false} ComponentOrder(g: Graph, edges: seq<Edge>, components: seq<Component>, i: nat, j: nat)
    requires IsComponents(g, edges, components) && SortedBy(ComponentKey, components) && i < j < |components|
    ensures components[i].nodes != [] && components[j].nodes != []
    ensures |components[i].nodes| > |components[j].nodes|
      || (|components[i].nodes| == |components[j].nodes| && components[i].nodes[0] < components[j].nodes[0])
  {
    var c, d := components[i], components[j];
    assert c in components && d in components;
    assert IsComponent(edges, c) && IsComponent(edges, d);
    assert LexLe(ComponentKey(c), ComponentKey(d));
    PairOrder(-(|c.nodes| as int), c.nodes[0], -(|d.nodes| as int), d.nodes[0]);
    assert c.nodes[0] in c.nodes && d.nodes[0] in d.nodes;
    if c.nodes[0] == d.nodes[0] { ReachRefl(g, c.nodes[0]); }
  }

  // ---- the number of branch points ---------------------------------------------------------------

  ghost function Branching(components: seq<Component>): set<int> {
    set c, n | c in components && n in c.branchPoints :: n
  }

  lemma {:induction false} AscendingCount(s: seq<int>)
    requires Ascending(s)
    ensures |set n | n in s| == |s|
  {
    if s == [] {
      assert (set n | n in s) == {};
    } else {
      var m := |s| - 1;
      AscendingCount(s[..m]);
      assert s == s[..m] + [s[m]];
      assert (set n | n in s) == (set n | n in s[..m]) + {s[m]};
    }
  }

  ghost predicate BranchesApart(c: Component, d: Component) {
    forall n :: n in c.branchPoints ==> n !in d.branchPoints
  }

  lemma {:induction false} FirstApart(c: Component, rest: seq<Component>)
    requires forall d :: d in rest ==> BranchesApart(c, d)
    ensures |Branching([c] + rest)| == |set n | n in c.branchPoints| + |Branching(rest)|
  {
    var here := set n | n in c.branchPoints;
    var all := [c] + rest;
    assert forall d :: d in all <==> d == c || d in rest;
    forall n ensures n in Branching(all) <==> n in here || n in Branching(rest) {
      if n in here { assert c in all && n in c.branchPoints; }
      if n in Branching(rest) {
        var d :| d in rest && n in d.branchPoints;
        assert d in all;
      }
    }
    assert Branching(all) == here + Branching(rest);
    assert here !! Branching(rest);
  }

  lemma {:induction false} BranchPointsCounted(components: seq<Component>)
    requires forall c :: c in components ==> Ascending(c.branchPoints)
    requires forall i, j :: 0 <= i < j < |components| ==> BranchesApart(components[i], components[j])
    ensures BranchPoints(components) == |Branching(components)|
  {
    if components == [] {
      assert Branching(components) == {};
    } else {
      var c, rest := components[0], components[1..];
      assert components == [c] + rest;
      forall i, j | 0 <= i < j < |rest| ensures BranchesApart(rest[i], rest[j]) {
        assert BranchesApart(components[i + 1], components[j + 1]);
      }
      forall d | d in rest ensures BranchesApart(c, d) {
        var j :| 0 <= j < |rest| && rest[j] == d;
        assert BranchesApart(components[0], components[j + 1]);
      }
      BranchPointsCounted(rest);
      AscendingCount(c.branchPoints);
      FirstApart(c, rest);
    }
  }

  lemma {:induction false} ComponentsApart(g: Graph, edges: seq<Edge>, components: seq<Component>, i: nat, j: nat)
    requires IsComponents(g, edges, components) && i < j < |components|
    ensures BranchesApart(components[i], components[j])
  {
    hide Reach, IsBranchPoint, Incident;
    var c, d := components[i], components[j];
    assert c in components && d in components;
    assert IsComponent(edges, c) && IsComponent(edges, d);
    forall n | n in c.branchPoints ensures n !in d.branchPoints { ReachRefl(g, n); }
  }

  // The count is the number of branching nodes, each once.
  lemma {:induction false} BranchPointsTotal(g: Graph, edges: seq<Edge>, components: seq<Component>)
    requires IsComponents(g, edges, components)
    ensures BranchPoints(components) == |Branching(components)|
    ensures forall n :: n in Branching(components) <==> Incident(edges, n) && IsBranchPoint(edges, n)
  {
    hide Reach, IsBranchPoint, Incident;
    forall c | c in components ensures Ascending(c.branchPoints) { assert IsComponent(edges, c); }
    forall i, j | 0 <= i < j < |components| ensures BranchesApart(components[i], components[j]) {
      ComponentsApart(g, edges, components, i, j);
    }
    BranchPointsCounted(components);
    forall n ensures n in Branching(components) <==> Incident(edges, n) && IsBranchPoint(edges, n) {
      if n in Branching(components) {
        var c :| c in components && n in c.branchPoints;
        assert IsComponent(edges, c);
      }
      if Incident(edges, n) && IsBranchPoint(edges, n) {
        var c :| c in components && n in c.nodes;
        assert IsComponent(edges, c);
      }
    }
  }
}
