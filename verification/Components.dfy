// Connected components of the supersession graph.
module Components {
  // The graph is taken without direction; one traversal with a frontier stack assigns every
  // incident node to a component.
  import opened Common
  import opened Reachability
  import opened Sorting

  type Edge = (int, int)

  // ---- The graph the edges span -----------------------------------------------------

  ghost predicate Symmetric(g: Graph) {
    forall x, y :: y in Succ(g, x) ==> x in Succ(g, y)
  }

  predicate Touches(e: Edge, n: int) {
    e.0 == n || e.1 == n
  }

  // The node ends some edge.
  ghost predicate Incident(edges: seq<Edge>, n: int) {
    exists e :: e in edges && Touches(e, n)
  }

  predicate Joins(e: Edge, x: int, y: int) {
    e == (x, y) || e == (y, x)
  }

  // The graph has the incident nodes, and joins two exactly when an edge does, either way.
  ghost predicate Spans(g: Graph, edges: seq<Edge>) {
    && (forall n :: n in g <==> Incident(edges, n))
    && (forall x, y :: y in Succ(g, x) <==> exists e :: e in edges && Joins(e, x, y))
  }

  function Link(g: Graph, a: int, b: int): Graph {
    g[a := Succ(g, a) + {b}]
  }

  lemma {:induction false} SpansSnoc(g: Graph, edges: seq<Edge>, i: nat)
    requires i < |edges| && Spans(g, edges[..i])
    ensures Spans(Link(Link(g, edges[i].0, edges[i].1), edges[i].1, edges[i].0), edges[..i + 1])
  {
    var e := edges[i];
    var h := Link(Link(g, e.0, e.1), e.1, e.0);
    assert edges[..i + 1] == edges[..i] + [e];
    assert forall d :: d in edges[..i + 1] <==> d in edges[..i] || d == e;
    forall n ensures n in h <==> Incident(edges[..i + 1], n) {
      assert Incident(edges[..i + 1], n) <==> Incident(edges[..i], n) || Touches(e, n);
    }
    forall x, y ensures y in Succ(h, x) <==> exists d :: d in edges[..i + 1] && Joins(d, x, y) {
      assert y in Succ(h, x) <==> y in Succ(g, x) || Joins(e, x, y);
    }
  }

  lemma {:induction false} SpansSymmetric(g: Graph, edges: seq<Edge>)
    requires Spans(g, edges)
    ensures Symmetric(g)
  {
    forall x, y | y in Succ(g, x) ensures x in Succ(g, y) {
      var e :| e in edges && Joins(e, x, y);
      assert Joins(e, y, x);
    }
  }

  method BuildAdjacency(edges: seq<Edge>) returns (g: Graph)
    ensures Spans(g, edges) && Symmetric(g)
  {
    g := map[];
    var i := 0;
    while i < |edges|
      invariant i <= |edges| && Spans(g, edges[..i])
    {
      var e := edges[i];
      SpansSnoc(g, edges, i);
      g := Link(Link(g, e.0, e.1), e.1, e.0);
      i := i + 1;
    }
    assert edges[..i] == edges;
    SpansSymmetric(g, edges);
  }

  lemma {:induction false} ReachBack(g: Graph, x: int, y: int)
    requires Symmetric(g) && Reach(g, x, y)
    ensures Reach(g, y, x)
  {
    var p :| PathBetween(g, p, x, y);
    var r := seq(|p|, i requires 0 <= i < |p| => p[|p| - 1 - i]);
    forall i | 0 <= i < |r| - 1 ensures r[i + 1] in Succ(g, r[i]) {
      var k := |p| - 2 - i;
      assert p[k + 1] in Succ(g, p[k]);
    }
    assert PathBetween(g, r, y, x);
  }

  // ---- One component -------------------------------------------------------------------

  // Nothing leads out of the set.
  ghost predicate Sealed(g: Graph, s: set<int>) {
    forall x, y :: x in s && y in Succ(g, x) ==> y in s
  }

  // Half-way through a traversal from `seed`.
  ghost predicate Flooding(g: Graph, before: set<int>, seed: int, members: set<int>, frontier: seq<int>) {
    && members !! before
    && members <= g.Keys
    && (forall m :: m in members ==> Reach(g, seed, m))
    && (forall f :: f in frontier ==> Reach(g, seed, f) && f in g)
    && (forall m, n :: m in members && n in Succ(g, m) ==> n in members || n in frontier)
    && (seed in members || seed in frontier)
  }

  // The members have the new component, everyone else the one it had.
  ghost predicate Assigns(before: map<int, nat>, members: set<int>, cid: nat, after: map<int, nat>) {
    && after.Keys == before.Keys + members
    && (forall n :: n in after ==> after[n] == if n in members then cid else before[n])
  }

  ghost predicate Undirected(g: Graph) {
    Symmetric(g) && forall x :: x in g ==> Succ(g, x) <= g.Keys
  }

  lemma {:induction false} FloodStarts(g: Graph, seed: int, cid: nat, componentOf: map<int, nat>)
    requires seed in g && seed !in componentOf
    ensures Flooding(g, componentOf.Keys, seed, {}, [seed]) && Assigns(componentOf, {}, cid, componentOf)
  {
    ReachRefl(g, seed);
    hide Reach;
  }

  lemma {:induction false} LastSplit(s: seq<int>)
    requires s != []
    ensures s == s[..|s| - 1] + [s[|s| - 1]]
  {
  }

  lemma {:induction false} AssignsMore(before: map<int, nat>, members: set<int>, cid: nat, after: map<int, nat>, node: int)
    requires Assigns(before, members, cid, after) && node !in after
    ensures Assigns(before, members + {node}, cid, after[node := cid])
    ensures after[node := cid].Keys == after.Keys + {node}
  {
  }

  lemma {:induction false} Shrinks(all: set<int>, taken: set<int>, x: int)
    requires x in all && x !in taken
    ensures |all - (taken + {x})| < |all - taken|
  {
    assert all - taken == (all - (taken + {x})) + {x};
  }

  // The neighbours still without a component, in some order.
  method Unassigned(neighbours: set<int>, assignedTo: map<int, nat>, node: int) returns (more: seq<int>)
    ensures forall n :: n in more <==> n in neighbours && n !in assignedTo
  {
    var order := Sorted(neighbours);
    more := [];
    var i := 0;
    while i < |order|
      invariant i <= |order|
      invariant forall n :: n in more <==> n in order[..i] && n !in assignedTo
    {
      assert order[..i + 1] == order[..i] + [order[i]];
      if order[i] !in assignedTo {
        more := more + [order[i]];
      }
      i := i + 1;
    }
    assert order[..i] == order;
  }

  lemma {:induction false} FloodSkips(g: Graph, before: set<int>, seed: int, members: set<int>, frontier: seq<int>, node: int)
    requires Undirected(g) && Sealed(g, before) && seed !in before
    requires Flooding(g, before, seed, members, frontier + [node]) && node in before + members
    ensures Flooding(g, before, seed, members, frontier)
  {
    var all := frontier + [node];
    assert forall n :: n in all <==> n in frontier || n == node;
    if node in before {
      ReachBack(g, seed, node);
      ClosedReach(g, before, node, seed);
    }
  }

  lemma {:induction false} FloodGrows(g: Graph, before: set<int>, seed: int, members: set<int>, frontier: seq<int>,
                                      node: int, more: seq<int>)
    requires Flooding(g, before, seed, members, frontier + [node]) && node !in before + members
    requires Undirected(g) && Sealed(g, before)
    requires forall n :: n in more <==> n in Succ(g, node) && n !in before + members
    ensures node in g && Flooding(g, before, seed, members + {node}, frontier + more)
  {
    var all := frontier + [node];
    assert node in all;
    assert forall n :: n in all <==> n in frontier || n == node;
    forall n | n in Succ(g, node) ensures Reach(g, seed, n) && n in g && n !in before {
      ReachEdgeTrans(g, seed, node, n);
      assert node in Succ(g, n);
    }
  }

  lemma {:induction false} FloodEnds(g: Graph, before: set<int>, seed: int, members: set<int>)
    requires Flooding(g, before, seed, members, []) && Sealed(g, before)
    ensures forall n :: n in members <==> Reach(g, seed, n)
    ensures seed in members && Sealed(g, before + members) && members !! before && members <= g.Keys
  {
    assert seed in members;
    forall n | Reach(g, seed, n) ensures n in members { ClosedReach(g, members, seed, n); }
  }

  lemma {:induction false} AssignedKeys(before: map<int, nat>, members: set<int>, cid: nat, after: map<int, nat>)
    requires Assigns(before, members, cid, after)
    ensures after.Keys == before.Keys + members
    ensures forall n :: n in before || n in members ==> n in after
  {
  }

  method Flood(g: Graph, seed: int, cid: nat, componentOf: map<int, nat>)
    returns (after: map<int, nat>, members: set<int>)
    requires Undirected(g) && seed in g
    requires Sealed(g, componentOf.Keys) && componentOf.Keys <= g.Keys && seed !in componentOf
    ensures forall n :: n in members <==> Reach(g, seed, n)
    ensures seed in members && members !! componentOf.Keys && members <= g.Keys
    ensures Sealed(g, after.Keys) && Assigns(componentOf, members, cid, after)
  {
    hide Flooding, Sealed, Undirected, Reach, Succ, Assigns;
    var frontier := [seed];
    members := {};
    after := componentOf;
    FloodStarts(g, seed, cid, componentOf);
    while frontier != []
      invariant Flooding(g, componentOf.Keys, seed, members, frontier)
      invariant Assigns(componentOf, members, cid, after)
      decreases |g.Keys - after.Keys|, |frontier|
    {
      var node := frontier[|frontier| - 1];
      LastSplit(frontier);
      frontier := frontier[..|frontier| - 1];
      AssignedKeys(componentOf, members, cid, after);
      if node in after {
        FloodSkips(g, componentOf.Keys, seed, members, frontier, node);
      } else {
        var more := Unassigned(Succ(g, node), after, node);
        FloodGrows(g, componentOf.Keys, seed, members, frontier, node, more);
        AssignsMore(componentOf, members, cid, after, node);
        Shrinks(g.Keys, after.Keys, node);
        after := after[node := cid];
        members := members + {node};
        frontier := frontier + more;
      }
    }
    FloodEnds(g, componentOf.Keys, seed, members);
    AssignedKeys(componentOf, members, cid, after);
  }

  // ---- All components ------------------------------------------------------------------------

  // A node is in the class its component number names, and in no other.
  ghost predicate Indexed(componentOf: map<int, nat>, classes: seq<set<int>>) {
    && (forall n :: n in componentOf ==> componentOf[n] < |classes|)
    && (forall i, n :: 0 <= i < |classes| ==> (n in classes[i] <==> n in componentOf && componentOf[n] == i))
  }

  // The classes found so far: each the reach class of each of its members, together the
  // nodes that have a component.
  ghost predicate Classes(g: Graph, componentOf: map<int, nat>, classes: seq<set<int>>) {
    && Indexed(componentOf, classes)
    && (forall i :: 0 <= i < |classes| ==> classes[i] != {})
    && (forall i, x, y :: 0 <= i < |classes| && x in classes[i] ==> (y in classes[i] <==> Reach(g, x, y)))
  }

  lemma {:induction false} ClassesStart(g: Graph)
    ensures var none: map<int, nat> := map[]; Classes(g, none, []) && Sealed(g, none.Keys)
  {
    hide Reach;
  }

  lemma {:induction false} SameClass(g: Graph, seed: int, x: int, y: int)
    requires Symmetric(g) && Reach(g, seed, x)
    ensures Reach(g, seed, y) <==> Reach(g, x, y)
  {
    ReachBack(g, seed, x);
    if Reach(g, seed, y) { ReachTrans(g, x, seed, y); }
    if Reach(g, x, y) { ReachTrans(g, seed, x, y); }
  }

  lemma {:induction false} ClassesSnoc(g: Graph, componentOf: map<int, nat>, classes: seq<set<int>>, seed: int,
                                       members: set<int>, after: map<int, nat>)
    requires Undirected(g) && Classes(g, componentOf, classes)
    requires forall n :: n in members <==> Reach(g, seed, n)
    requires seed in members && members !! componentOf.Keys && Assigns(componentOf, members, |classes|, after)
    ensures Classes(g, after, classes + [members])
  {
    hide Reach, Symmetric;
    var all := classes + [members];
    forall x, y | x in members ensures y in members <==> Reach(g, x, y) { SameClass(g, seed, x, y); }
    forall i, n | 0 <= i < |all| ensures n in all[i] <==> n in after && after[n] == i {
      if i < |classes| { assert n in classes[i] <==> n in componentOf && componentOf[n] == i; }
    }
  }

  method FindClasses(g: Graph) returns (componentOf: map<int, nat>, classes: seq<set<int>>)
    requires Undirected(g)
    ensures componentOf.Keys == g.Keys && Classes(g, componentOf, classes)
  {
    componentOf, classes := map[], [];
    ClassesStart(g);
    hide *;
    var seeds := Sorted(g.Keys);
    var i := 0;
    while i < |seeds|
      invariant i <= |seeds|
      invariant Classes(g, componentOf, classes) && Sealed(g, componentOf.Keys) && componentOf.Keys <= g.Keys
      invariant forall k :: 0 <= k < i ==> seeds[k] in componentOf
    {
      var seed := seeds[i];
      assert seed in seeds;
      if seed !in componentOf {
        var after, members := Flood(g, seed, |classes|, componentOf);
        ClassesSnoc(g, componentOf, classes, seed, members, after);
        AssignedKeys(componentOf, members, |classes|, after);
        componentOf := after;
        classes := classes + [members];
      }
      i := i + 1;
    }
    forall n | n in g ensures n in componentOf {
      assert n in seeds;
    }
  }

  // ---- The payload ----------------------------------------------------------------------------

  datatype Component = Component(nodes: seq<int>, edges: seq<Edge>, branchPoints: seq<int>)

  function OutDegree(edges: seq<Edge>, n: int): nat {
    if edges == [] then 0
    else OutDegree(edges[..|edges| - 1], n) + if edges[|edges| - 1].0 == n then 1 else 0
  }

  function InDegree(edges: seq<Edge>, n: int): nat {
    if edges == [] then 0
    else InDegree(edges[..|edges| - 1], n) + if edges[|edges| - 1].1 == n then 1 else 0
  }

  // Two or more edges in one direction.
  predicate IsBranchPoint(edges: seq<Edge>, n: int) {
    OutDegree(edges, n) > 1 || InDegree(edges, n) > 1
  }

  // The edges that start in the set, in file order.
  function EdgesFrom(edges: seq<Edge>, members: set<int>): seq<Edge> {
    if edges == [] then []
    else EdgesFrom(edges[..|edges| - 1], members) + if edges[|edges| - 1].0 in members then [edges[|edges| - 1]] else []
  }

  function EdgeKey(e: Edge): seq<int> {
    [e.0, e.1]
  }

  function ComponentOf(edges: seq<Edge>, members: set<int>): Component {
    Component(Sorted(members), SortBy(EdgeKey, EdgesFrom(edges, members)),
              Sorted(set n | n in members && IsBranchPoint(edges, n)))
  }

  // Larger components first, then by their smallest number.
  function ComponentKey(c: Component): seq<int> {
    [-(|c.nodes| as int), if c.nodes == [] then 0 else c.nodes[0]]
  }

  // Counts the ends of the edges node by node, as two maps.
  method Degrees(edges: seq<Edge>) returns (outs: map<int, nat>, ins: map<int, nat>)
    ensures forall n :: (if n in outs then outs[n] else 0) == OutDegree(edges, n)
    ensures forall n :: (if n in ins then ins[n] else 0) == InDegree(edges, n)
  {
    outs, ins := map[], map[];
    var i := 0;
    while i < |edges|
      invariant i <= |edges|
      invariant forall n :: (if n in outs then outs[n] else 0) == OutDegree(edges[..i], n)
      invariant forall n :: (if n in ins then ins[n] else 0) == InDegree(edges[..i], n)
    {
      var e := edges[i];
      assert edges[..i + 1][..i] == edges[..i];
      outs := outs[e.0 := (if e.0 in outs then outs[e.0] else 0) + 1];
      ins := ins[e.1 := (if e.1 in ins then ins[e.1] else 0) + 1];
      i := i + 1;
    }
    assert edges[..i] == edges;
  }

  lemma {:induction false} IndexedAt(componentOf: map<int, nat>, classes: seq<set<int>>, n: int)
    requires Indexed(componentOf, classes) && n in componentOf
    ensures componentOf[n] < |classes|
    ensures forall k :: 0 <= k < |classes| ==> (n in classes[k] <==> k == componentOf[n])
  {
  }

  // Buckets the edges by the component of their first end.
  method EdgesByComponent(edges: seq<Edge>, componentOf: map<int, nat>, classes: seq<set<int>>)
    returns (buckets: seq<seq<Edge>>)
    requires forall e :: e in edges ==> e.0 in componentOf
    requires Indexed(componentOf, classes)
    ensures |buckets| == |classes|
    ensures forall c :: 0 <= c < |classes| ==> buckets[c] == EdgesFrom(edges, classes[c])
  {
    buckets := seq(|classes|, _ => []);
    var i := 0;
    while i < |edges|
      invariant i <= |edges| && |buckets| == |classes|
      invariant forall c :: 0 <= c < |classes| ==> buckets[c] == EdgesFrom(edges[..i], classes[c])
    {
      var e := edges[i];
      assert e in edges;
      assert edges[..i + 1][..i] == edges[..i];
      var c := componentOf[e.0];
      IndexedAt(componentOf, classes, e.0);
      buckets := buckets[c := buckets[c] + [e]];
      i := i + 1;
    }
    assert edges[..i] == edges;
  }

  // The members of the components are exactly the ends of edges.
  ghost predicate Covers(edges: seq<Edge>, components: seq<Component>) {
    forall n :: Incident(edges, n) <==> exists c :: c in components && n in c.nodes
  }

  // Its nodes ascend, its edges are those that start in it, and its branch points are its
  // nodes with two or more edges in one direction.
  ghost predicate IsComponent(edges: seq<Edge>, c: Component) {
    && c.nodes != [] && Ascending(c.nodes) && Ascending(c.branchPoints)
    && c.edges == SortBy(EdgeKey, EdgesFrom(edges, set n | n in c.nodes))
    && (forall n :: n in c.branchPoints <==> n in c.nodes && IsBranchPoint(edges, n))
  }

  // What the list of components promises, over the undirected graph of the edges.
  ghost predicate IsComponents(g: Graph, edges: seq<Edge>, components: seq<Component>) {
    && Covers(edges, components)
    && (forall c, d, x, y :: c in components && d in components && x in c.nodes && y in d.nodes ==>
          (c == d <==> Reach(g, x, y)))
    && (forall c :: c in components ==> IsComponent(edges, c))
    && Distinct(components)
  }

  lemma {:induction false} ComponentOfIs(edges: seq<Edge>, members: set<int>)
    requires members != {}
    ensures IsComponent(edges, ComponentOf(edges, members))
    ensures forall n :: n in ComponentOf(edges, members).nodes <==> n in members
  {
    var c := ComponentOf(edges, members);
    assert (set n | n in c.nodes) == members;
    assert c.nodes != [] by { var x := Pick(members); assert x in c.nodes; }
    hide IsBranchPoint, EdgesFrom;
  }

  function AllComponents(edges: seq<Edge>, classes: seq<set<int>>): (r: seq<Component>)
    ensures |r| == |classes|
    ensures forall i :: 0 <= i < |classes| ==> r[i] == ComponentOf(edges, classes[i])
  {
    seq(|classes|, i requires 0 <= i < |classes| => ComponentOf(edges, classes[i]))
  }

  lemma {:induction false} SameIndex(g: Graph, componentOf: map<int, nat>, classes: seq<set<int>>, i: nat, j: nat, x: int, y: int)
    requires Classes(g, componentOf, classes) && i < |classes| && j < |classes| && x in classes[i] && y in classes[j]
    ensures i == j <==> Reach(g, x, y)
  {
    assert y in classes[i] <==> Reach(g, x, y);
    assert y in classes[i] <==> componentOf[y] == i;
    assert y in classes[j] <==> componentOf[y] == j;
  }

  // From positions in the list to the components themselves.
  lemma {:induction false} ListedOnce(g: Graph, all: seq<Component>)
    requires forall i :: 0 <= i < |all| ==> all[i].nodes != []
    requires forall i, j, x, y :: 0 <= i < |all| && 0 <= j < |all| && x in all[i].nodes && y in all[j].nodes ==>
      (i == j <==> Reach(g, x, y))
    ensures Distinct(all)
    ensures forall c, d, x, y :: c in all && d in all && x in c.nodes && y in d.nodes ==> (c == d <==> Reach(g, x, y))
  {
    hide Reach;
    forall i, j | 0 <= i < j < |all| ensures all[i] != all[j] {
      var x := all[i].nodes[0];
      assert x in all[i].nodes;
      ReachRefl(g, x);
    }
    forall c, d, x, y | c in all && d in all && x in c.nodes && y in d.nodes ensures c == d <==> Reach(g, x, y) {
      var i :| 0 <= i < |all| && all[i] == c;
      var j :| 0 <= j < |all| && all[j] == d;
    }
  }

  lemma {:induction false} ClassesCover(g: Graph, edges: seq<Edge>, componentOf: map<int, nat>, classes: seq<set<int>>)
    requires Spans(g, edges) && componentOf.Keys == g.Keys && Classes(g, componentOf, classes)
    ensures Covers(edges, AllComponents(edges, classes))
  {
    hide Reach, ComponentOf;
    var all := AllComponents(edges, classes);
    forall n ensures Incident(edges, n) <==> exists c :: c in all && n in c.nodes {
      if n in g {
        var i := componentOf[n];
        assert n in classes[i];
        ComponentOfIs(edges, classes[i]);
        assert all[i] in all && n in all[i].nodes;
      }
      if c :| c in all && n in c.nodes {
        var i :| 0 <= i < |all| && all[i] == c;
        ComponentOfIs(edges, classes[i]);
        assert n in classes[i];
      }
    }
  }

  lemma {:induction false} ClassesAreComponents(g: Graph, edges: seq<Edge>, componentOf: map<int, nat>, classes: seq<set<int>>)
    requires Spans(g, edges) && componentOf.Keys == g.Keys && Classes(g, componentOf, classes)
    ensures IsComponents(g, edges, AllComponents(edges, classes))
  {
    var all := AllComponents(edges, classes);
    ClassesCover(g, edges, componentOf, classes);
    hide Spans, Covers, Reach, ComponentOf, IsComponent;
    forall i | 0 <= i < |classes|
      ensures IsComponent(edges, all[i]) && all[i].nodes != [] && forall n :: n in all[i].nodes <==> n in classes[i]
    {
      ComponentOfIs(edges, classes[i]);
      var x := Pick(classes[i]);
      assert x in all[i].nodes;
    }
    forall i, j, x, y | 0 <= i < |all| && 0 <= j < |all| && x in all[i].nodes && y in all[j].nodes
      ensures i == j <==> Reach(g, x, y)
    {
      SameIndex(g, componentOf, classes, i, j, x, y);
    }
    hide Classes;
    ListedOnce(g, all);
  }

  lemma {:induction false} SortingKeeps(g: Graph, edges: seq<Edge>, components: seq<Component>)
    requires IsComponents(g, edges, components)
    ensures IsComponents(g, edges, SortBy(ComponentKey, components))
    ensures SortedBy(ComponentKey, SortBy(ComponentKey, components))
  {
    var sorted := SortBy(ComponentKey, components);
    SortBySorts(ComponentKey, components);
    hide SortBy, Reach, IsComponent;
    forall c ensures c in sorted <==> c in components {
      assert c in multiset(sorted) <==> c in multiset(components);
    }
    SortedDistinct(components, sorted);
    forall n ensures Incident(edges, n) <==> exists c :: c in sorted && n in c.nodes {
      assert Incident(edges, n) <==> exists c :: c in components && n in c.nodes;
    }
  }

  lemma {:induction false} EdgesFromIn(edges: seq<Edge>, members: set<int>, e: Edge)
    ensures e in EdgesFrom(edges, members) <==> e in edges && e.0 in members
  {
    if edges != [] {
      var n := |edges| - 1;
      assert edges == edges[..n] + [edges[n]];
      EdgesFromIn(edges[..n], members, e);
    }
  }

  lemma {:induction false} EdgeIn(edges: seq<Edge>, c: Component, e: Edge)
    requires IsComponent(edges, c)
    ensures e in c.edges <==> e in edges && e.0 in c.nodes
  {
    var members := set n | n in c.nodes;
    SortByKeeps(EdgeKey, EdgesFrom(edges, members), e);
    EdgesFromIn(edges, members, e);
  }

  // Every edge lands in exactly one component, which holds both its ends.
  lemma {:induction false} EdgesLandOnce(g: Graph, edges: seq<Edge>, components: seq<Component>, e: Edge)
    requires Spans(g, edges) && IsComponents(g, edges, components) && e in edges
    ensures exists c :: c in components && e in c.edges && e.0 in c.nodes && e.1 in c.nodes
    ensures forall c, d :: c in components && d in components && e in c.edges && e in d.edges ==> c == d
  {
    assert Touches(e, e.0) && Touches(e, e.1) && Joins(e, e.0, e.1);
    assert Incident(edges, e.0) && Incident(edges, e.1);
    var c :| c in components && e.0 in c.nodes;
    var d :| d in components && e.1 in d.nodes;
    ReachEdge(g, e.0, e.1);
    hide Reach, Spans;
    assert c == d;
    EdgeIn(edges, c, e);
    forall c', d' | c' in components && d' in components && e in c'.edges && e in d'.edges ensures c' == d' {
      EdgeIn(edges, c', e);
      EdgeIn(edges, d', e);
      ReachRefl(g, e.0);
    }
  }

  function BranchPoints(components: seq<Component>): nat {
    if components == [] then 0 else |components[0].branchPoints| + BranchPoints(components[1..])
  }

  lemma ComponentParts(edges: seq<Edge>, members: set<int>)
    ensures var c, branching := ComponentOf(edges, members), set n | n in members && IsBranchPoint(edges, n);
      c == Component(Sorted(members), SortBy(EdgeKey, EdgesFrom(edges, members)), Sorted(branching))
  {
  }

  lemma {:induction false} SameBranchPoints(edges: seq<Edge>, members: set<int>, outs: map<int, nat>, ins: map<int, nat>)
    requires forall n :: (if n in outs then outs[n] else 0) == OutDegree(edges, n)
    requires forall n :: (if n in ins then ins[n] else 0) == InDegree(edges, n)
    ensures (set n | n in members && ((if n in outs then outs[n] else 0) > 1 || (if n in ins then ins[n] else 0) > 1))
         == (set n | n in members && IsBranchPoint(edges, n))
  {
  }

  // The nodes, edges and branch points of each class, in the order of the classes.
  method BuildPayload(edges: seq<Edge>, classes: seq<set<int>>, buckets: seq<seq<Edge>>,
                      outs: map<int, nat>, ins: map<int, nat>)
    returns (components: seq<Component>)
    requires |buckets| == |classes|
    requires forall c :: 0 <= c < |classes| ==> buckets[c] == EdgesFrom(edges, classes[c])
    requires forall n :: (if n in outs then outs[n] else 0) == OutDegree(edges, n)
    requires forall n :: (if n in ins then ins[n] else 0) == InDegree(edges, n)
    ensures components == AllComponents(edges, classes)
  {
    components := [];
    hide *;
    var i := 0;
    while i < |classes|
      invariant i <= |classes| && |components| == i
      invariant forall k :: 0 <= k < i ==> components[k] == ComponentOf(edges, classes[k])
    {
      var branchPoints := Sorted(set n | n in classes[i] &&
        ((if n in outs then outs[n] else 0) > 1 || (if n in ins then ins[n] else 0) > 1));
      SameBranchPoints(edges, classes[i], outs, ins);
      ComponentParts(edges, classes[i]);
      components := components + [Component(Sorted(classes[i]), SortBy(EdgeKey, buckets[i]), branchPoints)];
      i := i + 1;
    }
    assert components == AllComponents(edges, classes);
  }

  method CountBranchPoints(components: seq<Component>) returns (count: nat)
    ensures count == BranchPoints(components)
  {
    count := 0;
    var i := 0;
    while i < |components|
      invariant i <= |components| && BranchPoints(components) == count + BranchPoints(components[i..])
    {
      count := count + |components[i].branchPoints|;
      assert components[i..][1..] == components[i + 1..];
      i := i + 1;
    }
  }

  lemma {:induction false} SpansUndirected(g: Graph, edges: seq<Edge>)
    requires Spans(g, edges) && Symmetric(g)
    ensures Undirected(g)
  {
    forall x, y | x in g && y in Succ(g, x) ensures y in g {
      var e :| e in edges && Joins(e, x, y);
      assert Touches(e, y);
    }
  }

  lemma {:induction false} EndsAssigned(g: Graph, edges: seq<Edge>, componentOf: map<int, nat>)
    requires Spans(g, edges) && componentOf.Keys == g.Keys
    ensures forall e :: e in edges ==> e.0 in componentOf
    ensures forall n :: n in componentOf.Keys <==> Incident(edges, n)
  {
    forall e | e in edges ensures e.0 in componentOf {
      assert Touches(e, e.0);
    }
  }

  method BuildComponents(edges: seq<Edge>)
    returns (components: seq<Component>, incident: set<int>, branchPointCount: nat, ghost g: Graph)
    ensures Spans(g, edges) && IsComponents(g, edges, components)
    ensures SortedBy(ComponentKey, components)
    ensures forall n :: n in incident <==> Incident(edges, n)
    ensures branchPointCount == BranchPoints(components)
  {
    var adjacency := BuildAdjacency(edges);
    g := adjacency;
    SpansUndirected(adjacency, edges);
    var outs, ins := Degrees(edges);
    var componentOf, classes := FindClasses(adjacency);
    EndsAssigned(adjacency, edges, componentOf);
    ClassesAreComponents(g, edges, componentOf, classes);
    assert Indexed(componentOf, classes);
    var buckets := EdgesByComponent(edges, componentOf, classes);
    incident := componentOf.Keys;
    components := BuildPayload(edges, classes, buckets, outs, ins);
    hide *;
    SortingKeeps(g, edges, components);
    components := SortBy(ComponentKey, components);
    branchPointCount := CountBranchPoints(components);
  }
}
