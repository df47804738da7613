// Directed graphs given by successor sets, paths in them, and reachability.
module Reachability {

  type Graph = map<int, set<int>>

  function Succ(g: Graph, u: int): set<int> {
    if u in g then g[u] else {}
  }

  // Every key and every successor of a key.
  function Nodes(g: Graph): set<int> {
    g.Keys + set u, v | u in g && v in g[u] :: v
  }

  ghost predicate Path(g: Graph, p: seq<int>) {
    |p| > 0 && forall i :: 0 <= i < |p| - 1 ==> p[i + 1] in Succ(g, p[i])
  }

  ghost predicate PathBetween(g: Graph, p: seq<int>, u: int, v: int) {
    Path(g, p) && p[0] == u && p[|p| - 1] == v
  }

  ghost predicate Reach(g: Graph, u: int, v: int) {
    exists p :: PathBetween(g, p, u, v)
  }

  // Each of the two nodes reaches the other.
  ghost predicate Mutual(g: Graph, u: int, v: int) {
    Reach(g, u, v) && Reach(g, v, u)
  }

  // The node starts and ends a path of at least one edge; a self-loop counts.
  ghost predicate OnCycle(g: Graph, n: int) {
    exists p :: PathBetween(g, p, n, n) && |p| > 1
  }

  lemma ReachRefl(g: Graph, u: int)
    ensures Reach(g, u, u)
  {
    assert PathBetween(g, [u], u, u);
  }

  lemma ReachEdge(g: Graph, u: int, v: int)
    requires v in Succ(g, u)
    ensures Reach(g, u, v)
  {
    assert PathBetween(g, [u, v], u, v);
  }

  lemma ReachTrans(g: Graph, u: int, v: int, w: int)
    requires Reach(g, u, v) && Reach(g, v, w)
    ensures Reach(g, u, w)
  {
    var p :| PathBetween(g, p, u, v);
    var q :| PathBetween(g, q, v, w);
    var r := p + q[1..];
    forall i | 0 <= i < |r| - 1 ensures r[i + 1] in Succ(g, r[i]) {
      if i >= |p| - 1 {
        assert r[i] == q[i - (|p| - 1)] && r[i + 1] == q[i + 1 - (|p| - 1)];
      }
    }
    assert PathBetween(g, r, u, w);
  }

  lemma ReachEdgeTrans(g: Graph, u: int, v: int, w: int)
    requires Reach(g, u, v) && w in Succ(g, v)
    ensures Reach(g, u, w)
  {
    ReachEdge(g, v, w);
    ReachTrans(g, u, v, w);
  }

  // A set that no edge leaves keeps everything its members reach.
  lemma ClosedReach(g: Graph, s: set<int>, u: int, v: int)
    requires forall x, y :: x in s && y in Succ(g, x) ==> y in s
    requires u in s && Reach(g, u, v)
    ensures v in s
  {
    var p :| PathBetween(g, p, u, v);
    for i := 1 to |p|
      invariant forall k :: 0 <= k < i ==> p[k] in s
    {
      var j := i - 1;
      assert p[j + 1] in Succ(g, p[j]);
    }
  }

  // A node is on a cycle iff it has a self-loop or shares its mutual-reachability
  // class with another node.
  lemma OnCycleIff(g: Graph, n: int)
    ensures OnCycle(g, n) <==> n in Succ(g, n) || exists m :: m != n && Mutual(g, n, m)
  {
    if OnCycle(g, n) {
      var p :| PathBetween(g, p, n, n) && |p| > 1;
      var m := p[1];
      assert p[0 + 1] in Succ(g, p[0]);
      if m != n {
        ReachEdge(g, n, m);
        assert PathBetween(g, p[1..], m, n) by {
          forall i | 0 <= i < |p[1..]| - 1 ensures p[1..][i + 1] in Succ(g, p[1..][i]) {
            assert p[(i + 1) + 1] in Succ(g, p[i + 1]);
          }
        }
        assert Mutual(g, n, m);
      }
    }
    if n in Succ(g, n) {
      assert PathBetween(g, [n, n], n, n);
    }
    if m :| m != n && Mutual(g, n, m) {
      var p :| PathBetween(g, p, n, m);
      var q :| PathBetween(g, q, m, n);
      var r := p + q[1..];
      forall i | 0 <= i < |r| - 1 ensures r[i + 1] in Succ(g, r[i]) {
        if i >= |p| - 1 {
          assert r[i] == q[i - (|p| - 1)] && r[i + 1] == q[i + 1 - (|p| - 1)];
        }
      }
      assert |p| > 1;
      assert PathBetween(g, r, n, n);
    }
  }
}
