// Tarjan's strongly connected components, with the explicit work stack of the source.
module Tarjan {
  // The method keeps the source's locals; a `Walk` value snapshots them, so that each kind of
  // step is a few small lemmas about the invariant. What it returns is proved to be exactly
  // the classes of mutual reachability.
  import opened Common
  import opened Reachability

  // One entry of the work stack: a node, its ordered neighbours, the next to look at.
  datatype Frame = Frame(node: int, nbrs: seq<int>, next: nat) {
    ghost function Seen(): seq<int> { nbrs[..Min(next, |nbrs|)] }
  }

  datatype Walk = Walk(
    index: map<int, nat>, low: map<int, nat>, onStack: set<int>, stack: seq<int>,
    result: seq<seq<int>>, counter: nat, work: seq<Frame>)

  // ---- the invariant -------------------------------------------------------

  ghost predicate Sane(w: Walk) {
    && w.index.Keys == w.low.Keys
    && w.onStack <= w.index.Keys
    && (forall k :: 0 <= k < |w.work| ==> w.work[k].node in w.onStack)
  }

  ghost predicate OneIndexEach(w: Walk) {
    forall u, v :: u in w.index && v in w.index && w.index[u] == w.index[v] ==> u == v
  }

  ghost predicate Numbered(g: Graph, w: Walk) {
    && w.index.Keys <= Nodes(g)
    && (forall u :: u in w.index ==> w.index[u] < w.counter)
    && OneIndexEach(w)
  }

  ghost predicate Stacked(w: Walk)
    requires Sane(w)
  {
    && (forall x :: x in w.onStack <==> x in w.stack)
    && (forall i, j :: 0 <= i < j < |w.stack| ==> w.index[w.stack[i]] < w.index[w.stack[j]])
  }

  ghost predicate Framed(g: Graph, w: Walk)
    requires Sane(w)
  {
    && (forall k :: 0 <= k < |w.work| ==>
          && w.work[k].nbrs == Sorted(Succ(g, w.work[k].node))
          && w.work[k].next <= |w.work[k].nbrs|)
    && (forall k, l :: 0 <= k < l < |w.work| ==> w.index[w.work[k].node] < w.index[w.work[l].node])
  }

  ghost predicate Basic(g: Graph, w: Walk) {
    Sane(w) && Numbered(g, w) && Stacked(w) && Framed(g, w)
  }

  // The walk has already looked along the edge from `u` to `v`.
  ghost predicate Explored(g: Graph, w: Walk, u: int, v: int)
  {
    && v in Succ(g, u)
    && forall k :: 0 <= k < |w.work| && w.work[k].node == u ==> v in w.work[k].Seen()
  }

  ghost predicate ExploredVisited(g: Graph, w: Walk)
    requires Basic(g, w)
  {
    forall u, v :: u in w.index && Explored(g, w, u, v) ==> v in w.index
  }

  // Nodes already assigned to a component form a set no edge leaves.
  ghost predicate OffClosed(g: Graph, w: Walk) {
    forall u, v :: u in w.index && u !in w.onStack && v in Succ(g, u) ==> v in w.index && v !in w.onStack
  }

  // An open frame's node reaches everything stacked since it was opened.
  ghost predicate Downward(g: Graph, w: Walk)
    requires Sane(w)
  {
    forall k, x :: 0 <= k < |w.work| && x in w.onStack && w.index[w.work[k].node] <= w.index[x]
      ==> Reach(g, w.work[k].node, x)
  }

  ghost predicate Anchor(g: Graph, w: Walk, x: int, k: int)
    requires Sane(w) && x in w.onStack
  {
    0 <= k < |w.work| && w.index[w.work[k].node] <= w.index[x] && Reach(g, x, w.work[k].node)
  }

  ghost predicate Anchored(g: Graph, w: Walk, x: int)
    requires Sane(w) && x in w.onStack
  {
    exists k :: Anchor(g, w, x, k)
  }

  // Every stacked node reaches an open frame that is no younger.
  ghost predicate Upward(g: Graph, w: Walk)
    requires Sane(w)
  {
    forall x {:trigger Anchored(g, w, x)} :: x in w.onStack ==> Anchored(g, w, x)
  }

  ghost predicate LowWitness(g: Graph, w: Walk, v: int, y: int)
    requires Sane(w) && v in w.onStack
  {
    y in w.onStack && w.index[y] == w.low[v] && Reach(g, v, y)
  }

  // A low link is the index of some stacked node that is reached.
  ghost predicate LowReal(g: Graph, w: Walk, v: int)
    requires Sane(w) && v in w.onStack
  {
    w.low[v] <= w.index[v] && exists y :: LowWitness(g, w, v, y)
  }

  ghost predicate LowSound(g: Graph, w: Walk)
    requires Sane(w)
  {
    forall v {:trigger LowReal(g, w, v)} :: v in w.onStack ==> LowReal(g, w, v)
  }

  // `v` was stacked while frame `k` was the youngest still-open frame.
  ghost predicate InSegment(w: Walk, k: int, v: int)
    requires Sane(w)
  {
    && 0 <= k < |w.work| && v in w.onStack
    && w.index[w.work[k].node] <= w.index[v]
    && (k + 1 < |w.work| ==> w.index[v] < w.index[w.work[k + 1].node])
  }

  ghost predicate LowComplete(g: Graph, w: Walk)
    requires Sane(w)
  {
    forall k, v, y :: InSegment(w, k, v) && y in w.onStack && Explored(g, w, v, y)
      ==> w.low[w.work[k].node] <= w.index[y]
  }

  // `c` lists one whole class of mutual reachability, without repetition.
  ghost predicate IsComponent(g: Graph, c: seq<int>) {
    && c != [] && Distinct(c)
    && forall u, v :: u in c ==> (v in c <==> Mutual(g, u, v))
  }

  ghost predicate ResultOk(g: Graph, w: Walk) {
    && (forall i :: 0 <= i < |w.result| ==> IsComponent(g, w.result[i]))
    && (forall i, u :: 0 <= i < |w.result| && u in w.result[i] ==> u in w.index && u !in w.onStack)
    && (forall u :: u in w.index && u !in w.onStack ==> exists i :: 0 <= i < |w.result| && u in w.result[i])
    && (forall i, j, u :: 0 <= i < j < |w.result| && u in w.result[i] ==> u !in w.result[j])
  }

  ghost predicate Inv(g: Graph, w: Walk) {
    && Basic(g, w) && ExploredVisited(g, w) && OffClosed(g, w) && Downward(g, w) && Upward(g, w)
    && LowSound(g, w) && LowComplete(g, w) && ResultOk(g, w)
  }

  // ---- opening a frame -----------------------------------------------------

  // The first visit of a node: numbered, stacked, and given its own frame.
  ghost function Visit(g: Graph, w: Walk, v: int): Walk {
    Walk(w.index[v := w.counter], w.low[v := w.counter], w.onStack + {v}, w.stack + [v],
         w.result, w.counter + 1, w.work + [Frame(v, Sorted(Succ(g, v)), 0)])
  }

  lemma {:induction false} VisitStacked(g: Graph, w: Walk, v: int)
    requires Sane(w) && Numbered(g, w) && Stacked(w) && v !in w.index
    ensures Sane(Visit(g, w, v)) && Stacked(Visit(g, w, v))
  {
    hide Nodes, Sorted;
    var w' := Visit(g, w, v);
    forall i | 0 <= i < |w.stack| ensures w.stack[i] in w.onStack && w.stack[i] in w.index {
      var x := w.stack[i];
      assert x in w.stack;
    }
    forall i, j | 0 <= i < j < |w'.stack| ensures w'.index[w'.stack[i]] < w'.index[w'.stack[j]] {
      assert w'.stack[i] == w.stack[i];
    }
  }

  lemma {:induction false} VisitBasic(g: Graph, w: Walk, v: int)
    requires Basic(g, w) && v in Nodes(g) && v !in w.index
    ensures Basic(g, Visit(g, w, v))
  {
    hide Nodes, Sorted;
    VisitStacked(g, w, v);
    assert Sane(Visit(g, w, v));
    assert Framed(g, Visit(g, w, v)) by { hide Stacked; }
  }

  lemma {:induction false} VisitExplored(g: Graph, w: Walk, v: int)
    requires Basic(g, w) && Basic(g, Visit(g, w, v)) && v !in w.index
    ensures forall a, b :: Explored(g, Visit(g, w, v), a, b) ==> a != v && Explored(g, w, a, b)
  {
    hide Numbered, Stacked, Sorted, Nodes;
    var w' := Visit(g, w, v);
    var n := |w.work|;
    forall a, b | Explored(g, w', a, b) ensures a != v && Explored(g, w, a, b) {
      assert w'.work[n].node == v && w'.work[n].Seen() == [];
      forall k | 0 <= k < |w.work| && w.work[k].node == a ensures b in w.work[k].Seen() {
        assert w'.work[k] == w.work[k];
      }
    }
  }

  lemma {:induction false} VisitLowSound(g: Graph, w: Walk, v: int)
    requires Sane(w) && Sane(Visit(g, w, v)) && v !in w.index && LowSound(g, w)
    ensures LowSound(g, Visit(g, w, v))
  {
    hide Reach, Sorted;
    var w' := Visit(g, w, v);
    forall x | x in w'.onStack ensures LowReal(g, w', x) {
      if x == v {
        ReachRefl(g, v);
        assert LowWitness(g, w', v, v);
      } else {
        assert LowReal(g, w, x);
        var y :| LowWitness(g, w, x, y);
        assert LowWitness(g, w', x, y);
      }
    }
  }

  lemma {:induction false} VisitLowEdge(g: Graph, w: Walk, v: int, k: int, a: int, b: int)
    requires Sane(w) && Sane(Visit(g, w, v)) && Numbered(g, w) && v !in w.index
    requires LowSound(g, w) && LowComplete(g, w)
    requires InSegment(Visit(g, w, v), k, a) && b in Visit(g, w, v).onStack
    requires a != v && k < |w.work| && Explored(g, w, a, b)
    ensures Visit(g, w, v).low[Visit(g, w, v).work[k].node] <= Visit(g, w, v).index[b]
  {
    hide Reach, Sorted, Nodes, Explored, OneIndexEach;
    var w' := Visit(g, w, v);
    var u := w.work[k].node;
    assert w'.work[k] == w.work[k] && u in w.onStack && u != v;
    assert w'.index[u] == w.index[u] && w'.low[u] == w.low[u];
    if b == v {
      assert LowReal(g, w, u);
    } else {
      if k + 1 < |w.work| {
        var u' := w.work[k + 1].node;
        assert w'.work[k + 1] == w.work[k + 1] && u' in w.onStack && u' != v;
        assert w'.index[u'] == w.index[u'];
      }
      assert InSegment(w, k, a);
    }
  }

  lemma {:induction false} VisitLowComplete(g: Graph, w: Walk, v: int)
    requires Basic(g, w) && Basic(g, Visit(g, w, v)) && v !in w.index
    requires LowSound(g, w) && LowComplete(g, w)
    ensures LowComplete(g, Visit(g, w, v))
  {
    VisitExplored(g, w, v);
    hide OneIndexEach, Stacked, Framed, LowSound, Explored;
    var w' := Visit(g, w, v);
    forall k, a, b | InSegment(w', k, a) && b in w'.onStack && Explored(g, w', a, b)
      ensures w'.low[w'.work[k].node] <= w'.index[b]
    {
      assert k < |w.work| by { assert w'.work[|w.work|].node == v; }
      VisitLowEdge(g, w, v, k, a, b);
    }
  }

  // A visited node is the youngest: the frame below reaches it through the edge just taken.
  lemma {:induction false} VisitDownward(g: Graph, w: Walk, v: int)
    requires Basic(g, w) && Sane(Visit(g, w, v)) && v !in w.index && Downward(g, w)
    requires w.work != [] ==> v in Succ(g, w.work[|w.work| - 1].node)
    ensures Downward(g, Visit(g, w, v))
  {
    hide Stacked, Reach, Sorted, Nodes;
    var w' := Visit(g, w, v);
    var n := |w.work|;
    forall k, x | 0 <= k < |w'.work| && x in w'.onStack && w'.index[w'.work[k].node] <= w'.index[x]
      ensures Reach(g, w'.work[k].node, x)
    {
      if k == n {
        assert x == v;
        ReachRefl(g, v);
      } else {
        assert w'.work[k] == w.work[k];
        if x == v {
          var u := w.work[n - 1].node;
          assert Reach(g, w.work[k].node, u);
          ReachEdgeTrans(g, w.work[k].node, u, v);
        }
      }
    }
  }

  lemma {:induction false} VisitUpward(g: Graph, w: Walk, v: int)
    requires Sane(w) && Sane(Visit(g, w, v)) && v !in w.index && Upward(g, w)
    ensures Upward(g, Visit(g, w, v))
  {
    hide Reach, Sorted, Succ;
    var w' := Visit(g, w, v);
    ReachRefl(g, v);
    assert Anchor(g, w', v, |w.work|);
    forall x | x in w'.onStack ensures Anchored(g, w', x) {
      if x != v {
        assert Anchored(g, w, x);
        var k :| Anchor(g, w, x, k);
        var u := w.work[k].node;
        assert w'.work[k] == w.work[k] && u in w.index;
        assert w'.index[u] == w.index[u] && w'.index[x] == w.index[x];
        assert Anchor(g, w', x, k);
      }
    }
  }

  lemma {:induction false} VisitResult(g: Graph, w: Walk, v: int)
    requires Sane(w) && ResultOk(g, w) && OffClosed(g, w) && v !in w.index
    ensures ResultOk(g, Visit(g, w, v)) && OffClosed(g, Visit(g, w, v))
  {
    hide IsComponent, Succ, Sorted;
    var w' := Visit(g, w, v);
    assert forall u :: u in w'.index && u !in w'.onStack ==> u in w.index && u !in w.onStack;
  }

  lemma {:induction false} StepRoot(g: Graph, w: Walk, v: int)
    requires Inv(g, w) && w.work == [] && v in Nodes(g) && v !in w.index
    ensures Inv(g, Visit(g, w, v))
  {
    hide OffClosed, Downward, Upward, LowSound, LowComplete, ResultOk, Numbered, Stacked, Framed, Explored, Nodes;
    VisitBasic(g, w, v);
    VisitExplored(g, w, v);
    VisitLowSound(g, w, v);
    VisitLowComplete(g, w, v);
    VisitDownward(g, w, v);
    VisitUpward(g, w, v);
    VisitResult(g, w, v);
  }

  // ---- looking along one edge ----------------------------------------------

  // The top frame moves on to its next neighbour; the low link of its node may change.
  ghost function Advance(w: Walk, low: map<int, nat>): Walk
    requires w.work != []
  {
    var top := w.work[|w.work| - 1];
    w.(low := low, work := w.work[|w.work| - 1 := top.(next := top.next + 1)])
  }

  ghost predicate AtNeighbour(w: Walk, u: int, v: int) {
    && w.work != []
    && var top := w.work[|w.work| - 1];
    && top.node == u && top.next < |top.nbrs| && top.nbrs[top.next] == v
  }

  lemma {:induction false} AdvanceBasic(g: Graph, w: Walk, low: map<int, nat>, u: int, v: int)
    requires Basic(g, w) && AtNeighbour(w, u, v) && low.Keys == w.low.Keys
    ensures Basic(g, Advance(w, low)) && v in Succ(g, u)
  {
    hide Nodes;
    var w' := Advance(w, low);
    var top := w.work[|w.work| - 1];
    assert v in top.nbrs;
    assert forall k :: 0 <= k < |w.work| ==> w'.work[k].node == w.work[k].node && w'.work[k].nbrs == w.work[k].nbrs;
    assert Sane(w');
    assert Stacked(w') by { hide Framed; }
    assert Framed(g, w') by { hide Stacked; }
  }

  // Exactly the edge from the top node to `v` is newly explored.
  lemma {:induction false} AdvanceExplores(g: Graph, w: Walk, low: map<int, nat>, u: int, v: int)
    requires AtNeighbour(w, u, v)
    ensures forall a, b :: Explored(g, Advance(w, low), a, b) ==> Explored(g, w, a, b) || (a == u && b == v)
  {
    hide Succ;
    var w' := Advance(w, low);
    var n := |w.work| - 1;
    assert w'.work[n].Seen() == w.work[n].Seen() + [v];
    forall a, b | Explored(g, w', a, b) && !(a == u && b == v) ensures Explored(g, w, a, b) {
      forall k | 0 <= k < |w.work| && w.work[k].node == a ensures b in w.work[k].Seen() {
        assert w'.work[k].node == a;
      }
    }
  }

  // The open frames still name the same nodes over the same stack.
  ghost predicate SameFrames(w: Walk, w': Walk) {
    && w'.index == w.index && w'.onStack == w.onStack && |w'.work| == |w.work|
    && forall k :: 0 <= k < |w.work| ==> w'.work[k].node == w.work[k].node
  }

  lemma {:induction false} SameDownward(g: Graph, w: Walk, w': Walk)
    requires Sane(w) && Sane(w') && SameFrames(w, w') && Downward(g, w)
    ensures Downward(g, w')
  {
    hide Reach;
  }

  lemma {:induction false} SameUpward(g: Graph, w: Walk, w': Walk)
    requires Sane(w) && Sane(w') && SameFrames(w, w') && Upward(g, w)
    ensures Upward(g, w')
  {
    hide Reach, Sane;
    forall x | x in w'.onStack ensures Anchored(g, w', x) {
      assert Anchored(g, w, x);
      var k :| Anchor(g, w, x, k);
      assert Anchor(g, w', x, k);
    }
  }

  // Low links after looking along the edge to `v`: the top node's drops to the index of a
  // neighbour that is still stacked, and nothing else moves.
  ghost predicate Lowered(w: Walk, low: map<int, nat>, u: int, v: int)
    requires u in w.low
  {
    if v in w.onStack && v in w.index then low == w.low[u := Min(w.low[u], w.index[v])] else low == w.low
  }

  lemma {:induction false} LoweredSound(g: Graph, w: Walk, w': Walk, u: int, v: int)
    requires Sane(w) && Sane(w') && SameFrames(w, w') && LowSound(g, w)
    requires u in w.low && v in Succ(g, u) && Lowered(w, w'.low, u, v)
    ensures LowSound(g, w')
  {
    hide Reach, Succ;
    ReachEdge(g, u, v);
    forall x | x in w'.onStack ensures LowReal(g, w', x) {
      assert LowReal(g, w, x);
      var y :| LowWitness(g, w, x, y);
      if w'.low[x] == w.low[x] {
        assert LowWitness(g, w', x, y);
      } else {
        assert x == u && LowWitness(g, w', x, v);
      }
    }
  }

  lemma {:induction false} AdvanceLowComplete(g: Graph, w: Walk, low: map<int, nat>, u: int, v: int)
    requires AtNeighbour(w, u, v) && Basic(g, w) && Sane(Advance(w, low)) && LowComplete(g, w)
    requires u in w.low && Lowered(w, low, u, v)
    ensures LowComplete(g, Advance(w, low))
  {
    AdvanceExplores(g, w, low, u, v);
    hide Explored, OneIndexEach, Stacked;
    var w' := Advance(w, low);
    var n := |w.work| - 1;
    assert forall k :: 0 <= k < |w.work| ==> w'.work[k].node == w.work[k].node;
    forall k, a, b | InSegment(w', k, a) && b in w'.onStack && Explored(g, w', a, b)
      ensures w'.low[w'.work[k].node] <= w'.index[b]
    {
      assert InSegment(w, k, a);
      if !Explored(g, w, a, b) {
        assert a == u && b == v && w.work[n].node == u;
        assert k == n;
      }
    }
  }

  lemma {:induction false} SameResult(g: Graph, w: Walk, w': Walk)
    requires w'.index == w.index && w'.onStack == w.onStack && w'.result == w.result
    requires ResultOk(g, w) && OffClosed(g, w)
    ensures ResultOk(g, w') && OffClosed(g, w')
  {
    hide IsComponent, Succ;
  }

  // The neighbour was visited before: on the stack or already in a component.
  lemma {:induction false} StepSeen(g: Graph, w: Walk, low: map<int, nat>, u: int, v: int)
    requires Inv(g, w) && AtNeighbour(w, u, v) && v in w.index
    requires u in w.low && Lowered(w, low, u, v)
    ensures Inv(g, Advance(w, low))
  {
    hide OffClosed, Downward, Upward, LowSound, LowComplete, ResultOk, Stacked, Framed, Explored, Nodes;
    AdvanceBasic(g, w, low, u, v);
    AdvanceExplores(g, w, low, u, v);
    assert SameFrames(w, Advance(w, low));
    SameDownward(g, w, Advance(w, low));
    SameUpward(g, w, Advance(w, low));
    LoweredSound(g, w, Advance(w, low), u, v);
    AdvanceLowComplete(g, w, low, u, v);
    SameResult(g, w, Advance(w, low));
  }

  // The neighbour is new: it gets a frame of its own.
  lemma {:induction false} StepNew(g: Graph, w: Walk, u: int, v: int)
    requires Inv(g, w) && AtNeighbour(w, u, v) && v !in w.index
    ensures v in Nodes(g) && Inv(g, Visit(g, Advance(w, w.low), v))
  {
    hide OffClosed, Downward, Upward, LowSound, LowComplete, ResultOk, Stacked, Framed, Explored;
    var m := Advance(w, w.low);
    assert w.work[|w.work| - 1].node == u;
    AdvanceBasic(g, w, w.low, u, v);
    AdvanceExplores(g, w, w.low, u, v);
    assert SameFrames(w, m);
    SameDownward(g, w, m);
    SameUpward(g, w, m);
    LoweredSound(g, w, m, u, v);
    AdvanceLowComplete(g, w, w.low, u, v);
    SameResult(g, w, m);
    VisitBasic(g, m, v);
    VisitExplored(g, m, v);
    VisitLowSound(g, m, v);
    VisitLowComplete(g, m, v);
    VisitDownward(g, m, v);
    VisitUpward(g, m, v);
    VisitResult(g, m, v);
  }

  // ---- closing a frame -----------------------------------------------------

  ghost predicate Exhausted(w: Walk, u: int) {
    && w.work != []
    && var top := w.work[|w.work| - 1];
    && top.node == u && top.next >= |top.nbrs|
  }

  // All edges out of an exhausted node have been looked at.
  lemma {:induction false} ExhaustedExplored(g: Graph, w: Walk, u: int, v: int)
    requires Basic(g, w) && Exhausted(w, u) && v in Succ(g, u)
    ensures Explored(g, w, u, v)
  {
    hide Numbered, Stacked, Succ;
    var n := |w.work| - 1;
    forall k | 0 <= k < |w.work| && w.work[k].node == u ensures v in w.work[k].Seen() {
      assert k == n;
      assert w.work[n].Seen() == w.work[n].nbrs;
    }
  }

  // The frame below inherits the closed node's low link.
  ghost function Inherit(w: Walk, u: int): map<int, nat>
    requires u in w.low && (|w.work| >= 2 ==> w.work[|w.work| - 2].node in w.low)
  {
    if |w.work| < 2 then w.low
    else
      var p := w.work[|w.work| - 2].node;
      w.low[p := Min(w.low[p], w.low[u])]
  }

  // The frame is dropped; its node stays stacked because it reaches something older.
  ghost function Close(w: Walk, u: int): Walk
    requires w.work != [] && u in w.low && (|w.work| >= 2 ==> w.work[|w.work| - 2].node in w.low)
  {
    w.(low := Inherit(w, u), work := w.work[..|w.work| - 1])
  }

  ghost predicate CanClose(g: Graph, w: Walk, u: int) {
    && Basic(g, w) && Exhausted(w, u) && u in w.low && u in w.index && u in w.onStack
    && (|w.work| >= 2 ==> w.work[|w.work| - 2].node in w.low)
  }

  lemma {:induction false} Closable(g: Graph, w: Walk, u: int)
    requires Basic(g, w) && Exhausted(w, u)
    ensures CanClose(g, w, u)
  {
    hide Numbered, Stacked, Framed;
    assert w.work[|w.work| - 1].node == u;
  }

  lemma {:induction false} CloseBasic(g: Graph, w: Walk, u: int)
    requires CanClose(g, w, u)
    ensures Basic(g, Close(w, u))
  {
    hide Nodes, Sorted;
    var w' := Close(w, u);
    assert forall k :: 0 <= k < |w'.work| ==> w'.work[k] == w.work[k];
    assert Sane(w');
    assert Stacked(w') by { hide Framed; }
    assert Framed(g, w') by { hide Stacked; }
  }

  lemma {:induction false} CloseExplores(g: Graph, w: Walk, u: int)
    requires CanClose(g, w, u)
    ensures forall a, b :: Explored(g, Close(w, u), a, b) ==> Explored(g, w, a, b)
  {
    hide Numbered, Stacked, Succ, Framed;
    var w' := Close(w, u);
    forall a, b | Explored(g, w', a, b) ensures Explored(g, w, a, b) {
      if a == u {
        ExhaustedExplored(g, w, u, b);
      } else {
        forall k | 0 <= k < |w.work| && w.work[k].node == a ensures b in w.work[k].Seen() {
          assert w'.work[k] == w.work[k];
        }
      }
    }
  }

  // Everything but the top frame is unchanged, except for low links.
  ghost predicate Dropped(w: Walk, w': Walk) {
    && w'.index == w.index && w'.onStack == w.onStack && |w'.work| == |w.work| - 1
    && forall k :: 0 <= k < |w'.work| ==> w'.work[k].node == w.work[k].node
  }

  lemma {:induction false} CloseDownward(g: Graph, w: Walk, w': Walk)
    requires Sane(w) && Sane(w') && Dropped(w, w') && Downward(g, w)
    ensures Downward(g, w')
  {
    hide Reach;
  }

  // A node whose low link is below its index reaches an older open frame.
  lemma {:induction false} OlderAnchor(g: Graph, w: Walk, u: int) returns (l: int)
    requires CanClose(g, w, u) && Upward(g, w) && LowSound(g, w) && w.low[u] < w.index[u]
    ensures 0 <= l < |w.work| - 1 && w.index[w.work[l].node] < w.index[u] && Reach(g, u, w.work[l].node)
  {
    hide Reach, Numbered, Stacked, Framed;
    assert LowReal(g, w, u);
    var y :| LowWitness(g, w, u, y);
    assert Anchored(g, w, y);
    l :| Anchor(g, w, y, l);
    ReachTrans(g, u, y, w.work[l].node);
    assert w.work[|w.work| - 1].node == u;
  }

  // A node anchored at the closed frame is anchored at the older one it reaches.
  lemma {:induction false} CloseAnchor(g: Graph, w: Walk, w': Walk, u: int, l: int, x: int)
    requires Sane(w) && Sane(w') && Dropped(w, w') && x in w.onStack && Anchored(g, w, x)
    requires 0 <= l < |w.work| - 1 && w.work[|w.work| - 1].node == u
    requires w.index[w.work[l].node] <= w.index[u] && Reach(g, u, w.work[l].node)
    ensures Anchored(g, w', x)
  {
    hide Reach;
    var k :| Anchor(g, w, x, k);
    if k < |w.work| - 1 {
      assert Anchor(g, w', x, k);
    } else {
      ReachTrans(g, x, u, w.work[l].node);
      assert Anchor(g, w', x, l);
    }
  }

  lemma {:induction false} CloseUpward(g: Graph, w: Walk, w': Walk, u: int)
    requires CanClose(g, w, u) && Sane(w') && Dropped(w, w') && Upward(g, w) && LowSound(g, w)
    requires w.low[u] < w.index[u]
    ensures Upward(g, w')
  {
    var l := OlderAnchor(g, w, u);
    var n := |w.work| - 1;
    assert w.work[n].node == u;
    hide Reach, Sane, CanClose, Basic, LowSound, Anchored;
    forall x | x in w'.onStack ensures Anchored(g, w', x) {
      assert Anchored(g, w, x);
      CloseAnchor(g, w, w', u, l, x);
    }
  }

  lemma {:induction false} CloseLowSound(g: Graph, w: Walk, w': Walk, u: int)
    requires CanClose(g, w, u) && Sane(w') && Dropped(w, w') && w'.low == Inherit(w, u)
    requires Downward(g, w) && LowSound(g, w)
    ensures LowSound(g, w')
  {
    var n := |w.work| - 1;
    assert w.work[n].node == u;
    if n >= 1 {
      assert w.index[w.work[n - 1].node] < w.index[u] && Reach(g, w.work[n - 1].node, u);
    }
    hide Reach, Basic, CanClose, Downward;
    forall x | x in w'.onStack ensures LowReal(g, w', x) {
      assert LowReal(g, w, x);
      var y :| LowWitness(g, w, x, y);
      if w'.low[x] == w.low[x] {
        assert LowWitness(g, w', x, y);
      } else {
        assert LowReal(g, w, u);
        var z :| LowWitness(g, w, u, z);
        ReachTrans(g, x, u, z);
        assert LowWitness(g, w', x, z);
      }
    }
  }

  lemma {:induction false} CloseLowComplete(g: Graph, w: Walk, w': Walk, u: int)
    requires CanClose(g, w, u) && Sane(w') && Dropped(w, w') && w'.low == Inherit(w, u)
    requires forall a, b :: Explored(g, w', a, b) ==> Explored(g, w, a, b)
    requires LowComplete(g, w)
    ensures LowComplete(g, w')
  {
    var n := |w.work| - 1;
    assert w.work[n].node == u;
    hide Numbered, Stacked, Explored;
    forall k, a, b | InSegment(w', k, a) && b in w'.onStack && Explored(g, w', a, b)
      ensures w'.low[w'.work[k].node] <= w'.index[b]
    {
      assert k < n && w.index[w.work[k].node] < w.index[w.work[k + 1].node];
      if k + 1 < n {
        assert InSegment(w, k, a);
      } else {
        assert InSegment(w, k, a) || InSegment(w, n, a);
      }
    }
  }

  // The closed node reached something older: it stays stacked.
  lemma {:induction false} StepClose(g: Graph, w: Walk, u: int)
    requires Inv(g, w) && Exhausted(w, u)
    ensures CanClose(g, w, u)
    ensures w.low[u] < w.index[u] ==> Inv(g, Close(w, u))
  {
    hide OffClosed, Downward, Upward, LowSound, LowComplete, ResultOk, Numbered, Stacked, Framed, Explored;
    Closable(g, w, u);
    if w.low[u] < w.index[u] {
      CloseBasic(g, w, u);
      CloseExplores(g, w, u);
      var w' := Close(w, u);
      assert Dropped(w, w');
      CloseDownward(g, w, w');
      CloseUpward(g, w, w', u);
      CloseLowSound(g, w, w', u);
      CloseLowComplete(g, w, w', u);
      SameResult(g, w, w');
    }
  }

  // ---- closing a frame whose node heads a component --------------------------

  function Reversed(s: seq<int>): (r: seq<int>)
    ensures |r| == |s|
    ensures forall x :: x in r <==> x in s
  {
    if s == [] then [] else Reversed(s[1..]) + [s[0]]
  }

  lemma {:induction false} ReversedDistinct(s: seq<int>)
    requires Distinct(s)
    ensures Distinct(Reversed(s))
  {
    if s != [] {
      ReversedDistinct(s[1..]);
      var r := Reversed(s[1..]);
      forall i | 0 <= i < |r| ensures r[i] != s[0] {
        var x := r[i];
        assert x in s[1..];
      }
    }
  }

  // The stack from position `p` on becomes a component.
  ghost function Detach(w: Walk, u: int, p: nat): Walk
    requires w.work != [] && p <= |w.stack|
  {
    w.(stack := w.stack[..p], onStack := w.onStack - (set x | x in w.stack[p..]),
       result := w.result + [Reversed(w.stack[p..])], work := w.work[..|w.work| - 1])
  }

  // `u` heads a component: it is exhausted, lies at stack position `p`, and its low link
  // never fell below its index.
  ghost predicate Heads(g: Graph, w: Walk, u: int, p: nat) {
    && CanClose(g, w, u) && p < |w.stack| && w.stack[p] == u && w.low[u] == w.index[u]
  }

  lemma {:induction false} InheritNothing(g: Graph, w: Walk, u: int)
    requires CanClose(g, w, u) && LowSound(g, w) && w.low[u] == w.index[u]
    ensures Inherit(w, u) == w.low
  {
    hide Numbered, Stacked, Reach;
    var n := |w.work| - 1;
    if n >= 1 {
      var p := w.work[n - 1].node;
      assert LowReal(g, w, p);
      assert w.work[n].node == u;
    }
  }

  lemma {:induction false} StackOrder(w: Walk, i: int, j: int)
    requires Sane(w) && Stacked(w) && 0 <= i <= j < |w.stack|
    ensures w.stack[i] in w.onStack && w.stack[j] in w.onStack
    ensures w.index[w.stack[i]] <= w.index[w.stack[j]]
    ensures i < j ==> w.index[w.stack[i]] < w.index[w.stack[j]]
  {
    var x, y := w.stack[i], w.stack[j];
    assert x in w.stack && y in w.stack;
  }

  // Exactly the stacked nodes that are no older than `u` leave the stack.
  lemma {:induction false} DetachedSet(g: Graph, w: Walk, u: int, p: nat)
    requires Heads(g, w, u, p)
    ensures forall x :: x in w.onStack ==> (x in w.stack[p..] <==> w.index[u] <= w.index[x])
    ensures forall x :: x in w.stack[p..] ==> x in w.onStack
  {
    assert w.onStack <= w.index.Keys && u in w.index;
    hide Numbered, Framed, Sane;
    forall x | x in w.onStack && w.index[u] <= w.index[x] ensures x in w.stack[p..] {
      assert x in w.stack;
      var i :| 0 <= i < |w.stack| && w.stack[i] == x;
      if i < p { StackOrder(w, i, p); }
      assert w.stack[p..][i - p] == x;
    }
    forall x | x in w.stack[p..] ensures x in w.onStack && w.index[u] <= w.index[x] {
      var j :| 0 <= j < |w.stack[p..]| && w.stack[p..][j] == x;
      StackOrder(w, p, p + j);
    }
  }

  lemma {:induction false} DetachedDistinct(g: Graph, w: Walk, u: int, p: nat)
    requires Heads(g, w, u, p)
    ensures Distinct(w.stack[p..])
  {
    hide Numbered, Framed, Sane, Stacked;
    forall i, j | 0 <= i < j < |w.stack[p..]| ensures w.stack[p..][i] != w.stack[p..][j] {
      StackOrder(w, p + i, p + j);
    }
  }

  lemma {:induction false} DetachStacked(g: Graph, w: Walk, u: int, p: nat)
    requires Heads(g, w, u, p) && Sane(Detach(w, u, p))
    ensures Stacked(Detach(w, u, p))
  {
    DetachedSet(g, w, u, p);
    var w' := Detach(w, u, p);
    hide Framed, Numbered, Sane, Reversed;
    forall x | x in w'.onStack ensures x in w'.stack {
      assert x in w.stack;
      var i :| 0 <= i < |w.stack| && w.stack[i] == x;
      if i >= p { StackOrder(w, p, i); }
      assert w'.stack[i] == x;
    }
    forall x | x in w'.stack ensures x in w'.onStack {
      var i :| 0 <= i < p && w.stack[i] == x;
      StackOrder(w, i, p);
    }
    forall i, j | 0 <= i < j < |w'.stack| ensures w'.index[w'.stack[i]] < w'.index[w'.stack[j]] {
      StackOrder(w, i, j);
    }
  }

  // The nodes older than `u` and their frames remain, untouched.
  ghost predicate Shrunk(w: Walk, w': Walk, u: int) {
    && w'.index == w.index && w'.low == w.low && |w'.work| == |w.work| - 1
    && (forall k :: 0 <= k < |w'.work| ==> w'.work[k].node == w.work[k].node)
    && u in w.index && w.onStack <= w.index.Keys
    && (forall x :: x in w'.onStack <==> x in w.onStack && w.index[x] < w.index[u])
  }

  lemma {:induction false} DetachBasic(g: Graph, w: Walk, u: int, p: nat)
    requires Heads(g, w, u, p)
    ensures Basic(g, Detach(w, u, p)) && Shrunk(w, Detach(w, u, p), u)
  {
    DetachedSet(g, w, u, p);
    var w' := Detach(w, u, p);
    var n := |w.work| - 1;
    assert w.work[n].node == u;
    forall k | 0 <= k < |w'.work| ensures w'.work[k] == w.work[k] && w'.work[k].node in w'.onStack {
      hide Numbered, Stacked;
      assert w'.work[k] == w.work[k];
      assert w.index[w.work[k].node] < w.index[u];
    }
    assert Sane(w');
    assert Framed(g, w') by { hide Numbered, Stacked; }
    DetachStacked(g, w, u, p);
    hide Framed, Numbered, Stacked;
  }

  // Edges out of the detached nodes stay inside them or lead to finished components.
  lemma {:induction false} DetachClosed(g: Graph, w: Walk, u: int, p: nat, a: int, b: int)
    requires Heads(g, w, u, p) && ExploredVisited(g, w) && LowComplete(g, w)
    requires a in w.stack[p..] && b in Succ(g, a)
    ensures b in w.index && (b in w.onStack ==> b in w.stack[p..])
  {
    DetachedSet(g, w, u, p);
    hide Numbered, Stacked, Succ;
    var n := |w.work| - 1;
    assert w.work[n].node == u;
    if a == u {
      ExhaustedExplored(g, w, u, b);
    }
    assert Explored(g, w, a, b);
    if b in w.onStack {
      assert InSegment(w, n, a);
    }
  }

  lemma {:induction false} DetachOffClosed(g: Graph, w: Walk, u: int, p: nat)
    requires Heads(g, w, u, p) && ExploredVisited(g, w) && LowComplete(g, w) && OffClosed(g, w)
    ensures OffClosed(g, Detach(w, u, p))
  {
    var w' := Detach(w, u, p);
    hide Heads, ExploredVisited, LowComplete, Succ, Reversed;
    forall a, b | a in w'.index && a !in w'.onStack && b in Succ(g, a)
      ensures b in w'.index && b !in w'.onStack
    {
      if a in w.stack[p..] {
        DetachClosed(g, w, u, p, a, b);
      } else {
        assert a !in w.onStack;
      }
    }
  }

  lemma {:induction false} DetachMutual(g: Graph, w: Walk, u: int, p: nat, a: int)
    requires Heads(g, w, u, p) && Downward(g, w) && Upward(g, w) && a in w.stack[p..]
    ensures Mutual(g, a, u)
  {
    hide Reach, Numbered, Stacked;
    DetachedSet(g, w, u, p);
    var n := |w.work| - 1;
    assert w.work[n].node == u;
    hide Heads, CanClose;
    assert Anchored(g, w, a);
    var k :| Anchor(g, w, a, k);
    assert Reach(g, w.work[k].node, u);
    ReachTrans(g, a, w.work[k].node, u);
  }

  lemma {:induction false} DetachMaximal(g: Graph, w: Walk, u: int, p: nat, a: int, v: int)
    requires Heads(g, w, u, p) && OffClosed(g, w) && OffClosed(g, Detach(w, u, p))
    requires a in w.stack[p..] && Mutual(g, a, v)
    ensures v in w.stack[p..]
  {
    hide Reach, Numbered, Stacked, Framed, Reversed, Succ;
    DetachedSet(g, w, u, p);
    var w' := Detach(w, u, p);
    assert a in w'.index && a !in w'.onStack;
    ClosedReach(g, w'.index.Keys - w'.onStack, a, v);
    if v !in w.onStack {
      ClosedReach(g, w.index.Keys - w.onStack, v, a);
      assert false;
    }
  }

  lemma {:induction false} DetachComponent(g: Graph, w: Walk, u: int, p: nat)
    requires Heads(g, w, u, p) && OffClosed(g, w) && OffClosed(g, Detach(w, u, p))
    requires Downward(g, w) && Upward(g, w)
    ensures IsComponent(g, Reversed(w.stack[p..]))
  {
    var c := w.stack[p..];
    DetachedDistinct(g, w, u, p);
    ReversedDistinct(c);
    assert |c| > 0;
    hide Reach, Heads, OffClosed, Downward, Upward, Detach;
    forall a, v | a in c ensures v in c <==> Mutual(g, a, v) {
      DetachMutual(g, w, u, p, a);
      if v in c {
        DetachMutual(g, w, u, p, v);
        ReachTrans(g, a, u, v);
        ReachTrans(g, v, u, a);
      }
      if Mutual(g, a, v) {
        DetachMaximal(g, w, u, p, a, v);
      }
    }
  }

  lemma {:induction false} ResultAppend(g: Graph, w: Walk, w': Walk, c: seq<int>)
    requires ResultOk(g, w) && IsComponent(g, c)
    requires w'.index == w.index && w.onStack <= w.index.Keys && w'.result == w.result + [c]
    requires forall x :: x in c ==> x in w.onStack
    requires forall x :: x in w'.onStack <==> x in w.onStack && x !in c
    ensures ResultOk(g, w')
  {
    hide IsComponent;
    var n := |w.result|;
    assert w'.result[n] == c;
    forall i | 0 <= i < n ensures w'.result[i] == w.result[i] {}
    forall x | x in w'.index && x !in w'.onStack
      ensures exists i :: 0 <= i < |w'.result| && x in w'.result[i]
    {
      if x in w.onStack {
        assert x in w'.result[n];
      } else {
        var i :| 0 <= i < n && x in w.result[i];
        assert x in w'.result[i];
      }
    }
  }

  lemma {:induction false} DetachResult(g: Graph, w: Walk, u: int, p: nat)
    requires Heads(g, w, u, p) && ResultOk(g, w) && IsComponent(g, Reversed(w.stack[p..]))
    ensures ResultOk(g, Detach(w, u, p))
  {
    DetachedSet(g, w, u, p);
    assert w.onStack <= w.index.Keys;
    hide Heads, IsComponent, ResultOk, Reversed;
    ResultAppend(g, w, Detach(w, u, p), Reversed(w.stack[p..]));
  }

  lemma {:induction false} ShrunkDownward(g: Graph, w: Walk, w': Walk, u: int)
    requires Sane(w) && Sane(w') && Shrunk(w, w', u) && Downward(g, w)
    ensures Downward(g, w')
  {
    hide Reach;
  }

  lemma {:induction false} ShrunkUpward(g: Graph, w: Walk, w': Walk, u: int)
    requires Sane(w) && Sane(w') && Shrunk(w, w', u) && Upward(g, w)
    requires w.work != [] && w.work[|w.work| - 1].node == u
    ensures Upward(g, w')
  {
    hide Reach, Sane;
    forall x | x in w'.onStack ensures Anchored(g, w', x) {
      assert Anchored(g, w, x);
      var k :| Anchor(g, w, x, k);
      assert k < |w'.work|;
      assert Anchor(g, w', x, k);
    }
  }

  lemma {:induction false} ShrunkLowSound(g: Graph, w: Walk, w': Walk, u: int)
    requires Sane(w) && Sane(w') && Shrunk(w, w', u) && LowSound(g, w)
    ensures LowSound(g, w')
  {
    hide Reach, Sane;
    forall x | x in w'.onStack ensures LowReal(g, w', x) {
      assert LowReal(g, w, x);
      var y :| LowWitness(g, w, x, y);
      assert LowWitness(g, w', x, y);
    }
  }

  lemma {:induction false} ShrunkLowComplete(g: Graph, w: Walk, w': Walk, u: int)
    requires Sane(w) && Sane(w') && Shrunk(w, w', u) && LowComplete(g, w)
    requires w.work != [] && w.work[|w.work| - 1].node == u
    requires forall a, b :: Explored(g, w', a, b) ==> Explored(g, w, a, b)
    ensures LowComplete(g, w')
  {
    hide Explored;
    forall k, a, b | InSegment(w', k, a) && b in w'.onStack && Explored(g, w', a, b)
      ensures w'.low[w'.work[k].node] <= w'.index[b]
    {
      assert InSegment(w, k, a);
    }
  }

  lemma {:induction false} DetachExplored(g: Graph, w: Walk, u: int, p: nat)
    requires CanClose(g, w, u) && ExploredVisited(g, w) && p <= |w.stack|
    requires Basic(g, Detach(w, u, p))
    ensures forall a, b :: Explored(g, Detach(w, u, p), a, b) ==> Explored(g, w, a, b)
    ensures ExploredVisited(g, Detach(w, u, p))
  {
    CloseExplores(g, w, u);
    var w' := Detach(w, u, p);
    assert forall a, b :: Explored(g, w', a, b) ==> Explored(g, Close(w, u), a, b);
    hide Basic, Explored, Reversed, CanClose;
  }

  lemma {:induction false} HeadsTop(g: Graph, w: Walk, u: int, p: nat)
    requires Heads(g, w, u, p)
    ensures CanClose(g, w, u) && p <= |w.stack| && w.low[u] == w.index[u]
    ensures w.work != [] && w.work[|w.work| - 1].node == u
  {
    hide Basic;
  }

  lemma {:induction false} StepDetach(g: Graph, w: Walk, u: int, p: nat)
    requires Inv(g, w) && Heads(g, w, u, p)
    ensures w.work != [] && p <= |w.stack| && Inv(g, Detach(w, u, p))
    ensures CanClose(g, w, u) && Inherit(w, u) == w.low
  {
    HeadsTop(g, w, u, p);
    hide Heads, CanClose, ExploredVisited, OffClosed, Downward, Upward, LowSound, LowComplete, ResultOk,
      Sane, Numbered, Stacked, Framed, Explored, Reversed, Shrunk;
    var w' := Detach(w, u, p);
    DetachBasic(g, w, u, p);
    DetachExplored(g, w, u, p);
    DetachOffClosed(g, w, u, p);
    DetachComponent(g, w, u, p);
    DetachResult(g, w, u, p);
    ShrunkDownward(g, w, w', u);
    ShrunkUpward(g, w, w', u);
    ShrunkLowSound(g, w, w', u);
    ShrunkLowComplete(g, w, w', u);
    InheritNothing(g, w, u);
  }

  // ---- the walk itself -----------------------------------------------------

  // The classes of mutual reachability, each listed once: every node is in exactly one
  // list, and a list is a whole class.
  ghost predicate IsPartition(g: Graph, comps: seq<seq<int>>) {
    && (forall i :: 0 <= i < |comps| ==> IsComponent(g, comps[i]))
    && (forall u :: u in Nodes(g) <==> exists i :: 0 <= i < |comps| && u in comps[i])
    && (forall i, j, u :: 0 <= i < j < |comps| && u in comps[i] ==> u !in comps[j])
  }

  lemma {:induction false} TopFacts(g: Graph, w: Walk)
    requires Inv(g, w) && w.work != []
    ensures var top := w.work[|w.work| - 1];
      && top.node in w.index && top.node in w.low && top.next <= |top.nbrs|
      && w.index.Keys <= Nodes(g)
  {
    hide ExploredVisited, OffClosed, Downward, Upward, LowSound, LowComplete, ResultOk, Nodes;
  }

  // The node of an exhausted frame that kept its own index as low link is on the stack.
  lemma {:induction false} HeadPosition(g: Graph, w: Walk, u: int) returns (p: nat)
    requires Inv(g, w) && Exhausted(w, u)
    requires u in w.low && u in w.index && w.low[u] == w.index[u]
    ensures Heads(g, w, u, p) && p < |w.stack| && w.stack[p] == u && Distinct(w.stack)
  {
    hide ExploredVisited, OffClosed, Downward, Upward, LowSound, LowComplete, ResultOk, Nodes, Framed, Numbered;
    Closable(g, w, u);
    assert u in w.stack;
    p :| 0 <= p < |w.stack| && w.stack[p] == u;
    forall i, j | 0 <= i < j < |w.stack| ensures w.stack[i] != w.stack[j] {
      StackOrder(w, i, j);
    }
  }

  lemma {:induction false} LowNeverAbove(g: Graph, w: Walk, u: int)
    requires Inv(g, w) && Exhausted(w, u)
    ensures CanClose(g, w, u) && w.low[u] <= w.index[u]
    ensures |w.work| == 1 ==> w.low[u] == w.index[u]
  {
    hide ExploredVisited, OffClosed, Downward, LowComplete, ResultOk, Nodes, Reach, Numbered, Stacked;
    Closable(g, w, u);
    assert LowReal(g, w, u);
    if w.low[u] < w.index[u] { var _ := OlderAnchor(g, w, u); }
  }

  lemma {:induction false} OpenBelow(g: Graph, w: Walk, x: int)
    requires Sane(w) && Upward(g, w) && x in w.onStack
    ensures w.work != []
  {
    assert Anchored(g, w, x);
  }

  lemma {:induction false} NothingOpen(g: Graph, w: Walk)
    requires Inv(g, w) && w.work == []
    ensures w.onStack == {}
  {
    hide ExploredVisited, OffClosed, Downward, Upward, LowSound, LowComplete, ResultOk, Nodes, Numbered, Stacked, Framed, Sane;
    if w.onStack != {} {
      OpenBelow(g, w, Pick(w.onStack));
    }
  }

  // Once every key is visited and nothing is open, the result is the partition.
  lemma {:induction false} AllVisited(g: Graph, w: Walk)
    requires Inv(g, w) && w.work == [] && forall u :: u in g ==> u in w.index
    ensures IsPartition(g, w.result)
  {
    NothingOpen(g, w);
    hide ExploredVisited, Downward, Upward, LowSound, LowComplete, IsComponent, Stacked, Framed;
    forall u | u in Nodes(g) ensures exists i :: 0 <= i < |w.result| && u in w.result[i] {
      if u !in g {
        var a :| a in g && u in g[a];
        assert u in Succ(g, a);
      }
      assert u in w.index;
    }
    forall u, i | 0 <= i < |w.result| && u in w.result[i] ensures u in Nodes(g) {
      assert u in w.index;
    }
  }

  lemma {:induction false} ReversedSuffix(s: seq<int>, m: nat)
    requires 0 < m <= |s|
    ensures Reversed(s[m - 1..]) == Reversed(s[m..]) + [s[m - 1]]
  {
    assert s[m - 1..][1..] == s[m..];
  }

  // Pops the stack down to and including `node`.
  method PopThrough(node: int, stack: seq<int>, onStack: set<int>, ghost p: nat)
    returns (component: seq<int>, stack': seq<int>, onStack': set<int>)
    requires p < |stack| && stack[p] == node && Distinct(stack)
    ensures stack' == stack[..p] && component == Reversed(stack[p..])
    ensures onStack' == onStack - set x | x in stack[p..]
  {
    component, stack', onStack' := [], stack, onStack;
    while true
      invariant p < |stack'| <= |stack| && stack' == stack[..|stack'|]
      invariant component == Reversed(stack[|stack'|..])
      invariant onStack' == onStack - set x | x in stack[|stack'|..]
      decreases |stack'|
    {
      var m := |stack'| - 1;
      var member := stack'[m];
      ReversedSuffix(stack, m + 1);
      assert stack[m..] == [member] + stack[m + 1..];
      stack' := stack'[..m];
      onStack' := onStack' - {member};
      component := component + [member];
      if member == node { break; }
    }
  }

  // Number and stack a new node and open its frame.
  method OpenFrame(adjacency: Graph, v: int, indexOf: map<int, nat>, low: map<int, nat>, onStack: set<int>,
                   sccStack: seq<int>, ghost result: seq<seq<int>>, counter: nat, work: seq<Frame>)
    returns (indexOf': map<int, nat>, low': map<int, nat>, onStack': set<int>, sccStack': seq<int>,
             counter': nat, work': seq<Frame>)
    ensures Walk(indexOf', low', onStack', sccStack', result, counter', work')
        == Visit(adjacency, Walk(indexOf, low, onStack, sccStack, result, counter, work), v)
    ensures indexOf'.Keys == indexOf.Keys + {v} && work' != []
  {
    indexOf', low' := indexOf[v := counter], low[v := counter];
    counter' := counter + 1;
    sccStack' := sccStack + [v];
    onStack' := onStack + {v};
    work' := work + [Frame(v, Sorted(Succ(adjacency, v)), 0)];
  }

  ghost function Unvisited(g: Graph, index: map<int, nat>): nat {
    |Nodes(g) - index.Keys|
  }

  lemma {:induction false} VisitedShrinks(g: Graph, index: map<int, nat>, index': map<int, nat>, v: int)
    requires v in Nodes(g) && v !in index && index'.Keys == index.Keys + {v}
    ensures Unvisited(g, index') < Unvisited(g, index)
  {
    hide Nodes;
    assert Nodes(g) - index.Keys == (Nodes(g) - index'.Keys) + {v};
  }

  // Either a node is visited for the first time or only the top frame moves on.
  ghost predicate Progress(g: Graph, index: map<int, nat>, work: seq<Frame>, index': map<int, nat>, work': seq<Frame>)
    requires work != []
  {
    && work' != [] && index.Keys <= index'.Keys
    && (Unvisited(g, index') < Unvisited(g, index)
        || (index' == index && |work'| == |work|
            && work'[|work| - 1] == work[|work| - 1].(next := work[|work| - 1].next + 1)))
  }

  // The top frame looks along its next edge: a new node is opened, a stacked one may lower
  // the frame's low link, a finished one is passed over.
  method LookAlong(adjacency: Graph, indexOf: map<int, nat>, low: map<int, nat>, onStack: set<int>,
                   sccStack: seq<int>, ghost result: seq<seq<int>>, counter: nat, work: seq<Frame>)
    returns (indexOf': map<int, nat>, low': map<int, nat>, onStack': set<int>, sccStack': seq<int>,
             counter': nat, work': seq<Frame>)
    requires Inv(adjacency, Walk(indexOf, low, onStack, sccStack, result, counter, work))
    requires work != [] && work[|work| - 1].next < |work[|work| - 1].nbrs|
    ensures Inv(adjacency, Walk(indexOf', low', onStack', sccStack', result, counter', work'))
    ensures Progress(adjacency, indexOf, work, indexOf', work')
  {
    hide Inv, Nodes, Sorted, Visit, Unvisited;
    ghost var w := Walk(indexOf, low, onStack, sccStack, result, counter, work);
    TopFacts(adjacency, w);
    indexOf', low', onStack', sccStack', counter' := indexOf, low, onStack, sccStack, counter;
    var top := work[|work| - 1];
    var node, nbr := top.node, top.nbrs[top.next];
    work' := work[|work| - 1 := top.(next := top.next + 1)];
    if nbr !in indexOf {
      StepNew(adjacency, w, node, nbr);
      indexOf', low', onStack', sccStack', counter', work' :=
        OpenFrame(adjacency, nbr, indexOf, low, onStack, sccStack, result, counter, work');
      VisitedShrinks(adjacency, indexOf, indexOf', nbr);
    } else {
      if nbr in onStack {
        low' := low[node := Min(low[node], indexOf[nbr])];
      }
      StepSeen(adjacency, w, low', node, nbr);
    }
  }

  // The top frame has no neighbour left: pop its component if its node heads one, then
  // drop the frame and hand its low link to the frame below.
  method CloseFrame(ghost g: Graph, indexOf: map<int, nat>, low: map<int, nat>, onStack: set<int>,
                    sccStack: seq<int>, result: seq<seq<int>>, ghost counter: nat, work: seq<Frame>)
    returns (low': map<int, nat>, onStack': set<int>, sccStack': seq<int>, result': seq<seq<int>>, work': seq<Frame>)
    requires Inv(g, Walk(indexOf, low, onStack, sccStack, result, counter, work))
    requires work != [] && work[|work| - 1].next >= |work[|work| - 1].nbrs|
    ensures Inv(g, Walk(indexOf, low', onStack', sccStack', result', counter, work'))
    ensures |work'| == |work| - 1
  {
    ghost var w := Walk(indexOf, low, onStack, sccStack, result, counter, work);
    low', onStack', sccStack', result' := low, onStack, sccStack, result;
    var node := work[|work| - 1].node;
    hide Inv, Sorted;
    LowNeverAbove(g, w, node);
    StepClose(g, w, node);
    ghost var p := 0;
    if low[node] == indexOf[node] {
      p := HeadPosition(g, w, node);
      StepDetach(g, w, node, p);
      hide Heads;
      var component;
      component, sccStack', onStack' := PopThrough(node, sccStack, onStack, p);
      result' := result + [component];
    }
    hide Reversed, Basic;
    work' := work[..|work| - 1];
    if work' != [] {
      var parent := work'[|work'| - 1].node;
      low' := low[parent := Min(low[parent], low[node])];
    }
    assert low' == Inherit(w, node);
    assert Walk(indexOf, low', onStack', sccStack', result', counter, work')
        == if low[node] < indexOf[node] then Close(w, node) else Detach(w, node, p);
  }

  // Edges the top frame has still to look along.
  ghost function Remaining(work: seq<Frame>): int {
    if work == [] then 0 else |work[|work| - 1].nbrs| - work[|work| - 1].next
  }

  // Works the stack of frames off: everything opened from one root is closed again.
  method Explore(adjacency: Graph, indexOf: map<int, nat>, low: map<int, nat>, onStack: set<int>,
                 sccStack: seq<int>, result: seq<seq<int>>, counter: nat, work: seq<Frame>)
    returns (indexOf': map<int, nat>, low': map<int, nat>, onStack': set<int>, sccStack': seq<int>,
             result': seq<seq<int>>, counter': nat)
    requires Inv(adjacency, Walk(indexOf, low, onStack, sccStack, result, counter, work))
    ensures Inv(adjacency, Walk(indexOf', low', onStack', sccStack', result', counter', []))
    ensures indexOf.Keys <= indexOf'.Keys
  {
    hide Inv, Unvisited;
    indexOf', low', onStack', sccStack', result', counter' := indexOf, low, onStack, sccStack, result, counter;
    var work' := work;
    while work' != []
      invariant Inv(adjacency, Walk(indexOf', low', onStack', sccStack', result', counter', work'))
      invariant indexOf.Keys <= indexOf'.Keys
      decreases Unvisited(adjacency, indexOf'), |work'|, Remaining(work')
    {
      var top := work'[|work'| - 1];
      if top.next < |top.nbrs| {
        indexOf', low', onStack', sccStack', counter', work' :=
          LookAlong(adjacency, indexOf', low', onStack', sccStack', result', counter', work');
      } else {
        low', onStack', sccStack', result', work' :=
          CloseFrame(adjacency, indexOf', low', onStack', sccStack', result', counter', work');
      }
    }
  }

  lemma {:induction false} NothingYet(g: Graph)
    ensures Inv(g, Walk(map[], map[], {}, [], [], 0, []))
  {}

  // The roots looked at so far are visited.
  ghost predicate SeenTo(roots: seq<int>, r: nat, visited: set<int>) {
    r <= |roots| && forall k :: 0 <= k < r ==> roots[k] in visited
  }

  lemma {:induction false} SeenNext(roots: seq<int>, r: nat, before: set<int>, after: set<int>)
    requires SeenTo(roots, r, before) && r < |roots| && before <= after && roots[r] in after
    ensures SeenTo(roots, r + 1, after)
  {}

  // The roots list the graph's keys.
  ghost predicate ListsKeys(g: Graph, roots: seq<int>) {
    forall u :: u in roots <==> u in g.Keys
  }

  lemma {:induction false} KeysListed(g: Graph, roots: seq<int>)
    requires roots == Sorted(g.Keys)
    ensures ListsKeys(g, roots) && SeenTo(roots, 0, {})
  {}

  lemma {:induction false} AllSeen(g: Graph, roots: seq<int>, visited: set<int>)
    requires ListsKeys(g, roots) && SeenTo(roots, |roots|, visited)
    ensures g.Keys <= visited
  {
    forall u | u in g.Keys ensures u in visited { assert u in roots; }
  }

  lemma {:induction false} KeyIsNode(g: Graph, roots: seq<int>, r: nat)
    requires ListsKeys(g, roots) && r < |roots|
    ensures roots[r] in Nodes(g)
  {
    var u := roots[r];
    assert u in roots;
  }

  // Strongly connected components, each node's neighbours taken in ascending order.
  method StronglyConnectedComponents(adjacency: Graph) returns (result: seq<seq<int>>)
    ensures IsPartition(adjacency, result)
  {
    var indexOf: map<int, nat>, low: map<int, nat> := map[], map[];
    var onStack: set<int>, sccStack: seq<int> := {}, [];
    var counter: nat := 0;
    result := [];
    var roots := Sorted(adjacency.Keys);
    NothingYet(adjacency);
    KeysListed(adjacency, roots);
    hide *;
    var r := 0;
    while r < |roots|
      invariant 0 <= r <= |roots|
      invariant Inv(adjacency, Walk(indexOf, low, onStack, sccStack, result, counter, []))
      invariant SeenTo(roots, r, indexOf.Keys)
    {
      var root := roots[r];
      ghost var before := indexOf.Keys;
      if root !in indexOf {
        KeyIsNode(adjacency, roots, r);
        StepRoot(adjacency, Walk(indexOf, low, onStack, sccStack, result, counter, []), root);
        var work;
        indexOf, low, onStack, sccStack, counter, work :=
          OpenFrame(adjacency, root, indexOf, low, onStack, sccStack, result, counter, []);
        indexOf, low, onStack, sccStack, result, counter :=
          Explore(adjacency, indexOf, low, onStack, sccStack, result, counter, work);
      }
      SeenNext(roots, r, before, indexOf.Keys);
      r := r + 1;
    }
    AllSeen(adjacency, roots, indexOf.Keys);
    AllVisited(adjacency, Walk(indexOf, low, onStack, sccStack, result, counter, []));
  }
}
