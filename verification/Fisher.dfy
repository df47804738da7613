// The exact homogeneity test: enumerating all 2 x S tables with the observed margins.
module Fisher {
  // Weights are exact naturals instead of log-gamma sums. A table is its row of successes,
  // one entry per store; its weight is the number of ways to draw it.
  import opened Common
  import opened Binomial

  type Table = seq<nat>

  function Sum(s: seq<nat>): nat {
    if s == [] then 0 else s[0] + Sum(s[1..])
  }

  ghost predicate Below(cols: seq<nat>, t: Table)
    requires |t| == |cols|
  {
    forall i :: 0 <= i < |t| ==> t[i] <= cols[i]
  }

  // A table fits the margins: no cell above its column, successes adding up to r.
  ghost predicate Fits(cols: seq<nat>, r: nat, t: Table) {
    |t| == |cols| && Below(cols, t) && Sum(t) == r
  }

  function Weight(cols: seq<nat>, t: Table): nat {
    if t == [] || cols == [] then 1 else Choose(cols[0], t[0]) * Weight(cols[1..], t[1..])
  }

  // ---- The tables in the order of the walk ---------------------------------------

  // With `r` successes left for the columns `cols`, the first cell runs from `lo` to `hi`.
  function Lo(cols: seq<nat>, r: nat): nat
    requires cols != []
  {
    Max(0, r - Sum(cols[1..]))
  }

  function Hi(cols: seq<nat>, r: nat): nat
    requires cols != []
  {
    Min(cols[0], r)
  }

  function Prepend(prefix: Table, ts: seq<Table>): (r: seq<Table>)
    ensures |r| == |ts|
  {
    seq(|ts|, i requires 0 <= i < |ts| => prefix + ts[i])
  }

  function TablesFrom(cols: seq<nat>, r: nat, a: nat): seq<Table>
    requires cols != []
    decreases |cols|, 0, Hi(cols, r) + 1 - a
  {
    if a > Hi(cols, r) then []
    else Prepend([a], Tables(cols[1..], r - a)) + TablesFrom(cols, r, a + 1)
  }

  function Tables(cols: seq<nat>, r: nat): seq<Table>
    decreases |cols|, 1, 0
  {
    if cols == [] then (if r == 0 then [[]] else [])
    else TablesFrom(cols, r, Lo(cols, r))
  }

  // ---- Every table, and each one once ---------------------------------------------

  lemma {:induction false} SumBounded(cols: seq<nat>, t: Table)
    requires |t| == |cols| && Below(cols, t)
    ensures Sum(t) <= Sum(cols)
  {
    if t != [] {
      assert forall i :: 0 <= i < |t[1..]| ==> t[1..][i] == t[i + 1] && cols[1..][i] == cols[i + 1];
      SumBounded(cols[1..], t[1..]);
    }
  }

  lemma {:induction false} BelowSplit(cols: seq<nat>, t: Table)
    requires |t| == |cols| && t != []
    ensures Below(cols, t) <==> (t[0] <= cols[0] && Below(cols[1..], t[1..]))
  {
    assert forall i :: 1 <= i < |t| ==> t[1..][i - 1] == t[i] && cols[1..][i - 1] == cols[i];
    if Below(cols[1..], t[1..]) && t[0] <= cols[0] {
      forall i | 0 <= i < |t| ensures t[i] <= cols[i] {
        if i > 0 { assert t[1..][i - 1] <= cols[1..][i - 1]; }
      }
    }
  }

  lemma {:induction false} FitsSplit(cols: seq<nat>, r: nat, t: Table)
    requires cols != []
    ensures Fits(cols, r, t) <==>
      (t != [] && Lo(cols, r) <= t[0] <= Hi(cols, r) && Fits(cols[1..], r - t[0], t[1..]))
  {
    if t != [] && |t| == |cols| {
      BelowSplit(cols, t);
      if Below(cols[1..], t[1..]) { SumBounded(cols[1..], t[1..]); }
    }
  }

  lemma {:induction false} PrependMember(a: nat, ts: seq<Table>, t: Table)
    ensures t in Prepend([a], ts) <==> (t != [] && t[0] == a && t[1..] in ts)
  {
    var p := Prepend([a], ts);
    if t != [] && t[0] == a && t[1..] in ts {
      var i :| 0 <= i < |ts| && ts[i] == t[1..];
      assert p[i] == [a] + t[1..] == t;
    }
    if t in p {
      var i :| 0 <= i < |p| && p[i] == t;
      assert t == [a] + ts[i];
      assert t[1..] == ts[i];
    }
  }

  lemma {:induction false} TablesFromComplete(cols: seq<nat>, r: nat, a: nat, t: Table)
    requires cols != []
    ensures t in TablesFrom(cols, r, a) <==>
      (t != [] && a <= t[0] <= Hi(cols, r) && Fits(cols[1..], r - t[0], t[1..]))
    decreases |cols|, 0, Hi(cols, r) + 1 - a
  {
    if a <= Hi(cols, r) {
      TablesFromComplete(cols, r, a + 1, t);
      PrependMember(a, Tables(cols[1..], r - a), t);
      if t != [] { TablesComplete(cols[1..], r - a, t[1..]); }
    }
  }

  // The pruned walk reaches a table exactly when it fits the margins.
  lemma {:induction false} TablesComplete(cols: seq<nat>, r: nat, t: Table)
    ensures t in Tables(cols, r) <==> Fits(cols, r, t)
    decreases |cols|, 1, 0
  {
    if cols == [] {
      assert Fits(cols, r, t) <==> t == [] && r == 0;
    } else {
      TablesFromComplete(cols, r, Lo(cols, r), t);
      FitsSplit(cols, r, t);
    }
  }

  lemma {:induction false} PrependDistinct(a: nat, ts: seq<Table>)
    requires Distinct(ts)
    ensures Distinct(Prepend([a], ts))
  {
    var p := Prepend([a], ts);
    forall i, j | 0 <= i < j < |p| ensures p[i] != p[j] {
      assert p[i][1..] == ts[i] && p[j][1..] == ts[j];
    }
  }

  lemma {:induction false} DistinctJoin<T>(a: seq<T>, b: seq<T>)
    requires Distinct(a) && Distinct(b)
    requires forall x :: x in a ==> x !in b
    ensures Distinct(a + b)
  {
    forall i, j | 0 <= i < j < |a + b| ensures (a + b)[i] != (a + b)[j] {
      if i < |a| <= j { assert a[i] in a && b[j - |a|] in b; }
    }
  }

  lemma {:induction false} TablesFromDistinct(cols: seq<nat>, r: nat, a: nat)
    requires cols != []
    ensures Distinct(TablesFrom(cols, r, a))
    decreases |cols|, 0, Hi(cols, r) + 1 - a
  {
    if a <= Hi(cols, r) {
      var ts := Tables(cols[1..], r - a);
      var first, rest := Prepend([a], ts), TablesFrom(cols, r, a + 1);
      TablesDistinct(cols[1..], r - a);
      TablesFromDistinct(cols, r, a + 1);
      PrependDistinct(a, ts);
      forall t | t in first && t in rest ensures false {
        PrependMember(a, ts, t);
        TablesFromComplete(cols, r, a + 1, t);
      }
      DistinctJoin(first, rest);
    }
  }

  lemma {:induction false} TablesDistinct(cols: seq<nat>, r: nat)
    ensures Distinct(Tables(cols, r))
    decreases |cols|, 1, 0
  {
    if cols != [] { TablesFromDistinct(cols, r, Lo(cols, r)); }
  }

  // ---- Weights ---------------------------------------------------------------------

  function Within(limit: nat, w: nat): nat {
    if w <= limit then w else 0
  }

  // The weights of the listed tables that do not exceed the limit, added up.
  function WeightWithin(cols: seq<nat>, limit: nat, ts: seq<Table>): nat {
    if ts == [] then 0
    else WeightWithin(cols, limit, ts[..|ts| - 1]) + Within(limit, Weight(cols, ts[|ts| - 1]))
  }

  function TotalWeight(cols: seq<nat>, ts: seq<Table>): nat {
    if ts == [] then 0 else TotalWeight(cols, ts[..|ts| - 1]) + Weight(cols, ts[|ts| - 1])
  }

  lemma {:induction false} TotalWeightJoin(cols: seq<nat>, a: seq<Table>, b: seq<Table>)
    ensures TotalWeight(cols, a + b) == TotalWeight(cols, a) + TotalWeight(cols, b)
  {
    if b == [] {
      assert a + b == a;
    } else {
      var shorter := b[..|b| - 1];
      assert (a + b)[..|a + b| - 1] == a + shorter;
      TotalWeightJoin(cols, a, shorter);
    }
  }

  lemma {:induction false} Distribute(c: nat, x: nat, y: nat)
    ensures c * (x + y) == c * x + c * y
  {
  }

  lemma {:induction false} TotalWeightPrepend(cols: seq<nat>, a: nat, ts: seq<Table>)
    requires cols != []
    ensures TotalWeight(cols, Prepend([a], ts)) == Choose(cols[0], a) * TotalWeight(cols[1..], ts)
  {
    var p := Prepend([a], ts);
    if ts != [] {
      var n := |ts| - 1;
      TotalWeightPrepend(cols, a, ts[..n]);
      assert Prepend([a], ts[..n]) == p[..n];
      assert p[n] == [a] + ts[n] && p[n][1..] == ts[n];
      Distribute(Choose(cols[0], a), TotalWeight(cols[1..], ts[..n]), Weight(cols[1..], ts[n]));
    }
  }

  lemma {:induction false} ConvolutionNext(c: nat, m: nat, r: nat, a: nat)
    requires a <= r
    ensures Convolution(c, m, r, a + 1) == Convolution(c, m, r, a) + Choose(c, a) * Choose(m, r - a)
  {
  }

  // Above the upper bound neither.
  lemma {:induction false} ConvolutionTail(c: nat, m: nat, r: nat, a: nat)
    requires Min(c, r) < a <= r + 1
    ensures Convolution(c, m, r, a) == Convolution(c, m, r, r + 1)
    decreases r + 1 - a
  {
    if a <= r {
      ConvolutionTail(c, m, r, a + 1);
      ChooseBeyond(c, a);
    }
  }

  // Below the lower bound the convolution adds nothing.
  lemma {:induction false} ConvolutionHead(c: nat, m: nat, r: nat, a: nat)
    requires a <= r + 1 && (a == 0 || a <= r - m)
    ensures Convolution(c, m, r, a) == 0
  {
    if a > 0 {
      ConvolutionHead(c, m, r, a - 1);
      ChooseBeyond(m, r - (a - 1));
    }
  }

  // What the convolution still has to add from `a` on.
  lemma {:induction false} WeightsFromAddUp(cols: seq<nat>, r: nat, a: nat)
    requires cols != [] && a <= r + 1
    ensures Convolution(cols[0], Sum(cols[1..]), r, a) + TotalWeight(cols, TablesFrom(cols, r, a))
         == Convolution(cols[0], Sum(cols[1..]), r, r + 1)
    decreases |cols|, 0, Hi(cols, r) + 1 - a
  {
    var c, m := cols[0], Sum(cols[1..]);
    if a > Hi(cols, r) {
      ConvolutionTail(c, m, r, a);
    } else {
      var below := Tables(cols[1..], r - a);
      WeightsAddUp(cols[1..], r - a);
      TotalWeightPrepend(cols, a, below);
      WeightsFromAddUp(cols, r, a + 1);
      TotalWeightJoin(cols, Prepend([a], below), TablesFrom(cols, r, a + 1));
      ConvolutionNext(c, m, r, a);
    }
  }

  // The weights of all tables with the given margins add up to the number of ways to
  // choose the successes among all trials.
  lemma {:induction false} WeightsAddUp(cols: seq<nat>, r: nat)
    ensures TotalWeight(cols, Tables(cols, r)) == Choose(Sum(cols), r)
    decreases |cols|, 1, 0
  {
    if cols == [] {
      assert TotalWeight(cols, [[]]) == TotalWeight(cols, []) + Weight(cols, []);
    } else {
      var c, m := cols[0], Sum(cols[1..]);
      WeightsFromAddUp(cols, r, Lo(cols, r));
      ConvolutionHead(c, m, r, Lo(cols, r));
      Vandermonde(c, m, r);
    }
  }

  // ---- The probability of a table ------------------------------------------------------

  // The factorials of every cell of both rows, multiplied.
  function CellFactorials(cols: seq<nat>, t: Table): nat
    requires |t| == |cols| && Below(cols, t)
  {
    if t == [] then 1
    else
      assert forall i :: 0 <= i < |t| - 1 ==> t[1..][i] == t[i + 1] && cols[1..][i] == cols[i + 1];
      (Factorial(t[0]) * Factorial(cols[0] - t[0])) * CellFactorials(cols[1..], t[1..])
  }

  function ColumnFactorials(cols: seq<nat>): nat {
    if cols == [] then 1 else Factorial(cols[0]) * ColumnFactorials(cols[1..])
  }

  lemma CrossProduct(a: nat, b: nat, c: nat, d: nat)
    ensures (a * b) * (c * d) == (a * c) * (b * d)
  {
    assert (a * b) * (c * d) == a * (b * (c * d)) == a * (c * (b * d)) == (a * c) * (b * d);
  }

  lemma {:induction false} WeightFactorial(cols: seq<nat>, t: Table)
    requires |t| == |cols| && Below(cols, t)
    ensures Weight(cols, t) * CellFactorials(cols, t) == ColumnFactorials(cols)
  {
    if t != [] {
      var rest, below := cols[1..], t[1..];
      assert forall i :: 0 <= i < |below| ==> below[i] == t[i + 1] && rest[i] == cols[i + 1];
      WeightFactorial(rest, below);
      ChooseFactorial(cols[0], t[0]);
      var cells := Factorial(t[0]) * Factorial(cols[0] - t[0]);
      CrossProduct(Choose(cols[0], t[0]), Weight(rest, below), cells, CellFactorials(rest, below));
    }
  }

  lemma {:induction false} SumBelow(cols: seq<nat>, t: Table)
    requires |t| == |cols| && Below(cols, t)
    ensures Sum(t) <= Sum(cols)
  {
    if t != [] {
      assert forall i :: 0 <= i < |t| - 1 ==> t[1..][i] == t[i + 1] && cols[1..][i] == cols[i + 1];
      SumBelow(cols[1..], t[1..]);
    }
  }

  lemma Shares(w: nat, f: nat, cells: nat, c: nat, rows: nat, columns: nat)
    requires w * cells == columns && c * rows == f
    ensures w * (f * cells) == c * (rows * columns)
  {
    assert w * (f * cells) == f * (w * cells) == (c * rows) * columns == c * (rows * columns);
  }

  // A table's share of the total weight is the factorial expression whose logarithm the
  // code adds up: the factorials of the row sums and the columns, over those of the total
  // and the cells. Stated without division.
  lemma {:induction false} TableProbability(cols: seq<nat>, r: nat, t: Table)
    requires Fits(cols, r, t)
    ensures var n := Sum(cols);
      && r <= n
      && Weight(cols, t) * (Factorial(n) * CellFactorials(cols, t))
           == Choose(n, r) * (Factorial(r) * Factorial(n - r) * ColumnFactorials(cols))
  {
    var n := Sum(cols);
    SumBelow(cols, t);
    WeightFactorial(cols, t);
    ChooseFactorial(n, r);
    hide *;
    Shares(Weight(cols, t), Factorial(n), CellFactorials(cols, t), Choose(n, r), Factorial(r) * Factorial(n - r), ColumnFactorials(cols));
  }

  // ---- The heaviest table ------------------------------------------------------------------

  // No listed table outweighs the limit.
  ghost predicate AllWithin(cols: seq<nat>, limit: nat, ts: seq<Table>) {
    forall t :: t in ts ==> Weight(cols, t) <= limit
  }

  lemma {:induction false} AllWithinSplit(cols: seq<nat>, limit: nat, ts: seq<Table>)
    requires ts != []
    ensures AllWithin(cols, limit, ts) <==>
      AllWithin(cols, limit, ts[..|ts| - 1]) && Weight(cols, ts[|ts| - 1]) <= limit
  {
    var n := |ts| - 1;
    assert ts == ts[..n] + [ts[n]];
    assert forall t :: t in ts <==> t in ts[..n] || t == ts[n];
  }

  lemma {:induction false} WithinBounded(cols: seq<nat>, limit: nat, ts: seq<Table>)
    ensures WeightWithin(cols, limit, ts) <= TotalWeight(cols, ts)
    ensures WeightWithin(cols, limit, ts) == TotalWeight(cols, ts) <==> AllWithin(cols, limit, ts)
  {
    if ts != [] {
      WithinBounded(cols, limit, ts[..|ts| - 1]);
      AllWithinSplit(cols, limit, ts);
    }
  }

  lemma {:induction false} WithinAtLeast(cols: seq<nat>, limit: nat, ts: seq<Table>, t: Table)
    requires t in ts && Weight(cols, t) <= limit
    ensures WeightWithin(cols, limit, ts) >= Weight(cols, t)
  {
    var n := |ts| - 1;
    if t != ts[n] {
      assert ts == ts[..n] + [ts[n]];
      WithinAtLeast(cols, limit, ts[..n], t);
    }
  }

  lemma {:induction false} WeightPositive(cols: seq<nat>, t: Table)
    requires |t| == |cols| && Below(cols, t)
    ensures Weight(cols, t) > 0
  {
    if t != [] {
      BelowSplit(cols, t);
      WeightPositive(cols[1..], t[1..]);
      ChoosePositive(cols[0], t[0]);
    }
  }

  function Times(x: nat, y: nat): nat {
    x * y
  }

  lemma {:induction false} Associate(x: nat, y: nat, z: nat)
    ensures x * (y * z) == x * y * z
  {
  }

  // The running product of the walk is the weight of the prefix chosen so far.
  lemma {:induction false} WeightSnoc(cols: seq<nat>, j: nat, prefix: Table, a: nat)
    requires |prefix| == j < |cols|
    ensures Weight(cols, prefix + [a]) == Times(Weight(cols, prefix), Choose(cols[j], a))
  {
    if j == 0 {
      assert (prefix + [a])[1..] == [];
      assert Weight(cols[1..], []) == 1;
    } else {
      WeightSnoc(cols[1..], j - 1, prefix[1..], a);
      assert (prefix + [a])[1..] == prefix[1..] + [a];
      Associate(Choose(cols[0], prefix[0]), Weight(cols[1..], prefix[1..]), Choose(cols[j], a));
    }
  }

  // ---- The walk ---------------------------------------------------------------------

  ghost predicate IsSuffixSums(cols: seq<nat>, suffix: seq<nat>) {
    |suffix| == |cols| + 1 && forall j :: 0 <= j <= |cols| ==> suffix[j] == Sum(cols[j..])
  }

  method SuffixSums(cols: seq<nat>) returns (suffix: seq<nat>)
    ensures IsSuffixSums(cols, suffix)
  {
    suffix := seq(|cols| + 1, _ => 0);
    var j := |cols|;
    assert cols[j..] == [];
    while j > 0
      invariant 0 <= j <= |cols| && |suffix| == |cols| + 1
      invariant forall k :: j <= k <= |cols| ==> suffix[k] == Sum(cols[k..])
    {
      j := j - 1;
      suffix := suffix[j := suffix[j + 1] + cols[j]];
      assert cols[j..][1..] == cols[j + 1..];
    }
  }

  lemma SuffixLength(cols: seq<nat>, suffix: seq<nat>)
    requires IsSuffixSums(cols, suffix)
    ensures |suffix| == |cols| + 1
  {
  }

  // From `before` on, the walk has visited the tables `ts` extend the prefix to.
  ghost predicate Visited(before: seq<Table>, prefix: Table, ts: seq<Table>, after: seq<Table>) {
    after == before + Prepend(prefix, ts)
  }

  // Half-way through a column: the cells below `a` are done.
  ghost predicate Underway(cols: seq<nat>, j: nat, r: nat, a: nat, start: seq<Table>, prefix: Table,
                           done: seq<Table>, now: seq<Table>)
    requires j < |cols|
  {
    Tables(cols[j..], r) == done + TablesFrom(cols[j..], r, a) && Visited(start, prefix, done, now)
  }

  // The bounds the code computes are those of the pruned enumeration; they leave no more
  // than the later columns can hold.
  lemma {:induction false} WalkBounds(cols: seq<nat>, suffix: seq<nat>, j: nat, r: nat)
    requires IsSuffixSums(cols, suffix) && j < |cols| && r <= suffix[j]
    ensures Max(0, r - suffix[j + 1]) == Lo(cols[j..], r) && Min(cols[j], r) == Hi(cols[j..], r)
    ensures 0 <= Lo(cols[j..], r) <= Hi(cols[j..], r) + 1
    ensures r - Lo(cols[j..], r) <= suffix[j + 1] && Hi(cols[j..], r) <= r
  {
    assert cols[j..][1..] == cols[j + 1..];
  }

  lemma {:induction false} WalkStarts(cols: seq<nat>, j: nat, r: nat, start: seq<Table>, prefix: Table)
    requires j < |cols|
    ensures Underway(cols, j, r, Lo(cols[j..], r), start, prefix, [], start)
  {
    assert start + Prepend(prefix, []) == start;
  }

  lemma {:induction false} TablesFromNext(cols: seq<nat>, j: nat, r: nat, a: nat, done: seq<Table>)
    requires j < |cols| && a <= Hi(cols[j..], r)
    ensures done + TablesFrom(cols[j..], r, a)
         == done + Prepend([a], Tables(cols[j + 1..], r - a)) + TablesFrom(cols[j..], r, a + 1)
  {
    assert cols[j..][1..] == cols[j + 1..];
  }

  lemma {:induction false} PrependTwice(base: seq<Table>, prefix: Table, a: nat, below: seq<Table>, done: seq<Table>)
    ensures base + Prepend(prefix, done) + Prepend(prefix + [a], below)
         == base + Prepend(prefix, done + Prepend([a], below))
  {
    var x := Prepend(prefix, done) + Prepend(prefix + [a], below);
    var y := Prepend(prefix, done + Prepend([a], below));
    forall i | 0 <= i < |x| ensures x[i] == y[i] {
      if i >= |done| { assert prefix + ([a] + below[i - |done|]) == prefix + [a] + below[i - |done|]; }
    }
    assert x == y;
    assert base + Prepend(prefix, done) + Prepend(prefix + [a], below) == base + x;
  }

  lemma {:induction false} VisitedBelow(start: seq<Table>, prefix: Table, a: nat, done: seq<Table>,
                                        before: seq<Table>, below: seq<Table>, after: seq<Table>)
    requires Visited(start, prefix, done, before) && Visited(before, prefix + [a], below, after)
    ensures Visited(start, prefix, done + Prepend([a], below), after)
  {
    PrependTwice(start, prefix, a, below, done);
  }

  lemma {:induction false} WalkAdvances(cols: seq<nat>, j: nat, r: nat, a: nat, start: seq<Table>, prefix: Table,
                                        done: seq<Table>, before: seq<Table>, after: seq<Table>)
    requires j < |cols| && a <= Hi(cols[j..], r)
    requires Underway(cols, j, r, a, start, prefix, done, before)
    requires Visited(before, prefix + [a], Tables(cols[j + 1..], r - a), after)
    ensures Underway(cols, j, r, a + 1, start, prefix, done + Prepend([a], Tables(cols[j + 1..], r - a)), after)
  {
    TablesFromNext(cols, j, r, a, done);
    VisitedBelow(start, prefix, a, done, before, Tables(cols[j + 1..], r - a), after);
  }

  lemma {:induction false} WalkEnds(cols: seq<nat>, j: nat, r: nat, a: nat, start: seq<Table>, prefix: Table,
                                    done: seq<Table>, now: seq<Table>)
    requires j < |cols| && a > Hi(cols[j..], r)
    requires Underway(cols, j, r, a, start, prefix, done, now)
    ensures Tables(cols[j..], r) == done && Visited(start, prefix, Tables(cols[j..], r), now)
  {
    assert done + TablesFrom(cols[j..], r, a) == done;
  }

  lemma {:induction false} PrependLeaf(prefix: Table)
    ensures Prepend(prefix, [[]]) == [prefix]
  {
    assert prefix + [] == prefix;
  }

  class Enumeration {
    const cols: seq<nat>
    const suffix: seq<nat>
    const limit: nat
    var accumulated: nat
    ghost var visited: seq<Table>
    ghost var leaves: nat

    constructor (cols: seq<nat>, suffix: seq<nat>, limit: nat)
      ensures this.cols == cols && this.suffix == suffix && this.limit == limit
      ensures accumulated == 0 && visited == [] && leaves == 0
    {
      this.cols, this.suffix, this.limit := cols, suffix, limit;
      this.accumulated, this.visited, this.leaves := 0, [], 0;
    }

    // What has been accumulated belongs to the tables visited.
    ghost predicate Valid()
      reads this
    {
      accumulated == WeightWithin(cols, limit, visited)
    }

    // Under a prefix the walk visits, in order, the tables that extend it, and comes to
    // no other leaf.
    method Walk(j: nat, remaining: nat, weight: nat, ghost prefix: Table)
      requires Valid() && IsSuffixSums(cols, suffix)
      requires j <= |cols| && |prefix| == j && remaining <= suffix[j]
      requires weight == Weight(cols, prefix)
      modifies this
      ensures Valid()
      ensures Visited(old(visited), prefix, Tables(cols[j..], remaining), visited)
      ensures leaves == old(leaves) + |Tables(cols[j..], remaining)|
      decreases |cols| - j, 1
    {
      if j == |cols| {
        Leaf(j, remaining, weight, prefix);
        return;
      }
      var lo := Max(0, remaining - suffix[j + 1]);
      var hi := Min(cols[j], remaining);
      hide *;
      WalkBounds(cols, suffix, j, remaining);
      var a := lo;
      ghost var done := [];
      WalkStarts(cols, j, remaining, visited, prefix);
      while a <= hi
        invariant lo <= a <= hi + 1 && hi == Hi(cols[j..], remaining)
        invariant Valid()
        invariant Underway(cols, j, remaining, a, old(visited), prefix, done, visited)
        invariant leaves == old(leaves) + |done|
      {
        ghost var before := visited;
        WalkCell(j, remaining, weight, prefix, a);
        WalkAdvances(cols, j, remaining, a, old(visited), prefix, done, before, visited);
        done := done + Prepend([a], Tables(cols[j + 1..], remaining - a));
        a := a + 1;
      }
      WalkEnds(cols, j, remaining, a, old(visited), prefix, done, visited);
    }

    // One value of a cell, and everything below it.
    method WalkCell(j: nat, remaining: nat, weight: nat, ghost prefix: Table, a: nat)
      requires Valid() && IsSuffixSums(cols, suffix)
      requires j < |cols| && |prefix| == j && a <= remaining && remaining - a <= suffix[j + 1]
      requires weight == Weight(cols, prefix)
      modifies this
      ensures Valid()
      ensures Visited(old(visited), prefix + [a], Tables(cols[j + 1..], remaining - a), visited)
      ensures leaves == old(leaves) + |Tables(cols[j + 1..], remaining - a)|
      decreases |cols| - j, 0
    {
      hide *;
      SuffixLength(cols, suffix);
      var heavier := Times(weight, Choose(cols[j], a));
      WeightSnoc(cols, j, prefix, a);
      Walk(j + 1, remaining - a, heavier, prefix + [a]);
    }

    // The check on `remaining` never fails: the bounds of the cells leave nothing over.
    method Leaf(j: nat, remaining: nat, weight: nat, ghost prefix: Table)
      requires Valid() && IsSuffixSums(cols, suffix)
      requires j == |cols| == |prefix| && remaining <= suffix[j]
      requires weight == Weight(cols, prefix)
      modifies this
      ensures Valid()
      ensures Visited(old(visited), prefix, Tables(cols[j..], remaining), visited)
      ensures leaves == old(leaves) + |Tables(cols[j..], remaining)|
    {
      leaves := leaves + 1;
      assert cols[j..] == [];
      if remaining == 0 {
        PrependLeaf(prefix);
        Record(weight, prefix);
      }
    }

    method Record(weight: nat, ghost table: Table)
      requires Valid() && weight == Weight(cols, table)
      modifies this`accumulated, this`visited
      ensures Valid() && visited == old(visited) + [table]
    {
      ghost var before := visited;
      visited := visited + [table];
      assert visited[..|visited| - 1] == before;
      if weight <= limit {
        accumulated := accumulated + weight;
      }
    }
  }

  lemma {:induction false} PrependNothing(ts: seq<Table>)
    ensures [] + Prepend([], ts) == ts
  {
    assert [] + Prepend([], ts) == Prepend([], ts);
    forall i | 0 <= i < |ts| ensures Prepend([], ts)[i] == ts[i] { assert [] + ts[i] == ts[i]; }
  }

  // A listing, without repetition, of exactly the tables with these margins.
  ghost predicate IsAllTables(cols: seq<nat>, r: nat, ts: seq<Table>) {
    Distinct(ts) && forall t :: t in ts <==> Fits(cols, r, t)
  }

  // `accumulated` adds up the tables at most as heavy as the observed one, each once.
  ghost predicate IsExtremeWeight(cols: seq<nat>, observed: Table, accumulated: nat) {
    exists ts: seq<Table> ::
      IsAllTables(cols, Sum(observed), ts) && accumulated == WeightWithin(cols, Weight(cols, observed), ts)
  }

  // No table with the observed margins outweighs the observed one.
  ghost predicate IsModal(cols: seq<nat>, observed: Table) {
    forall t :: Fits(cols, Sum(observed), t) ==> Weight(cols, t) <= Weight(cols, observed)
  }

  lemma {:induction false} TablesAreAll(cols: seq<nat>, r: nat)
    ensures IsAllTables(cols, r, Tables(cols, r))
  {
    TablesDistinct(cols, r);
    forall t ensures t in Tables(cols, r) <==> Fits(cols, r, t) { TablesComplete(cols, r, t); }
  }

  lemma {:induction false} ExtremeShare(cols: seq<nat>, observed: Table)
    requires |observed| == |cols| && Below(cols, observed)
    ensures var ts, limit := Tables(cols, Sum(observed)), Weight(cols, observed);
      && IsAllTables(cols, Sum(observed), ts)
      && 0 < limit <= WeightWithin(cols, limit, ts) <= Choose(Sum(cols), Sum(observed))
      && (WeightWithin(cols, limit, ts) == Choose(Sum(cols), Sum(observed)) <==> IsModal(cols, observed))
  {
    var r, limit := Sum(observed), Weight(cols, observed);
    var ts := Tables(cols, r);
    TablesAreAll(cols, r);
    WeightPositive(cols, observed);
    assert observed in ts by { TablesComplete(cols, r, observed); }
    WithinAtLeast(cols, limit, ts, observed);
    WeightsAddUp(cols, r);
    WithinBounded(cols, limit, ts);
    assert AllWithin(cols, limit, ts) <==> IsModal(cols, observed);
  }

  // The p-value is accumulated / whole: positive, at most one, and one exactly when the
  // observed table is a heaviest one.
  method FisherFreemanHalton(cols: seq<nat>, observed: Table) returns (accumulated: nat, whole: nat)
    requires |observed| == |cols| && Below(cols, observed)
    ensures IsExtremeWeight(cols, observed, accumulated)
    ensures whole == Choose(Sum(cols), Sum(observed))
    ensures 0 < Weight(cols, observed) <= accumulated <= whole
    ensures accumulated == whole <==> IsModal(cols, observed)
  {
    var suffix := SuffixSums(cols);
    var e := new Enumeration(cols, suffix, Weight(cols, observed));
    SumBounded(cols, observed);
    assert cols[0..] == cols;
    e.Walk(0, Sum(observed), 1, []);
    accumulated := e.accumulated;
    whole := Choose(Sum(cols), Sum(observed));
    PrependNothing(Tables(cols, Sum(observed)));
    ExtremeShare(cols, observed);
    hide IsAllTables, IsModal, Weight, Tables, WeightWithin, Choose;
  }
}
