// Store-integrity diagnosis: references, cycles, contradictions, half-written supersessions.
module Doctor {
  // Each check is a loop over the scanned decisions, proved against a specification of its
  // rows; a title stands for its normalized form.
  import opened Common
  import opened Sorting
  import opened Reachability
  import opened Tarjan

  datatype Status = Active | Superseded

  datatype Decision = Decision(
    num: nat, title: string, status: Status, supersedes: Option<nat>, supersededBy: Option<nat>)

  datatype Body =
    | Unparseable
    | Parsed(title: string, status: Status, supersedes: Option<nat>, supersededBy: Option<nat>)

  // A listed decision file: its stem, the number its stem carries, and its content.
  datatype File = File(stem: string, number: Option<nat>, body: Body)

  // A parsed decision takes its number from the file name, or 0 when it carries none.
  function DecisionOf(f: File): Decision
    requires f.body.Parsed?
  {
    Decision(if f.number.Some? then f.number.value else 0,
             f.body.title, f.body.status, f.body.supersedes, f.body.supersededBy)
  }

  function DecisionsIn(f: File): seq<Decision> {
    if f.body.Parsed? then [DecisionOf(f)] else []
  }

  // The parsed decisions of a scan, in scan order.
  function ParsedOf(files: seq<File>): seq<Decision> {
    FlatMap(DecisionsIn, files)
  }

  function StemIf(n: nat): File -> seq<string> {
    (f: File) => if f.number == Some(n) then [f.stem] else []
  }

  // The stems that carry number `n`, in scan order.
  function StemsOf(files: seq<File>, n: nat): seq<string> {
    FlatMap(StemIf(n), files)
  }

  function NumbersOf(files: seq<File>): set<nat> {
    set f | f in files && f.number.Some? :: f.number.value
  }

  lemma {:induction false} NumberedIff(files: seq<File>, n: nat)
    ensures n in NumbersOf(files) <==> |StemsOf(files, n)| > 0
  {
    if n in NumbersOf(files) {
      var f :| f in files && f.number == Some(n);
      var i :| 0 <= i < |files| && files[i] == f;
      FlatMapIn(StemIf(n), files, f.stem);
      assert f.stem in StemIf(n)(files[i]);
    }
    if |StemsOf(files, n)| > 0 {
      var s := StemsOf(files, n)[0];
      FlatMapIn(StemIf(n), files, s);
      var i :| 0 <= i < |files| && s in StemIf(n)(files[i]);
      assert files[i] in files;
    }
  }

  // ---- first decision of each number -----------------------------------------

  // The first decision in scan order with number `n`.
  function ByNum(parsed: seq<Decision>, n: nat): Option<Decision> {
    if parsed == [] then None
    else
      var last := parsed[|parsed| - 1];
      var earlier := ByNum(parsed[..|parsed| - 1], n);
      if earlier.Some? then earlier else if last.num == n then Some(last) else None
  }

  lemma {:induction false} ByNumAbsent(parsed: seq<Decision>, n: nat)
    ensures ByNum(parsed, n) == None <==> forall i :: 0 <= i < |parsed| ==> parsed[i].num != n
  {
    if parsed != [] {
      var m := |parsed| - 1;
      ByNumAbsent(parsed[..m], n);
      assert forall i :: 0 <= i < m ==> parsed[..m][i] == parsed[i];
    }
  }

  lemma {:induction false} ByNumFirst(parsed: seq<Decision>, n: nat, k: nat)
    requires k < |parsed| && parsed[k].num == n
    requires forall i :: 0 <= i < k ==> parsed[i].num != n
    ensures ByNum(parsed, n) == Some(parsed[k])
  {
    if k < |parsed| - 1 {
      ByNumFirst(parsed[..|parsed| - 1], n, k);
    } else {
      ByNumAbsent(parsed[..k], n);
    }
  }

  lemma {:induction false} ByNumNamed(parsed: seq<Decision>, n: nat)
    requires ByNum(parsed, n).Some?
    ensures ByNum(parsed, n).value.num == n && ByNum(parsed, n).value in parsed
  {
    if ByNum(parsed[..|parsed| - 1], n).Some? { ByNumNamed(parsed[..|parsed| - 1], n); }
  }

  method IndexByNum(parsed: seq<Decision>) returns (byNum: map<nat, Decision>)
    ensures forall n: nat :: (n in byNum <==> ByNum(parsed, n).Some?)
    ensures forall n :: n in byNum ==> ByNum(parsed, n) == Some(byNum[n])
  {
    byNum := map[];
    for i := 0 to |parsed|
      invariant forall n: nat :: (n in byNum <==> ByNum(parsed[..i], n).Some?)
      invariant forall n :: n in byNum ==> ByNum(parsed[..i], n) == Some(byNum[n])
    {
      assert parsed[..i + 1][..i] == parsed[..i];
      if parsed[i].num !in byNum {
        byNum := byNum[parsed[i].num := parsed[i]];
      }
    }
    assert parsed[..|parsed|] == parsed;
  }

  // ---- dangling references -----------------------------------------------------

  datatype RefField = SupersededByField | SupersedesField

  datatype DanglingRef = DanglingRef(source: nat, field: RefField, target: nat)

  function Ref(d: Decision, field: RefField): Option<nat> {
    match field case SupersedesField => d.supersedes case SupersededByField => d.supersededBy
  }

  function DanglingIn(existing: set<nat>, d: Decision, field: RefField): seq<DanglingRef> {
    if Ref(d, field).Some? && Ref(d, field).value !in existing
    then [DanglingRef(d.num, field, Ref(d, field).value)] else []
  }

  function DanglingAt(existing: set<nat>): Decision -> seq<DanglingRef> {
    (d: Decision) => DanglingIn(existing, d, SupersedesField) + DanglingIn(existing, d, SupersededByField)
  }

  function DanglingKey(r: DanglingRef): seq<int> {
    [r.source, if r.field.SupersededByField? then 0 else 1, r.target]
  }

  function DanglingRows(parsed: seq<Decision>, existing: set<nat>): seq<DanglingRef> {
    SortBy(DanglingKey, FlatMap(DanglingAt(existing), parsed))
  }

  method DanglingRefs(parsed: seq<Decision>, existing: set<nat>) returns (rows: seq<DanglingRef>)
    ensures rows == DanglingRows(parsed, existing)
  {
    rows := [];
    for i := 0 to |parsed|
      invariant rows == FlatMap(DanglingAt(existing), parsed[..i])
    {
      FlatMapSnoc(DanglingAt(existing), parsed, i);
      var fields := [SupersedesField, SupersededByField];
      ghost var before := rows;
      for j := 0 to 2
        invariant rows == before + (if j > 0 then DanglingIn(existing, parsed[i], SupersedesField) else [])
                                 + (if j > 1 then DanglingIn(existing, parsed[i], SupersededByField) else [])
      {
        var raw := Ref(parsed[i], fields[j]);
        if raw == None { continue; }
        if raw.value !in existing {
          rows := rows + [DanglingRef(parsed[i].num, fields[j], raw.value)];
        }
      }
    }
    assert parsed[..|parsed|] == parsed;
    rows := SortBy(DanglingKey, rows);
  }

  // The decision's reference field names the row's target, which no file carries.
  predicate Dangles(d: Decision, existing: set<nat>, r: DanglingRef) {
    && d.num == r.source && r.target !in existing
    && Some(r.target) == if r.field.SupersededByField? then d.supersededBy else d.supersedes
  }

  lemma {:induction false} DanglesAt(d: Decision, existing: set<nat>, r: DanglingRef)
    ensures r in DanglingAt(existing)(d) <==> Dangles(d, existing, r)
    ensures multiset(DanglingAt(existing)(d))[r] <= 1
  {
    var a, b := DanglingIn(existing, d, SupersedesField), DanglingIn(existing, d, SupersededByField);
    assert multiset(a + b) == multiset(a) + multiset(b);
  }

  // A row is reported iff some decision's reference names a number no file carries, once
  // for each such decision, in key order.
  lemma {:induction false} DanglingExactly(parsed: seq<Decision>, existing: set<nat>, r: DanglingRef)
    ensures r in DanglingRows(parsed, existing) <==> exists d :: d in parsed && Dangles(d, existing, r)
    ensures multiset(DanglingRows(parsed, existing))[r] == |set i: nat | i < |parsed| && Dangles(parsed[i], existing, r)|
    ensures SortedBy(DanglingKey, DanglingRows(parsed, existing))
  {
    var f := DanglingAt(existing);
    var rows := FlatMap(f, parsed);
    SortByKeeps(DanglingKey, rows, r);
    SortBySorts(DanglingKey, rows);
    FlatMapIn(f, parsed, r);
    hide DanglingAt, Dangles, FlatMap, SortBy, SortedBy;
    forall i | 0 <= i < |parsed|
      ensures (r in f(parsed[i]) <==> Dangles(parsed[i], existing, r)) && multiset(f(parsed[i]))[r] <= 1
    {
      DanglesAt(parsed[i], existing, r);
    }
    FlatMapCount(f, parsed, r);
    assert Holding(f, parsed, r) == set i: nat | i < |parsed| && Dangles(parsed[i], existing, r);
    if d :| d in parsed && Dangles(d, existing, r) {
      var i :| 0 <= i < |parsed| && parsed[i] == d;
      assert r in f(parsed[i]);
    }
  }

  lemma {:induction false} ThreeKeys(a: int, b: int, c: int, x: int, y: int, z: int)
    ensures LexLe([a, b, c], [x, y, z]) <==> a < x || (a == x && (b < y || (b == y && c <= z)))
  {
    assert [a, b, c] == [a] + [b, c] && [x, y, z] == [x] + [y, z] && [b, c] == [b] + [c] && [y, z] == [y] + [z];
    LexCons(a, [b, c], x, [y, z]);
    LexCons(b, [c], y, [z]);
    assert [c] == [c] + [] && [z] == [z] + [];
    LexCons(c, [], z, []);
  }

  // By the decision, then back references before forward ones, then the missing number.
  lemma {:induction false} DanglingOrder(parsed: seq<Decision>, existing: set<nat>, i: nat, j: nat)
    requires i < j < |DanglingRows(parsed, existing)|
    ensures var a, b := DanglingRows(parsed, existing)[i], DanglingRows(parsed, existing)[j];
      || a.source < b.source
      || (a.source == b.source && a.field.SupersededByField? && b.field.SupersedesField?)
      || (a.source == b.source && a.field == b.field && a.target <= b.target)
  {
    SortBySorts(DanglingKey, FlatMap(DanglingAt(existing), parsed));
    hide SortBy, FlatMap, LexLe;
    var a, b := DanglingRows(parsed, existing)[i], DanglingRows(parsed, existing)[j];
    ThreeKeys(a.source, if a.field.SupersededByField? then 0 else 1, a.target, b.source, if b.field.SupersededByField? then 0 else 1, b.target);
  }

  // ---- cycles --------------------------------------------------------------------

  // One decision's supersession edges, newer to older.
  function AddEdge(g: Graph, u: int, v: int): Graph {
    g[u := Succ(g, u) + {v}]
  }

  function AddEdges(g: Graph, d: Decision): Graph {
    var g1 := if d.supersedes.Some? then AddEdge(g, d.num, d.supersedes.value) else g;
    if d.supersededBy.Some? then AddEdge(g1, d.supersededBy.value, d.num) else g1
  }

  function SupersessionGraph(parsed: seq<Decision>): Graph {
    if parsed == [] then map[]
    else AddEdges(SupersessionGraph(parsed[..|parsed| - 1]), parsed[|parsed| - 1])
  }

  ghost predicate Records(d: Decision, u: int, v: int) {
    (d.num == u && d.supersedes.Some? && d.supersedes.value == v)
    || (d.num == v && d.supersededBy.Some? && d.supersededBy.value == u)
  }

  // The graph has an edge iff some decision records it in either direction, and no node
  // is a key without an edge.
  lemma {:induction false} EdgeIff(parsed: seq<Decision>, u: int, v: int)
    ensures v in Succ(SupersessionGraph(parsed), u) <==> exists i :: 0 <= i < |parsed| && Records(parsed[i], u, v)
    ensures forall x :: x in SupersessionGraph(parsed) ==> SupersessionGraph(parsed)[x] != {}
  {
    if parsed != [] {
      var n := |parsed| - 1;
      EdgeIff(parsed[..n], u, v);
      assert v in Succ(SupersessionGraph(parsed), u)
        <==> v in Succ(SupersessionGraph(parsed[..n]), u) || Records(parsed[n], u, v);
      if i :| 0 <= i < n && Records(parsed[..n][i], u, v) {
        assert Records(parsed[i], u, v);
      }
      if i :| 0 <= i < n && Records(parsed[i], u, v) {
        assert Records(parsed[..n][i], u, v);
      }
    }
  }

  // The class of mutual reachability around `n`, ascending.
  ghost function CycleOf(g: Graph, n: int): seq<int> {
    Sorted(set m | m in Nodes(g) && Mutual(g, n, m))
  }

  // Exactly the classes of nodes on a cycle, each once, in lexicographic order.
  ghost predicate IsCycleReport(g: Graph, cycles: seq<seq<int>>) {
    && SortedBy((c: seq<int>) => c, cycles)
    && Distinct(cycles)
    && (forall c :: c in cycles <==> exists n :: n in Nodes(g) && OnCycle(g, n) && c == CycleOf(g, n))
  }

  method BuildAdjacency(parsed: seq<Decision>) returns (adjacency: Graph)
    ensures adjacency == SupersessionGraph(parsed)
  {
    adjacency := map[];
    for i := 0 to |parsed|
      invariant adjacency == SupersessionGraph(parsed[..i])
    {
      assert parsed[..i + 1][..i] == parsed[..i];
      var d := parsed[i];
      if d.supersedes.Some? {
        adjacency := AddEdge(adjacency, d.num, d.supersedes.value);
      }
      if d.supersededBy.Some? {
        adjacency := AddEdge(adjacency, d.supersededBy.value, d.num);
      }
    }
    assert parsed[..|parsed|] == parsed;
  }

  // A component that is a cycle: several nodes, or one with a self-loop.
  predicate IsCycleClass(g: Graph, c: seq<int>)
    requires c != []
  {
    |c| > 1 || c[0] in Succ(g, c[0])
  }

  function RowOf(c: seq<int>): seq<int> {
    Sorted(set x | x in c)
  }

  lemma {:induction false} ClassRow(g: Graph, c: seq<int>, n: int)
    requires IsComponent(g, c) && n in c && forall u :: u in c ==> u in Nodes(g)
    ensures RowOf(c) == CycleOf(g, n)
    ensures OnCycle(g, n) <==> IsCycleClass(g, c)
  {
    hide OnCycle, Reach, Nodes;
    hide Mutual;
    var a, b := (set x | x in c), (set m | m in Nodes(g) && Mutual(g, n, m));
    forall x ensures x in a <==> x in b {}
    assert a == b;
    OnCycleIff(g, n);
    var k :| 0 <= k < |c| && c[k] == n;
    if |c| > 1 {
      var m := if k == 0 then c[1] else c[0];
      assert m in c && m != n;
    } else if m :| m != n && Mutual(g, n, m) {
      assert m in c;
    }
  }

  // The rows of the cyclic components are the cycle report, once sorted.
  lemma {:induction false} RowsReportCycles(g: Graph, comps: seq<seq<int>>, rows: seq<seq<int>>)
    requires IsPartition(g, comps) && Distinct(rows)
    requires forall r :: r in rows <==>
      exists i :: 0 <= i < |comps| && comps[i] != [] && IsCycleClass(g, comps[i]) && r == RowOf(comps[i])
    ensures IsCycleReport(g, SortBy((c: seq<int>) => c, rows))
  {
    hide OnCycle, Mutual, Nodes, IsComponent, CycleOf, RowOf;
    var key := (c: seq<int>) => c;
    var sorted := SortBy(key, rows);
    SortBySorts(key, rows);
    SortedDistinct(rows, sorted);
    forall c ensures c in sorted <==> exists n :: n in Nodes(g) && OnCycle(g, n) && c == CycleOf(g, n) {
      SortByKeeps(key, rows, c);
      if c in rows {
        var i :| 0 <= i < |comps| && comps[i] != [] && IsCycleClass(g, comps[i]) && c == RowOf(comps[i]);
        var n := comps[i][0];
        assert n in comps[i];
        ClassRow(g, comps[i], n);
      }
      if n :| n in Nodes(g) && OnCycle(g, n) && c == CycleOf(g, n) {
        var i :| 0 <= i < |comps| && n in comps[i];
        ClassRow(g, comps[i], n);
      }
    }
  }

  lemma {:induction false} AppendDistinct<T>(s: seq<T>, x: T)
    requires Distinct(s) && x !in s
    ensures Distinct(s + [x])
  {
    assert forall i :: 0 <= i < |s| ==> s[i] in s;
  }

  lemma {:induction false} SingleRow(c: seq<int>)
    requires |c| == 1
    ensures RowOf(c) == [c[0]]
  {
    var x := c[0];
    assert (set y | y in c) == {x};
    assert Minimum({x}) == x && {x} - {x} == {};
    assert Sorted({x}) == [x] + Sorted({x} - {x});
  }

  lemma {:induction false} FreshRow(g: Graph, comps: seq<seq<int>>, k: nat)
    requires IsPartition(g, comps) && k < |comps|
    ensures forall i :: 0 <= i < k ==> RowOf(comps[i]) != RowOf(comps[k])
  {
    hide Mutual, Nodes;
    forall i | 0 <= i < k ensures RowOf(comps[i]) != RowOf(comps[k]) {
      assert IsComponent(g, comps[i]);
      var x := comps[i][0];
      assert x in comps[i] && x !in comps[k];
      assert x in RowOf(comps[i]) && x !in RowOf(comps[k]);
    }
  }

  // Directed cycles over both reference directions, by strongly connected component.
  method Cycles(parsed: seq<Decision>) returns (cycles: seq<seq<int>>)
    ensures IsCycleReport(SupersessionGraph(parsed), cycles)
  {
    var adjacency := BuildAdjacency(parsed);
    var comps := StronglyConnectedComponents(adjacency);
    cycles := [];
    for k := 0 to |comps|
      invariant Distinct(cycles)
      invariant forall r :: r in cycles <==>
        exists i :: 0 <= i < k && comps[i] != [] && IsCycleClass(adjacency, comps[i]) && r == RowOf(comps[i])
    {
      var scc := comps[k];
      assert IsComponent(adjacency, scc);
      ghost var before := cycles;
      FreshRow(adjacency, comps, k);
      AppendDistinct(cycles, RowOf(scc));
      if |scc| > 1 {
        cycles := cycles + [RowOf(scc)];
      } else {
        var node := scc[0];
        if node in Succ(adjacency, node) {
          SingleRow(scc);
          cycles := cycles + [[node]];
        }
      }
      assert IsCycleClass(adjacency, scc) ==> cycles == before + [RowOf(scc)];
      assert !IsCycleClass(adjacency, scc) ==> cycles == before;
    }
    RowsReportCycles(adjacency, comps, cycles);
    cycles := SortBy((c: seq<int>) => c, cycles);
  }

  // ---- contradictions ------------------------------------------------------------

  datatype Contradiction =
    | ActiveWithSupersededBy(decision: nat, other: nat)
    | ForwardBackConflict(decision: nat, other: nat, conflictingWith: nat)

  function ActiveConflict(d: Decision): seq<Contradiction> {
    if d.status.Active? && d.supersededBy.Some?
    then [ActiveWithSupersededBy(d.num, d.supersededBy.value)] else []
  }

  // `d` claims to supersede a decision whose own back reference names a third, existing one.
  function BackConflict(parsed: seq<Decision>, existing: set<nat>, d: Decision): seq<Contradiction> {
    if d.supersedes.None? then []
    else match ByNum(parsed, d.supersedes.value)
      case None => []
      case Some(target) =>
        if target.supersededBy.Some? && target.supersededBy.value in existing && target.supersededBy.value != d.num
        then [ForwardBackConflict(d.num, target.num, target.supersededBy.value)] else []
  }

  function ContradictionsAt(parsed: seq<Decision>, existing: set<nat>): Decision -> seq<Contradiction> {
    (d: Decision) => ActiveConflict(d) + BackConflict(parsed, existing, d)
  }

  function ContradictionKey(c: Contradiction): seq<int> {
    match c
    case ActiveWithSupersededBy(d, o) => [0, d, o, 0]
    case ForwardBackConflict(d, o, w) => [1, d, o, w]
  }

  function ContradictionRows(parsed: seq<Decision>, existing: set<nat>): seq<Contradiction> {
    SortBy(ContradictionKey, FlatMap(ContradictionsAt(parsed, existing), parsed))
  }

  lemma NoRows(parsed: seq<Decision>, existing: set<nat>)
    ensures FlatMap(ContradictionsAt(parsed, existing), []) == []
  {
  }

  method Contradictions(parsed: seq<Decision>, byNum: map<nat, Decision>, existing: set<nat>)
    returns (rows: seq<Contradiction>)
    requires forall n: nat :: (n in byNum <==> ByNum(parsed, n).Some?)
    requires forall n :: n in byNum ==> ByNum(parsed, n) == Some(byNum[n])
    ensures rows == ContradictionRows(parsed, existing)
  {
    hide FlatMap, SortBy, ByNum;
    rows := [];
    NoRows(parsed, existing);
    for i := 0 to |parsed|
      invariant rows == FlatMap(ContradictionsAt(parsed, existing), parsed[..i])
    {
      FlatMapSnoc(ContradictionsAt(parsed, existing), parsed, i);
      var d := parsed[i];
      ghost var before := rows;
      if d.status.Active? && d.supersededBy.Some? {
        rows := rows + [ActiveWithSupersededBy(d.num, d.supersededBy.value)];
      }
      assert rows == before + ActiveConflict(d);
      if d.supersedes.Some? {
        if d.supersedes.value in byNum {
          var target := byNum[d.supersedes.value];
          if target.supersededBy.Some? {
            var claimed := target.supersededBy.value;
            if claimed in existing && claimed != d.num {
              rows := rows + [ForwardBackConflict(d.num, target.num, claimed)];
            }
          }
        }
      }
      assert rows == before + ActiveConflict(d) + BackConflict(parsed, existing, d);
    }
    assert parsed[..|parsed|] == parsed;
    rows := SortBy(ContradictionKey, rows);
  }

  // The decision is active and still names a decision that supersedes it.
  predicate ActiveButSuperseded(d: Decision, decision: nat, other: nat) {
    d.num == decision && d.status.Active? && d.supersededBy == Some(other)
  }

  // The decision claims to supersede one whose own back reference names a third decision
  // that the store has.
  predicate ClaimedByAnother(parsed: seq<Decision>, existing: set<nat>, d: Decision, decision: nat, other: nat, third: nat) {
    && d.num == decision && d.supersedes == Some(other) && third in existing && third != decision
    && ByNum(parsed, other).Some? && ByNum(parsed, other).value.supersededBy == Some(third)
  }

  ghost predicate IsContradiction(parsed: seq<Decision>, existing: set<nat>, c: Contradiction) {
    match c
    case ActiveWithSupersededBy(d, o) => exists e :: e in parsed && ActiveButSuperseded(e, d, o)
    case ForwardBackConflict(d, o, w) => exists e :: e in parsed && ClaimedByAnother(parsed, existing, e, d, o, w)
  }

  predicate ShowsAt(parsed: seq<Decision>, existing: set<nat>, d: Decision, c: Contradiction) {
    match c
    case ActiveWithSupersededBy(n, o) => ActiveButSuperseded(d, n, o)
    case ForwardBackConflict(n, o, w) => ClaimedByAnother(parsed, existing, d, n, o, w)
  }

  lemma {:induction false} OneOfTwo<T>(a: seq<T>, b: seq<T>, x: T)
    requires |a| <= 1 && |b| <= 1 && (x !in a || x !in b)
    ensures multiset(a + b)[x] <= 1
  {
    assert multiset(a + b) == multiset(a) + multiset(b);
    assert (x in a <==> x in multiset(a)) && (x in b <==> x in multiset(b));
  }

  lemma {:induction false} ShownActive(d: Decision, c: Contradiction)
    ensures c in ActiveConflict(d) <==> c.ActiveWithSupersededBy? && ActiveButSuperseded(d, c.decision, c.other)
    ensures |ActiveConflict(d)| <= 1
  {
  }

  lemma {:induction false} ShownBack(parsed: seq<Decision>, existing: set<nat>, d: Decision, c: Contradiction)
    ensures c in BackConflict(parsed, existing, d) <==>
      c.ForwardBackConflict? && ClaimedByAnother(parsed, existing, d, c.decision, c.other, c.conflictingWith)
    ensures |BackConflict(parsed, existing, d)| <= 1
  {
    if d.supersedes.Some? && ByNum(parsed, d.supersedes.value).Some? { ByNumNamed(parsed, d.supersedes.value); }
    hide ByNum;
  }

  lemma {:induction false} ShownBy(parsed: seq<Decision>, existing: set<nat>, d: Decision, c: Contradiction)
    ensures c in ContradictionsAt(parsed, existing)(d) <==> ShowsAt(parsed, existing, d, c)
    ensures multiset(ContradictionsAt(parsed, existing)(d))[c] <= 1
  {
    ShownActive(d, c);
    ShownBack(parsed, existing, d, c);
    hide ActiveConflict, BackConflict, ActiveButSuperseded, ClaimedByAnother;
    var a, b := ActiveConflict(d), BackConflict(parsed, existing, d);
    assert c in a + b <==> ShowsAt(parsed, existing, d, c);
    OneOfTwo(a, b, c);
  }

  lemma {:induction false} ShownSomewhere(parsed: seq<Decision>, existing: set<nat>, c: Contradiction)
    ensures IsContradiction(parsed, existing, c)
      <==> exists i :: 0 <= i < |parsed| && c in ContradictionsAt(parsed, existing)(parsed[i])
  {
    hide ContradictionsAt, ActiveButSuperseded, ClaimedByAnother;
    forall i | 0 <= i < |parsed|
      ensures c in ContradictionsAt(parsed, existing)(parsed[i]) <==> ShowsAt(parsed, existing, parsed[i], c)
    {
      ShownBy(parsed, existing, parsed[i], c);
    }
    if IsContradiction(parsed, existing, c) {
      var e :| e in parsed && ShowsAt(parsed, existing, e, c);
      var i :| 0 <= i < |parsed| && parsed[i] == e;
    }
  }

  // A contradiction is reported iff some decision shows it, once for each that does; the
  // report is in key order.
  lemma {:induction false} ContradictionsExactly(parsed: seq<Decision>, existing: set<nat>, c: Contradiction)
    ensures c in ContradictionRows(parsed, existing) <==> IsContradiction(parsed, existing, c)
    ensures multiset(ContradictionRows(parsed, existing))[c]
        == |set i: nat | i < |parsed| && ShowsAt(parsed, existing, parsed[i], c)|
    ensures SortedBy(ContradictionKey, ContradictionRows(parsed, existing))
  {
    hide ContradictionsAt, IsContradiction, ShowsAt, FlatMap, SortBy, SortedBy;
    var f := ContradictionsAt(parsed, existing);
    var rows := FlatMap(f, parsed);
    SortByKeeps(ContradictionKey, rows, c);
    SortBySorts(ContradictionKey, rows);
    FlatMapIn(f, parsed, c);
    ShownSomewhere(parsed, existing, c);
    forall i | 0 <= i < |parsed|
      ensures (c in f(parsed[i]) <==> ShowsAt(parsed, existing, parsed[i], c)) && multiset(f(parsed[i]))[c] <= 1
    {
      ShownBy(parsed, existing, parsed[i], c);
    }
    FlatMapCount(f, parsed, c);
    assert Holding(f, parsed, c) == set i: nat | i < |parsed| && ShowsAt(parsed, existing, parsed[i], c);
  }

  // Active though superseded before conflicting claims; each by its numbers in turn.
  lemma {:induction false} ContradictionOrder(parsed: seq<Decision>, existing: set<nat>, i: nat, j: nat)
    requires i < j < |ContradictionRows(parsed, existing)|
    ensures match (ContradictionRows(parsed, existing)[i], ContradictionRows(parsed, existing)[j])
      case (ActiveWithSupersededBy(d, o), ActiveWithSupersededBy(e, p)) => d < e || (d == e && o <= p)
      case (ActiveWithSupersededBy(_, _), ForwardBackConflict(_, _, _)) => true
      case (ForwardBackConflict(_, _, _), ActiveWithSupersededBy(_, _)) => false
      case (ForwardBackConflict(d, o, w), ForwardBackConflict(e, p, x)) => d < e || (d == e && (o < p || (o == p && w <= x)))
  {
    SortBySorts(ContradictionKey, FlatMap(ContradictionsAt(parsed, existing), parsed));
    hide SortBy, FlatMap, LexLe;
    var a, b := ContradictionKey(ContradictionRows(parsed, existing)[i]), ContradictionKey(ContradictionRows(parsed, existing)[j]);
    assert LexLe(a, b) && a == [a[0]] + [a[1], a[2], a[3]] && b == [b[0]] + [b[1], b[2], b[3]];
    LexCons(a[0], [a[1], a[2], a[3]], b[0], [b[1], b[2], b[3]]);
    ThreeKeys(a[1], a[2], a[3], b[1], b[2], b[3]);
  }

  // ---- half-written supersessions ------------------------------------------------

  datatype Orphan = Orphan(child: nat, target: nat)

  // An active decision supersedes an active one that carries no back reference; each
  // number belongs to one file, they differ, and neither is on a cycle.
  ghost predicate IsOrphan(files: seq<File>, parsed: seq<Decision>, d: Decision, t: nat) {
    && d.status.Active? && d.supersedes == Some(t) && t != d.num
    && |StemsOf(files, d.num)| == 1 && |StemsOf(files, t)| == 1
    && !OnCycle(SupersessionGraph(parsed), d.num) && !OnCycle(SupersessionGraph(parsed), t)
    && ByNum(parsed, t).Some?
    && ByNum(parsed, t).value.status.Active? && ByNum(parsed, t).value.supersededBy.None?
  }

  ghost function OrphansAt(files: seq<File>, parsed: seq<Decision>): Decision -> seq<Orphan> {
    (d: Decision) =>
      if d.supersedes.Some? && IsOrphan(files, parsed, d, d.supersedes.value)
      then [Orphan(d.num, d.supersedes.value)] else []
  }

  function OrphanKey(o: Orphan): seq<int> {
    [o.child, o.target]
  }

  ghost function OrphanRows(files: seq<File>, parsed: seq<Decision>): seq<Orphan> {
    SortBy(OrphanKey, FlatMap(OrphansAt(files, parsed), parsed))
  }

  // An orphan is reported iff some decision is the half-written child of its target, once
  // for each that is, in key order.
  lemma {:induction false} OrphansExactly(files: seq<File>, parsed: seq<Decision>, o: Orphan)
    ensures o in OrphanRows(files, parsed) <==> exists d :: d in parsed && d.num == o.child && IsOrphan(files, parsed, d, o.target)
    ensures multiset(OrphanRows(files, parsed))[o]
        == |set i: nat | i < |parsed| && parsed[i].num == o.child && IsOrphan(files, parsed, parsed[i], o.target)|
    ensures SortedBy(OrphanKey, OrphanRows(files, parsed))
  {
    var f := OrphansAt(files, parsed);
    var rows := FlatMap(f, parsed);
    SortByKeeps(OrphanKey, rows, o);
    SortBySorts(OrphanKey, rows);
    FlatMapIn(f, parsed, o);
    hide FlatMap, SortBy, SortedBy, OnCycle, SupersessionGraph, StemsOf, ByNum;
    assert forall i :: 0 <= i < |parsed| ==> (o in f(parsed[i]) <==> parsed[i].num == o.child && IsOrphan(files, parsed, parsed[i], o.target));
    FlatMapCount(f, parsed, o);
    assert Holding(f, parsed, o)
        == set i: nat | i < |parsed| && parsed[i].num == o.child && IsOrphan(files, parsed, parsed[i], o.target);
    if d :| d in parsed && d.num == o.child && IsOrphan(files, parsed, d, o.target) {
      var i :| 0 <= i < |parsed| && parsed[i] == d;
      assert o in f(parsed[i]);
    }
  }

  lemma {:induction false} OrphanOrder(files: seq<File>, parsed: seq<Decision>, i: nat, j: nat)
    requires i < j < |OrphanRows(files, parsed)|
    ensures var a, b := OrphanRows(files, parsed)[i], OrphanRows(files, parsed)[j];
      a.child < b.child || (a.child == b.child && a.target <= b.target)
  {
    SortBySorts(OrphanKey, FlatMap(OrphansAt(files, parsed), parsed));
    hide SortBy, FlatMap, LexLe;
    var a, b := OrphanRows(files, parsed)[i], OrphanRows(files, parsed)[j];
    assert [a.child, a.target] == [a.child] + [a.target] && [b.child, b.target] == [b.child] + [b.target];
    LexCons(a.child, [a.target], b.child, [b.target]);
    assert [a.target] == [a.target] + [] && [b.target] == [b.target] + [];
    LexCons(a.target, [], b.target, []);
  }

  lemma {:induction false} OnCycleNode(g: Graph, n: int)
    requires OnCycle(g, n)
    ensures n in Nodes(g)
  {
    var p :| PathBetween(g, p, n, n) && |p| > 1;
    assert p[0 + 1] in Succ(g, p[0]);
  }

  // Membership in a reported cycle is membership in a directed cycle.
  lemma {:induction false} InReportIff(g: Graph, cycles: seq<seq<int>>, n: int)
    requires IsCycleReport(g, cycles)
    ensures (exists c :: c in cycles && n in c) <==> OnCycle(g, n)
  {
    if c :| c in cycles && n in c {
      var m :| m in Nodes(g) && OnCycle(g, m) && c == CycleOf(g, m);
      assert Mutual(g, m, n);
      OnCycleIff(g, m);
      OnCycleIff(g, n);
      if n != m {
        assert Mutual(g, n, m);
      }
    }
    if OnCycle(g, n) {
      OnCycleNode(g, n);
      ReachRefl(g, n);
      assert n in CycleOf(g, n);
    }
  }

  method CountStems(files: seq<File>) returns (counts: map<nat, nat>)
    ensures forall n: nat :: |StemsOf(files, n)| == if n in counts then counts[n] else 0
    ensures counts.Keys == NumbersOf(files)
  {
    counts := map[];
    for i := 0 to |files|
      invariant forall n: nat :: |StemsOf(files[..i], n)| == if n in counts then counts[n] else 0
      invariant forall n :: n in counts ==> counts[n] > 0
    {
      forall n: nat ensures StemsOf(files[..i + 1], n) == StemsOf(files[..i], n) + StemIf(n)(files[i]) {
        FlatMapSnoc(StemIf(n), files, i);
      }
      if files[i].number.Some? {
        var n := files[i].number.value;
        counts := counts[n := (if n in counts then counts[n] else 0) + 1];
      }
    }
    assert files[..|files|] == files;
    forall n: nat ensures n in counts <==> n in NumbersOf(files) { NumberedIff(files, n); }
  }

  method SupersedeOrphans(ghost files: seq<File>, parsed: seq<Decision>, byNum: map<nat, Decision>,
                          stemCounts: map<nat, nat>, cycles: seq<seq<int>>)
    returns (rows: seq<Orphan>)
    requires forall n: nat :: (n in byNum <==> ByNum(parsed, n).Some?)
    requires forall n :: n in byNum ==> ByNum(parsed, n) == Some(byNum[n])
    requires forall n: nat :: |StemsOf(files, n)| == if n in stemCounts then stemCounts[n] else 0
    requires IsCycleReport(SupersessionGraph(parsed), cycles)
    ensures rows == OrphanRows(files, parsed)
  {
    var members := set c, m | c in cycles && m in c :: m;
    forall n: nat ensures n in members <==> OnCycle(SupersessionGraph(parsed), n) {
      InReportIff(SupersessionGraph(parsed), cycles, n);
    }
    hide OnCycle, IsCycleReport;
    rows := [];
    for i := 0 to |parsed|
      invariant rows == FlatMap(OrphansAt(files, parsed), parsed[..i])
    {
      FlatMapSnoc(OrphansAt(files, parsed), parsed, i);
      var d := parsed[i];
      if d.status.Superseded? || d.supersedes.None? { continue; }
      var targetNum := d.supersedes.value;
      if targetNum == d.num { continue; }
      if !(d.num in stemCounts && stemCounts[d.num] == 1) || !(targetNum in stemCounts && stemCounts[targetNum] == 1) {
        continue;
      }
      if d.num in members || targetNum in members { continue; }
      if targetNum !in byNum { continue; }
      var target := byNum[targetNum];
      if target.status.Superseded? || target.supersededBy.Some? { continue; }
      rows := rows + [Orphan(d.num, targetNum)];
    }
    assert parsed[..|parsed|] == parsed;
    rows := SortBy(OrphanKey, rows);
  }

  // ---- the diagnosis ---------------------------------------------------------------

  datatype Diagnosis = Diagnosis(
    danglingRefs: seq<DanglingRef>, cycles: seq<seq<int>>, contradictions: seq<Contradiction>, orphans: seq<Orphan>)

  ghost predicate IsDiagnosis(files: seq<File>, d: Diagnosis) {
    && d.danglingRefs == DanglingRows(ParsedOf(files), NumbersOf(files))
    && IsCycleReport(SupersessionGraph(ParsedOf(files)), d.cycles)
    && d.contradictions == ContradictionRows(ParsedOf(files), NumbersOf(files))
    && d.orphans == OrphanRows(files, ParsedOf(files))
  }

  method Diagnose(files: seq<File>) returns (d: Diagnosis)
    ensures IsDiagnosis(files, d)
  {
    var parsed := ParsedOf(files);
    var stemCounts := CountStems(files);
    var byNum := IndexByNum(parsed);
    var dangling := DanglingRefs(parsed, stemCounts.Keys);
    var cycles := Cycles(parsed);
    var contradictions := Contradictions(parsed, byNum, stemCounts.Keys);
    var orphans := SupersedeOrphans(files, parsed, byNum, stemCounts, cycles);
    d := Diagnosis(dangling, cycles, contradictions, orphans);
  }

  // The active decisions that share a title, as (number, stem) in scan order.
  function ActiveCarrier(title: string): File -> seq<(nat, string)> {
    (f: File) =>
      if f.body.Parsed? && f.body.status.Active? && f.body.title == title
      then [(DecisionOf(f).num, f.stem)] else []
  }

  function ActiveCarriers(files: seq<File>, title: string): seq<(nat, string)> {
    FlatMap(ActiveCarrier(title), files)
  }

  lemma {:induction false} CarriersExactly(files: seq<File>, title: string, n: nat, stem: string)
    ensures (n, stem) in ActiveCarriers(files, title) <==>
      exists f :: f in files && f.stem == stem && f.body.Parsed? && f.body.title == title && f.body.status.Active?
        && n == f.number.GetOr(0)
  {
    FlatMapIn(ActiveCarrier(title), files, (n, stem));
    if f :| (f in files && f.stem == stem && f.body.Parsed? && f.body.title == title && f.body.status.Active?
        && n == f.number.GetOr(0)) {
      var i :| 0 <= i < |files| && files[i] == f;
      assert (n, stem) in ActiveCarrier(title)(files[i]);
    }
  }
}
