// Exactly which refusals the planner reports, and exactly when it returns a plan.
module RepairPlan {
  // Both are stated over the listed files and the parsed decisions alone.
  import opened Common
  import opened Sorting
  import opened Reachability
  import opened Doctor
  import opened Repair
  import opened RepairProof

  ghost predicate FirstAt(parsed: seq<Decision>, n: nat, k: nat) {
    k < |parsed| && parsed[k].num == n && forall j :: 0 <= j < k ==> parsed[j].num != n
  }

  // The first decision `y` has a back reference to `x`.
  ghost predicate NamesBack(parsed: seq<Decision>, y: nat, x: nat) {
    exists k: nat :: FirstAt(parsed, y, k) && parsed[k].supersededBy == Some(x)
  }

  ghost predicate Supersedes(parsed: seq<Decision>, x: nat, y: nat) {
    exists d :: d in parsed && d.num == x && d.supersedes == Some(y)
  }

  ghost predicate Carried(files: seq<File>, n: nat) {
    exists f :: f in files && f.number == Some(n)
  }

  // Decision `x` supersedes another number `y` that some file carries, and `y` does not
  // name `x` back yet.
  ghost predicate Pending(files: seq<File>, parsed: seq<Decision>, x: nat, y: nat) {
    x != y && Supersedes(parsed, x, y) && Carried(files, y) && !NamesBack(parsed, y, x)
  }

  // File `i` is the only one that carries the number.
  ghost predicate LoneFile(files: seq<File>, n: nat, i: nat) {
    && i < |files| && files[i].number == Some(n)
    && forall j :: 0 <= j < |files| && files[j].number == Some(n) ==> j == i
  }

  // The only file of number `y` does not parse.
  ghost predicate Unreadable(files: seq<File>, y: nat, stem: string) {
    exists i: nat :: LoneFile(files, y, i) && files[i].body.Unparseable? && files[i].stem == stem
  }

  ghost predicate Retired(parsed: seq<Decision>, x: nat) {
    exists k: nat :: FirstAt(parsed, x, k) && (parsed[k].status.Superseded? || parsed[k].supersededBy.Some?)
  }

  // Decision `n` refers to the pair from outside: another decision says that `y` supersedes
  // it or claims to supersede `x`, or the first decision `x` is itself retired or claimed.
  ghost predicate Intrudes(parsed: seq<Decision>, x: nat, y: nat, n: nat) {
    || (exists d :: d in parsed && d.num == n && n != x && d.supersededBy == Some(y))
    || (exists d :: d in parsed && d.num == n && n != y && d.supersedes == Some(x))
    || (n == x && Retired(parsed, x))
  }

  // ---- first decisions and lone files --------------------------------------------------

  lemma {:induction false} FirstExists(parsed: seq<Decision>, n: nat, j: nat) returns (k: nat)
    requires j < |parsed| && parsed[j].num == n
    ensures FirstAt(parsed, n, k)
  {
    k := 0;
    while parsed[k].num != n
      invariant k <= j
      invariant forall i :: 0 <= i < k ==> parsed[i].num != n
      decreases j - k
    {
      k := k + 1;
    }
  }

  // The lookup finds the first decision of a number.
  lemma {:induction false} ByNumIff(parsed: seq<Decision>, n: nat, d: Decision)
    ensures ByNum(parsed, n) == Some(d) <==> exists k: nat :: FirstAt(parsed, n, k) && parsed[k] == d
  {
    ByNumAbsent(parsed, n);
    if j :| 0 <= j < |parsed| && parsed[j].num == n {
      var k := FirstExists(parsed, n, j);
      ByNumFirst(parsed, n, k);
    }
  }

  lemma {:induction false} RetiredIff(parsed: seq<Decision>, c: Orphan)
    ensures ChildRetired(parsed, c) <==> Retired(parsed, c.child)
  {
    var first := ByNum(parsed, c.child);
    if first.Some? { ByNumIff(parsed, c.child, first.value); }
    if k: nat :| FirstAt(parsed, c.child, k) && (parsed[k].status.Superseded? || parsed[k].supersededBy.Some?) {
      ByNumIff(parsed, c.child, parsed[k]);
    }
  }

  lemma {:induction false} NamesBackIff(parsed: seq<Decision>, y: nat, x: nat)
    ensures NamesBack(parsed, y, x) <==> ByNum(parsed, y).Some? && ByNum(parsed, y).value.supersededBy == Some(x)
  {
    if ByNum(parsed, y).Some? { ByNumIff(parsed, y, ByNum(parsed, y).value); }
    if k: nat :| FirstAt(parsed, y, k) && parsed[k].supersededBy == Some(x) {
      ByNumIff(parsed, y, parsed[k]);
    }
  }

  lemma {:induction false} StemsIn(files: seq<File>, n: nat, x: string)
    ensures x in StemsOf(files, n) <==> exists f :: f in files && f.number == Some(n) && f.stem == x
  {
    FlatMapIn(StemIf(n), files, x);
    if f :| f in files && f.number == Some(n) && f.stem == x {
      var i :| 0 <= i < |files| && files[i] == f;
      assert x in StemIf(n)(files[i]);
    }
  }

  function Carriers(files: seq<File>, n: nat): set<nat> {
    set i: nat | i < |files| && files[i].number == Some(n)
  }

  lemma {:induction false} CarriersSnoc(files: seq<File>, n: nat, m: nat)
    requires m < |files|
    ensures |Carriers(files[..m + 1], n)| == |Carriers(files[..m], n)| + (if files[m].number == Some(n) then 1 else 0)
  {
    var here: set<nat> := if files[m].number == Some(n) then {m} else {};
    assert Carriers(files[..m + 1], n) == Carriers(files[..m], n) + here;
  }

  lemma {:induction false} StemCount(files: seq<File>, n: nat)
    ensures |StemsOf(files, n)| == |Carriers(files, n)|
  {
    for m := 0 to |files|
      invariant |StemsOf(files[..m], n)| == |Carriers(files[..m], n)|
    {
      FlatMapSnoc(StemIf(n), files, m);
      CarriersSnoc(files, n, m);
    }
    assert files[..|files|] == files;
  }

  lemma {:induction false} CarriedIff(files: seq<File>, n: nat)
    ensures Carried(files, n) <==> |StemsOf(files, n)| != 0
  {
    NumberedIff(files, n);
  }

  lemma {:induction false} SingletonIff(s: set<nat>, i: nat)
    requires i in s
    ensures |s| == 1 <==> forall j :: j in s ==> j == i
  {
    var rest := s - {i};
    assert s == rest + {i} && |s| == |rest| + 1;
    assert rest == {} <==> forall j :: j in s ==> j == i;
  }

  // Exactly one stem carries the number iff exactly one file does.
  lemma {:induction false} LoneFileIff(files: seq<File>, n: nat, i: nat)
    requires i < |files| && files[i].number == Some(n)
    ensures LoneFile(files, n, i) <==> |StemsOf(files, n)| == 1
    ensures LoneFile(files, n, i) ==> StemsOf(files, n) == [files[i].stem]
  {
    StemCount(files, n);
    SingletonIff(Carriers(files, n), i);
    assert forall j: nat :: j in Carriers(files, n) <==> j < |files| && files[j].number == Some(n);
    if |StemsOf(files, n)| == 1 {
      LoneStemOf(files, n, i);
      assert StemsOf(files, n) == [StemsOf(files, n)[0]];
    }
  }

  lemma {:induction false} TwoFiles(files: seq<File>, n: nat)
    requires |StemsOf(files, n)| > 1
    ensures exists i, j :: 0 <= i < j < |files| && files[i].number == Some(n) && files[j].number == Some(n)
  {
    NumberedIff(files, n);
    var f :| f in files && f.number == Some(n);
    var i :| 0 <= i < |files| && files[i] == f;
    LoneFileIff(files, n, i);
  }

  lemma {:induction false} LoneStemIff(files: seq<File>, n: nat, stem: string)
    ensures stem in LoneStem(files, n) <==> exists i: nat :: LoneFile(files, n, i) && files[i].stem == stem
  {
    if |StemsOf(files, n)| == 1 {
      NumberedIff(files, n);
      var f :| f in files && f.number == Some(n);
      var i :| 0 <= i < |files| && files[i] == f;
      LoneFileIff(files, n, i);
    }
    if i: nat :| LoneFile(files, n, i) && files[i].stem == stem {
      LoneFileIff(files, n, i);
    }
  }

  // ---- candidates and competing references --------------------------------------------

  lemma {:induction false} CandidateIff(files: seq<File>, parsed: seq<Decision>, x: nat, y: nat)
    ensures Orphan(x, y) in CandidatesOf(files, parsed) <==> Pending(files, parsed, x, y)
  {
    NamesBackIff(parsed, y, x);
    CarriedIff(files, y);
    hide ByNum, StemsOf, NamesBack, Carried;
    if Orphan(x, y) in CandidatesOf(files, parsed) {
      var d :| d in parsed && IsCandidate(files, parsed, d) && Orphan(x, y) == Orphan(d.num, d.supersedes.value);
    }
    if Pending(files, parsed, x, y) {
      var d :| d in parsed && d.num == x && d.supersedes == Some(y);
      assert IsCandidate(files, parsed, d);
    }
  }

  lemma {:induction false} CompetingIff(parsed: seq<Decision>, c: Orphan, n: nat)
    ensures n in Competing(parsed, c) <==> Intrudes(parsed, c.child, c.target, n)
  {
    RetiredIff(parsed, c);
    hide ChildRetired, Retired;
    if d :| d in parsed && d.num == n && n != c.child && d.supersededBy == Some(c.target) {
      assert Competes(d, c);
    }
    if d :| d in parsed && d.num == n && n != c.target && d.supersedes == Some(c.child) {
      assert Competes(d, c);
    }
  }

  // ---- refusals ------------------------------------------------------------------------

  ghost predicate DuplicateShown(files: seq<File>, parsed: seq<Decision>, r: Refusal, x: nat, y: nat, n: nat) {
    && Pending(files, parsed, x, y) && n in {x, y} && r.decisions == {n}
    && (exists i, j :: 0 <= i < j < |files| && files[i].number == Some(n) && files[j].number == Some(n))
    && (forall s :: s in r.stems <==> exists f :: f in files && f.number == Some(n) && f.stem == s)
  }

  ghost predicate CycleShown(files: seq<File>, parsed: seq<Decision>, r: Refusal, x: nat, y: nat, n: nat) {
    && Pending(files, parsed, x, y) && n in {x, y} && OnCycle(SupersessionGraph(parsed), n)
    && (forall m: nat :: m in r.decisions <==> Mutual(SupersessionGraph(parsed), n, m))
    && r.stems == {}
  }

  ghost predicate TargetShown(files: seq<File>, parsed: seq<Decision>, r: Refusal, x: nat, y: nat) {
    && Pending(files, parsed, x, y) && r.decisions == {x, y}
    && (exists s :: Unreadable(files, y, s) && r.stems == {s})
  }

  ghost predicate SiblingsShown(files: seq<File>, parsed: seq<Decision>, r: Refusal, x: nat, x': nat, y: nat) {
    && Pending(files, parsed, x, y) && Pending(files, parsed, x', y) && x != x'
    && (forall n :: n in r.decisions <==> n == y || Pending(files, parsed, n, y))
    && r.stems == {}
  }

  ghost predicate CompetingShown(files: seq<File>, parsed: seq<Decision>, r: Refusal, x: nat, y: nat) {
    && Pending(files, parsed, x, y) && (exists n :: Intrudes(parsed, x, y, n))
    && (forall n :: n in r.decisions <==> n == x || n == y || Intrudes(parsed, x, y, n))
    && r.stems == {}
  }

  // An unparseable file that no pending supersession names as its only target file.
  ghost predicate Unaccounted(files: seq<File>, parsed: seq<Decision>, s: string) {
    && (exists f :: f in files && f.body.Unparseable? && f.stem == s)
    && !(exists x, y, i: nat :: Pending(files, parsed, x, y) && LoneFile(files, y, i) && files[i].stem == s)
  }

  ghost predicate UnreadShown(files: seq<File>, parsed: seq<Decision>, r: Refusal) {
    && (exists x, y :: Pending(files, parsed, x, y)) && r.decisions == {}
    && r.stems != {} && (forall s :: s in r.stems <==> Unaccounted(files, parsed, s))
  }

  // What each kind of refusal reports.
  ghost predicate Reported(files: seq<File>, parsed: seq<Decision>, r: Refusal) {
    match r.kind
    case DuplicateDecisionNumber => exists x, y, n :: DuplicateShown(files, parsed, r, x, y, n)
    case CycleMember => exists x, y, n :: CycleShown(files, parsed, r, x, y, n)
    case UnparseableTarget => exists x, y :: TargetShown(files, parsed, r, x, y)
    case MultipleChildren => exists x, x', y :: SiblingsShown(files, parsed, r, x, x', y)
    case CompetingReference => exists x, y :: CompetingShown(files, parsed, r, x, y)
    case UnparseableChild => UnreadShown(files, parsed, r)
  }

  // What the refusal rows of the planner's specification say, kind by kind.
  lemma {:induction false} DuplicateIff(files: seq<File>, parsed: seq<Decision>, x: nat, y: nat, r: Refusal)
    requires r.kind == DuplicateDecisionNumber && Pending(files, parsed, x, y)
    ensures r in DuplicateRefusals(files, Orphan(x, y)) <==> exists n :: DuplicateShown(files, parsed, r, x, y, n)
  {
    hide Pending, StemsOf;
    forall n: nat, i, j | 0 <= i < j < |files| && files[i].number == Some(n) && files[j].number == Some(n)
      ensures |StemsOf(files, n)| > 1
    {
      LoneFileIff(files, n, i);
      NumberedIff(files, n);
      assert files[i] in files;
    }
    if r in DuplicateRefusals(files, Orphan(x, y)) {
      var n :| n in {x, y} && |StemsOf(files, n)| > 1
        && r == Refusal(DuplicateDecisionNumber, {n}, set s | s in StemsOf(files, n));
      forall s ensures s in r.stems <==> exists f :: f in files && f.number == Some(n) && f.stem == s { StemsIn(files, n, s); }
      TwoFiles(files, n);
      assert DuplicateShown(files, parsed, r, x, y, n);
    }
    if n: nat :| DuplicateShown(files, parsed, r, x, y, n) {
      forall s ensures s in r.stems <==> s in StemsOf(files, n) { StemsIn(files, n, s); }
      assert r.stems == set s | s in StemsOf(files, n);
    }
  }

  lemma {:induction false} MutualOnCycle(g: Graph, n: int, m: int)
    requires OnCycle(g, n) && Mutual(g, n, m)
    ensures OnCycle(g, m)
  {
    OnCycleIff(g, m);
    if m != n { assert Mutual(g, m, n); }
  }

  // A reported row that holds `n` is the class of `n`.
  lemma {:induction false} RowIsClass(g: Graph, cycles: seq<seq<int>>, row: seq<int>, n: nat)
    requires IsCycleReport(g, cycles) && row in cycles && n in row
    ensures OnCycle(g, n)
    ensures forall m: nat :: m in MembersOf(row) <==> Mutual(g, n, m)
  {
    InReportIff(g, cycles, n);
    var k :| k in Nodes(g) && OnCycle(g, k) && row == CycleOf(g, k);
    assert Mutual(g, k, n);
    forall m: nat ensures m in row <==> Mutual(g, n, m) {
      if m in row {
        ReachTrans(g, n, k, m);
        ReachTrans(g, m, k, n);
      }
      if Mutual(g, n, m) {
        ReachTrans(g, k, n, m);
        ReachTrans(g, m, n, k);
        MutualOnCycle(g, n, m);
        OnCycleNode(g, m);
      }
    }
  }

  lemma {:induction false} CycleIff(files: seq<File>, parsed: seq<Decision>, cycles: seq<seq<int>>, x: nat, y: nat, r: Refusal)
    requires r.kind == CycleMember && Pending(files, parsed, x, y)
    requires IsCycleReport(SupersessionGraph(parsed), cycles)
    ensures r in CycleRefusals(cycles, Orphan(x, y)) <==> exists n :: CycleShown(files, parsed, r, x, y, n)
  {
    var g := SupersessionGraph(parsed);
    hide Pending, SupersessionGraph, OnCycle, Mutual, IsCycleReport, MembersOf;
    if r in CycleRefusals(cycles, Orphan(x, y)) {
      var row :| row in cycles && (x in row || y in row) && r == Refusal(CycleMember, MembersOf(row), {});
      var n := if x in row then x else y;
      RowIsClass(g, cycles, row, n);
      assert CycleShown(files, parsed, r, x, y, n);
    }
    if n: nat :| CycleShown(files, parsed, r, x, y, n) {
      InReportIff(g, cycles, n);
      var row :| row in cycles && n in row;
      RowIsClass(g, cycles, row, n);
      assert r.decisions == MembersOf(row);
    }
  }

  lemma {:induction false} FailedIff(files: seq<File>, s: string)
    ensures s in FailedStems(files) <==> exists f :: f in files && f.body.Unparseable? && f.stem == s
  {
    assert FailedStems(files) == set f | f in files && f.body.Unparseable? :: f.stem;
  }

  // With distinct stems, the only file of a number fails to parse iff its stem is failed.
  lemma {:induction false} LoneFailed(files: seq<File>, y: nat, i: nat)
    requires IsScan(files) && LoneFile(files, y, i)
    ensures LoneStem(files, y) == {files[i].stem}
    ensures files[i].stem in FailedStems(files) <==> files[i].body.Unparseable?
  {
    LoneFileIff(files, y, i);
    FailedIff(files, files[i].stem);
    assert files[i] in files;
    forall f | f in files && f.stem == files[i].stem ensures f == files[i] {
      var j :| 0 <= j < |files| && files[j] == f;
      assert files[j].stem == files[i].stem;
      assert !(j < i) && !(i < j);
    }
  }

  lemma {:induction false} TargetIff(files: seq<File>, parsed: seq<Decision>, x: nat, y: nat, r: Refusal)
    requires IsScan(files) && r.kind == UnparseableTarget && Pending(files, parsed, x, y)
    ensures r in TargetRefusals(files, Orphan(x, y)) <==> TargetShown(files, parsed, r, x, y)
  {
    hide Pending, IsScan;
    var lone := LoneStem(files, y);
    if r in TargetRefusals(files, Orphan(x, y)) {
      var s :| s in lone;
      LoneStemIff(files, y, s);
      var i: nat :| LoneFile(files, y, i) && files[i].stem == s;
      LoneFailed(files, y, i);
      assert Unreadable(files, y, s);
      assert lone == {s};
    }
    if TargetShown(files, parsed, r, x, y) {
      var s :| Unreadable(files, y, s) && r.stems == {s};
      var i: nat :| LoneFile(files, y, i) && files[i].body.Unparseable? && files[i].stem == s;
      LoneFailed(files, y, i);
      assert s in lone;
      assert r.decisions == {y, x};
    }
  }

  lemma {:induction false} ChildrenIff(files: seq<File>, parsed: seq<Decision>, y: nat, n: nat)
    ensures n in Children(CandidatesOf(files, parsed), y) <==> Pending(files, parsed, n, y)
  {
    hide Pending, CandidatesOf;
    CandidateIff(files, parsed, n, y);
    if Pending(files, parsed, n, y) {
      assert Orphan(n, y).child in Children(CandidatesOf(files, parsed), y);
    }
    if n in Children(CandidatesOf(files, parsed), y) {
      var o :| o in CandidatesOf(files, parsed) && o.target == y && o.child == n;
      assert o == Orphan(n, y);
    }
  }

  lemma {:induction false} TwoMembers(s: set<nat>, x: nat)
    requires x in s
    ensures |s| > 1 <==> exists x' :: x' in s && x' != x
  {
    SingletonIff(s, x);
  }

  lemma {:induction false} SiblingsIff(files: seq<File>, parsed: seq<Decision>, x: nat, y: nat, r: Refusal)
    requires r.kind == MultipleChildren && Pending(files, parsed, x, y)
    ensures r in SiblingRefusals(CandidatesOf(files, parsed), Orphan(x, y))
      <==> exists x' :: SiblingsShown(files, parsed, r, x, x', y)
  {
    hide Pending, CandidatesOf, Children;
    var siblings := Children(CandidatesOf(files, parsed), y);
    forall n ensures n in siblings <==> Pending(files, parsed, n, y) { ChildrenIff(files, parsed, y, n); }
    TwoMembers(siblings, x);
    if r in SiblingRefusals(CandidatesOf(files, parsed), Orphan(x, y)) {
      var x' :| x' in siblings && x' != x;
      assert r.decisions == {y} + siblings;
      assert SiblingsShown(files, parsed, r, x, x', y);
    }
    if x' :| SiblingsShown(files, parsed, r, x, x', y) {
      assert r.decisions == {y} + siblings;
    }
  }

  lemma {:induction false} CompetingRefusalIff(files: seq<File>, parsed: seq<Decision>, x: nat, y: nat, r: Refusal)
    requires r.kind == CompetingReference && Pending(files, parsed, x, y)
    ensures r in CompetingRefusals(parsed, Orphan(x, y)) <==> CompetingShown(files, parsed, r, x, y)
  {
    hide Pending, Competing, Intrudes;
    var competing := Competing(parsed, Orphan(x, y));
    forall n ensures n in competing <==> Intrudes(parsed, x, y, n) { CompetingIff(parsed, Orphan(x, y), n); }
    if r in CompetingRefusals(parsed, Orphan(x, y)) {
      var n :| n in competing;
      assert Intrudes(parsed, x, y, n);
    }
    if CompetingShown(files, parsed, r, x, y) {
      var n :| Intrudes(parsed, x, y, n);
      assert n in competing;
      assert r.decisions == {x, y} + competing;
    }
  }

  lemma {:induction false} UnreadIff(files: seq<File>, parsed: seq<Decision>, s: string)
    ensures s in Unread(files, CandidatesOf(files, parsed)) <==> Unaccounted(files, parsed, s)
  {
    hide Pending, CandidatesOf, FailedStems, LoneStem;
    var candidates := CandidatesOf(files, parsed);
    FailedIff(files, s);
    forall x, y ensures Orphan(x, y) in candidates <==> Pending(files, parsed, x, y) { CandidateIff(files, parsed, x, y); }
    forall y ensures s in LoneStem(files, y) <==> exists i: nat :: LoneFile(files, y, i) && files[i].stem == s {
      LoneStemIff(files, y, s);
    }
    var named := set c, s' | c in candidates && s' in LoneStem(files, c.target) :: s';
    if s in named {
      var c :| c in candidates && s in LoneStem(files, c.target);
      assert c == Orphan(c.child, c.target);
      assert Pending(files, parsed, c.child, c.target);
    }
    if x, y, i: nat :| Pending(files, parsed, x, y) && LoneFile(files, y, i) && files[i].stem == s {
      assert Orphan(x, y) in candidates && s in LoneStem(files, Orphan(x, y).target);
    }
    assert Unread(files, candidates) == FailedStems(files) - named;
  }

  lemma {:induction false} RefusalOfIff(files: seq<File>, parsed: seq<Decision>, cycles: seq<seq<int>>, x: nat, y: nat, r: Refusal)
    requires r in RefusalsOf(files, parsed, cycles, CandidatesOf(files, parsed), Orphan(x, y))
    ensures !r.kind.UnparseableChild?
    ensures match r.kind
      case DuplicateDecisionNumber => r in DuplicateRefusals(files, Orphan(x, y))
      case CycleMember => r in CycleRefusals(cycles, Orphan(x, y))
      case UnparseableTarget => r in TargetRefusals(files, Orphan(x, y))
      case MultipleChildren => r in SiblingRefusals(CandidatesOf(files, parsed), Orphan(x, y))
      case CompetingReference => r in CompetingRefusals(parsed, Orphan(x, y))
      case UnparseableChild => false
  {
    hide CandidatesOf, Competing, MembersOf, StemsOf, LoneStem, Children;
  }

  lemma {:induction false} OfPending(files: seq<File>, parsed: seq<Decision>, cycles: seq<seq<int>>, x: nat, y: nat, r: Refusal)
    requires IsScan(files) && IsCycleReport(SupersessionGraph(parsed), cycles) && Pending(files, parsed, x, y)
    requires r in RefusalsOf(files, parsed, cycles, CandidatesOf(files, parsed), Orphan(x, y))
    ensures Reported(files, parsed, r)
  {
    RefusalOfIff(files, parsed, cycles, x, y, r);
    hide Pending, IsScan, CandidatesOf, RefusalsOf, IsCycleReport, SupersessionGraph;
    hide DuplicateRefusals, CycleRefusals, TargetRefusals, SiblingRefusals, CompetingRefusals;
    hide DuplicateShown, CycleShown, TargetShown, SiblingsShown, CompetingShown;
    match r.kind
    case DuplicateDecisionNumber => DuplicateIff(files, parsed, x, y, r);
    case CycleMember => CycleIff(files, parsed, cycles, x, y, r);
    case UnparseableTarget => TargetIff(files, parsed, x, y, r);
    case MultipleChildren => SiblingsIff(files, parsed, x, y, r);
    case CompetingReference => CompetingRefusalIff(files, parsed, x, y, r);
    case UnparseableChild =>
  }

  lemma {:induction false} ToPending(files: seq<File>, parsed: seq<Decision>, cycles: seq<seq<int>>, r: Refusal)
    returns (x: nat, y: nat)
    requires IsScan(files) && IsCycleReport(SupersessionGraph(parsed), cycles)
    requires Reported(files, parsed, r) && !r.kind.UnparseableChild?
    ensures Pending(files, parsed, x, y)
    ensures r in RefusalsOf(files, parsed, cycles, CandidatesOf(files, parsed), Orphan(x, y))
  {
    hide Pending, IsScan, CandidatesOf, IsCycleReport, SupersessionGraph, OnCycle, Mutual, Intrudes, Unreadable;
    hide DuplicateRefusals, CycleRefusals, TargetRefusals, SiblingRefusals, CompetingRefusals;
    match r.kind
    case DuplicateDecisionNumber =>
      var x', y', n :| DuplicateShown(files, parsed, r, x', y', n);
      x, y := x', y';
      DuplicateIff(files, parsed, x, y, r);
    case CycleMember =>
      var x', y', n :| CycleShown(files, parsed, r, x', y', n);
      x, y := x', y';
      CycleIff(files, parsed, cycles, x, y, r);
    case UnparseableTarget =>
      x, y :| TargetShown(files, parsed, r, x, y);
      TargetIff(files, parsed, x, y, r);
    case MultipleChildren =>
      var x', n, y' :| SiblingsShown(files, parsed, r, x', n, y');
      x, y := x', y';
      SiblingsIff(files, parsed, x, y, r);
    case CompetingReference =>
      x, y :| CompetingShown(files, parsed, r, x, y);
      CompetingRefusalIff(files, parsed, x, y, r);
  }

  lemma {:induction false} UnreadRefusalIff(files: seq<File>, parsed: seq<Decision>, r: Refusal)
    requires r.kind == UnparseableChild
    ensures var candidates := CandidatesOf(files, parsed);
      UnreadShown(files, parsed, r)
      <==> candidates != {} && Unread(files, candidates) != {} && r == Refusal(UnparseableChild, {}, Unread(files, candidates))
  {
    var candidates := CandidatesOf(files, parsed);
    var unread := Unread(files, candidates);
    forall s ensures s in unread <==> Unaccounted(files, parsed, s) { UnreadIff(files, parsed, s); }
    forall x, y ensures Orphan(x, y) in candidates <==> Pending(files, parsed, x, y) { CandidateIff(files, parsed, x, y); }
    hide Pending, CandidatesOf, Unread, Unaccounted;
    if candidates != {} {
      var c := Pick(candidates);
      assert Pending(files, parsed, c.child, c.target) by { assert c == Orphan(c.child, c.target); }
    }
    if UnreadShown(files, parsed, r) {
      assert r.stems == unread;
    }
  }

  lemma {:induction false} RefusedIff(files: seq<File>, parsed: seq<Decision>, cycles: seq<seq<int>>, r: Refusal)
    requires IsScan(files) && IsCycleReport(SupersessionGraph(parsed), cycles)
    ensures IsRefused(files, parsed, cycles, CandidatesOf(files, parsed), r) <==> Reported(files, parsed, r)
  {
    hide Pending, IsScan, CandidatesOf, RefusalsOf, IsCycleReport, SupersessionGraph, Unread, UnreadShown;
    hide DuplicateShown, CycleShown, TargetShown, SiblingsShown, CompetingShown;
    var candidates := CandidatesOf(files, parsed);
    if r.kind.UnparseableChild? { UnreadRefusalIff(files, parsed, r); }
    if c :| c in candidates && r in RefusalsOf(files, parsed, cycles, candidates, c) {
      assert c == Orphan(c.child, c.target);
      CandidateIff(files, parsed, c.child, c.target);
      RefusalOfIff(files, parsed, cycles, c.child, c.target, r);
      OfPending(files, parsed, cycles, c.child, c.target, r);
    }
    if Reported(files, parsed, r) && !r.kind.UnparseableChild? {
      var x, y := ToPending(files, parsed, cycles, r);
      CandidateIff(files, parsed, x, y);
    }
  }

  // The planner reports exactly these refusals.
  lemma {:induction false} RefusalsExactly(files: seq<File>, cycles: seq<seq<int>>, a: Assessment, r: Refusal)
    requires IsScan(files) && IsCycleReport(SupersessionGraph(ParsedOf(files)), cycles) && IsAssessment(files, cycles, a)
    ensures r in a.refusals <==> Reported(files, ParsedOf(files), r)
  {
    RefusedIff(files, ParsedOf(files), cycles, r);
    hide IsRefused, Reported, IsCycleReport, CandidatesOf, ParsedOf, OrphanRows, StemsOf, SupersessionGraph;
  }

  // ---- when there is a plan ------------------------------------------------------------

  // Decision `k` is active and supersedes an active `t` without back reference; one file
  // carries each number, and neither is on a cycle.
  ghost predicate Unwritten(files: seq<File>, parsed: seq<Decision>, k: nat, t: nat) {
    && k < |parsed| && parsed[k].status.Active? && parsed[k].supersedes == Some(t) && parsed[k].num != t
    && (exists i: nat :: LoneFile(files, parsed[k].num, i)) && (exists i: nat :: LoneFile(files, t, i))
    && !OnCycle(SupersessionGraph(parsed), parsed[k].num) && !OnCycle(SupersessionGraph(parsed), t)
    && (exists j: nat :: FirstAt(parsed, t, j) && parsed[j].status.Active? && parsed[j].supersededBy.None?)
  }

  // Decision `c` is the one half-written child in the store, and `t` is its target.
  ghost predicate SoleOrphan(files: seq<File>, parsed: seq<Decision>, c: nat, t: nat) {
    exists k: nat :: Unwritten(files, parsed, k, t) && parsed[k].num == c
      && forall j: nat, u: nat :: Unwritten(files, parsed, j, u) ==> j == k
  }

  predicate Apart(c: nat, t: nat, n: nat) {
    n != c && n != t
  }

  // Nothing stands in the way of completing `c` over `t`: the two take no part in a pending
  // supersession whose target file does not parse, whose target is claimed twice, or whose
  // pair is referred to from outside, and every file that does not parse is the only file
  // of a pending target.
  ghost predicate Clear(files: seq<File>, parsed: seq<Decision>, c: nat, t: nat) {
    && (forall x, y, s :: Pending(files, parsed, x, y) && Unreadable(files, y, s) ==> Apart(c, t, x) && Apart(c, t, y))
    && (forall x, x', y :: Pending(files, parsed, x, y) && Pending(files, parsed, x', y) && x != x'
          ==> Apart(c, t, x) && Apart(c, t, y))
    && (forall x, y, n :: Pending(files, parsed, x, y) && Intrudes(parsed, x, y, n)
          ==> Apart(c, t, x) && Apart(c, t, y) && Apart(c, t, n))
    && (forall s :: !Unaccounted(files, parsed, s))
  }

  lemma {:induction false} LoneNumberIff(files: seq<File>, n: nat)
    ensures |StemsOf(files, n)| == 1 <==> exists i: nat :: LoneFile(files, n, i)
  {
    if |StemsOf(files, n)| == 1 {
      NumberedIff(files, n);
      var f :| f in files && f.number == Some(n);
      var i: nat :| i < |files| && files[i] == f;
      LoneFileIff(files, n, i);
    }
    if i: nat :| LoneFile(files, n, i) { LoneFileIff(files, n, i); }
  }

  lemma {:induction false} UnwrittenIff(files: seq<File>, parsed: seq<Decision>, k: nat, t: nat)
    requires k < |parsed|
    ensures Unwritten(files, parsed, k, t) <==> IsOrphan(files, parsed, parsed[k], t)
  {
    LoneNumberIff(files, parsed[k].num);
    LoneNumberIff(files, t);
    hide StemsOf, LoneFile, OnCycle, SupersessionGraph, FirstAt;
    if ByNum(parsed, t).Some? { ByNumIff(parsed, t, ByNum(parsed, t).value); }
    if j: nat :| FirstAt(parsed, t, j) && j < |parsed| && parsed[j].status.Active? && parsed[j].supersededBy.None? {
      ByNumIff(parsed, t, parsed[j]);
    }
  }

  lemma {:induction false} RowExactly(files: seq<File>, parsed: seq<Decision>, o: Orphan)
    ensures multiset(OrphanRows(files, parsed))[o]
        == |set k: nat | k < |parsed| && parsed[k].num == o.child && Unwritten(files, parsed, k, o.target)|
  {
    OrphansExactly(files, parsed, o);
    forall k: nat | k < |parsed| ensures Unwritten(files, parsed, k, o.target) <==> IsOrphan(files, parsed, parsed[k], o.target) {
      UnwrittenIff(files, parsed, k, o.target);
    }
    hide IsOrphan, Unwritten, OrphanRows;
    assert (set k: nat | k < |parsed| && parsed[k].num == o.child && Unwritten(files, parsed, k, o.target))
      == set k: nat | k < |parsed| && parsed[k].num == o.child && IsOrphan(files, parsed, parsed[k], o.target);
  }

  lemma {:induction false} RowHolds(files: seq<File>, parsed: seq<Decision>, k: nat, t: nat)
    requires Unwritten(files, parsed, k, t)
    ensures k < |parsed| && Orphan(parsed[k].num, t) in OrphanRows(files, parsed)
  {
    hide OrphanRows, IsOrphan;
    UnwrittenIff(files, parsed, k, t);
    OrphansExactly(files, parsed, Orphan(parsed[k].num, t));
    assert parsed[k] in parsed;
  }

  lemma {:induction false} RowFrom(files: seq<File>, parsed: seq<Decision>, o: Orphan) returns (k: nat)
    requires o in OrphanRows(files, parsed)
    ensures Unwritten(files, parsed, k, o.target) && k < |parsed| && parsed[k].num == o.child
  {
    hide OrphanRows, IsOrphan;
    OrphansExactly(files, parsed, o);
    var d :| d in parsed && d.num == o.child && IsOrphan(files, parsed, d, o.target);
    k :| 0 <= k < |parsed| && parsed[k] == d;
    UnwrittenIff(files, parsed, k, o.target);
  }

  lemma {:induction false} RowTarget(files: seq<File>, parsed: seq<Decision>, k: nat, t: nat, u: nat)
    requires Unwritten(files, parsed, k, t) && Unwritten(files, parsed, k, u)
    ensures t == u
  {
  }

  // The report is one row long iff the store has one half-written child.
  lemma {:induction false} OneRowIff(files: seq<File>, parsed: seq<Decision>, c: nat, t: nat)
    ensures OrphanRows(files, parsed) == [Orphan(c, t)] <==> SoleOrphan(files, parsed, c, t)
  {
    var rows, o := OrphanRows(files, parsed), Orphan(c, t);
    RowExactly(files, parsed, o);
    var at := set k: nat | k < |parsed| && parsed[k].num == c && Unwritten(files, parsed, k, t);
    hide OrphanRows;
    if rows == [o] {
      assert multiset(rows)[o] == 1;
      var k := Pick(at);
      forall j: nat, u: nat | Unwritten(files, parsed, j, u) ensures j == k {
        RowHolds(files, parsed, j, u);
        assert Orphan(parsed[j].num, u) == o;
        assert j in at;
        SingletonIff(at, k);
      }
      assert Unwritten(files, parsed, k, t) && parsed[k].num == c;
    }
    if SoleOrphan(files, parsed, c, t) {
      var k: nat :| Unwritten(files, parsed, k, t) && parsed[k].num == c
        && forall j: nat, u: nat :: Unwritten(files, parsed, j, u) ==> j == k;
      hide Unwritten;
      RowHolds(files, parsed, k, t);
      assert at == {k};
      forall i | 0 <= i < |rows| ensures rows[i] == o {
        var j := RowFrom(files, parsed, rows[i]);
        assert j == k;
        RowTarget(files, parsed, k, t, rows[i].target);
      }
      if |rows| > 1 { CountTwice(rows, 0, 1); }
    }
  }

  lemma {:induction false} SiblingsRow(files: seq<File>, parsed: seq<Decision>, x: nat, x': nat, y: nat) returns (r: Refusal)
    requires Pending(files, parsed, x, y) && Pending(files, parsed, x', y) && x != x'
    ensures Reported(files, parsed, r) && x in r.decisions && y in r.decisions
  {
    hide Pending, CandidatesOf, Children;
    var siblings := Children(CandidatesOf(files, parsed), y);
    forall n ensures n in siblings <==> Pending(files, parsed, n, y) { ChildrenIff(files, parsed, y, n); }
    r := Refusal(MultipleChildren, {y} + siblings, {});
    assert SiblingsShown(files, parsed, r, x, x', y);
  }

  lemma {:induction false} CompetingRow(files: seq<File>, parsed: seq<Decision>, x: nat, y: nat, n: nat) returns (r: Refusal)
    requires Pending(files, parsed, x, y) && Intrudes(parsed, x, y, n)
    ensures Reported(files, parsed, r) && x in r.decisions && y in r.decisions && n in r.decisions
  {
    hide Pending, Competing, Intrudes;
    var competing := Competing(parsed, Orphan(x, y));
    forall m ensures m in competing <==> Intrudes(parsed, x, y, m) { CompetingIff(parsed, Orphan(x, y), m); }
    r := Refusal(CompetingReference, {x, y} + competing, {});
    assert CompetingShown(files, parsed, r, x, y);
  }

  lemma {:induction false} UnreadRow(files: seq<File>, parsed: seq<Decision>, x: nat, y: nat, s: string) returns (r: Refusal)
    requires Pending(files, parsed, x, y) && Unaccounted(files, parsed, s)
    ensures Reported(files, parsed, r) && r.decisions == {}
  {
    hide Pending, CandidatesOf, Unread, Unaccounted;
    var unread := Unread(files, CandidatesOf(files, parsed));
    forall s' ensures s' in unread <==> Unaccounted(files, parsed, s') { UnreadIff(files, parsed, s'); }
    r := Refusal(UnparseableChild, {}, unread);
    assert s in r.stems;
    assert UnreadShown(files, parsed, r);
  }

  ghost predicate Unhindered(files: seq<File>, parsed: seq<Decision>, o: Orphan) {
    forall r: Refusal :: Reported(files, parsed, r) ==> !r.Blocks(o)
  }

  lemma {:induction false} TargetReported(files: seq<File>, parsed: seq<Decision>, r: Refusal, x: nat, y: nat)
    requires r.kind == UnparseableTarget && TargetShown(files, parsed, r, x, y)
    ensures Reported(files, parsed, r)
  {
  }

  lemma {:induction false} UnhinderedIsClear(files: seq<File>, parsed: seq<Decision>, c: nat, t: nat)
    requires Unhindered(files, parsed, Orphan(c, t)) && Pending(files, parsed, c, t)
    ensures Clear(files, parsed, c, t)
  {
    hide Pending, Reported, Intrudes, Unaccounted, Unreadable;
    forall x, y, s | Pending(files, parsed, x, y) && Unreadable(files, y, s) ensures Apart(c, t, x) && Apart(c, t, y) {
      var r := Refusal(UnparseableTarget, {x, y}, {s});
      assert TargetShown(files, parsed, r, x, y);
      TargetReported(files, parsed, r, x, y);
    }
    forall x, x', y | Pending(files, parsed, x, y) && Pending(files, parsed, x', y) && x != x'
      ensures Apart(c, t, x) && Apart(c, t, y)
    {
      var r := SiblingsRow(files, parsed, x, x', y);
    }
    forall x, y, n | Pending(files, parsed, x, y) && Intrudes(parsed, x, y, n)
      ensures Apart(c, t, x) && Apart(c, t, y) && Apart(c, t, n)
    {
      var r := CompetingRow(files, parsed, x, y, n);
    }
    forall s ensures !Unaccounted(files, parsed, s) {
      if Unaccounted(files, parsed, s) { var r := UnreadRow(files, parsed, c, t, s); }
    }
  }

  lemma {:induction false} NotDuplicated(files: seq<File>, n: nat)
    requires exists i, j :: 0 <= i < j < |files| && files[i].number == Some(n) && files[j].number == Some(n)
    ensures !exists i: nat :: LoneFile(files, n, i)
  {
  }

  lemma {:induction false} MutualSelf(g: Graph, n: int)
    ensures Mutual(g, n, n)
  {
    ReachRefl(g, n);
  }

  lemma {:induction false} ClearIsUnhindered(files: seq<File>, parsed: seq<Decision>, c: nat, t: nat, r: Refusal)
    requires Clear(files, parsed, c, t) && Reported(files, parsed, r)
    requires (exists i: nat :: LoneFile(files, c, i)) && (exists i: nat :: LoneFile(files, t, i))
    requires !OnCycle(SupersessionGraph(parsed), c) && !OnCycle(SupersessionGraph(parsed), t)
    ensures !r.Blocks(Orphan(c, t))
  {
    hide Pending, Intrudes, Unaccounted, Unreadable, OnCycle, SupersessionGraph, Mutual;
    match r.kind
    case DuplicateDecisionNumber =>
      var x, y, n: nat :| DuplicateShown(files, parsed, r, x, y, n);
      NotDuplicated(files, n);
    case CycleMember =>
      var x, y, n: nat :| CycleShown(files, parsed, r, x, y, n);
      forall m: nat | m in r.decisions ensures OnCycle(SupersessionGraph(parsed), m) {
        MutualOnCycle(SupersessionGraph(parsed), n, m);
      }
      MutualSelf(SupersessionGraph(parsed), n);
    case UnparseableTarget =>
      var x, y :| TargetShown(files, parsed, r, x, y);
    case MultipleChildren =>
      var x, x', y :| SiblingsShown(files, parsed, r, x, x', y);
      forall n | n in r.decisions ensures Apart(c, t, n) {
        if n != y { assert Pending(files, parsed, n, y) && (n != x || n != x'); }
      }
      assert y in r.decisions;
    case CompetingReference =>
      var x, y :| CompetingShown(files, parsed, r, x, y);
      assert x in r.decisions;
    case UnparseableChild =>
      assert false;
  }

  lemma {:induction false} UnwrittenPending(files: seq<File>, parsed: seq<Decision>, k: nat, t: nat)
    requires Unwritten(files, parsed, k, t)
    ensures Pending(files, parsed, parsed[k].num, t)
  {
    hide OnCycle, SupersessionGraph;
    assert parsed[k] in parsed;
    var i: nat :| LoneFile(files, t, i);
    assert files[i] in files;
    var j: nat :| FirstAt(parsed, t, j) && parsed[j].supersededBy.None?;
    forall m: nat | FirstAt(parsed, t, m) ensures m == j {}
  }

  lemma {:induction false} AllUnhindered(files: seq<File>, parsed: seq<Decision>, o: Orphan)
    requires forall r: Refusal :: Reported(files, parsed, r) ==> !r.Blocks(o)
    ensures Unhindered(files, parsed, o)
  {
  }

  lemma {:induction false} PlanStem(files: seq<File>, t: nat, i: nat)
    requires LoneFile(files, t, i)
    ensures StemsOf(files, t) == [files[i].stem] && i < |files|
  {
    LoneFileIff(files, t, i);
  }

  // The planner's answer, by cases on the report.
  lemma {:induction false} AnswerIff(files: seq<File>, cycles: seq<seq<int>>, a: Assessment)
    requires IsScan(files) && IsCycleReport(SupersessionGraph(ParsedOf(files)), cycles) && IsAssessment(files, cycles, a)
    ensures a.orphans == OrphanRows(files, ParsedOf(files))
    ensures a.plan.Some? <==> |a.orphans| == 1 && Unhindered(files, ParsedOf(files), a.orphans[0])
  {
    forall r ensures r in a.refusals <==> Reported(files, ParsedOf(files), r) { RefusalsExactly(files, cycles, a, r); }
    hide IsRefused, Reported, IsCycleReport, CandidatesOf, ParsedOf, OrphanRows, StemsOf, SupersessionGraph;
  }

  // A plan is returned iff the store has one half-written child and nothing stands in the
  // way; it names that child, its target and the target's file.
  lemma {:induction false} PlanIff(files: seq<File>, cycles: seq<seq<int>>, a: Assessment)
    requires IsScan(files) && IsCycleReport(SupersessionGraph(ParsedOf(files)), cycles) && IsAssessment(files, cycles, a)
    ensures a.plan.Some? <==>
      exists c, t :: SoleOrphan(files, ParsedOf(files), c, t) && Clear(files, ParsedOf(files), c, t)
    ensures a.plan.Some? ==>
      var p := a.plan.value;
      && SoleOrphan(files, ParsedOf(files), p.child, p.target) && Clear(files, ParsedOf(files), p.child, p.target)
      && exists i: nat :: LoneFile(files, p.target, i) && files[i].stem == p.stem
  {
    var parsed := ParsedOf(files);
    AnswerIff(files, cycles, a);
    hide IsScan, IsCycleReport, IsAssessment, Clear, Unhindered, OrphanRows, ParsedOf, StemsOf, SupersessionGraph, OnCycle, LoneFile, FirstAt;
    if a.plan.Some? {
      var c, t := a.orphans[0].child, a.orphans[0].target;
      OneRowIff(files, parsed, c, t);
      var k: nat :| Unwritten(files, parsed, k, t) && parsed[k].num == c;
      UnwrittenPending(files, parsed, k, t);
      UnhinderedIsClear(files, parsed, c, t);
      PlanFields(files, cycles, a);
      var i: nat :| LoneFile(files, t, i);
      PlanStem(files, t, i);
    }
    if c, t :| SoleOrphan(files, parsed, c, t) && Clear(files, parsed, c, t) {
      OneRowIff(files, parsed, c, t);
      var k: nat :| Unwritten(files, parsed, k, t) && parsed[k].num == c;
      forall r | Reported(files, parsed, r) ensures !r.Blocks(Orphan(c, t)) { ClearIsUnhindered(files, parsed, c, t, r); }
      assert Unhindered(files, parsed, Orphan(c, t)) by { AllUnhindered(files, parsed, Orphan(c, t)); }
    }
  }

  lemma {:induction false} ClaimPending(files: seq<File>, parsed: seq<Decision>, k: nat, t: nat, d: Decision)
    requires Unwritten(files, parsed, k, t) && d in parsed && d.supersedes == Some(t) && d.num != t
    ensures Pending(files, parsed, d.num, t)
  {
    UnwrittenPending(files, parsed, k, t);
    hide OnCycle, SupersessionGraph;
    var j: nat :| FirstAt(parsed, t, j) && parsed[j].supersededBy.None?;
    forall m: nat | FirstAt(parsed, t, m) ensures m == j {}
  }

  // What a plan guarantees about its pair: no decision but the child claims the target, the
  // target is said to be superseded by none, none but the target supersedes the child, and
  // the child is active and unclaimed.
  lemma {:induction false} PlanIsolated(files: seq<File>, cycles: seq<seq<int>>, a: Assessment, d: Decision)
    requires IsScan(files) && IsCycleReport(SupersessionGraph(ParsedOf(files)), cycles) && IsAssessment(files, cycles, a)
    requires a.plan.Some? && d in ParsedOf(files)
    ensures var c, t := a.plan.value.child, a.plan.value.target;
      && (d.supersedes == Some(t) && d.num != t ==> d.num == c)
      && (d.supersededBy == Some(t) ==> d.num == c)
      && (d.supersedes == Some(c) ==> d.num == t)
      && !Retired(ParsedOf(files), c)
  {
    var parsed, c, t := ParsedOf(files), a.plan.value.child, a.plan.value.target;
    PlanIff(files, cycles, a);
    hide IsScan, IsCycleReport, IsAssessment, ParsedOf, Unreadable, Unaccounted;
    var k: nat :| Unwritten(files, parsed, k, t) && parsed[k].num == c;
    UnwrittenPending(files, parsed, k, t);
    assert !Intrudes(parsed, c, t, c) && !Intrudes(parsed, c, t, d.num);
    if d.supersedes == Some(t) && d.num != t { ClaimPending(files, parsed, k, t, d); }
    hide Unwritten, Pending, SoleOrphan;
    assert !Apart(c, t, c) && !Apart(c, t, t);
  }

  lemma {:induction false} AllAccounted(files: seq<File>, parsed: seq<Decision>)
    requires forall f :: f in files ==> f.body.Parsed?
    ensures forall y, s :: !Unreadable(files, y, s)
    ensures forall s :: !Unaccounted(files, parsed, s)
  {
    forall i: nat | i < |files| ensures files[i].body.Parsed? { assert files[i] in files; }
  }

  lemma {:induction false} ClearAlone(files: seq<File>, parsed: seq<Decision>, c: nat, t: nat)
    requires forall f :: f in files ==> f.body.Parsed?
    requires forall x, y :: Pending(files, parsed, x, y) <==> x == c && y == t
    ensures Clear(files, parsed, c, t) <==> !exists n :: Intrudes(parsed, c, t, n)
  {
    AllAccounted(files, parsed);
    hide Pending, Intrudes, Unaccounted, Unreadable;
    assert Pending(files, parsed, c, t);
  }

  lemma {:induction false} SoleUnique(files: seq<File>, parsed: seq<Decision>, c: nat, t: nat, c': nat, t': nat)
    requires SoleOrphan(files, parsed, c, t) && SoleOrphan(files, parsed, c', t')
    ensures c == c' && t == t'
  {
    OneRowIff(files, parsed, c, t);
    OneRowIff(files, parsed, c', t');
    hide OrphanRows;
    assert OrphanRows(files, parsed)[0] == Orphan(c, t);
  }

  // When the half-written pair is the only pending supersession and every file parses, a
  // plan is returned iff nothing refers to the pair from outside.
  lemma {:induction false} PlanWhenAlone(files: seq<File>, cycles: seq<seq<int>>, a: Assessment, c: nat, t: nat)
    requires IsScan(files) && IsCycleReport(SupersessionGraph(ParsedOf(files)), cycles) && IsAssessment(files, cycles, a)
    requires SoleOrphan(files, ParsedOf(files), c, t)
    requires forall f :: f in files ==> f.body.Parsed?
    requires forall x, y :: Pending(files, ParsedOf(files), x, y) ==> x == c && y == t
    ensures a.plan.Some? <==> !exists n :: Intrudes(ParsedOf(files), c, t, n)
  {
    var parsed := ParsedOf(files);
    PlanIff(files, cycles, a);
    hide IsScan, IsCycleReport, IsAssessment, ParsedOf, Intrudes;
    var k: nat :| Unwritten(files, parsed, k, t) && parsed[k].num == c;
    UnwrittenPending(files, parsed, k, t);
    hide Unwritten, Pending, SoleOrphan, Clear;
    ClearAlone(files, parsed, c, t);
    forall c', t' | SoleOrphan(files, parsed, c', t') ensures c' == c && t' == t { SoleUnique(files, parsed, c, t, c', t'); }
  }

  // Carrying the plan out rewrites one file, the only one of the target: title and forward
  // reference stay, and it becomes superseded by the child.
  lemma {:induction false} PlanRewrites(files: seq<File>, cycles: seq<seq<int>>, a: Assessment) returns (i: nat)
    requires IsScan(files) && IsCycleReport(SupersessionGraph(ParsedOf(files)), cycles)
    requires IsAssessment(files, cycles, a) && a.plan.Some?
    ensures i < |files| && LoneFile(files, a.plan.value.target, i) && files[i].body.Parsed?
    ensures var f := files[i];
      Apply(files, a.plan.value)
      == files[i := File(f.stem, f.number, Parsed(f.body.title, Superseded, f.body.supersedes, Some(a.plan.value.child)))]
  {
    hide IsCycleReport, IsAssessment, SupersessionGraph, ParsedOf, OnlyChild, IsScan, Apply;
    i := PlanTarget(files, cycles, a);
    ApplyIsFlip(files, a.plan.value, i);
    PlanFields(files, cycles, a);
    LoneFileIff(files, a.plan.value.target, i);
  }

  function ChainFile(n: nat, stem: string, status: Status, supersedes: Option<nat>, supersededBy: Option<nat>): File {
    File(stem, Some(n), Parsed("t", status, supersedes, supersededBy))
  }

  function Chain(): seq<File> {
    [ChainFile(1, "1", Superseded, None, Some(2)), ChainFile(2, "2", Active, Some(1), None),
     ChainFile(3, "3", Active, Some(2), None)]
  }

  lemma {:induction false} ChainParsed()
    ensures ParsedOf(Chain()) == [Decision(1, "t", Superseded, None, Some(2)), Decision(2, "t", Active, Some(1), None),
                                  Decision(3, "t", Active, Some(2), None)]
    ensures IsScan(Chain())
  {
    var files := Chain();
    FlatMapSnoc(DecisionsIn, files, 0);
    FlatMapSnoc(DecisionsIn, files, 1);
    FlatMapSnoc(DecisionsIn, files, 2);
    assert files[..3] == files && files[..0] == [];
    hide ParsedOf;
    forall i, j | 0 <= i < j < 3 ensures files[i].stem[0] != files[j].stem[0] {}
  }

  // Of three decisions in a chain only the newest step is half-written; it is left alone,
  // since the oldest decision still names the middle one.
  lemma {:induction false} ChainExample(cycles: seq<seq<int>>, a: Assessment)
    requires IsCycleReport(SupersessionGraph(ParsedOf(Chain())), cycles) && IsAssessment(Chain(), cycles, a)
    ensures a.plan.None?
  {
    ChainParsed();
    var parsed := ParsedOf(Chain());
    hide IsCycleReport, IsAssessment, SupersessionGraph, ParsedOf, OnCycle, Chain, IsScan, Clear, LoneFile;
    if a.plan.Some? {
      PlanIff(Chain(), cycles, a);
      PlanIsolated(Chain(), cycles, a, parsed[0]);
    }
  }
}
