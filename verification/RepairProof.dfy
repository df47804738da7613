// What applying a repair plan does to the store, and why the refusals are needed: the plan
// heals the one half-written supersession and creates no new defect.
module RepairProof {
  import opened Common
  import opened Sorting
  import opened Reachability
  import opened Doctor
  import opened Repair

  // File `i` is the first that gives decision `t`: parsed, active, without back reference;
  // some active decision `c` of another number supersedes it; neither is on a cycle.
  ghost predicate HalfWritten(files: seq<File>, i: nat, c: nat, t: nat) {
    && i < |files| && files[i].number == Some(t) && files[i].body.Parsed?
    && files[i].body.status.Active? && files[i].body.supersededBy.None?
    && (forall j :: 0 <= j < i ==> files[j].number.Some? && files[j].number != Some(t))
    && c != t && c in NumbersOf(files)
    && (exists e :: e in ParsedOf(files) && e.num == c && e.supersedes == Some(t))
    && !OnCycle(SupersessionGraph(ParsedOf(files)), t)
  }

  function Flipped(files: seq<File>, i: nat, c: nat): seq<File>
    requires i < |files| && files[i].body.Parsed?
  {
    files[i := files[i].(body := Flip(files[i].body, c))]
  }

  // Position of file `i`'s decision among the parsed ones.
  function Position(files: seq<File>, i: nat): nat
    requires i < |files|
  {
    |ParsedOf(files[..i])|
  }

  // ---- the flip at the level of parsed decisions -----------------------------------

  lemma {:induction false} FlatMapOne(f: File)
    requires f.body.Parsed?
    ensures FlatMap(DecisionsIn, [f]) == [DecisionOf(f)]
  {
    assert [f][..0] == [];
  }

  lemma {:induction false} ParsedAround(files: seq<File>, i: nat)
    requires i < |files| && files[i].body.Parsed?
    ensures ParsedOf(files) == ParsedOf(files[..i]) + [DecisionOf(files[i])] + ParsedOf(files[i + 1..])
  {
    var pre, post := files[..i], files[i + 1..];
    assert files == pre + [files[i]] + post;
    FlatMapAppend(DecisionsIn, pre, [files[i]]);
    FlatMapAppend(DecisionsIn, pre + [files[i]], post);
    FlatMapOne(files[i]);
  }

  lemma {:induction false} EarlierNumbers(files: seq<File>, i: nat, c: nat, t: nat, j: nat)
    requires HalfWritten(files, i, c, t) && j < Position(files, i)
    ensures ParsedOf(files[..i])[j].num != t
  {
    hide OnCycle;
    var d := ParsedOf(files[..i])[j];
    assert d in ParsedOf(files[..i]);
    FlatMapIn(DecisionsIn, files[..i], d);
  }

  lemma {:induction false} ReplaceMiddle<T>(a: seq<T>, x: T, b: seq<T>, y: T)
    ensures (a + [x] + b)[|a| := y] == a + [y] + b
    ensures (a + [x] + b)[|a|] == x && |a + [x] + b| == |a| + 1 + |b|
    ensures forall j :: 0 <= j < |a| ==> (a + [x] + b)[j] == a[j]
  {}

  lemma {:induction false} FlipParsed(files: seq<File>, i: nat, c: nat, t: nat)
    requires HalfWritten(files, i, c, t)
    ensures var k := Position(files, i); var d := DecisionOf(files[i]);
      && k < |ParsedOf(files)| && ParsedOf(files)[k] == d && d.num == t
      && ParsedOf(Flipped(files, i, c)) == ParsedOf(files)[k := d.(status := Superseded, supersededBy := Some(c))]
      && (forall j :: 0 <= j < k ==> ParsedOf(files)[j].num != t)
  {
    var after := Flipped(files, i, c);
    assert files[i].number == Some(t);
    ParsedAround(files, i);
    ParsedAround(after, i);
    assert after[..i] == files[..i] && after[i + 1..] == files[i + 1..];
    hide HalfWritten, ParsedOf;
    ReplaceMiddle(ParsedOf(files[..i]), DecisionOf(files[i]), ParsedOf(files[i + 1..]), DecisionOf(after[i]));
    forall j | 0 <= j < Position(files, i) ensures ParsedOf(files)[j].num != t {
      EarlierNumbers(files, i, c, t, j);
    }
  }

  lemma {:induction false} ByNumUpdate(p: seq<Decision>, k: nat, d: Decision, n: nat)
    requires k < |p| && d.num == p[k].num && n != d.num
    ensures ByNum(p[k := d], n) == ByNum(p, n)
  {
    var m := |p| - 1;
    if k == m {
      assert p[k := d][..m] == p[..m];
    } else {
      ByNumUpdate(p[..m], k, d, n);
      assert p[k := d][..m] == p[..m][k := d];
    }
  }

  // Looking up a number after the flip.
  lemma {:induction false} FlipByNum(files: seq<File>, i: nat, c: nat, t: nat, n: nat)
    requires HalfWritten(files, i, c, t)
    ensures ByNum(ParsedOf(files), t) == Some(DecisionOf(files[i]))
    ensures ByNum(ParsedOf(Flipped(files, i, c)), n) ==
      if n == t then Some(DecisionOf(files[i]).(status := Superseded, supersededBy := Some(c)))
      else ByNum(ParsedOf(files), n)
  {
    FlipParsed(files, i, c, t);
    hide HalfWritten;
    var k := Position(files, i);
    var p, p' := ParsedOf(files), ParsedOf(Flipped(files, i, c));
    ByNumFirst(p, t, k);
    if n == t {
      ByNumFirst(p', t, k);
    } else {
      ByNumUpdate(p, k, p'[k], n);
    }
  }

  lemma {:induction false} FlipStems(files: seq<File>, i: nat, c: nat, n: nat)
    requires i < |files| && files[i].body.Parsed?
    ensures StemsOf(Flipped(files, i, c), n) == StemsOf(files, n)
    ensures n in NumbersOf(Flipped(files, i, c)) <==> n in NumbersOf(files)
  {
    var after := Flipped(files, i, c);
    forall j | 0 <= j < |files| ensures StemIf(n)(files[j]) == StemIf(n)(after[j]) {}
    FlatMapSame(StemIf(n), StemIf(n), files, after);
    NumberedIff(files, n);
    NumberedIff(after, n);
  }

  // ---- what the flip leaves unchanged ------------------------------------------------

  lemma {:induction false} SelfLoopOnCycle(parsed: seq<Decision>, e: Decision)
    requires e in parsed && e.supersedes == Some(e.num)
    ensures OnCycle(SupersessionGraph(parsed), e.num)
  {
    hide OnCycle;
    var i :| 0 <= i < |parsed| && parsed[i] == e;
    assert Records(parsed[i], e.num, e.num);
    EdgeIff(parsed, e.num, e.num);
    OnCycleIff(SupersessionGraph(parsed), e.num);
  }

  lemma {:induction false} SameEdges(g: Graph, h: Graph)
    requires forall u: int, v: int :: v in Succ(g, u) <==> v in Succ(h, u)
    requires (forall x :: x in g ==> g[x] != {}) && (forall x :: x in h ==> h[x] != {})
    ensures g == h
  {
    forall u: int ensures Succ(g, u) == Succ(h, u) {
      forall v: int ensures v in Succ(g, u) <==> v in Succ(h, u) {}
    }
    forall u: int ensures u in g <==> u in h {
      assert Succ(g, u) == Succ(h, u);
    }
    forall u: int | u in g ensures g[u] == h[u] {
      assert Succ(g, u) == Succ(h, u);
    }
  }

  // The flip records an edge the child already records: the graph is the same.
  lemma {:induction false} FlipGraph(files: seq<File>, i: nat, c: nat, t: nat)
    requires HalfWritten(files, i, c, t)
    ensures SupersessionGraph(ParsedOf(Flipped(files, i, c))) == SupersessionGraph(ParsedOf(files))
  {
    hide SupersessionGraph, OnCycle, Succ, Flipped;
    FlipParsed(files, i, c, t);
    var p, p' := ParsedOf(files), ParsedOf(Flipped(files, i, c));
    var k := Position(files, i);
    var e :| e in p && e.num == c && e.supersedes == Some(t);
    var m :| 0 <= m < |p| && p[m] == e;
    assert files[i].body.supersededBy.None? && c != t;
    hide HalfWritten, ParsedOf, Position;
    forall u: int, v: int ensures v in Succ(SupersessionGraph(p), u) <==> v in Succ(SupersessionGraph(p'), u) {
      EdgeIff(p, u, v);
      EdgeIff(p', u, v);
      if j :| 0 <= j < |p| && Records(p[j], u, v) {
        assert Records(p'[j], u, v);
      }
      if j :| 0 <= j < |p'| && Records(p'[j], u, v) {
        assert Records(p[j], u, v) || Records(p[m], u, v);
      }
    }
    EdgeIff(p, 0, 0);
    EdgeIff(p', 0, 0);
    SameEdges(SupersessionGraph(p), SupersessionGraph(p'));
  }

  lemma {:induction false} FlipDangling(files: seq<File>, i: nat, c: nat, t: nat)
    requires HalfWritten(files, i, c, t)
    ensures DanglingRows(ParsedOf(Flipped(files, i, c)), NumbersOf(Flipped(files, i, c)))
        == DanglingRows(ParsedOf(files), NumbersOf(files))
  {
    FlipParsed(files, i, c, t);
    forall n: nat ensures n in NumbersOf(Flipped(files, i, c)) <==> n in NumbersOf(files) {
      FlipStems(files, i, c, n);
    }
    var existing := NumbersOf(files);
    assert NumbersOf(Flipped(files, i, c)) == existing;
    var p, p' := ParsedOf(files), ParsedOf(Flipped(files, i, c));
    FlatMapSame(DanglingAt(existing), DanglingAt(existing), p, p');
  }

  // Nobody but `c` claims to supersede `t`.
  ghost predicate OnlyChild(parsed: seq<Decision>, c: nat, t: nat) {
    forall e :: e in parsed && e.supersedes == Some(t) ==> e.num == c
  }

  lemma {:induction false} FlipConflictsAt(files: seq<File>, i: nat, c: nat, t: nat, j: nat)
    requires HalfWritten(files, i, c, t) && OnlyChild(ParsedOf(files), c, t)
    requires j < |ParsedOf(files)| && |ParsedOf(Flipped(files, i, c))| == |ParsedOf(files)|
    ensures var p, p', ex := ParsedOf(files), ParsedOf(Flipped(files, i, c)), NumbersOf(files);
      ContradictionsAt(p, ex)(p[j]) == ContradictionsAt(p', ex)(p'[j])
  {
    FlipParsed(files, i, c, t);
    var p, p' := ParsedOf(files), ParsedOf(Flipped(files, i, c));
    var k := Position(files, i);
    assert p[j] in p && p[k] in p;
    hide OnCycle, NumbersOf, ParsedOf;
    FlipByNum(files, i, c, t, t);
    if p[j].supersedes.Some? {
      FlipByNum(files, i, c, t, p[j].supersedes.value);
    }
  }

  lemma {:induction false} ConflictReported(p: seq<Decision>, ex: set<nat>, j: nat)
    requires j < |p| && p[j].supersedes.Some?
    requires ByNum(p, p[j].supersedes.value).Some?
    requires var b := ByNum(p, p[j].supersedes.value).value.supersededBy; b.Some? && b.value in ex && b.value != p[j].num
    ensures var t := ByNum(p, p[j].supersedes.value).value;
      ForwardBackConflict(p[j].num, t.num, t.supersededBy.value) in ContradictionRows(p, ex)
  {
    hide ByNum;
    var t := ByNum(p, p[j].supersedes.value).value;
    var row := ForwardBackConflict(p[j].num, t.num, t.supersededBy.value);
    assert row in ContradictionsAt(p, ex)(p[j]);
    SortByKeeps(ContradictionKey, FlatMap(ContradictionsAt(p, ex), p), row);
    FlatMapIn(ContradictionsAt(p, ex), p, row);
  }

  lemma {:induction false} NoConflictWithout(p: seq<Decision>, ex: set<nat>, d: nat, t: nat, c: nat)
    requires ByNum(p, t).Some? && ByNum(p, t).value.supersededBy.None?
    ensures ForwardBackConflict(d, t, c) !in ContradictionRows(p, ex)
  {
    hide ByNum;
    var row := ForwardBackConflict(d, t, c);
    SortByKeeps(ContradictionKey, FlatMap(ContradictionsAt(p, ex), p), row);
    FlatMapIn(ContradictionsAt(p, ex), p, row);
    forall m | 0 <= m < |p| ensures row !in ContradictionsAt(p, ex)(p[m]) {
      if p[m].supersedes.Some? && ByNum(p, p[m].supersedes.value).Some? {
        ByNumNamed(p, p[m].supersedes.value);
      }
    }
  }

  lemma {:induction false} NewConflict(files: seq<File>, i: nat, c: nat, t: nat, e: Decision)
    requires HalfWritten(files, i, c, t) && e in ParsedOf(files) && e.supersedes == Some(t) && e.num != c
    ensures var row := ForwardBackConflict(e.num, t, c);
      && row in ContradictionRows(ParsedOf(Flipped(files, i, c)), NumbersOf(files))
      && row !in ContradictionRows(ParsedOf(files), NumbersOf(files))
  {
    FlipParsed(files, i, c, t);
    FlipByNum(files, i, c, t, t);
    var p, p', ex := ParsedOf(files), ParsedOf(Flipped(files, i, c)), NumbersOf(files);
    var j :| 0 <= j < |p| && p[j] == e;
    assert p'[j].supersedes == Some(t) && p'[j].num == e.num;
    assert c in ex && files[i].body.supersededBy.None?;
    hide OnCycle, NumbersOf, ParsedOf, HalfWritten, ByNum;
    ConflictReported(p', ex, j);
    NoConflictWithout(p, ex, e.num, t, c);
  }

  // Completing a half-written supersession leaves the contradictions as they were exactly
  // when no other decision claims the same target; otherwise it creates a new conflict.
  // This is what the planner's multiple-children refusal is for.
  lemma {:induction false} FlipConflictsIff(files: seq<File>, i: nat, c: nat, t: nat)
    requires HalfWritten(files, i, c, t)
    ensures ContradictionRows(ParsedOf(Flipped(files, i, c)), NumbersOf(Flipped(files, i, c)))
        == ContradictionRows(ParsedOf(files), NumbersOf(files))
      <==> OnlyChild(ParsedOf(files), c, t)
  {
    FlipParsed(files, i, c, t);
    forall n: nat ensures n in NumbersOf(Flipped(files, i, c)) <==> n in NumbersOf(files) {
      FlipStems(files, i, c, n);
    }
    var existing := NumbersOf(files);
    assert NumbersOf(Flipped(files, i, c)) == existing;
    var p, p' := ParsedOf(files), ParsedOf(Flipped(files, i, c));
    hide OnCycle, NumbersOf, ParsedOf;
    if OnlyChild(p, c, t) {
      forall j | 0 <= j < |p| ensures ContradictionsAt(p, existing)(p[j]) == ContradictionsAt(p', existing)(p'[j]) {
        FlipConflictsAt(files, i, c, t, j);
      }
      FlatMapSame(ContradictionsAt(p, existing), ContradictionsAt(p', existing), p, p');
    } else {
      var e :| e in p && e.supersedes == Some(t) && e.num != c;
      NewConflict(files, i, c, t, e);
    }
  }

  // ---- from the planner's answer ---------------------------------------------------

  lemma {:induction false} FlatMapEmpty<A, B>(f: A -> seq<B>, s: seq<A>)
    requires forall j :: 0 <= j < |s| ==> f(s[j]) == []
    ensures FlatMap(f, s) == []
  {
    if s != [] { FlatMapEmpty(f, s[..|s| - 1]); }
  }

  lemma {:induction false} FlipOrphans(files: seq<File>, i: nat, c: nat, t: nat)
    requires HalfWritten(files, i, c, t)
    requires OrphanRows(files, ParsedOf(files)) == [Orphan(c, t)]
    ensures OrphanRows(Flipped(files, i, c), ParsedOf(Flipped(files, i, c))) == []
  {
    FlipParsed(files, i, c, t);
    FlipGraph(files, i, c, t);
    var after := Flipped(files, i, c);
    var p, p' := ParsedOf(files), ParsedOf(after);
    hide OnCycle, NumbersOf, ParsedOf, SupersessionGraph;
    forall j | 0 <= j < |p'| ensures OrphansAt(after, p')(p'[j]) == [] {
      var d := p'[j];
      if d.supersedes.Some? && IsOrphan(after, p', d, d.supersedes.value) {
        var u := d.supersedes.value;
        FlipByNum(files, i, c, t, u);
        FlipStems(files, i, c, d.num);
        FlipStems(files, i, c, u);
        assert IsOrphan(files, p, p[j], u) && u != t;
        assert Orphan(d.num, u) in OrphansAt(files, p)(p[j]);
        FlatMapIn(OrphansAt(files, p), p, Orphan(d.num, u));
        SortByKeeps(OrphanKey, FlatMap(OrphansAt(files, p), p), Orphan(d.num, u));
      }
    }
    FlatMapEmpty(OrphansAt(after, p'), p');
  }

  lemma {:induction false} LoneStemOf(files: seq<File>, t: nat, j: nat)
    requires |StemsOf(files, t)| == 1 && j < |files| && files[j].number == Some(t)
    ensures files[j].stem == StemsOf(files, t)[0]
  {
    var x := files[j].stem;
    FlatMapIn(StemIf(t), files, x);
    assert x in StemIf(t)(files[j]);
  }

  // The planned file: the first with the target's number, found by its stem.
  lemma {:induction false} TargetFile(files: seq<File>, t: nat) returns (i: nat)
    requires IsScan(files) && |StemsOf(files, t)| == 1
    ensures i < |files| && files[i].number == Some(t) && files[i].stem == StemsOf(files, t)[0]
    ensures forall j :: 0 <= j < i ==> files[j].number.Some? && files[j].number != Some(t)
    ensures LoneStem(files, t) == {files[i].stem}
  {
    var s := StemsOf(files, t)[0];
    FlatMapIn(StemIf(t), files, s);
    i :| 0 <= i < |files| && s in StemIf(t)(files[i]);
    forall j | 0 <= j < i ensures files[j].number != Some(t) {
      if files[j].number == Some(t) { LoneStemOf(files, t, j); }
    }
  }

  // What an unblocked lone orphan rules out.
  lemma {:induction false} Unblocked(files: seq<File>, cycles: seq<seq<int>>, a: Assessment, c: nat, t: nat)
    requires IsAssessment(files, cycles, a) && a.plan.Some? && a.orphans == [Orphan(c, t)]
    ensures var parsed := ParsedOf(files); var cands := CandidatesOf(files, parsed);
      forall o, r :: o in cands && r in RefusalsOf(files, parsed, cycles, cands, o) ==> !r.Blocks(Orphan(c, t))
  {
    hide RefusalsOf, CandidatesOf, ParsedOf, StemsOf, OrphanRows;
  }

  lemma {:induction false} UnparseableRefused(files: seq<File>, cycles: seq<seq<int>>, cands: set<Orphan>, c: nat, t: nat, i: nat)
    returns (r: Refusal)
    requires i < |files| && LoneStem(files, t) == {files[i].stem} && files[i].body.Unparseable?
    ensures r in RefusalsOf(files, ParsedOf(files), cycles, cands, Orphan(c, t)) && r.Blocks(Orphan(c, t))
  {
    hide DuplicateRefusals, CycleRefusals, SiblingRefusals, CompetingRefusals, ParsedOf, LoneStem;
    assert files[i] in files && files[i].stem in FailedStems(files);
    r := Refusal(UnparseableTarget, {t, c}, LoneStem(files, t));
    assert files[i].stem in LoneStem(files, t);
    assert r in TargetRefusals(files, Orphan(c, t));
  }

  lemma {:induction false} SiblingsRefused(files: seq<File>, parsed: seq<Decision>, cycles: seq<seq<int>>,
                                           cands: set<Orphan>, c: nat, d: nat, t: nat)
    returns (r: Refusal)
    requires Orphan(c, t) in cands && Orphan(d, t) in cands && c != d
    ensures r in RefusalsOf(files, parsed, cycles, cands, Orphan(c, t)) && r.Blocks(Orphan(c, t))
  {
    hide DuplicateRefusals, CycleRefusals, TargetRefusals, CompetingRefusals;
    var siblings := Children(cands, t);
    assert Orphan(c, t).child in siblings && Orphan(d, t).child in siblings;
    assert siblings == {c, d} + (siblings - {c, d}) && |{c, d}| == 2;
    r := Refusal(MultipleChildren, {t} + siblings, {});
    assert r in SiblingRefusals(cands, Orphan(c, t));
  }

  lemma {:induction false} NoSibling(files: seq<File>, cycles: seq<seq<int>>, c: nat, t: nat)
    requires var cands := CandidatesOf(files, ParsedOf(files));
      && Orphan(c, t) in cands
      && forall r :: r in RefusalsOf(files, ParsedOf(files), cycles, cands, Orphan(c, t)) ==> !r.Blocks(Orphan(c, t))
    requires |StemsOf(files, t)| == 1 && !OnCycle(SupersessionGraph(ParsedOf(files)), t)
    requires ByNum(ParsedOf(files), t).Some? && ByNum(ParsedOf(files), t).value.supersededBy.None?
    ensures OnlyChild(ParsedOf(files), c, t)
  {
    var parsed := ParsedOf(files);
    var cands := CandidatesOf(files, parsed);
    forall e | e in parsed && e.supersedes == Some(t) ensures e.num == c {
      if e.num == t { SelfLoopOnCycle(parsed, e); }
      if e.num != c {
        assert IsCandidate(files, parsed, e);
        assert Orphan(e.num, t) in cands;
        var r := SiblingsRefused(files, parsed, cycles, cands, c, e.num, t);
      }
    }
  }

  lemma {:induction false} PlanFields(files: seq<File>, cycles: seq<seq<int>>, a: Assessment)
    requires IsAssessment(files, cycles, a) && a.plan.Some?
    ensures |a.orphans| == 1 && |StemsOf(files, a.orphans[0].target)| == 1
    ensures a.plan == Some(Plan(a.orphans[0].child, a.orphans[0].target, StemsOf(files, a.orphans[0].target)[0]))
    ensures a.orphans == [Orphan(a.orphans[0].child, a.orphans[0].target)]
  {
    hide IsRefused, OrphanRows, ParsedOf, StemsOf, CandidatesOf;
  }

  lemma {:induction false} ChildIsCandidate(files: seq<File>, parsed: seq<Decision>, m: nat, t: nat)
    requires m < |parsed| && IsOrphan(files, parsed, parsed[m], t)
    ensures parsed[m] in parsed && Orphan(parsed[m].num, t) in CandidatesOf(files, parsed)
  {
    hide OnCycle;
    assert IsCandidate(files, parsed, parsed[m]);
    assert parsed[m] in parsed;
  }

  lemma {:induction false} FirstDecision(files: seq<File>, i: nat, t: nat)
    requires i < |files| && files[i].number == Some(t) && files[i].body.Parsed?
    requires forall j :: 0 <= j < i ==> files[j].number.Some? && files[j].number != Some(t)
    ensures ByNum(ParsedOf(files), t) == Some(DecisionOf(files[i]))
  {
    ParsedAround(files, i);
    var pre := ParsedOf(files[..i]);
    forall j | 0 <= j < |pre| ensures ParsedOf(files)[j].num != t {
      var d := pre[j];
      assert d in pre;
      FlatMapIn(DecisionsIn, files[..i], d);
      assert ParsedOf(files)[j] == d;
    }
    ByNumFirst(ParsedOf(files), t, |pre|);
  }

  // A returned plan names a half-written supersession whose child is the only one.
  lemma {:induction false} PlanTarget(files: seq<File>, cycles: seq<seq<int>>, a: Assessment) returns (i: nat)
    requires IsScan(files) && IsCycleReport(SupersessionGraph(ParsedOf(files)), cycles)
    requires IsAssessment(files, cycles, a) && a.plan.Some?
    ensures HalfWritten(files, i, a.plan.value.child, a.plan.value.target)
    ensures OnlyChild(ParsedOf(files), a.plan.value.child, a.plan.value.target)
    ensures a.orphans == [Orphan(a.plan.value.child, a.plan.value.target)]
    ensures files[i].stem == a.plan.value.stem
  {
    var parsed := ParsedOf(files);
    var o := a.orphans[0];
    assert o in OrphanRows(files, parsed);
    var m := OrphanFacts(files, parsed, o);
    var c, t := o.child, o.target;
    hide IsAssessment, OnCycle, ParsedOf, SupersessionGraph, OrphanRows, IsCycleReport, StemsOf, CandidatesOf, RefusalsOf;
    PlanFields(files, cycles, a);
    Unblocked(files, cycles, a, c, t);
    assert parsed[m] in parsed && Orphan(c, t) in CandidatesOf(files, parsed) by {
      ChildIsCandidate(files, parsed, m, t);
    }
    i := TargetFile(files, t);
    if files[i].body.Unparseable? {
      var r := UnparseableRefused(files, cycles, CandidatesOf(files, parsed), c, t, i);
    }
    NoSibling(files, cycles, c, t);
    NumberedIff(files, c);
    FirstDecision(files, i, t);
  }

  lemma {:induction false} ApplyIsFlip(files: seq<File>, p: Plan, i: nat)
    requires IsScan(files) && i < |files| && files[i].stem == p.stem && files[i].body.Parsed?
    ensures Apply(files, p) == Flipped(files, i, p.child)
  {
    var after := Apply(files, p);
    forall j | 0 <= j < |files| ensures after[j] == Flipped(files, i, p.child)[j] {
      if j < i { assert files[j].stem != files[i].stem; }
      if i < j { assert files[i].stem != files[j].stem; }
    }
  }

  lemma {:induction false} PlanOrphans(files: seq<File>, cycles: seq<seq<int>>, a: Assessment)
    requires IsAssessment(files, cycles, a)
    ensures a.orphans == OrphanRows(files, ParsedOf(files))
  {}

  lemma {:induction false} FlipFailed(files: seq<File>, i: nat, c: nat)
    requires i < |files| && files[i].body.Parsed?
    ensures FailedStems(Flipped(files, i, c)) == FailedStems(files)
  {
    var after := Flipped(files, i, c);
    forall s ensures s in FailedStems(after) <==> s in FailedStems(files) {
      if f :| f in after && f.body.Unparseable? && f.stem == s {
        var j :| 0 <= j < |after| && after[j] == f;
        assert files[j] in files;
      }
      if f :| f in files && f.body.Unparseable? && f.stem == s {
        var j :| 0 <= j < |files| && files[j] == f;
        assert after[j] in after;
      }
    }
  }

  ghost predicate Without<T(!new)>(before: seq<T>, after: seq<T>, front: seq<T>, gone: seq<T>, back: seq<T>) {
    before == front + gone + back && after == front + back && |gone| <= 1
  }

  // The same list, or the same without one element.
  ghost predicate LosesOne<T(!new)>(before: seq<T>, after: seq<T>) {
    exists front, gone, back :: Without(before, after, front, gone, back)
  }

  lemma {:induction false} CarriersAround(files: seq<File>, title: string, i: nat)
    requires i < |files|
    ensures var f := ActiveCarrier(title);
      ActiveCarriers(files, title) == FlatMap(f, files[..i]) + f(files[i]) + FlatMap(f, files[i + 1..])
  {
    var f := ActiveCarrier(title);
    assert files == files[..i + 1] + files[i + 1..];
    FlatMapAppend(f, files[..i + 1], files[i + 1..]);
    FlatMapSnoc(f, files, i);
  }

  lemma {:induction false} FlipCarriers(files: seq<File>, i: nat, c: nat, title: string)
    requires i < |files| && files[i].body.Parsed?
    ensures LosesOne(ActiveCarriers(files, title), ActiveCarriers(Flipped(files, i, c), title))
  {
    var f, g := ActiveCarrier(title), Flipped(files, i, c)[i];
    CarriersAround(files, title, i);
    CarriersAround(Flipped(files, i, c), title, i);
    assert Flipped(files, i, c)[..i] == files[..i] && Flipped(files, i, c)[i + 1..] == files[i + 1..];
    assert f(g) == [];
    hide FlatMap, ActiveCarriers, ActiveCarrier, Flipped;
    var front, back := FlatMap(f, files[..i]), FlatMap(f, files[i + 1..]);
    assert front + [] + back == front + back;
    assert Without(ActiveCarriers(files, title), ActiveCarriers(Flipped(files, i, c), title), front, f(files[i]), back);
  }

  // Applying a returned plan closes the supersession and breaks nothing: afterwards no
  // supersession is half-written, so no further plan exists; cycles, dangling references,
  // contradictions and the stems of every number are exactly as before; and the list of
  // active carriers of a title stays, or loses one entry.
  lemma {:induction false} RepairHeals(files: seq<File>, cycles: seq<seq<int>>, a: Assessment)
    requires IsScan(files) && IsCycleReport(SupersessionGraph(ParsedOf(files)), cycles)
    requires IsAssessment(files, cycles, a) && a.plan.Some?
    ensures var after := Apply(files, a.plan.value);
      && OrphanRows(after, ParsedOf(after)) == []
      && IsCycleReport(SupersessionGraph(ParsedOf(after)), cycles)
      && DanglingRows(ParsedOf(after), NumbersOf(after)) == DanglingRows(ParsedOf(files), NumbersOf(files))
      && ContradictionRows(ParsedOf(after), NumbersOf(after)) == ContradictionRows(ParsedOf(files), NumbersOf(files))
      && (forall n: nat :: StemsOf(after, n) == StemsOf(files, n))
      && FailedStems(after) == FailedStems(files)
      && (forall title :: LosesOne(ActiveCarriers(files, title), ActiveCarriers(after, title)))
  {
    var i := PlanTarget(files, cycles, a);
    var c, t := a.plan.value.child, a.plan.value.target;
    assert i < |files| && files[i].body.Parsed?;
    ApplyIsFlip(files, a.plan.value, i);
    var after := Flipped(files, i, c);
    FlipGraph(files, i, c, t);
    FlipDangling(files, i, c, t);
    FlipConflictsIff(files, i, c, t);
    hide IsAssessment, IsCycleReport, OnCycle, SupersessionGraph, ParsedOf, HalfWritten, OnlyChild, Flipped,
      OrphanRows, DanglingRows, ContradictionRows, StemsOf, NumbersOf;
    assert OrphanRows(files, ParsedOf(files)) == [Orphan(c, t)] by { PlanOrphans(files, cycles, a); }
    FlipOrphans(files, i, c, t);
    forall n: nat ensures StemsOf(after, n) == StemsOf(files, n) { FlipStems(files, i, c, n); }
    FlipFailed(files, i, c);
    forall title ensures LosesOne(ActiveCarriers(files, title), ActiveCarriers(after, title)) {
      FlipCarriers(files, i, c, title);
    }
  }

  // The planner finds nothing to do in the repaired store, whatever its diagnosis.
  lemma {:induction false} NoFurtherPlan(files: seq<File>, cycles: seq<seq<int>>, a: Assessment,
                                         cycles': seq<seq<int>>, b: Assessment)
    requires IsScan(files) && IsCycleReport(SupersessionGraph(ParsedOf(files)), cycles)
    requires IsAssessment(files, cycles, a) && a.plan.Some?
    requires IsAssessment(Apply(files, a.plan.value), cycles', b)
    ensures b.plan.None? && b.orphans == []
  {
    RepairHeals(files, cycles, a);
    PlanOrphans(Apply(files, a.plan.value), cycles', b);
    hide OrphanRows, ParsedOf, IsCycleReport, StemsOf, CandidatesOf, IsRefused, Apply, NumbersOf, DanglingRows, ContradictionRows;
  }
}
