// The supersession repair planner.
module Repair {
  // It plans the one rewrite that closes a half-written supersession, or refuses.
  import opened Common
  import opened Sorting
  import opened Doctor

  datatype RefusalKind =
    | MultipleChildren | CycleMember | UnparseableChild | UnparseableTarget | DuplicateDecisionNumber
    | CompetingReference

  // `decisions` names every implicated number; an empty one blocks every candidate.
  datatype Refusal = Refusal(kind: RefusalKind, decisions: set<nat>, stems: set<string>) {
    predicate Blocks(o: Orphan) {
      decisions == {} || o.child in decisions || o.target in decisions
    }
  }

  // Rewriting `stem` with the superseded form of decision `target`.
  datatype Plan = Plan(child: nat, target: nat, stem: string)

  datatype Assessment = Assessment(plan: Option<Plan>, refusals: set<Refusal>, orphans: seq<Orphan>)

  // ---- candidates ----------------------------------------------------------------

  // A forward edge that still needs its back reference written.
  predicate IsCandidate(files: seq<File>, parsed: seq<Decision>, d: Decision) {
    && d.supersedes.Some? && d.supersedes.value != d.num
    && |StemsOf(files, d.supersedes.value)| != 0
    && (var t := ByNum(parsed, d.supersedes.value); t.Some? ==> t.value.supersededBy != Some(d.num))
  }

  function CandidatesOf(files: seq<File>, parsed: seq<Decision>): set<Orphan> {
    set d | d in parsed && IsCandidate(files, parsed, d) :: Orphan(d.num, d.supersedes.value)
  }

  method Candidates(files: seq<File>, parsed: seq<Decision>, byNum: map<nat, Decision>, stemCounts: map<nat, nat>)
    returns (candidates: set<Orphan>)
    requires forall n: nat :: (n in byNum <==> ByNum(parsed, n).Some?)
    requires forall n :: n in byNum ==> ByNum(parsed, n) == Some(byNum[n])
    requires forall n: nat :: |StemsOf(files, n)| == if n in stemCounts then stemCounts[n] else 0
    ensures candidates == CandidatesOf(files, parsed)
  {
    candidates := {};
    for i := 0 to |parsed|
      invariant forall o :: o in candidates <==>
        exists j :: 0 <= j < i && IsCandidate(files, parsed, parsed[j]) && o == Orphan(parsed[j].num, parsed[j].supersedes.value)
    {
      var d := parsed[i];
      if d.supersedes.None? { continue; }
      var target := d.supersedes.value;
      if target == d.num || target !in stemCounts || stemCounts[target] == 0 { continue; }
      if target in byNum && byNum[target].supersededBy == Some(d.num) { continue; }
      candidates := candidates + {Orphan(d.num, target)};
    }
    forall o ensures o in candidates <==> o in CandidatesOf(files, parsed) {
      if d :| d in parsed && IsCandidate(files, parsed, d) && o == Orphan(d.num, d.supersedes.value) {
        var j :| 0 <= j < |parsed| && parsed[j] == d;
        assert IsCandidate(files, parsed, parsed[j]);
      }
    }
  }

  // ---- refusals ------------------------------------------------------------------

  function Children(candidates: set<Orphan>, t: nat): set<nat> {
    set o | o in candidates && o.target == t :: o.child
  }

  predicate Competes(d: Decision, c: Orphan) {
    || (d.num != c.child && d.supersededBy == Some(c.target))
    || (d.num != c.target && d.supersedes == Some(c.child))
  }

  predicate ChildRetired(parsed: seq<Decision>, c: Orphan) {
    var d := ByNum(parsed, c.child);
    d.Some? && (d.value.status.Superseded? || d.value.supersededBy.Some?)
  }

  function Competing(parsed: seq<Decision>, c: Orphan): set<nat> {
    (set d | d in parsed && Competes(d, c) :: d.num) + (if ChildRetired(parsed, c) then {c.child} else {})
  }

  method CompetingReferences(c: Orphan, parsed: seq<Decision>, byNum: map<nat, Decision>)
    returns (competing: set<nat>)
    requires forall n: nat :: (n in byNum <==> ByNum(parsed, n).Some?)
    requires forall n :: n in byNum ==> ByNum(parsed, n) == Some(byNum[n])
    ensures competing == Competing(parsed, c)
  {
    competing := {};
    for i := 0 to |parsed|
      invariant forall n :: n in competing <==> exists j :: 0 <= j < i && Competes(parsed[j], c) && n == parsed[j].num
    {
      if parsed[i].num != c.child && parsed[i].supersededBy == Some(c.target) {
        competing := competing + {parsed[i].num};
      }
      if parsed[i].num != c.target && parsed[i].supersedes == Some(c.child) {
        competing := competing + {parsed[i].num};
      }
    }
    ghost var referring := set d | d in parsed && Competes(d, c) :: d.num;
    forall n ensures n in competing <==> n in referring {
      if d :| d in parsed && Competes(d, c) && d.num == n {
        var j :| 0 <= j < |parsed| && parsed[j] == d;
        assert Competes(parsed[j], c);
      }
    }
    if c.child in byNum && (byNum[c.child].status.Superseded? || byNum[c.child].supersededBy.Some?) {
      ByNumNamed(parsed, c.child);
      competing := competing + {byNum[c.child].num};
    }
  }

  function FailedStems(files: seq<File>): set<string> {
    set f | f in files && f.body.Unparseable? :: f.stem
  }

  // The stem of a number that exactly one file carries.
  function LoneStem(files: seq<File>, n: nat): set<string> {
    if |StemsOf(files, n)| == 1 then {StemsOf(files, n)[0]} else {}
  }

  function DuplicateRefusals(files: seq<File>, c: Orphan): set<Refusal> {
    set n | n in {c.child, c.target} && |StemsOf(files, n)| > 1
      :: Refusal(DuplicateDecisionNumber, {n}, set s | s in StemsOf(files, n))
  }

  function MembersOf(row: seq<int>): set<nat> {
    set m | m in row && m >= 0 :: m as nat
  }

  function CycleRefusals(cycles: seq<seq<int>>, c: Orphan): set<Refusal> {
    set row | row in cycles && (c.child in row || c.target in row) :: Refusal(CycleMember, MembersOf(row), {})
  }

  function TargetRefusals(files: seq<File>, c: Orphan): set<Refusal> {
    var lone := LoneStem(files, c.target);
    if lone != {} && lone <= FailedStems(files)
    then {Refusal(UnparseableTarget, {c.target, c.child}, lone)} else {}
  }

  function SiblingRefusals(candidates: set<Orphan>, c: Orphan): set<Refusal> {
    var siblings := Children(candidates, c.target);
    if |siblings| > 1 then {Refusal(MultipleChildren, {c.target} + siblings, {})} else {}
  }

  function CompetingRefusals(parsed: seq<Decision>, c: Orphan): set<Refusal> {
    var competing := Competing(parsed, c);
    if competing != {} then {Refusal(CompetingReference, {c.child, c.target} + competing, {})} else {}
  }

  // Every reason one candidate gives for not acting.
  function RefusalsOf(files: seq<File>, parsed: seq<Decision>, cycles: seq<seq<int>>,
                      candidates: set<Orphan>, c: Orphan): set<Refusal>
  {
    DuplicateRefusals(files, c) + CycleRefusals(cycles, c) + TargetRefusals(files, c)
    + SiblingRefusals(candidates, c) + CompetingRefusals(parsed, c)
  }

  // Unparseable files that no candidate names as its only target file.
  function Unread(files: seq<File>, candidates: set<Orphan>): set<string> {
    FailedStems(files) - set c, s | c in candidates && s in LoneStem(files, c.target) :: s
  }

  ghost predicate IsRefused(files: seq<File>, parsed: seq<Decision>, cycles: seq<seq<int>>,
                            candidates: set<Orphan>, r: Refusal)
  {
    || (exists c :: c in candidates && r in RefusalsOf(files, parsed, cycles, candidates, c))
    || (candidates != {} && Unread(files, candidates) != {}
        && r == Refusal(UnparseableChild, {}, Unread(files, candidates)))
  }

  method RefusalsFor(files: seq<File>, parsed: seq<Decision>, byNum: map<nat, Decision>, cycles: seq<seq<int>>,
                     candidates: set<Orphan>, c: Orphan)
    returns (rows: set<Refusal>)
    requires forall n: nat :: (n in byNum <==> ByNum(parsed, n).Some?)
    requires forall n :: n in byNum ==> ByNum(parsed, n) == Some(byNum[n])
    ensures rows == RefusalsOf(files, parsed, cycles, candidates, c)
  {
    hide MembersOf, Competing, StemsOf;
    var duplicates: set<Refusal>, cyclic: set<Refusal> := {}, {};
    if |StemsOf(files, c.child)| > 1 {
      duplicates := duplicates + {Refusal(DuplicateDecisionNumber, {c.child}, set s | s in StemsOf(files, c.child))};
    }
    if |StemsOf(files, c.target)| > 1 {
      duplicates := duplicates + {Refusal(DuplicateDecisionNumber, {c.target}, set s | s in StemsOf(files, c.target))};
    }
    assert duplicates == DuplicateRefusals(files, c);
    for i := 0 to |cycles|
      invariant cyclic == CycleRefusals(cycles[..i], c)
    {
      assert cycles[..i + 1] == cycles[..i] + [cycles[i]];
      if c.child in cycles[i] || c.target in cycles[i] {
        cyclic := cyclic + {Refusal(CycleMember, MembersOf(cycles[i]), {})};
      }
    }
    assert cycles[..|cycles|] == cycles;
    var competing := CompetingReferences(c, parsed, byNum);
    var references := if competing != {}
                      then {Refusal(CompetingReference, {c.child, c.target} + competing, {})} else {};
    rows := duplicates + cyclic + TargetRefusals(files, c) + SiblingRefusals(candidates, c) + references;
  }

  method Refusals(files: seq<File>, parsed: seq<Decision>, byNum: map<nat, Decision>, cycles: seq<seq<int>>,
                  candidates: set<Orphan>)
    returns (rows: set<Refusal>)
    requires forall n: nat :: (n in byNum <==> ByNum(parsed, n).Some?)
    requires forall n :: n in byNum ==> ByNum(parsed, n) == Some(byNum[n])
    ensures forall r :: r in rows <==> IsRefused(files, parsed, cycles, candidates, r)
  {
    rows := {};
    if candidates == {} { return; }
    hide RefusalsOf;
    var rest := candidates;
    while rest != {}
      invariant rest <= candidates
      invariant forall r :: r in rows <==>
        (exists c :: c in candidates - rest && r in RefusalsOf(files, parsed, cycles, candidates, c))
      decreases rest
    {
      var c :| c in rest;
      var more := RefusalsFor(files, parsed, byNum, cycles, candidates, c);
      rows := rows + more;
      rest := rest - {c};
    }
    var unread := Unread(files, candidates);
    if unread != {} {
      rows := rows + {Refusal(UnparseableChild, {}, unread)};
    }
  }

  // ---- the plan ------------------------------------------------------------------

  // The planner acts on a lone orphan that no refusal blocks.
  ghost predicate IsAssessment(files: seq<File>, cycles: seq<seq<int>>, a: Assessment) {
    var parsed := ParsedOf(files);
    && a.orphans == OrphanRows(files, parsed)
    && (forall r :: r in a.refusals <==> IsRefused(files, parsed, cycles, CandidatesOf(files, parsed), r))
    && (a.plan.Some? <==> |a.orphans| == 1 && forall r :: r in a.refusals ==> !r.Blocks(a.orphans[0]))
    && (a.plan.Some? ==>
          var o := a.orphans[0];
          && |StemsOf(files, o.target)| == 1
          && a.plan == Some(Plan(o.child, o.target, StemsOf(files, o.target)[0])))
  }

  // A reported orphan's numbers each belong to one file.
  lemma {:induction false} OrphanFacts(files: seq<File>, parsed: seq<Decision>, o: Orphan) returns (i: nat)
    requires o in OrphanRows(files, parsed)
    ensures i < |parsed| && parsed[i].num == o.child && IsOrphan(files, parsed, parsed[i], o.target)
  {
    hide IsOrphan;
    SortByKeeps(OrphanKey, FlatMap(OrphansAt(files, parsed), parsed), o);
    FlatMapIn(OrphansAt(files, parsed), parsed, o);
    i :| 0 <= i < |parsed| && o in OrphansAt(files, parsed)(parsed[i]);
  }

  method PlanSupersedeRepair(files: seq<File>) returns (a: Assessment, diagnosis: Diagnosis)
    ensures IsDiagnosis(files, diagnosis) && IsAssessment(files, diagnosis.cycles, a)
  {
    diagnosis := Diagnose(files);
    var parsed := ParsedOf(files);
    var byNum := IndexByNum(parsed);
    var stemCounts := CountStems(files);
    var candidates := Candidates(files, parsed, byNum, stemCounts);
    var refusals := Refusals(files, parsed, byNum, diagnosis.cycles, candidates);
    var orphans := diagnosis.orphans;
    var plan := None;
    if |orphans| == 1 && forall r :: r in refusals ==> !r.Blocks(orphans[0]) {
      ghost var i := OrphanFacts(files, parsed, orphans[0]);
      plan := Some(Plan(orphans[0].child, orphans[0].target, StemsOf(files, orphans[0].target)[0]));
    }
    a := Assessment(plan, refusals, orphans);
  }

  // ---- applying a plan -------------------------------------------------------------

  // The superseded form of a parsed body: only status and back reference change.
  function Flip(b: Body, child: nat): Body
    requires b.Parsed?
  {
    b.(status := Superseded, supersededBy := Some(child))
  }

  // The caller writes the flipped content over the one planned file.
  function Apply(files: seq<File>, p: Plan): seq<File> {
    seq(|files|, i requires 0 <= i < |files| =>
      if files[i].stem == p.stem && files[i].body.Parsed?
      then files[i].(body := Flip(files[i].body, p.child)) else files[i])
  }

  // What a directory listing gives after ordering by number: distinct stems, numbered first.
  ghost predicate IsScan(files: seq<File>) {
    && (forall i, j :: 0 <= i < j < |files| ==> files[i].stem != files[j].stem)
    && (forall i, j :: 0 <= i < j < |files| && files[j].number.Some? ==> files[i].number.Some?)
  }
}
