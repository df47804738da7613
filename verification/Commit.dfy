// Preparing a judgment commit: from an approved payload to the planned next generation.
module Commit {
  // A decision file is kept in parsed form: formatting and parsing it is taken to round-trip.
  import opened Common
  import opened Decimal
  import opened Identifiers
  import opened Text
  import opened Claims

  datatype Content = DecisionFile(doc: Doc) | Other(bytes: string)

  datatype Generation = Generation(id: nat, counter: nat, artifacts: map<string, Content>)

  datatype Payload = Payload(
    op: Op, affected: Option<string>, title: Option<string>, rationale: string,
    resolves: seq<string>, meta: string, baseId: nat, baseCounter: nat)

  // What the planner takes from outside: the effective date, whether the checks that are
  // not modelled pass, and the rewritten open-questions text.
  datatype Env = Env(date: string, accepted: bool, questions: string)

  datatype PrepareError = PayloadRejected | BaseStale | Corrupt | TargetNotFound | ProposalRejected | InvalidClaim

  datatype Prepared = Prepared(
    payload: Payload, baseId: nat, baseCounter: nat, newNumber: Option<nat>, newCounter: nat,
    planned: map<string, Content>, primaryStem: string, touched: seq<string>, contract: Contract)

  datatype PrepareResult = Ready(value: Prepared) | Refused(error: PrepareError)

  const QUESTIONS_PATH := "open-questions.md"

  const MIN_RATIONALE_LENGTH: nat := 20

  const SLUG_MAX_LENGTH: nat := 60

  // ---- decision files of a generation ---------------------------------------------

  predicate IsDecisionPath(path: string) {
    StartsWith(path, "decisions/")
  }

  function Filename(path: string): string
    requires IsDecisionPath(path)
  {
    path[|"decisions/"|..]
  }

  function StemOf(path: string): string
    requires IsDecisionPath(path)
  {
    RemoveSuffix(Filename(path), ".md")
  }

  // The number of a decision file; 0 when its name carries none.
  function FileNumber(path: string): nat
    requires IsDecisionPath(path)
  {
    var n := ExtractDecisionNumber(Filename(path));
    if n.Some? then n.value else 0
  }

  function DecisionAt(g: Generation, path: string): Decision
    requires path in g.artifacts && IsDecisionPath(path) && g.artifacts[path].DecisionFile?
  {
    Decision(FileNumber(path), g.artifacts[path].doc)
  }

  predicate GoodFile(g: Generation, path: string)
    requires path in g.artifacts
  {
    IsDecisionPath(path) ==> g.artifacts[path].DecisionFile? && 0 < FileNumber(path) <= g.counter
  }

  predicate SameNumber(p: string, q: string) {
    IsDecisionPath(p) && IsDecisionPath(q) && FileNumber(p) == FileNumber(q)
  }

  // Every decision file parses, numbers are positive, unique, and within the counter.
  ghost predicate Valid(g: Generation) {
    && (forall p :: p in g.artifacts ==> GoodFile(g, p))
    && (forall p, q :: p in g.artifacts && q in g.artifacts && SameNumber(p, q) ==> p == q)
  }

  // What artifact paths are validated to be: a decision file ends in `.md`.
  ghost predicate Admissible(g: Generation) {
    forall p :: p in g.artifacts && IsDecisionPath(p) ==> EndsWith(Filename(p), ".md")
  }

  lemma {:induction false} PathOfStem(stem: string)
    ensures IsDecisionPath(DecisionPath(stem)) && Filename(DecisionPath(stem)) == DecisionFilename(stem)
    ensures EndsWith(DecisionFilename(stem), ".md") && StemOf(DecisionPath(stem)) == stem
  {
    assert DecisionPath(stem)[..|"decisions/"|] == "decisions/";
    assert DecisionFilename(stem)[|stem|..] == ".md";
  }

  lemma {:induction false} StemOfPath(path: string)
    requires IsDecisionPath(path) && EndsWith(Filename(path), ".md")
    ensures DecisionPath(StemOf(path)) == path
  {
    var f := Filename(path);
    assert f == f[..|f| - 3] + ".md";
    assert path == "decisions/" + f;
  }

  // The dictionaries built from the artifacts read so far.
  ghost predicate Scanned(g: Generation, done: set<string>, decisions: set<Decision>, stems: map<nat, string>) {
    && done <= g.artifacts.Keys
    && (forall p :: p in done ==> GoodFile(g, p))
    && (forall p :: p in done && IsDecisionPath(p) ==> FileNumber(p) in stems && DecisionPath(stems[FileNumber(p)]) == p)
    && (forall n :: n in stems ==> exists p :: p in done && IsDecisionPath(p) && FileNumber(p) == n)
    && (forall d :: d in decisions <==> exists p :: p in done && IsDecisionPath(p) && d == DecisionAt(g, p))
  }

  lemma {:induction false} ScanSkip(g: Generation, done: set<string>, decisions: set<Decision>, stems: map<nat, string>, path: string)
    requires Scanned(g, done, decisions, stems) && path in g.artifacts && !IsDecisionPath(path)
    ensures Scanned(g, done + {path}, decisions, stems)
  {
    hide IsDecisionPath, FileNumber, DecisionPath;
  }

  lemma {:induction false} ScanAdd(g: Generation, done: set<string>, decisions: set<Decision>, stems: map<nat, string>, path: string)
    requires Scanned(g, done, decisions, stems) && path in g.artifacts && IsDecisionPath(path)
    requires GoodFile(g, path) && FileNumber(path) !in stems && DecisionPath(StemOf(path)) == path
    ensures Scanned(g, done + {path}, decisions + {DecisionAt(g, path)}, stems[FileNumber(path) := StemOf(path)])
  {
    hide IsDecisionPath, FileNumber, DecisionPath, StemOf;
  }

  // Two files carrying one number make the generation invalid.
  lemma {:induction false} ScanClash(g: Generation, done: set<string>, decisions: set<Decision>, stems: map<nat, string>, path: string)
    requires Scanned(g, done, decisions, stems) && path in g.artifacts && IsDecisionPath(path) && path !in done
    requires FileNumber(path) in stems
    ensures !Valid(g)
  {
    hide IsDecisionPath, FileNumber, DecisionPath;
    var q :| q in done && IsDecisionPath(q) && FileNumber(q) == FileNumber(path);
    assert SameNumber(q, path);
  }

  lemma {:induction false} ScanDone(g: Generation, decisions: set<Decision>, stems: map<nat, string>)
    requires Scanned(g, g.artifacts.Keys, decisions, stems)
    ensures Valid(g)
  {
    hide IsDecisionPath, FileNumber, DecisionPath;
  }

  // Reads every artifact once; refuses a generation that is not valid.
  method ParseCommittedGeneration(g: Generation) returns (ok: bool, decisions: set<Decision>, stems: map<nat, string>)
    requires Admissible(g)
    ensures ok <==> Valid(g)
    ensures ok ==> Scanned(g, g.artifacts.Keys, decisions, stems)
  {
    ok, decisions, stems := true, {}, map[];
    var rest := g.artifacts.Keys;
    ghost var done: set<string> := {};
    while rest != {}
      invariant rest !! done && rest + done == g.artifacts.Keys
      invariant Scanned(g, done, decisions, stems)
      decreases rest
    {
      var path :| path in rest;
      rest := rest - {path};
      if !IsDecisionPath(path) {
        ScanSkip(g, done, decisions, stems, path);
      } else {
        hide Scanned;
        if g.artifacts[path].Other? || FileNumber(path) <= 0 || FileNumber(path) > g.counter {
          assert !GoodFile(g, path);
          return false, {}, map[];
        }
        if FileNumber(path) in stems {
          ScanClash(g, done, decisions, stems, path);
          return false, {}, map[];
        }
        StemOfPath(path);
        ScanAdd(g, done, decisions, stems, path);
        decisions, stems := decisions + {DecisionAt(g, path)}, stems[FileNumber(path) := StemOf(path)];
      }
      done := done + {path};
    }
    ScanDone(g, decisions, stems);
  }

  // ---- the decision that will be written -------------------------------------------

  predicate IsAlnum(c: char) {
    'a' <= c <= 'z' || 'A' <= c <= 'Z' || '0' <= c <= '9'
  }

  // Letters and digits, with each other run collapsed to one dash.
  function SlugChars(s: string, prevDash: bool): string {
    if s == [] then []
    else if IsAlnum(s[0]) then [s[0]] + SlugChars(s[1..], false)
    else if prevDash then SlugChars(s[1..], true)
    else "-" + SlugChars(s[1..], true)
  }

  function StripDashes(s: string): string
    decreases |s|
  {
    if s != [] && s[0] == '-' then StripDashes(s[1..])
    else if s != [] && s[|s| - 1] == '-' then StripDashes(s[..|s| - 1])
    else s
  }

  // Everything before the last dash, or the whole text when there is none.
  function BeforeLastDash(s: string): string {
    if '-' !in s then s
    else if s[|s| - 1] == '-' then s[..|s| - 1]
    else BeforeLastDash(s[..|s| - 1])
  }

  function Slugify(title: string): string {
    var slug := StripDashes(SlugChars(Lower(title), false));
    if |slug| <= SLUG_MAX_LENGTH then slug
    else
      var truncated := slug[..SLUG_MAX_LENGTH];
      var trimmed := BeforeLastDash(truncated);
      if |trimmed| >= SLUG_MAX_LENGTH / 2 then trimmed else truncated
  }

  // One dated rationale version is appended; the title stays.
  function AppendUpdate(doc: Doc, rationale: string, date: string): Doc {
    doc.(version := doc.version + 1,
         rationale := Strip(doc.rationale) + "\n\n*Update (v" + Numeral(doc.version + 1) + ") \U{2014} "
                      + date + ":* " + Strip(rationale))
  }

  function NewDoc(payload: Payload, supersedes: Option<nat>): Doc {
    Doc(payload.title.GetOr(""), payload.rationale, 1, true, supersedes, None, payload.meta)
  }

  function MarkSuperseded(doc: Doc, replacement: nat): Doc {
    doc.(active := false, supersededBy := Some(replacement))
  }

  // ---- preparation ---------------------------------------------------------------

  predicate PayloadOk(p: Payload) {
    if p.op.Add? then p.affected.None? else p.affected.Some? && p.affected.value != ""
  }

  predicate Screened(p: Payload, env: Env) {
    && env.accepted
    && |Strip(p.rationale)| >= MIN_RATIONALE_LENGTH
    && (if p.op.Update? then p.title.Some? ==> Strip(p.title.value) == ""
        else p.title.Some? && Strip(p.title.value) != "")
  }

  const NO_DECISION := Decision(0, Doc("", "", 0, false, None, None, ""))

  // The file named by an update or supersede.
  function TargetPath(p: Payload): string {
    DecisionPath(p.affected.GetOr(""))
  }

  predicate HasTarget(g: Generation, p: Payload) {
    p.affected.Some? && TargetPath(p) in g.artifacts && g.artifacts[TargetPath(p)].DecisionFile?
  }

  // The decision named by an update or supersede.
  function TargetOf(g: Generation, p: Payload): Decision {
    PathOfStem(p.affected.GetOr(""));
    if HasTarget(g, p) then DecisionAt(g, TargetPath(p)) else NO_DECISION
  }

  // The decision written first: a new one, or the updated target.
  function Primary(g: Generation, p: Payload, env: Env): Decision {
    match p.op
    case Update => Decision(TargetOf(g, p).num, AppendUpdate(TargetOf(g, p).doc, p.rationale, env.date))
    case Add => Decision(g.counter + 1, NewDoc(p, None))
    case Supersede => Decision(g.counter + 1, NewDoc(p, Some(TargetOf(g, p).num)))
  }

  function PrimaryStem(g: Generation, p: Payload): string {
    if p.op.Update? then p.affected.GetOr("")
    else DecisionNumberPrefix(g.counter + 1) + Slugify(p.title.GetOr(""))
  }

  function PrimaryPath(g: Generation, p: Payload): string {
    DecisionPath(PrimaryStem(g, p))
  }

  // The payload can be planned against the generation.
  ghost predicate Plannable(g: Generation, p: Payload, env: Env) {
    && PayloadOk(p) && p.baseId == g.id && p.baseCounter == g.counter && Valid(g)
    && (!p.op.Add? ==> HasTarget(g, p))
    && Screened(p, env)
    && TitleOf(Primary(g, p, env)) != ""
    && (!p.op.Add? ==> TitleOf(TargetOf(g, p)) != "")
  }

  // The first check that fails, in the order they are made.
  ghost function FirstFailure(g: Generation, p: Payload, env: Env): PrepareError {
    if !PayloadOk(p) then PayloadRejected
    else if p.baseId != g.id || p.baseCounter != g.counter then BaseStale
    else if !Valid(g) then Corrupt
    else if !p.op.Add? && !HasTarget(g, p) then TargetNotFound
    else if !Screened(p, env) then ProposalRejected
    else InvalidClaim
  }

  // The next generation's artifacts: the primary decision written, the superseded target
  // flipped, the questions rewritten when the payload resolves some.
  function PlannedArtifacts(g: Generation, p: Payload, env: Env): map<string, Content> {
    var primary := Primary(g, p, env);
    var m1 := g.artifacts[PrimaryPath(g, p) := DecisionFile(primary.doc)];
    var m2 := if p.op.Supersede?
              then m1[TargetPath(p) := DecisionFile(MarkSuperseded(TargetOf(g, p).doc, g.counter + 1))]
              else m1;
    if p.resolves == [] then m2
    else m2[QUESTIONS_PATH := Other(env.questions)]
  }

  function NewNumber(g: Generation, p: Payload): Option<nat> {
    if p.op.Update? then None else Some(g.counter + 1)
  }

  function NewCounter(g: Generation, p: Payload): nat {
    if p.op.Update? then g.counter else g.counter + 1
  }

  function Touched(g: Generation, p: Payload): seq<string> {
    [PrimaryStem(g, p)] + (if p.op.Supersede? then [p.affected.GetOr("")] else [])
  }

  function PreparedFor(g: Generation, p: Payload, env: Env): Prepared {
    Prepared(
      p, g.id, g.counter, NewNumber(g, p), NewCounter(g, p), PlannedArtifacts(g, p, env), PrimaryStem(g, p),
      Touched(g, p), BuildClaimContract(p.op, TargetOf(g, p), Primary(g, p, env)))
  }

  // Fills the planned dictionary step by step.
  method BuildArtifacts(g: Generation, p: Payload, env: Env, target: Decision)
    returns (planned: map<string, Content>, stem: string, touched: seq<string>, newNumber: Option<nat>, newCounter: nat, primary: Decision)
    requires Plannable(g, p, env) && target == TargetOf(g, p)
    ensures planned == PlannedArtifacts(g, p, env) && stem == PrimaryStem(g, p) && primary == Primary(g, p, env)
    ensures touched == Touched(g, p) && newNumber == NewNumber(g, p) && newCounter == NewCounter(g, p)
  {
    hide Valid, TitleOf, Slugify, DecisionPath, DecisionNumberPrefix, Strip, FileNumber, HasTarget, TargetOf;
    newNumber := if p.op.Update? then None else Some(g.counter + 1);
    newCounter := g.counter + if newNumber.Some? then 1 else 0;
    planned := g.artifacts;
    if p.op.Update? {
      primary := Decision(target.num, AppendUpdate(target.doc, p.rationale, env.date));
      stem := p.affected.value;
      planned := planned[DecisionPath(stem) := DecisionFile(primary.doc)];
      touched := [stem];
    } else {
      primary := Decision(newNumber.value, NewDoc(p, None));
      if p.op.Supersede? {
        primary := primary.(doc := primary.doc.(supersedes := Some(target.num)));
      }
      stem := DecisionNumberPrefix(newNumber.value) + Slugify(p.title.value);
      planned := planned[DecisionPath(stem) := DecisionFile(primary.doc)];
      touched := [stem];
      if p.op.Supersede? {
        planned := planned[DecisionPath(p.affected.value) := DecisionFile(MarkSuperseded(target.doc, newNumber.value))];
        touched := touched + [p.affected.value];
      }
    }
    if p.resolves != [] {
      planned := planned[QUESTIONS_PATH := Other(env.questions)];
    }
  }

  lemma {:induction false} ListedDecision(g: Generation, decisions: set<Decision>, stems: map<nat, string>, d: Decision)
    requires Valid(g) && Scanned(g, g.artifacts.Keys, decisions, stems) && d in decisions
    ensures d.num in stems
    ensures var path := DecisionPath(stems[d.num]);
      path in g.artifacts && IsDecisionPath(path) && GoodFile(g, path) && DecisionAt(g, path) == d
  {
    hide FileNumber, DecisionPath, IsDecisionPath;
    var q :| q in g.artifacts.Keys && IsDecisionPath(q) && d == DecisionAt(g, q);
  }

  lemma {:induction false} ListsTarget(g: Generation, decisions: set<Decision>, stems: map<nat, string>, stem: string)
    requires Valid(g) && Scanned(g, g.artifacts.Keys, decisions, stems) && DecisionPath(stem) in g.artifacts
    ensures IsDecisionPath(DecisionPath(stem)) && GoodFile(g, DecisionPath(stem))
    ensures exists d :: d in decisions && d.num in stems && stems[d.num] == stem
  {
    PathOfStem(stem);
    var path := DecisionPath(stem);
    assert GoodFile(g, path);
    var n := FileNumber(path);
    PathOfStem(stems[n]);
    hide FileNumber, DecisionPath, Valid;
    assert DecisionAt(g, path) in decisions;
  }

  // The decision whose stem is named, looked up among the parsed ones.
  method FindTarget(g: Generation, decisions: set<Decision>, stems: map<nat, string>, p: Payload)
    returns (target: Option<Decision>)
    requires Valid(g) && Scanned(g, g.artifacts.Keys, decisions, stems) && p.affected.Some?
    ensures target == if HasTarget(g, p) then Some(TargetOf(g, p)) else None
  {
    hide Valid, Scanned, DecisionPath, FileNumber, IsDecisionPath;
    var rest := decisions;
    while rest != {}
      invariant rest <= decisions
      invariant forall d :: d in decisions - rest ==> d.num in stems && stems[d.num] != p.affected.value
      decreases rest
    {
      var d :| d in rest;
      rest := rest - {d};
      ListedDecision(g, decisions, stems, d);
      if stems[d.num] == p.affected.value { return Some(d); }
    }
    if DecisionPath(p.affected.value) in g.artifacts {
      ListsTarget(g, decisions, stems, p.affected.value);
    }
    target := None;
  }

  lemma {:induction false} NoTarget(g: Generation, p: Payload)
    ensures p.affected.None? ==> TargetOf(g, p) == NO_DECISION
  {}

  method PrepareJudgmentCommit(p: Payload, g: Generation, env: Env) returns (r: PrepareResult)
    requires Admissible(g)
    ensures r.Ready? <==> Plannable(g, p, env)
    ensures r.Ready? ==> r.value == PreparedFor(g, p, env)
    ensures r.Refused? ==> r.error == FirstFailure(g, p, env)
  {
    if !PayloadOk(p) { return Refused(PayloadRejected); }
    if p.baseId != g.id || p.baseCounter != g.counter { return Refused(BaseStale); }
    var ok, decisions, stems := ParseCommittedGeneration(g);
    if !ok { return Refused(Corrupt); }
    var target := NO_DECISION;
    if !p.op.Add? {
      var found := FindTarget(g, decisions, stems, p);
      if found.None? { return Refused(TargetNotFound); }
      target := found.value;
    }
    hide Valid, Scanned, TargetOf, HasTarget;
    if !Screened(p, env) { return Refused(ProposalRejected); }
    assert target == TargetOf(g, p) by { NoTarget(g, p); }
    if TitleOf(Primary(g, p, env)) == "" || (!p.op.Add? && TitleOf(target) == "") { return Refused(InvalidClaim); }
    var planned, stem, touched, newNumber, newCounter, primary := BuildArtifacts(g, p, env, target);
    var contract := BuildClaimContract(p.op, target, primary);
    r := Ready(Prepared(p, g.id, g.counter, newNumber, newCounter, planned, stem, touched, contract));
  }
}
