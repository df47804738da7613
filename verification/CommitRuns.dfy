// What one plan keeps: it is a valid next generation and passes its own cross-check.
module CommitRuns {
  import opened Common
  import opened Decimal
  import opened Identifiers
  import opened Text
  import opened Claims
  import opened Commit

  // ---- one plan ------------------------------------------------------------------

  lemma {:induction false} PathsApart(stem: string)
    ensures DecisionPath(stem) != QUESTIONS_PATH && !IsDecisionPath(QUESTIONS_PATH)
  {
    assert DecisionPath(stem)[0] == 'd' && QUESTIONS_PATH[0] == 'o';
  }

  lemma {:induction false} NumberWithin(g: Generation, path: string)
    requires Valid(g) && path in g.artifacts && IsDecisionPath(path)
    ensures 0 < FileNumber(path) <= g.counter && g.artifacts[path].DecisionFile?
  {
    hide FileNumber, IsDecisionPath;
    assert GoodFile(g, path);
  }

  lemma {:induction false} TargetFacts(g: Generation, p: Payload)
    requires Valid(g) && HasTarget(g, p)
    ensures IsDecisionPath(TargetPath(p)) && TargetOf(g, p) == DecisionAt(g, TargetPath(p))
    ensures 0 < TargetOf(g, p).num <= g.counter
  {
    hide Valid, DecisionPath, FileNumber, IsDecisionPath;
    PathOfStem(p.affected.value);
    NumberWithin(g, TargetPath(p));
  }

  // A written file carries its decision's number: one past the counter when it is new.
  lemma {:induction false} PrimaryNumber(g: Generation, p: Payload, env: Env)
    requires Valid(g) && (!p.op.Add? ==> HasTarget(g, p))
    ensures IsDecisionPath(PrimaryPath(g, p)) && EndsWith(Filename(PrimaryPath(g, p)), ".md")
    ensures FileNumber(PrimaryPath(g, p)) == Primary(g, p, env).num
    ensures !p.op.Update? ==> Primary(g, p, env).num == g.counter + 1 && PrimaryPath(g, p) !in g.artifacts
    ensures p.op.Update? ==> PrimaryPath(g, p) == TargetPath(p)
  {
    hide Valid, Slugify, EndsWith, ExtractDecisionNumber;
    PathOfStem(PrimaryStem(g, p));
    if p.op.Update? {
      TargetFacts(g, p);
    } else {
      FilenameNumber(g.counter + 1, Slugify(p.title.GetOr("")));
      hide FileNumber, DecisionPath, PrimaryStem;
      if PrimaryPath(g, p) in g.artifacts { NumberWithin(g, PrimaryPath(g, p)); }
    }
  }

  datatype Entry = Entry(path: string, content: Content)

  // Up to three entries written into a dictionary.
  function Written(m: map<string, Content>, a: string, x: Content, b: Option<Entry>, c: Option<Entry>): map<string, Content> {
    var m1 := m[a := x];
    var m2 := if b.Some? then m1[b.value.path := b.value.content] else m1;
    if c.Some? then m2[c.value.path := c.value.content] else m2
  }

  ghost predicate IsWritten(m: map<string, Content>, w: map<string, Content>, a: string, x: Content, b: Option<Entry>, c: Option<Entry>) {
    && (forall k :: k in m ==> k in w)
    && (forall k :: k in w && k != a && (b.Some? ==> k != b.value.path) && (c.Some? ==> k != c.value.path)
          ==> k in m && w[k] == m[k])
    && a in w && w[a] == x
    && (b.Some? ==> b.value.path in w && w[b.value.path] == b.value.content)
    && (c.Some? ==> c.value.path in w && w[c.value.path] == c.value.content)
  }

  lemma {:induction false} WrittenFacts(m: map<string, Content>, a: string, x: Content, b: Option<Entry>, c: Option<Entry>)
    requires b.Some? ==> b.value.path != a
    requires c.Some? ==> c.value.path != a && (b.Some? ==> c.value.path != b.value.path)
    ensures IsWritten(m, Written(m, a, x, b, c), a, x, b, c)
  {}

  // The superseded target's new file, if any.
  function FlippedTarget(g: Generation, p: Payload): Option<Entry> {
    if p.op.Supersede?
    then Some(Entry(TargetPath(p), DecisionFile(MarkSuperseded(TargetOf(g, p).doc, g.counter + 1))))
    else None
  }

  function RewrittenQuestions(p: Payload, env: Env): Option<Entry> {
    if p.resolves == [] then None else Some(Entry(QUESTIONS_PATH, Other(env.questions)))
  }

  // The plan writes the primary decision, the superseded target and the questions, and
  // leaves every other artifact identical.
  lemma {:induction false} PlanTouches(g: Generation, p: Payload, env: Env)
    requires Valid(g) && (!p.op.Add? ==> HasTarget(g, p))
    ensures IsWritten(g.artifacts, PlannedArtifacts(g, p, env), PrimaryPath(g, p),
      DecisionFile(Primary(g, p, env).doc), FlippedTarget(g, p), RewrittenQuestions(p, env))
    ensures p.op.Supersede? ==> TargetPath(p) != PrimaryPath(g, p)
  {
    PrimaryNumber(g, p, env);
    PathsApart(PrimaryStem(g, p));
    PathsApart(p.affected.GetOr(""));
    hide Valid, FileNumber, DecisionPath, PrimaryStem, Primary, TargetOf;
    WrittenFacts(g.artifacts, PrimaryPath(g, p), DecisionFile(Primary(g, p, env).doc),
                 FlippedTarget(g, p), RewrittenQuestions(p, env));
    hide IsWritten;
  }

  function Next(p: Prepared, id: nat): Generation {
    Generation(id, p.newCounter, p.planned)
  }

  lemma {:induction false} NextIsValid(g: Generation, g': Generation, a: string, x: Content, b: Option<Entry>, c: Option<Entry>)
    requires Valid(g) && Admissible(g) && g'.counter >= g.counter
    requires IsWritten(g.artifacts, g'.artifacts, a, x, b, c)
    requires IsDecisionPath(a) && EndsWith(Filename(a), ".md") && x.DecisionFile? && 0 < FileNumber(a) <= g'.counter
    requires a in g.artifacts || FileNumber(a) > g.counter
    requires b.Some? ==> b.value.path in g.artifacts && b.value.content.DecisionFile?
    requires c.Some? ==> !IsDecisionPath(c.value.path)
    ensures Valid(g') && Admissible(g')
  {
    hide IsDecisionPath, Filename, EndsWith, FileNumber;
    forall k | k in g'.artifacts && IsDecisionPath(k) && k != a ensures k in g.artifacts && GoodFile(g', k) {
      assert k in g.artifacts;
      assert GoodFile(g, k);
    }
    forall x, y | x in g'.artifacts && y in g'.artifacts && SameNumber(x, y) ensures x == y {
      if x in g.artifacts { NumberWithin(g, x); }
      if y in g.artifacts { NumberWithin(g, y); }
    }
  }

  // From a valid generation every plan is again a valid generation, under the new counter;
  // a new decision takes the next number and a file that did not exist.
  lemma {:induction false} PlanIsValid(g: Generation, p: Payload, env: Env, id: nat)
    requires Admissible(g) && Valid(g) && (!p.op.Add? ==> HasTarget(g, p))
    ensures Valid(Next(PreparedFor(g, p, env), id)) && Admissible(Next(PreparedFor(g, p, env), id))
    ensures !p.op.Update? ==> Primary(g, p, env).num == g.counter + 1 && PrimaryPath(g, p) !in g.artifacts
  {
    PlanTouches(g, p, env);
    PrimaryNumber(g, p, env);
    PathsApart("");
    if !p.op.Add? { TargetFacts(g, p); }
    var g' := Next(PreparedFor(g, p, env), id);
    assert p.op.Update? ==> PrimaryPath(g, p) in g.artifacts && Primary(g, p, env).num <= g.counter;
    hide Valid, Admissible, FileNumber, DecisionPath, PrimaryStem, Primary, PrimaryPath, TargetOf, Filename,
      IsDecisionPath, IsWritten, EndsWith, PlannedArtifacts;
    NextIsValid(g, g', PrimaryPath(g, p), DecisionFile(Primary(g, p, env).doc), FlippedTarget(g, p), RewrittenQuestions(p, env));
  }

  // ---- the prepared value's self-check ---------------------------------------------

  function ParsedAt(planned: map<string, Content>, path: string): Decision {
    if path in planned && planned[path].DecisionFile? && IsDecisionPath(path)
    then Decision(FileNumber(path), planned[path].doc) else NO_DECISION
  }

  function ParsedTarget(prep: Prepared): Decision {
    if prep.payload.affected.Some? then ParsedAt(prep.planned, TargetPath(prep.payload)) else NO_DECISION
  }

  // What a prepared value verifies about itself when it is constructed: everything derives
  // again from the planned artifacts.
  ghost predicate CrossValidates(prep: Prepared) {
    var p := prep.payload;
    var path := DecisionPath(prep.primaryStem);
    var expected := prep.baseCounter + if p.op.Update? then 0 else 1;
    && p.baseId == prep.baseId && p.baseCounter == prep.baseCounter
    && path in prep.planned && prep.planned[path].DecisionFile?
    && (p.affected.Some? ==> TargetPath(p) in prep.planned && prep.planned[TargetPath(p)].DecisionFile?)
    && prep.contract == BuildClaimContract(p.op, ParsedTarget(prep), ParsedAt(prep.planned, path))
    && prep.newCounter == expected
    && prep.newNumber == (if p.op.Update? then None else Some(expected))
    && prep.touched == [prep.primaryStem] + (if p.op.Supersede? then [p.affected.GetOr("")] else [])
  }

  // The contract looks at a target's number and title only.
  lemma {:induction false} ContractReads(op: Op, t: Decision, t': Decision, primary: Decision)
    requires t.num == t'.num && TitleOf(t) == TitleOf(t')
    ensures BuildClaimContract(op, t, primary) == BuildClaimContract(op, t', primary)
  {
    hide TitleOf, HashOf;
  }

  lemma {:induction false} PrimaryBack(g: Generation, p: Payload, env: Env)
    requires Valid(g) && (!p.op.Add? ==> HasTarget(g, p))
    ensures PrimaryPath(g, p) in PlannedArtifacts(g, p, env)
    ensures PlannedArtifacts(g, p, env)[PrimaryPath(g, p)] == DecisionFile(Primary(g, p, env).doc)
    ensures ParsedAt(PlannedArtifacts(g, p, env), PrimaryPath(g, p)) == Primary(g, p, env)
  {
    PlanTouches(g, p, env);
    PrimaryNumber(g, p, env);
    hide Valid, FileNumber, PrimaryPath, HasTarget, Primary, IsDecisionPath, PlannedArtifacts, FlippedTarget, RewrittenQuestions;
  }

  lemma {:induction false} FlippedBack(g: Generation, p: Payload, env: Env)
    requires Valid(g) && HasTarget(g, p) && p.op.Supersede?
    ensures TargetPath(p) in PlannedArtifacts(g, p, env)
    ensures PlannedArtifacts(g, p, env)[TargetPath(p)] == DecisionFile(MarkSuperseded(TargetOf(g, p).doc, g.counter + 1))
  {
    hide Valid, HasTarget, PlannedArtifacts, TargetPath, TargetOf, PrimaryPath, Primary, RewrittenQuestions, MarkSuperseded;
    PlanTouches(g, p, env);
  }

  lemma {:induction false} KeepsTitle(doc: Doc, rationale: string, date: string)
    ensures AppendUpdate(doc, rationale, date).title == doc.title
  {}

  // The target's planned file: the update itself, or the superseded form.
  lemma {:induction false} TargetBack(g: Generation, p: Payload, env: Env)
    requires Valid(g) && HasTarget(g, p) && !p.op.Add?
    ensures TargetPath(p) in PlannedArtifacts(g, p, env) && PlannedArtifacts(g, p, env)[TargetPath(p)].DecisionFile?
    ensures var t := ParsedAt(PlannedArtifacts(g, p, env), TargetPath(p));
      t.num == TargetOf(g, p).num && TitleOf(t) == TitleOf(TargetOf(g, p))
  {
    hide NormalizeTitle, DecisionPath, ExtractDecisionNumber;
    TargetFacts(g, p);
    KeepsTitle(TargetOf(g, p).doc, p.rationale, env.date);
    if p.op.Update? {
      PrimaryBack(g, p, env);
      PrimaryNumber(g, p, env);
      hide Valid, FileNumber, PrimaryPath, TargetPath, HasTarget, IsDecisionPath, PlannedArtifacts, AppendUpdate, ParsedAt, TargetOf;
      assert ParsedAt(PlannedArtifacts(g, p, env), TargetPath(p)) == Primary(g, p, env);
      assert Primary(g, p, env).doc.title == TargetOf(g, p).doc.title;
    } else {
      FlippedBack(g, p, env);
      hide Valid, FileNumber, PrimaryPath, TargetPath, HasTarget, IsDecisionPath, PlannedArtifacts, RewrittenQuestions, Primary, TargetOf;
    }
  }

  // Every value the planner builds, for all three operations, passes its self-check.
  lemma {:induction false} PreparedCrossValidates(g: Generation, p: Payload, env: Env)
    requires Plannable(g, p, env)
    ensures CrossValidates(PreparedFor(g, p, env))
  {
    hide Valid, TitleOf, Screened, HasTarget, PlannedArtifacts, DecisionPath, PrimaryStem, Primary, TargetOf, BuildClaimContract;
    PrimaryBack(g, p, env);
    if p.op.Add? { assert p.affected.None?; } else { TargetBack(g, p, env); }
    NoTarget(g, p);
    ContractReads(p.op, ParsedTarget(PreparedFor(g, p, env)), TargetOf(g, p), Primary(g, p, env));
    hide ParsedAt, ParsedTarget;
  }

  // ---- what the planned files hold ---------------------------------------------------

  // The decision at a path, before or after.
  ghost predicate Holds(m: map<string, Content>, path: string, doc: Doc) {
    path in m && m[path] == DecisionFile(doc)
  }

  lemma {:induction false} PrimaryFields(g: Generation, p: Payload, env: Env)
    requires !p.op.Update?
    ensures var doc := Primary(g, p, env).doc;
      && doc.title == p.title.GetOr("") && doc.rationale == p.rationale && doc.meta == p.meta
      && doc.version == 1 && doc.active && doc.supersededBy == None
      && doc.supersedes == if p.op.Supersede? then Some(TargetOf(g, p).num) else None
  {
    hide TargetOf;
  }

  lemma {:induction false} TargetNumber(g: Generation, p: Payload)
    requires Valid(g) && HasTarget(g, p)
    ensures TargetPath(p) in g.artifacts && IsDecisionPath(TargetPath(p)) && TargetOf(g, p).num == FileNumber(TargetPath(p))
  {
    TargetFacts(g, p);
    hide Valid, FileNumber, IsDecisionPath, TargetPath;
  }

  // A new decision is written to a file that did not exist, under the next number: it is the
  // payload's, in its first version and active.
  lemma {:induction false} NewDecisionWritten(g: Generation, p: Payload, env: Env) returns (doc: Doc)
    requires Valid(g) && !p.op.Update? && (p.op.Supersede? ==> HasTarget(g, p))
    ensures var prep := PreparedFor(g, p, env); var path := DecisionPath(prep.primaryStem);
      && Holds(prep.planned, path, doc) && path !in g.artifacts && IsDecisionPath(path)
      && FileNumber(path) == g.counter + 1 && prep.newNumber == Some(g.counter + 1) && prep.newCounter == g.counter + 1
    ensures doc.title == p.title.GetOr("") && doc.rationale == p.rationale && doc.meta == p.meta
    ensures doc.version == 1 && doc.active && doc.supersededBy == None
    ensures p.op.Add? ==> doc.supersedes == None
    ensures p.op.Supersede? ==>
      TargetPath(p) in g.artifacts && IsDecisionPath(TargetPath(p)) && doc.supersedes == Some(FileNumber(TargetPath(p)))
  {
    hide Valid, FileNumber, DecisionPath, IsDecisionPath, PlannedArtifacts, EndsWith, Filename, PrimaryStem, TargetOf,
      HasTarget, TargetPath, Primary, BuildClaimContract, Touched;
    doc := Primary(g, p, env).doc;
    PrimaryBack(g, p, env);
    PrimaryNumber(g, p, env);
    PrimaryFields(g, p, env);
    if p.op.Supersede? { TargetNumber(g, p); }
  }

  // After a supersede the old file names the new number and is inactive; its title,
  // rationale, version, forward reference and everything else stay.
  lemma {:induction false} SupersededWritten(g: Generation, p: Payload, env: Env) returns (was: Doc, doc: Doc)
    requires Valid(g) && HasTarget(g, p) && p.op.Supersede?
    ensures Holds(g.artifacts, TargetPath(p), was) && Holds(PreparedFor(g, p, env).planned, TargetPath(p), doc)
    ensures !doc.active && doc.supersededBy == Some(g.counter + 1)
    ensures doc.title == was.title && doc.rationale == was.rationale && doc.version == was.version
    ensures doc.supersedes == was.supersedes && doc.meta == was.meta
  {
    TargetFacts(g, p);
    FlippedBack(g, p, env);
    was, doc := TargetOf(g, p).doc, MarkSuperseded(TargetOf(g, p).doc, g.counter + 1);
    hide Valid, FileNumber, TargetPath, IsDecisionPath, PlannedArtifacts;
  }

  // The label that stands between the old rationale and the addition.
  function UpdateLabel(version: nat, date: string): (b: string)
    ensures |b| > 2 && b[..2] == "\n\n" && b[2] == '*'
  {
    "\n\n*Update (v" + Numeral(version) + ") \U{2014} " + date + ":* "
  }

  lemma {:induction false} AppendedParts(doc: Doc, rationale: string, date: string)
    ensures AppendUpdate(doc, rationale, date).rationale
      == Strip(doc.rationale) + UpdateLabel(doc.version + 1, date) + Strip(rationale)
  {
    hide Strip, Numeral;
  }

  lemma {:induction false} StrippedEnds(s: string)
    ensures Strip(s) != [] ==> !IsSpace(Strip(s)[0]) && !IsSpace(Strip(s)[|Strip(s)| - 1])
  {
    var a, b := StripSplits(s);
  }

  // A stripped text with a label and another stripped text appended outgrows the first.
  lemma {:induction false} Outgrows(a: string, b: string, c: string)
    requires |b| > 2 && b[..2] == "\n\n" && b[2] == '*'
    requires a != [] ==> !IsSpace(a[0])
    requires c != [] && !IsSpace(c[|c| - 1])
    ensures |Strip(a + b + c)| > |a|
  {
    hide Strip;
    var r := a + b + c;
    assert r[|r| - 1] == c[|c| - 1];
    if a != [] {
      assert r[0] == a[0];
      Stripped(r);
    } else {
      var tail := b[2..] + c;
      assert tail[0] == '*' && tail[|tail| - 1] == c[|c| - 1];
      assert r == "\n\n" + tail + "";
      StripExactly(r, "\n\n", tail, "");
    }
  }

  lemma {:induction false} Framed(a: string, b: string, c: string)
    ensures StartsWith(a + b + c, a) && EndsWith(a + b + c, c)
  {
    var r := a + b + c;
    assert r[..|a|] == a && r[|r| - |c|..] == c;
  }

  lemma {:induction false} AppendedText(doc: Doc, rationale: string, date: string)
    ensures var r := AppendUpdate(doc, rationale, date).rationale;
      && StartsWith(r, Strip(doc.rationale)) && EndsWith(r, Strip(rationale))
      && |r| > |Strip(doc.rationale)| + |Strip(rationale)|
      && (Strip(rationale) != [] ==> |Strip(r)| > |Strip(doc.rationale)|)
  {
    AppendedParts(doc, rationale, date);
    StrippedEnds(doc.rationale);
    StrippedEnds(rationale);
    var a, b, c := Strip(doc.rationale), UpdateLabel(doc.version + 1, date), Strip(rationale);
    hide *;
    Framed(a, b, c);
    if c != [] { Outgrows(a, b, c); }
  }

  // After an update the same file holds the next version: the rationale begins with the old
  // one and ends with the addition, both stripped; everything else stays.
  lemma {:induction false} UpdateWritten(g: Generation, p: Payload, env: Env) returns (was: Doc, doc: Doc)
    requires Valid(g) && HasTarget(g, p) && p.op.Update?
    ensures Holds(g.artifacts, TargetPath(p), was) && Holds(PreparedFor(g, p, env).planned, TargetPath(p), doc)
    ensures PreparedFor(g, p, env).newNumber == None && PreparedFor(g, p, env).newCounter == g.counter
    ensures doc.version == was.version + 1
    ensures StartsWith(doc.rationale, Strip(was.rationale)) && EndsWith(doc.rationale, Strip(p.rationale))
    ensures |doc.rationale| > |Strip(was.rationale)| + |Strip(p.rationale)|
    ensures doc.title == was.title && doc.active == was.active && doc.meta == was.meta
    ensures doc.supersedes == was.supersedes && doc.supersededBy == was.supersededBy
  {
    TargetFacts(g, p);
    PrimaryBack(g, p, env);
    PrimaryNumber(g, p, env);
    was, doc := TargetOf(g, p).doc, Primary(g, p, env).doc;
    AppendedText(was, p.rationale, env.date);
    hide Valid, FileNumber, IsDecisionPath, PlannedArtifacts, EndsWith, StartsWith, Strip, Filename, PrimaryPath, TargetPath, Numeral;
  }

  // Nothing else is written: every other path holds what it held, and no path goes.
  lemma {:induction false} OthersKept(g: Generation, p: Payload, env: Env, path: string)
    requires Valid(g) && (!p.op.Add? ==> HasTarget(g, p))
    requires path != DecisionPath(PreparedFor(g, p, env).primaryStem)
    requires p.op.Supersede? ==> path != DecisionPath(p.affected.value)
    requires p.resolves != [] ==> path != "open-questions.md"
    ensures path in PreparedFor(g, p, env).planned <==> path in g.artifacts
    ensures path in g.artifacts ==> PreparedFor(g, p, env).planned[path] == g.artifacts[path]
  {
    PlanTouches(g, p, env);
    hide Valid, DecisionPath, PlannedArtifacts, Primary, TargetOf, PrimaryStem;
  }

  // ---- which payloads are planned ---------------------------------------------------------

  lemma {:induction false} LowerBlank(s: string)
    ensures IsBlank(Lower(s)) <==> IsBlank(s)
  {
    forall i | 0 <= i < |s| ensures IsSpace(Lower(s)[i]) <==> IsSpace(s[i]) {}
  }

  lemma {:induction false} BlankNormal(s: string)
    requires SingleSpaced(s)
    ensures IsBlank(s) <==> s == ""
  {
    assert s != "" ==> !IsSpace(s[0]);
  }

  // A title has an empty normal form iff it is blank.
  lemma {:induction false} BlankTitle(title: string)
    ensures NormalizeTitle(title) == "" <==> IsBlank(title)
  {
    LowerBlank(title);
    NoWords(Lower(title));
    NormalShape(title);
    NoWords(NormalizeTitle(title));
    hide NormalizeTitle, Words, Lower;
    if IsBlank(title) { assert Words(NormalizeTitle(title)) == []; }
    BlankNormal(NormalizeTitle(title));
  }

  lemma {:induction false} BlankStrip(s: string)
    ensures Strip(s) == "" <==> IsBlank(s)
  {
    var a, b := StripSplits(s);
    var t := Strip(s);
    hide Strip, IsSpace;
    if t == "" {
      assert forall i :: 0 <= i < |s| ==> s[i] == if i < |a| then a[i] else b[i - |a|];
    } else {
      assert s[|a|] == t[0];
    }
  }

  lemma {:induction false} TargetNamed(g: Generation, p: Payload)
    ensures p.affected.Some? ==> TargetPath(p) == "decisions/" + p.affected.value + ".md"
    ensures HasTarget(g, p) ==> TargetOf(g, p).doc == g.artifacts[TargetPath(p)].doc
  {
    if p.affected.Some? {
      assert "decisions/" + (p.affected.value + ".md") == "decisions/" + p.affected.value + ".md";
      PathOfStem(p.affected.value);
    }
    hide FileNumber;
  }

  lemma {:induction false} PrimaryTitle(g: Generation, p: Payload, env: Env)
    ensures Primary(g, p, env).doc.title == if p.op.Update? then TargetOf(g, p).doc.title else p.title.GetOr("")
  {
    hide TargetOf, Strip;
  }

  // A payload is planned iff it is against this very generation, which is valid; an add
  // names no decision and an update or supersede names a file of the generation whose title
  // is not blank; the rationale has twenty characters; an update brings no title, the others
  // do; and the checks outside the model pass.
  lemma {:induction false} PlannableIff(g: Generation, p: Payload, env: Env)
    ensures Plannable(g, p, env) <==>
      && p.baseId == g.id && p.baseCounter == g.counter && Valid(g)
      && (p.op.Add? ==> p.affected == None)
      && (!p.op.Add? ==>
            && p.affected.Some? && p.affected.value != ""
            && (var path := "decisions/" + p.affected.value + ".md";
                path in g.artifacts && g.artifacts[path].DecisionFile? && !IsBlank(g.artifacts[path].doc.title)))
      && env.accepted && |Strip(p.rationale)| >= 20
      && (p.op.Update? ==> p.title == None || IsBlank(p.title.value))
      && (!p.op.Update? ==> p.title.Some? && !IsBlank(p.title.value))
  {
    if p.title.Some? {
      BlankStrip(p.title.value);
      BlankTitle(p.title.value);
    }
    if HasTarget(g, p) { BlankTitle(TargetOf(g, p).doc.title); }
    TargetNamed(g, p);
    PrimaryTitle(g, p, env);
    hide Valid, NormalizeTitle, Strip, IsBlank, TargetOf, Primary, TargetPath;
  }
}
