// The claim ledger over runs of commits. Commits are prepared against the committed
// generation, observe the ledger, reserve their claims, and publish; the store publishes a
// commit only over the generation it was prepared against. Over every run the ledger names
// exactly the active decisions, though no line of the code checks that.
module Ledger {
  import opened Common
  import opened Identifiers
  import opened Text
  import opened Claims
  import opened Commit
  import opened CommitRuns

  // Committed titles with their owners, committed content hashes, and the claims reserved
  // by commits in flight.
  datatype ClaimLedger = ClaimLedger(titles: map<string, nat>, contents: set<ContentHash>, reserved: set<Key>)

  function ObserveTitle(l: ClaimLedger, t: string): Observation {
    if TitleKey(t) in l.reserved then SawUnavailableTitle(t)
    else if t in l.titles then SawCommittedTitle(t, l.titles[t]) else SawAbsentTitle(t)
  }

  function Observe(l: ClaimLedger, p: Probe): Observation {
    match p
    case AbsentContent(h) =>
      if ContentKey(h) in l.reserved then SawUnavailableContent(h)
      else if h in l.contents then SawCommittedContent(h) else SawAbsentContent(h)
    case AbsentTitle(t) => ObserveTitle(l, t)
    case OwnedTitle(t, _) => ObserveTitle(l, t)
  }

  function PublishIntent(l: ClaimLedger, i: Intent): ClaimLedger {
    match i
    case CommitTitleOwner(t, n) => l.(titles := l.titles[t := n])
    case ReleaseTitleOwner(t, n) => l.(titles := l.titles - {t})
    case TransferTitleOwner(t, _, n) => l.(titles := l.titles[t := n])
    case CommitContent(h) => l.(contents := l.contents + {h})
    case _ => l
  }

  function PublishAll(l: ClaimLedger, intents: seq<Intent>): ClaimLedger
    decreases |intents|
  {
    if intents == [] then l else PublishAll(PublishIntent(l, intents[0]), intents[1..])
  }

  // ---- finalizing against the ledger -------------------------------------------------

  // The committed part of the ledger answers the probe as it hopes.
  predicate Settles(l: ClaimLedger, p: Probe) {
    match p
    case AbsentTitle(t) => t !in l.titles
    case OwnedTitle(t, n) => t in l.titles && l.titles[t] == n
    case AbsentContent(h) => h !in l.contents
  }

  ghost predicate AllSettle(l: ClaimLedger, probes: seq<Probe>) {
    forall p :: p in probes ==> Settles(l, p)
  }

  function Observations(l: ClaimLedger, probes: seq<Probe>): seq<Option<Observation>> {
    seq(|probes|, i requires 0 <= i < |probes| => Some(Observe(l, probes[i])))
  }

  ghost predicate DistinctKeys(probes: seq<Probe>) {
    forall i, j :: 0 <= i < j < |probes| ==> ProbeKey(probes[i]) != ProbeKey(probes[j])
  }

  lemma {:induction false} ContractKeysDistinct(op: Op, target: Decision, primary: Decision)
    ensures DistinctKeys(BuildClaimContract(op, target, primary).probes)
  {
    hide TitleOf, HashOf;
  }

  lemma {:induction false} ObservedKeys(l: ClaimLedger, probes: seq<Probe>)
    requires DistinctKeys(probes)
    ensures None !in Observations(l, probes)
    ensures var obs := Values(Observations(l, probes));
      && |obs| == |probes| && !RepeatsKey(obs) && ByKey(obs).Keys == KeysOf(probes)
      && forall i :: 0 <= i < |probes| ==> obs[i] == Observe(l, probes[i]) && ObservationKey(obs[i]) == ProbeKey(probes[i])
  {
    var obs := Values(Observations(l, probes));
    forall i | 0 <= i < |probes| ensures obs[i] == Observe(l, probes[i]) && ObservationKey(obs[i]) == ProbeKey(probes[i]) {
      assert Observations(l, probes)[i] == Some(Observe(l, probes[i]));
    }
    forall k ensures k in ByKey(obs) <==> k in KeysOf(probes) {
      ByKeyIn(obs, k);
      if k in KeysOf(probes) {
        var p :| p in probes && ProbeKey(p) == k;
        var i :| 0 <= i < |probes| && probes[i] == p;
        assert ObservationKey(obs[i]) == k;
      }
      if k in ByKey(obs) {
        var i :| 0 <= i < |obs| && ObservationKey(obs[i]) == k;
        assert probes[i] in probes;
      }
    }
  }

  lemma {:induction false} ObserveSettles(l: ClaimLedger, p: Probe)
    ensures ValidateObservation(p, Observe(l, p)).None? <==> Settles(l, p) && ProbeKey(p) !in l.reserved
  {}

  lemma {:induction false} AllSettleIff(l: ClaimLedger, probes: seq<Probe>)
    ensures AllSettle(l, probes) && KeysOf(probes) !! l.reserved
      <==> forall i :: 0 <= i < |probes| ==> ValidateObservation(probes[i], Observe(l, probes[i])).None?
  {
    hide Settles, ValidateObservation, Observe;
    forall p | p in probes
      ensures ValidateObservation(p, Observe(l, p)).None? <==> Settles(l, p) && ProbeKey(p) !in l.reserved
    {
      ObserveSettles(l, p);
    }
    if forall i :: 0 <= i < |probes| ==> ValidateObservation(probes[i], Observe(l, probes[i])).None? {
      forall k | k in KeysOf(probes) ensures k !in l.reserved {
        var p :| p in probes && ProbeKey(p) == k;
      }
    }
    if AllSettle(l, probes) && KeysOf(probes) !! l.reserved {
      forall i | 0 <= i < |probes| ensures ValidateObservation(probes[i], Observe(l, probes[i])).None? {
        assert probes[i] in probes && ProbeKey(probes[i]) in KeysOf(probes);
      }
    }
  }

  lemma {:induction false} SpecOnLedger(l: ClaimLedger, probes: seq<Probe>)
    requires DistinctKeys(probes)
    ensures None !in Observations(l, probes)
    ensures KeysOf(probes) <= ByKey(Values(Observations(l, probes))).Keys
    ensures FinalizeSpec(probes, Observations(l, probes)).Ok? <==>
      FirstError(probes, Ordered(probes, ByKey(Values(Observations(l, probes))))).None?
  {
    ObservedKeys(l, probes);
  }

  // Finalization with the ledger's own observations, in any order, succeeds exactly when no
  // probed claim is reserved and the committed ledger settles every probe.
  lemma {:induction false} FinalizesIff(l: ClaimLedger, probes: seq<Probe>, raw: seq<Option<Observation>>)
    requires DistinctKeys(probes) && multiset(raw) == multiset(Observations(l, probes))
    ensures FinalizeSpec(probes, raw).Ok? <==> AllSettle(l, probes) && KeysOf(probes) !! l.reserved
  {
    FinalizeOrderIndependent(probes, raw, Observations(l, probes));
    SpecOnLedger(l, probes);
    hide FinalizeSpec, FirstError, AllSettle, ValidateObservation, DistinctKeys, Observe, KeysOf, RepeatsKey;
    ObservedKeys(l, probes);
    var obs := Values(Observations(l, probes));
    var ordered := Ordered(probes, ByKey(obs));
    forall i | 0 <= i < |probes| ensures ordered[i] == Observe(l, probes[i]) {
      assert obs[i] in obs;
      ByKeyHolds(obs, obs[i]);
    }
    NoErrorIff(probes, ordered);
    AllSettleIff(l, probes);
  }

  // ---- the ledger mirrors the active decisions ---------------------------------------

  // The file holds an active decision numbered `n` whose normalized title is `t`.
  ghost predicate OwnsAt(g: Generation, path: string, t: string, n: nat) {
    && path in g.artifacts && IsDecisionPath(path) && g.artifacts[path].DecisionFile?
    && g.artifacts[path].doc.active && FileNumber(path) == n && NormalizeTitle(g.artifacts[path].doc.title) == t
  }

  ghost predicate Owns(g: Generation, t: string, n: nat) {
    exists path :: OwnsAt(g, path, t, n)
  }

  ghost predicate TitlesMirror(g: Generation, titles: map<string, nat>) {
    forall t, n: nat {:trigger Owns(g, t, n)} :: Owns(g, t, n) <==> t in titles && titles[t] == n
  }

  predicate HoldsDecision(g: Generation, path: string)
    requires path in g.artifacts
  {
    IsDecisionPath(path) && g.artifacts[path].DecisionFile?
  }

  function ContentOf(c: Content): ContentHash
    requires c.DecisionFile?
  {
    ComputeHash(c.doc.title, c.doc.rationale)
  }

  ghost predicate ContentsCover(g: Generation, contents: set<ContentHash>) {
    forall path :: path in g.artifacts && HoldsDecision(g, path) ==> ContentOf(g.artifacts[path]) in contents
  }

  // The committed titles are exactly the normalized titles of the active decisions, each
  // owned by its decision's number, and every decision's content is claimed.
  ghost predicate Consistent(g: Generation, l: ClaimLedger) {
    Valid(g) && Admissible(g) && TitlesMirror(g, l.titles) && ContentsCover(g, l.contents)
  }

  // No two active decisions share a title.
  lemma {:induction false} ActiveTitlesUnique(g: Generation, l: ClaimLedger, p: string, q: string, t: string, m: nat, n: nat)
    requires Consistent(g, l) && OwnsAt(g, p, t, m) && OwnsAt(g, q, t, n)
    ensures p == q && m == n
  {
    hide NormalizeTitle, FileNumber, IsDecisionPath;
    assert Owns(g, t, m) && Owns(g, t, n);
    assert SameNumber(p, q);
  }

  // A committed claim on the target's title means the target itself is active.
  lemma {:induction false} ClaimMeansActive(g: Generation, l: ClaimLedger, p: Payload)
    requires Consistent(g, l) && HasTarget(g, p)
    requires Settles(l, OwnedTitle(TitleOf(TargetOf(g, p)), TargetOf(g, p).num))
    ensures TargetOf(g, p).doc.active
  {
    TargetFacts(g, p);
    hide NormalizeTitle, FileNumber, IsDecisionPath, DecisionPath;
    var t, n := TitleOf(TargetOf(g, p)), TargetOf(g, p).num;
    assert Owns(g, t, n);
    var path :| OwnsAt(g, path, t, n);
    assert SameNumber(path, TargetPath(p));
  }

  lemma {:induction false} ActiveMeansClaim(g: Generation, l: ClaimLedger, p: Payload)
    requires Consistent(g, l) && HasTarget(g, p) && TargetOf(g, p).doc.active
    ensures Settles(l, OwnedTitle(TitleOf(TargetOf(g, p)), TargetOf(g, p).num))
  {
    TargetFacts(g, p);
    hide NormalizeTitle, FileNumber, IsDecisionPath, DecisionPath;
    assert OwnsAt(g, TargetPath(p), TitleOf(TargetOf(g, p)), TargetOf(g, p).num);
    assert Owns(g, TitleOf(TargetOf(g, p)), TargetOf(g, p).num);
  }

  // Some active decision bears the title.
  ghost predicate TitleTaken(g: Generation, t: string) {
    exists n: nat :: Owns(g, t, n)
  }

  lemma {:induction false} TakenIff(g: Generation, l: ClaimLedger, t: string)
    requires Consistent(g, l)
    ensures TitleTaken(g, t) <==> t in l.titles
  {
    hide Owns, Valid, Admissible, ContentsCover;
    if t in l.titles { assert Owns(g, t, l.titles[t]); }
  }

  // The operation claims a title it does not hold yet.
  predicate NeedsTitle(op: Op, target: Decision, primary: Decision) {
    op.Add? || (op.Supersede? && TitleOf(primary) != TitleOf(target))
  }

  lemma {:induction false} ProbesSettle(l: ClaimLedger, op: Op, target: Decision, primary: Decision)
    ensures var t, h, held := TitleOf(primary), HashOf(primary), TitleOf(target);
      AllSettle(l, BuildClaimContract(op, target, primary).probes) <==>
        && h !in l.contents
        && (!op.Add? ==> Settles(l, OwnedTitle(held, target.num)))
        && (NeedsTitle(op, target, primary) ==> t !in l.titles)
  {
    hide TitleOf, HashOf;
    var t, h, held := TitleOf(primary), HashOf(primary), TitleOf(target);
    var probes := BuildClaimContract(op, target, primary).probes;
    assert AbsentContent(h) in probes;
    assert op.Add? ==> AbsentTitle(t) in probes;
    assert !op.Add? ==> OwnedTitle(held, target.num) in probes;
    assert op.Supersede? && t != held ==> AbsentTitle(t) in probes;
  }

  // When a commit is admitted, in terms of the decisions alone: the content is new, an
  // update or supersede names an active decision, and a title that changes hands is not
  // borne by another active decision. No code checks this; it emerges from the probes.
  lemma {:induction false} AdmittedIff(g: Generation, l: ClaimLedger, p: Payload, env: Env)
    requires Consistent(g, l) && Plannable(g, p, env)
    ensures AllSettle(l, PreparedFor(g, p, env).contract.probes) <==>
      && HashOf(Primary(g, p, env)) !in l.contents
      && (!p.op.Add? ==> TargetOf(g, p).doc.active)
      && (NeedsTitle(p.op, TargetOf(g, p), Primary(g, p, env)) ==> !TitleTaken(g, TitleOf(Primary(g, p, env))))
  {
    var t, h, d := TitleOf(Primary(g, p, env)), HashOf(Primary(g, p, env)), TargetOf(g, p);
    var held := TitleOf(d);
    TakenIff(g, l, t);
    if !p.op.Add? {
      if Settles(l, OwnedTitle(held, d.num)) { ClaimMeansActive(g, l, p); }
      if d.doc.active { ActiveMeansClaim(g, l, p); }
    }
    hide TitleOf, HashOf, Consistent, TitleTaken, Primary, TargetOf, HasTarget, Valid, Screened;
    ProbesSettle(l, p.op, d, Primary(g, p, env));
  }

  lemma {:induction false} UpdateKeepsTitle(g: Generation, p: Payload, env: Env)
    requires p.op.Update?
    ensures Primary(g, p, env).doc == AppendUpdate(TargetOf(g, p).doc, p.rationale, env.date)
    ensures Primary(g, p, env).doc.title == TargetOf(g, p).doc.title
  {
    hide TargetOf, Strip;
  }

  // An update is never the content it updates: it always adds to the rationale.
  lemma {:induction false} UpdateIsNew(g: Generation, p: Payload, env: Env)
    requires Plannable(g, p, env) && p.op.Update?
    ensures HashOf(Primary(g, p, env)) != HashOf(TargetOf(g, p))
  {
    AppendedText(TargetOf(g, p).doc, p.rationale, env.date);
    HashEqualIff(Primary(g, p, env), TargetOf(g, p));
    UpdateKeepsTitle(g, p, env);
    hide TargetOf, Strip, Plannable, Primary, AppendUpdate, HashOf, JoinedText, Valid;
    assert |Strip(p.rationale)| >= 20;
  }

  // An update is admitted iff its target is active and nothing else that was ever published
  // has the new content: the target's own content does not stand in the way.
  lemma {:induction false} UpdateAdmittedIff(g: Generation, l: ClaimLedger, p: Payload, env: Env)
    requires Consistent(g, l) && Plannable(g, p, env) && p.op.Update?
    ensures AllSettle(l, PreparedFor(g, p, env).contract.probes) <==>
      TargetOf(g, p).doc.active && HashOf(Primary(g, p, env)) !in l.contents - {HashOf(TargetOf(g, p))}
  {
    AdmittedIff(g, l, p, env);
    UpdateIsNew(g, p, env);
    hide Consistent, Plannable, TargetOf, Primary, HashOf, AllSettle, PreparedFor;
  }

  // ---- one publication ---------------------------------------------------------------

  // Who owns what after the plan: the new decision its title, and everyone else what they
  // owned, except a superseded target.
  ghost predicate OwnsAfter(g: Generation, p: Payload, primary: Decision, t: string, n: nat) {
    || (!p.op.Update? && n == primary.num && t == TitleOf(primary))
    || (Owns(g, t, n) && !(p.op.Supersede? && n == TargetOf(g, p).num))
  }

  predicate SameStanding(d: Decision, e: Decision) {
    d.num == e.num && d.doc.title == e.doc.title && d.doc.active == e.doc.active
  }

  // The facts about a plan that ownership depends on.
  ghost predicate PlanShape(g: Generation, g': Generation, p: Payload, env: Env) {
    var a, b, primary, target := PrimaryPath(g, p), TargetPath(p), Primary(g, p, env), TargetOf(g, p);
    && IsWritten(g.artifacts, g'.artifacts, a, DecisionFile(primary.doc), FlippedTarget(g, p), RewrittenQuestions(p, env))
    && IsDecisionPath(a) && FileNumber(a) == primary.num && !IsDecisionPath(QUESTIONS_PATH)
    && (!p.op.Update? ==> a !in g.artifacts && primary.doc.active)
    && (p.op.Update? ==> a == b && SameStanding(primary, target))
    && (!p.op.Add? ==> b in g.artifacts && HoldsDecision(g, b) && target == DecisionAt(g, b))
    && (p.op.Supersede? ==> a != b)
  }

  lemma {:induction false} PrimaryStanding(g: Generation, p: Payload, env: Env)
    ensures p.op.Update? ==> SameStanding(Primary(g, p, env), TargetOf(g, p))
    ensures !p.op.Update? ==> Primary(g, p, env).doc.active
  {
    hide TargetOf, Strip;
  }

  lemma {:induction false} TargetHolds(g: Generation, p: Payload)
    requires Valid(g) && HasTarget(g, p)
    ensures TargetPath(p) in g.artifacts && HoldsDecision(g, TargetPath(p))
    ensures TargetOf(g, p) == DecisionAt(g, TargetPath(p))
  {
    TargetFacts(g, p);
    hide DecisionPath, FileNumber, IsDecisionPath, Valid;
  }

  lemma {:induction false} PlanHasShape(g: Generation, p: Payload, env: Env, id: nat)
    requires Valid(g) && (!p.op.Add? ==> HasTarget(g, p))
    ensures PlanShape(g, Next(PreparedFor(g, p, env), id), p, env)
  {
    PlanTouches(g, p, env);
    PrimaryNumber(g, p, env);
    PathsApart("");
    PrimaryStanding(g, p, env);
    if !p.op.Add? { TargetHolds(g, p); }
    hide FileNumber, IsDecisionPath, PlannedArtifacts, PrimaryPath, TargetPath, Primary, TargetOf, HasTarget, Valid,
      IsWritten, EndsWith, Filename, SameStanding, HoldsDecision, FlippedTarget, RewrittenQuestions;
  }

  lemma {:induction false} UniqueFile(g: Generation, p: string, q: string)
    requires Valid(g) && p in g.artifacts && q in g.artifacts && SameNumber(p, q)
    ensures p == q
  {}

  lemma {:induction false} OwnsNextOnlyIf(g: Generation, g': Generation, p: Payload, env: Env, path: string, t: string, n: nat)
    requires Valid(g) && PlanShape(g, g', p, env) && OwnsAt(g', path, t, n)
    ensures OwnsAfter(g, p, Primary(g, p, env), t, n)
  {
    hide NormalizeTitle, FileNumber, IsDecisionPath, PrimaryPath, TargetPath, Primary, TargetOf, Valid;
    if path == PrimaryPath(g, p) {
      if p.op.Update? { assert OwnsAt(g, path, t, n); }
    } else {
      assert OwnsAt(g, path, t, n);
      if p.op.Supersede? && n == TargetOf(g, p).num {
        assert SameNumber(path, TargetPath(p));
        UniqueFile(g, path, TargetPath(p));
      }
    }
  }

  lemma {:induction false} OwnsNextIf(g: Generation, g': Generation, p: Payload, env: Env, t: string, n: nat)
    requires Valid(g) && PlanShape(g, g', p, env) && OwnsAfter(g, p, Primary(g, p, env), t, n)
    ensures Owns(g', t, n)
  {
    hide NormalizeTitle, FileNumber, IsDecisionPath, PrimaryPath, TargetPath, Primary, TargetOf, Valid;
    if !p.op.Update? && n == Primary(g, p, env).num && t == TitleOf(Primary(g, p, env)) {
      assert OwnsAt(g', PrimaryPath(g, p), t, n);
    } else {
      var path :| OwnsAt(g, path, t, n);
      assert OwnsAt(g', path, t, n);
    }
  }

  lemma {:induction false} OwnsNext(g: Generation, g': Generation, p: Payload, env: Env, t: string, n: nat)
    requires Valid(g) && PlanShape(g, g', p, env)
    ensures Owns(g', t, n) <==> OwnsAfter(g, p, Primary(g, p, env), t, n)
  {
    if Owns(g', t, n) {
      var path :| OwnsAt(g', path, t, n);
      OwnsNextOnlyIf(g, g', p, env, path, t, n);
    }
    if OwnsAfter(g, p, Primary(g, p, env), t, n) {
      OwnsNextIf(g, g', p, env, t, n);
    }
  }

  lemma {:induction false} OneTitleEach(g: Generation, t: string, u: string, n: nat)
    requires Valid(g) && Owns(g, t, n) && Owns(g, u, n)
    ensures t == u
  {
    hide NormalizeTitle, FileNumber, IsDecisionPath, Valid;
    var a :| OwnsAt(g, a, t, n);
    var b :| OwnsAt(g, b, u, n);
    assert SameNumber(a, b);
    UniqueFile(g, a, b);
  }

  // The committed titles after publication.
  function TitlesAfter(titles: map<string, nat>, op: Op, target: Decision, primary: Decision): map<string, nat> {
    match op
    case Update => titles
    case Add => titles[TitleOf(primary) := primary.num]
    case Supersede => (titles - {TitleOf(target)})[TitleOf(primary) := primary.num]
  }

  lemma {:induction false} PublishTwo(l: ClaimLedger, a: Intent, b: Intent)
    ensures PublishAll(l, [a, b]) == PublishIntent(PublishIntent(l, a), b)
  {
    assert [a, b][1..] == [b] && [b][1..] == [];
    assert PublishAll(PublishIntent(l, a), [b]) == PublishIntent(PublishIntent(l, a), b);
  }

  lemma {:induction false} PublishThree(l: ClaimLedger, a: Intent, b: Intent, c: Intent)
    ensures PublishAll(l, [a, b, c]) == PublishIntent(PublishIntent(PublishIntent(l, a), b), c)
  {
    assert [a, b, c][1..] == [b, c];
    PublishTwo(PublishIntent(l, a), b, c);
  }

  lemma {:induction false} PublicationEffect(l: ClaimLedger, op: Op, target: Decision, primary: Decision)
    ensures var l' := PublishAll(l, BuildClaimContract(op, target, primary).publication);
      && l'.titles == TitlesAfter(l.titles, op, target, primary)
      && l'.contents == l.contents + {HashOf(primary)} && l'.reserved == l.reserved
  {
    hide TitleOf, HashOf, PublishAll;
    var pub := BuildClaimContract(op, target, primary).publication;
    if |pub| == 2 {
      PublishTwo(l, pub[0], pub[1]);
      assert pub == [pub[0], pub[1]];
    } else {
      PublishThree(l, pub[0], pub[1], pub[2]);
      assert pub == [pub[0], pub[1], pub[2]];
    }
    var held := TitleOf(target);
    assert (l.titles - {held})[held := primary.num] == l.titles[held := primary.num];
  }

  // The intent finds the ledger as its name supposes: a title retained, released or handed
  // over belongs to the decision it names, a title or content committed is still free.
  predicate IntentFits(l: ClaimLedger, i: Intent) {
    match i
    case RetainTitleOwner(t, n) => t in l.titles && l.titles[t] == n
    case ReleaseTitleOwner(t, n) => t in l.titles && l.titles[t] == n
    case TransferTitleOwner(t, from, _) => t in l.titles && l.titles[t] == from
    case CommitTitleOwner(t, _) => t !in l.titles
    case CommitContent(h) => h !in l.contents
    case _ => true
  }

  // Applied one after the other, each finds what it supposes.
  predicate AllFit(l: ClaimLedger, intents: seq<Intent>)
    decreases |intents|
  {
    intents == [] || (IntentFits(l, intents[0]) && AllFit(PublishIntent(l, intents[0]), intents[1..]))
  }

  lemma FitTwo(l: ClaimLedger, a: Intent, b: Intent)
    requires IntentFits(l, a) && IntentFits(PublishIntent(l, a), b)
    ensures AllFit(l, [a, b])
  {
    assert [a, b][1..] == [b] && [b][1..] == [];
    hide IntentFits, PublishIntent;
    assert AllFit(PublishIntent(l, a), [b]);
  }

  lemma FitFirst(l: ClaimLedger, a: Intent, rest: seq<Intent>)
    requires IntentFits(l, a) && AllFit(PublishIntent(l, a), rest)
    ensures AllFit(l, [a] + rest)
  {
    hide IntentFits, PublishIntent;
    assert ([a] + rest)[1..] == rest;
  }

  // When the probes settle, every publication intent of the operation finds the ledger as
  // it supposes, although publishing does not check.
  lemma {:induction false} SettledIntentsFit(l: ClaimLedger, op: Op, target: Decision, primary: Decision)
    requires AllSettle(l, BuildClaimContract(op, target, primary).probes)
    ensures AllFit(l, BuildClaimContract(op, target, primary).publication)
  {
    hide TitleOf, HashOf, AllFit;
    var contract := BuildClaimContract(op, target, primary);
    var pub := contract.publication;
    assert forall p :: p in contract.probes ==> Settles(l, p);
    assert contract.probes[0] in contract.probes && contract.probes[|contract.probes| - 1] in contract.probes;
    if |pub| == 2 {
      FitTwo(l, pub[0], pub[1]);
      assert pub == [pub[0], pub[1]];
    } else {
      assert contract.probes[1] in contract.probes;
      FitTwo(PublishIntent(l, pub[0]), pub[1], pub[2]);
      FitFirst(l, pub[0], [pub[1], pub[2]]);
      assert pub == [pub[0]] + [pub[1], pub[2]];
    }
  }

  lemma {:induction false} TitlesStayMirrored(g: Generation, g': Generation, p: Payload, env: Env, titles: map<string, nat>)
    requires Valid(g) && PlanShape(g, g', p, env) && TitlesMirror(g, titles)
    requires !p.op.Add? ==> Owns(g, TitleOf(TargetOf(g, p)), TargetOf(g, p).num)
    requires NeedsTitle(p.op, TargetOf(g, p), Primary(g, p, env)) ==> TitleOf(Primary(g, p, env)) !in titles
    ensures TitlesMirror(g', TitlesAfter(titles, p.op, TargetOf(g, p), Primary(g, p, env)))
  {
    var primary, target := Primary(g, p, env), TargetOf(g, p);
    hide TitleOf, Valid, PlanShape, Primary, TargetOf;
    forall t, n: nat ensures Owns(g', t, n) <==>
        t in TitlesAfter(titles, p.op, target, primary) && TitlesAfter(titles, p.op, target, primary)[t] == n {
      OwnsNext(g, g', p, env, t, n);
      hide Owns;
      if p.op.Supersede? && Owns(g, t, target.num) {
        OneTitleEach(g, t, TitleOf(target), target.num);
      }
      assert Owns(g, t, n) <==> t in titles && titles[t] == n;
      assert p.op.Supersede? ==> (Owns(g, TitleOf(target), target.num) <==> TitleOf(target) in titles && titles[TitleOf(target)] == target.num);
    }
  }

  lemma {:induction false} ContentsStayCovered(g: Generation, g': Generation, p: Payload, env: Env, contents: set<ContentHash>)
    requires PlanShape(g, g', p, env) && ContentsCover(g, contents)
    ensures ContentsCover(g', contents + {HashOf(Primary(g, p, env))})
  {
    hide IsDecisionPath, FileNumber, PrimaryPath, TargetPath, Primary, TargetOf, Strip;
    forall path | path in g'.artifacts && HoldsDecision(g', path)
      ensures ContentOf(g'.artifacts[path]) in contents + {HashOf(Primary(g, p, env))}
    {
      if path != PrimaryPath(g, p) {
        assert path in g.artifacts && HoldsDecision(g, path);
        assert ContentOf(g'.artifacts[path]) == ContentOf(g.artifacts[path]);
      }
    }
  }

  lemma {:induction false} TargetOwns(g: Generation, p: Payload)
    requires Valid(g) && HasTarget(g, p) && TargetOf(g, p).doc.active
    ensures Owns(g, TitleOf(TargetOf(g, p)), TargetOf(g, p).num)
  {
    TargetFacts(g, p);
    hide NormalizeTitle, FileNumber, IsDecisionPath, DecisionPath, Valid;
    assert OwnsAt(g, TargetPath(p), TitleOf(TargetOf(g, p)), TargetOf(g, p).num);
  }

  // Publishing an admitted commit keeps the ledger a mirror of the active decisions.
  lemma {:induction false} PublishConsistent(g: Generation, l: ClaimLedger, p: Payload, env: Env, id: nat)
    requires Consistent(g, l) && Plannable(g, p, env)
    requires AllSettle(l, PreparedFor(g, p, env).contract.probes)
    ensures Consistent(Next(PreparedFor(g, p, env), id), PublishAll(l, PreparedFor(g, p, env).contract.publication))
    ensures PublishAll(l, PreparedFor(g, p, env).contract.publication).contents == l.contents + {HashOf(Primary(g, p, env))}
  {
    AdmittedIff(g, l, p, env);
    PlanIsValid(g, p, env, id);
    PlanHasShape(g, p, env, id);
    PublicationEffect(l, p.op, TargetOf(g, p), Primary(g, p, env));
    TakenIff(g, l, TitleOf(Primary(g, p, env)));
    if !p.op.Add? { TargetOwns(g, p); }
    hide TitleOf, HashOf, PlanShape, Primary, TargetOf, HasTarget, Valid, Screened, Admissible, TitlesMirror, ContentsCover,
      PlannedArtifacts, BuildClaimContract, PublishAll, AllSettle, TitleTaken, Owns;
    TitlesStayMirrored(g, Next(PreparedFor(g, p, env), id), p, env, l.titles);
    ContentsStayCovered(g, Next(PreparedFor(g, p, env), id), p, env, l.contents);
  }

  // ---- runs --------------------------------------------------------------------------

  // The committed generation and ledger, the commits in flight, and the history of numbers
  // and contents published so far.
  datatype State = State(
    gen: Generation, ledger: ClaimLedger, flights: set<Prepared>, numbers: seq<int>, hashes: seq<ContentHash>)

  ghost predicate Init(s: State) {
    Consistent(s.gen, s.ledger) && s.ledger.reserved == {} && s.flights == {} && s.numbers == [] && s.hashes == []
  }

  // A payload is prepared against the committed generation and finalized with the ledger's
  // observations, in some order; its claims are reserved.
  ghost predicate Enter(s: State, s': State, p: Payload, env: Env, raw: seq<Option<Observation>>) {
    var prep := PreparedFor(s.gen, p, env);
    && Plannable(s.gen, p, env)
    && multiset(raw) == multiset(Observations(s.ledger, prep.contract.probes))
    && FinalizeSpec(prep.contract.probes, raw).Ok?
    && s' == s.(flights := s.flights + {prep}, ledger := s.ledger.(reserved := s.ledger.reserved + KeysOf(prep.contract.probes)))
  }

  // The hash the commit publishes.
  function PublishedHash(f: Prepared): Option<ContentHash> {
    var pub := f.contract.publication;
    if pub != [] && pub[|pub| - 1].CommitContent? then Some(pub[|pub| - 1].hash) else None
  }

  // A commit in flight is published over the generation it was prepared against.
  ghost predicate PublishStep(s: State, s': State, f: Prepared) {
    && f in s.flights && f.baseId == s.gen.id
    && s' == State(
         Next(f, s.gen.id + 1),
         PublishAll(s.ledger, f.contract.publication).(reserved := s.ledger.reserved - KeysOf(f.contract.probes)),
         s.flights - {f},
         s.numbers + (if f.newNumber.Some? then [f.newNumber.value] else []),
         s.hashes + (if PublishedHash(f).Some? then [PublishedHash(f).value] else []))
  }

  // A commit in flight gives up and frees its claims.
  ghost predicate Abandon(s: State, s': State, f: Prepared) {
    && f in s.flights
    && s' == s.(flights := s.flights - {f}, ledger := s.ledger.(reserved := s.ledger.reserved - KeysOf(f.contract.probes)))
  }

  ghost predicate Step(s: State, s': State) {
    || (exists p, env, raw :: Enter(s, s', p, env, raw))
    || (exists f :: PublishStep(s, s', f))
    || (exists f :: Abandon(s, s', f))
  }

  // The commit was prepared from this very generation and its probes settle in the ledger.
  ghost predicate Admitted(g: Generation, l: ClaimLedger, f: Prepared, env: Env) {
    Plannable(g, f.payload, env) && f == PreparedFor(g, f.payload, env) && AllSettle(l, f.contract.probes)
  }

  ghost predicate IsAdmitted(g: Generation, l: ClaimLedger, f: Prepared) {
    exists env :: Admitted(g, l, f, env)
  }

  ghost predicate HistoryOk(s: State) {
    && Ascending(s.numbers) && (forall n :: n in s.numbers ==> n <= s.gen.counter)
    && Distinct(s.hashes) && (forall h :: h in s.hashes ==> h in s.ledger.contents)
  }

  ghost predicate FlightsOk(s: State) {
    && (forall f :: f in s.flights ==> f.baseId <= s.gen.id && f.contract.probes != [] && KeysOf(f.contract.probes) <= s.ledger.reserved)
    && (forall f :: f in s.flights && f.baseId == s.gen.id ==> IsAdmitted(s.gen, s.ledger, f))
    && (forall f, h :: f in s.flights && h in s.flights && f != h ==> KeysOf(f.contract.probes) !! KeysOf(h.contract.probes))
  }

  ghost predicate Inv(s: State) {
    Consistent(s.gen, s.ledger) && FlightsOk(s) && HistoryOk(s)
  }

  lemma {:induction false} PreparedShape(g: Generation, p: Payload, env: Env)
    ensures var prep := PreparedFor(g, p, env);
      prep.contract.probes != [] && DistinctKeys(prep.contract.probes) && prep.baseId == g.id && prep.payload == p
  {
    hide DistinctKeys, PlannedArtifacts, Primary, TargetOf, PrimaryStem, PrimaryPath, Touched;
    ContractKeysDistinct(p.op, TargetOf(g, p), Primary(g, p, env));
    hide TitleOf, HashOf;
  }

  lemma {:induction false} EnterAdmits(s: State, s': State, p: Payload, env: Env, raw: seq<Option<Observation>>)
    requires Enter(s, s', p, env, raw)
    ensures var prep := PreparedFor(s.gen, p, env);
      && IsAdmitted(s.gen, s.ledger, prep) && KeysOf(prep.contract.probes) !! s.ledger.reserved
      && prep.contract.probes != [] && prep.baseId == s.gen.id
  {
    hide Plannable, FinalizeSpec, PreparedFor, KeysOf, DistinctKeys, AllSettle, Observations;
    var prep := PreparedFor(s.gen, p, env);
    PreparedShape(s.gen, p, env);
    FinalizesIff(s.ledger, prep.contract.probes, raw);
    assert Admitted(s.gen, s.ledger, prep, env);
  }

  lemma {:induction false} EnterFlights(s: State, s': State, prep: Prepared)
    requires FlightsOk(s) && s'.gen == s.gen && s'.flights == s.flights + {prep}
    requires s'.ledger == s.ledger.(reserved := s.ledger.reserved + KeysOf(prep.contract.probes))
    requires KeysOf(prep.contract.probes) !! s.ledger.reserved && prep.contract.probes != [] && prep.baseId == s.gen.id
    requires forall f :: f in s'.flights && IsAdmitted(s.gen, s.ledger, f) ==> IsAdmitted(s.gen, s'.ledger, f)
    requires IsAdmitted(s.gen, s.ledger, prep)
    ensures FlightsOk(s')
  {
    hide KeysOf, IsAdmitted;
  }

  // Reservations do not matter to what is committed.
  lemma {:induction false} SameCommitted(g: Generation, l: ClaimLedger, l': ClaimLedger, flights: set<Prepared>)
    requires l'.titles == l.titles && l'.contents == l.contents
    ensures Consistent(g, l) ==> Consistent(g, l')
    ensures forall f :: f in flights && IsAdmitted(g, l, f) ==> IsAdmitted(g, l', f)
  {
    hide Plannable, PreparedFor, Valid, Admissible, TitlesMirror, ContentsCover;
    forall f | f in flights && IsAdmitted(g, l, f) ensures IsAdmitted(g, l', f) {
      var env :| Admitted(g, l, f, env);
      assert Admitted(g, l', f, env);
    }
  }

  lemma {:induction false} EnterKeeps(s: State, s': State, p: Payload, env: Env, raw: seq<Option<Observation>>)
    requires Inv(s) && Enter(s, s', p, env, raw)
    ensures Inv(s')
  {
    hide Plannable, FinalizeSpec, PreparedFor, KeysOf, Consistent, FlightsOk, IsAdmitted, Observations;
    EnterAdmits(s, s', p, env, raw);
    SameCommitted(s.gen, s.ledger, s'.ledger, s'.flights);
    EnterFlights(s, s', PreparedFor(s.gen, p, env));
  }

  lemma {:induction false} AbandonKeeps(s: State, s': State, f: Prepared)
    requires Inv(s) && Abandon(s, s', f)
    ensures Inv(s')
  {
    hide KeysOf, Valid, Admissible, TitlesMirror, ContentsCover, IsAdmitted;
    SameCommitted(s.gen, s.ledger, s'.ledger, s'.flights);
  }

  lemma {:induction false} PublishedHashIs(g: Generation, p: Payload, env: Env)
    ensures PublishedHash(PreparedFor(g, p, env)) == Some(HashOf(Primary(g, p, env)))
  {
    hide TitleOf, HashOf, Primary, TargetOf, PlannedArtifacts;
  }

  lemma {:induction false} PlanIsNumbered(g: Generation, p: Payload, env: Env)
    ensures var f := PreparedFor(g, p, env);
      f.newCounter >= g.counter && (f.newNumber.Some? ==> f.newNumber.value == g.counter + 1 == f.newCounter)
  {}

  lemma {:induction false} PublishFacts(s: State, f: Prepared, env: Env)
    requires Consistent(s.gen, s.ledger) && Admitted(s.gen, s.ledger, f, env)
    ensures var l' := PublishAll(s.ledger, f.contract.publication);
      && Consistent(Next(f, s.gen.id + 1), l')
      && PublishedHash(f).Some? && PublishedHash(f).value !in s.ledger.contents
      && l'.contents == s.ledger.contents + {PublishedHash(f).value}
    ensures f.newCounter >= s.gen.counter && (f.newNumber.Some? ==> f.newNumber.value == s.gen.counter + 1 == f.newCounter)
  {
    hide Consistent, Plannable, AllSettle, TitleTaken, HashOf, TargetOf, Primary, PublishAll, PreparedFor, PublishedHash;
    PublishConsistent(s.gen, s.ledger, f.payload, env, s.gen.id + 1);
    AdmittedIff(s.gen, s.ledger, f.payload, env);
    PublishedHashIs(s.gen, f.payload, env);
    PlanIsNumbered(s.gen, f.payload, env);
  }

  lemma {:induction false} PublishFlights(s: State, s': State, f: Prepared)
    requires FlightsOk(s) && f in s.flights && s'.flights == s.flights - {f} && s'.gen.id == s.gen.id + 1
    requires s'.ledger.reserved == s.ledger.reserved - KeysOf(f.contract.probes)
    ensures FlightsOk(s')
  {
    hide KeysOf, IsAdmitted;
  }

  lemma {:induction false} PublishHistory(s: State, s': State, f: Prepared, h: ContentHash)
    requires HistoryOk(s) && h !in s.ledger.contents && s'.ledger.contents == s.ledger.contents + {h}
    requires f.newCounter >= s.gen.counter && (f.newNumber.Some? ==> f.newNumber.value == s.gen.counter + 1 == f.newCounter)
    requires s'.gen.counter == f.newCounter && s'.hashes == s.hashes + [h]
    requires s'.numbers == s.numbers + (if f.newNumber.Some? then [f.newNumber.value] else [])
    ensures HistoryOk(s')
  {
    forall i, j | 0 <= i < j < |s'.hashes| ensures s'.hashes[i] != s'.hashes[j] {
      var x := s'.hashes[i];
      assert i < |s.hashes| && x == s.hashes[i];
      assert x in s.hashes;
    }
    forall i, j | 0 <= i < j < |s'.numbers| ensures s'.numbers[i] < s'.numbers[j] {
      var x := s'.numbers[i];
      assert i < |s.numbers| && x == s.numbers[i];
      assert x in s.numbers;
    }
    forall n | n in s'.numbers ensures n <= s'.gen.counter {
      var i :| 0 <= i < |s'.numbers| && s'.numbers[i] == n;
      if i < |s.numbers| { assert s.numbers[i] in s.numbers; }
    }
  }

  lemma {:induction false} PublishKeeps(s: State, s': State, f: Prepared)
    requires Inv(s) && PublishStep(s, s', f)
    ensures Inv(s')
  {
    assert IsAdmitted(s.gen, s.ledger, f);
    var env :| Admitted(s.gen, s.ledger, f, env);
    hide KeysOf, IsAdmitted, Admitted, PublishAll, PublishedHash, Consistent, FlightsOk, HistoryOk;
    PublishFacts(s, f, env);
    SameCommitted(s'.gen, PublishAll(s.ledger, f.contract.publication), s'.ledger, {});
    PublishFlights(s, s', f);
    PublishHistory(s, s', f, PublishedHash(f).value);
  }

  lemma {:induction false} StepKeeps(s: State, s': State)
    requires Inv(s) && Step(s, s')
    ensures Inv(s')
  {
    hide Inv, Enter, PublishStep, Abandon;
    if p, env, raw :| Enter(s, s', p, env, raw) {
      EnterKeeps(s, s', p, env, raw);
    } else if f :| PublishStep(s, s', f) {
      PublishKeeps(s, s', f);
    } else {
      var f :| Abandon(s, s', f);
      AbandonKeeps(s, s', f);
    }
  }

  ghost predicate IsRun(run: seq<State>) {
    run != [] && Init(run[0]) && forall i :: 0 <= i < |run| - 1 ==> Step(run[i], run[i + 1])
  }

  // Every state of a run keeps the ledger a mirror of the active decisions, publishes each
  // number once and in increasing order, and never publishes a content twice.
  lemma {:induction false} RunsKeepClaims(run: seq<State>, k: nat)
    requires IsRun(run) && k < |run|
    ensures Inv(run[k])
  {
    hide Consistent, Step;
    if k > 0 {
      RunsKeepClaims(run, k - 1);
      var j := k - 1;
      assert Step(run[j], run[j + 1]);
      StepKeeps(run[j], run[k]);
    }
  }

  lemma {:induction false} PublishContents(s: State, s': State, f: Prepared)
    requires Inv(s) && PublishStep(s, s', f)
    ensures PublishedHash(f).Some? && s'.ledger.contents == s.ledger.contents + {PublishedHash(f).value}
  {
    assert IsAdmitted(s.gen, s.ledger, f);
    var env :| Admitted(s.gen, s.ledger, f, env);
    hide KeysOf, IsAdmitted, Admitted, PublishAll, PublishedHash, Consistent, FlightsOk, HistoryOk;
    PublishFacts(s, f, env);
  }

  // A step claims exactly the contents it publishes.
  lemma {:induction false} ContentsStep(s: State, s': State) returns (more: seq<ContentHash>)
    requires Inv(s) && Step(s, s')
    ensures s'.hashes == s.hashes + more && s'.ledger.contents == s.ledger.contents + set h | h in more
  {
    hide Inv, Plannable, PreparedFor, FinalizeSpec, KeysOf, Next, PublishAll, PublishedHash, Observations;
    more := [];
    if p, env, raw :| Enter(s, s', p, env, raw) {
    } else if f :| PublishStep(s, s', f) {
      PublishContents(s, s', f);
      more := [PublishedHash(f).value];
    } else {
      var f :| Abandon(s, s', f);
    }
  }

  // The claimed contents are the initial ones and those the run has published.
  lemma {:induction false} ContentsAlong(run: seq<State>, k: nat)
    requires IsRun(run) && k < |run|
    ensures run[k].ledger.contents == run[0].ledger.contents + set h | h in run[k].hashes
  {
    hide Inv, Enter, PublishStep, Abandon;
    if k > 0 {
      var j := k - 1;
      ContentsAlong(run, j);
      RunsKeepClaims(run, j);
      assert Step(run[j], run[j + 1]);
      var more := ContentsStep(run[j], run[k]);
    } else {
      assert run[0].hashes == [];
    }
  }

  // Whatever else happens in between, an update or supersede that is published targets a
  // decision that is active at that moment.
  lemma {:induction false} PublishedTargetsActive(run: seq<State>, k: nat, f: Prepared)
    requires IsRun(run) && k + 1 < |run|
    requires PublishStep(run[k], run[k + 1], f) && !f.payload.op.Add?
    ensures HasTarget(run[k].gen, f.payload) && TargetOf(run[k].gen, f.payload).doc.active
  {
    RunsKeepClaims(run, k);
    var s := run[k];
    hide Valid, Admissible, TitlesMirror, ContentsCover, TitleTaken, Screened;
    var env :| Admitted(s.gen, s.ledger, f, env);
    AdmittedIff(s.gen, s.ledger, f.payload, env);
  }

  // Over every run, each intent that is published finds the ledger as it supposes: no title
  // is released or handed over that its target does not own, and none is overwritten.
  lemma {:induction false} PublishedIntentsFit(run: seq<State>, k: nat, f: Prepared)
    requires IsRun(run) && k + 1 < |run| && PublishStep(run[k], run[k + 1], f)
    ensures AllFit(run[k].ledger, f.contract.publication)
  {
    RunsKeepClaims(run, k);
    var s := run[k];
    assert IsAdmitted(s.gen, s.ledger, f);
    var env :| Admitted(s.gen, s.ledger, f, env);
    hide Inv, Plannable, AllSettle, AllFit, BuildClaimContract, PlannedArtifacts, Primary, TargetOf, IsRun, PublishStep;
    SettledIntentsFit(s.ledger, f.payload.op, TargetOf(s.gen, f.payload), Primary(s.gen, f.payload, env));
  }
}
