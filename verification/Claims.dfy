// The claim contract of a judgment commit.
module Claims {
  // Which title and content claims a commit must observe, which it will acquire and publish,
  // and how observations settle it.
  import opened Common
  import opened Text
  import Identifiers

  datatype Op = Add | Update | Supersede

  // A decision document as the commit planner sees it; `meta` is everything else in it.
  datatype Doc = Doc(
    title: string, rationale: string, version: nat, active: bool,
    supersedes: Option<nat>, supersededBy: Option<nat>, meta: string)

  // A parsed decision: the number comes from the file name.
  datatype Decision = Decision(num: nat, doc: Doc)

  // Stands for the digest of one text; collisions of the digest are not modelled.
  datatype ContentHash = ContentHash(text: string)

  function ComputeHash(title: string, rationale: string): ContentHash {
    ContentHash(Identifiers.Lower(Strip(title)) + "|" + Identifiers.Lower(Strip(rationale)))
  }

  function HashOf(d: Decision): ContentHash {
    ComputeHash(d.doc.title, d.doc.rationale)
  }

  // What is compared: the folded, stripped title and rationale with a bar between them.
  function JoinedText(title: string, rationale: string): string {
    Identifiers.Lower(Strip(title)) + "|" + Identifiers.Lower(Strip(rationale))
  }

  lemma {:induction false} JoinedEqual(a: string, b: string, c: string, d: string, bar: char)
    requires a + [bar] + b == c + [bar] + d
    ensures a == c ==> b == d
    ensures bar !in a && bar !in c ==> a == c && b == d
  {
    var l, r := a + [bar] + b, c + [bar] + d;
    assert l[|a|] == bar && r[|c|] == bar;
    assert |a| < |c| ==> r[|a|] == c[|a|];
    assert |c| < |a| ==> l[|c|] == a[|c|];
    if |a| == |c| {
      assert a == l[..|a|] && c == r[..|c|];
      assert b == l[|a| + 1..] && d == r[|c| + 1..];
    }
  }

  lemma {:induction false} NoBar(s: string)
    requires '|' !in s
    ensures '|' !in Identifiers.Lower(Strip(s))
  {
    var a, b := StripSplits(s);
    var t := Strip(s);
    hide Strip, IsSpace;
    forall i | 0 <= i < |t| ensures t[i] != '|' {
      assert t[i] == s[|a| + i];
      assert s[|a| + i] in s;
    }
  }

  // Two contents are one claim iff the joined texts agree: under one title, iff the folded
  // rationales do; and iff titles and rationales both do, when no title holds a bar.
  lemma {:induction false} HashEqualIff(d: Decision, e: Decision)
    ensures HashOf(d) == HashOf(e) <==> JoinedText(d.doc.title, d.doc.rationale) == JoinedText(e.doc.title, e.doc.rationale)
    ensures d.doc.title == e.doc.title ==>
      (HashOf(d) == HashOf(e) <==> Identifiers.Lower(Strip(d.doc.rationale)) == Identifiers.Lower(Strip(e.doc.rationale)))
    ensures '|' !in d.doc.title && '|' !in e.doc.title ==>
      (HashOf(d) == HashOf(e) <==>
        && Identifiers.Lower(Strip(d.doc.title)) == Identifiers.Lower(Strip(e.doc.title))
        && Identifiers.Lower(Strip(d.doc.rationale)) == Identifiers.Lower(Strip(e.doc.rationale)))
  {
    var a, b := Identifiers.Lower(Strip(d.doc.title)), Identifiers.Lower(Strip(d.doc.rationale));
    var a', b' := Identifiers.Lower(Strip(e.doc.title)), Identifiers.Lower(Strip(e.doc.rationale));
    if '|' !in d.doc.title { NoBar(d.doc.title); }
    if '|' !in e.doc.title { NoBar(e.doc.title); }
    hide Strip, Identifiers.Lower;
    if a + "|" + b == a' + "|" + b' { JoinedEqual(a, b, a', b', '|'); }
  }

  lemma {:induction false} Stripped(s: string)
    requires s != [] && !IsSpace(s[0]) && !IsSpace(s[|s| - 1])
    ensures Strip(s) == s
  {
    assert s == [] + s + [];
    StripExactly(s, [], s, []);
  }

  // A bar in a title lets two different decisions share one claim.
  lemma {:induction false} BarExample()
    ensures JoinedText("a|b", "c") == JoinedText("a", "b|c") && JoinedText("a|b", "d") != JoinedText("a", "b|c")
  {
    Stripped("a|b");
    Stripped("a");
    Stripped("b|c");
    Stripped("c");
    Stripped("d");
    hide Strip;
    assert Identifiers.Lower("a|b") == "a|b" && Identifiers.Lower("b|c") == "b|c";
    assert Identifiers.Lower("a") == "a" && Identifiers.Lower("c") == "c" && Identifiers.Lower("d") == "d";
    assert JoinedText("a|b", "d")[4] == 'd' && JoinedText("a", "b|c")[4] == 'c';
  }

  function TitleOf(d: Decision): string {
    NormalizeTitle(d.doc.title)
  }

  datatype Key = TitleKey(title: string) | ContentKey(hash: ContentHash)

  datatype Probe =
    | AbsentTitle(title: string)
    | OwnedTitle(title: string, owner: nat)
    | AbsentContent(hash: ContentHash)

  datatype Observation =
    | SawAbsentTitle(title: string)
    | SawCommittedTitle(title: string, owner: nat)
    | SawUnavailableTitle(title: string)
    | SawAbsentContent(hash: ContentHash)
    | SawCommittedContent(hash: ContentHash)
    | SawUnavailableContent(hash: ContentHash)

  datatype Intent =
    | AcquireNewTitle(title: string, owner: nat)
    | HoldOwnedTitle(title: string, owner: nat)
    | AcquireTitleTransfer(title: string, from: nat, to: nat)
    | AcquireNewContent(hash: ContentHash)
    | CommitTitleOwner(title: string, owner: nat)
    | RetainTitleOwner(title: string, owner: nat)
    | ReleaseTitleOwner(title: string, owner: nat)
    | TransferTitleOwner(title: string, from: nat, to: nat)
    | CommitContent(hash: ContentHash)

  datatype Contract = Contract(probes: seq<Probe>, entry: seq<Intent>, publication: seq<Intent>)

  // The claims of one operation: `primary` is the decision as it will be written, `target`
  // the decision an update or supersede names; an add ignores it.
  function BuildClaimContract(op: Op, target: Decision, primary: Decision): Contract {
    var t, h := TitleOf(primary), HashOf(primary);
    if op.Add? then
      Contract([AbsentTitle(t), AbsentContent(h)],
               [AcquireNewTitle(t, primary.num), AcquireNewContent(h)],
               [CommitTitleOwner(t, primary.num), CommitContent(h)])
    else
      var held, n := TitleOf(target), target.num;
      if op.Update? then
        Contract([OwnedTitle(held, n), AbsentContent(h)],
                 [HoldOwnedTitle(held, n), AcquireNewContent(h)],
                 [RetainTitleOwner(held, n), CommitContent(h)])
      else if t == held then
        Contract([OwnedTitle(held, n), AbsentContent(h)],
                 [AcquireTitleTransfer(held, n, primary.num), AcquireNewContent(h)],
                 [TransferTitleOwner(held, n, primary.num), CommitContent(h)])
      else
        Contract([OwnedTitle(held, n), AbsentTitle(t), AbsentContent(h)],
                 [HoldOwnedTitle(held, n), AcquireNewTitle(t, primary.num), AcquireNewContent(h)],
                 [ReleaseTitleOwner(held, n), CommitTitleOwner(t, primary.num), CommitContent(h)])
  }

  function ProbeKey(p: Probe): Key {
    match p
    case AbsentContent(h) => ContentKey(h)
    case AbsentTitle(t) => TitleKey(t)
    case OwnedTitle(t, _) => TitleKey(t)
  }

  function ObservationKey(o: Observation): Key {
    match o
    case SawAbsentContent(h) => ContentKey(h)
    case SawCommittedContent(h) => ContentKey(h)
    case SawUnavailableContent(h) => ContentKey(h)
    case SawAbsentTitle(t) => TitleKey(t)
    case SawCommittedTitle(t, _) => TitleKey(t)
    case SawUnavailableTitle(t) => TitleKey(t)
  }

  datatype ClaimError =
    | Malformed | Duplicate | Unexpected | Missing | Unavailable | TitleConflict | ContentConflict | Mismatched

  // None when the observation settles the probe.
  function ValidateObservation(p: Probe, o: Observation): Option<ClaimError> {
    if o.SawUnavailableTitle? || o.SawUnavailableContent? then Some(Unavailable)
    else match p
      case AbsentTitle(_) =>
        if o.SawAbsentTitle? then None
        else if o.SawCommittedTitle? then Some(TitleConflict)
        else Some(Mismatched)
      case OwnedTitle(_, n) =>
        if o.SawCommittedTitle? && o.owner == n then None else Some(Mismatched)
      case AbsentContent(_) =>
        if o.SawAbsentContent? then None
        else if o.SawCommittedContent? then Some(ContentConflict)
        else Some(Mismatched)
  }

  // ---- finalization --------------------------------------------------------------

  datatype Finalized = Ok(observations: seq<Observation>) | Err(error: ClaimError)

  function ByKey(obs: seq<Observation>): map<Key, Observation> {
    if obs == [] then map[]
    else ByKey(obs[..|obs| - 1])[ObservationKey(obs[|obs| - 1]) := obs[|obs| - 1]]
  }

  ghost predicate RepeatsKey(obs: seq<Observation>) {
    exists i, j :: 0 <= i < j < |obs| && ObservationKey(obs[i]) == ObservationKey(obs[j])
  }

  function KeysOf(probes: seq<Probe>): set<Key> {
    set p | p in probes :: ProbeKey(p)
  }

  function Ordered(probes: seq<Probe>, byKey: map<Key, Observation>): seq<Observation>
    requires KeysOf(probes) <= byKey.Keys
  {
    seq(|probes|, i requires 0 <= i < |probes| => assert probes[i] in probes; byKey[ProbeKey(probes[i])])
  }

  // The first probe its observation does not settle decides the error.
  function FirstError(probes: seq<Probe>, obs: seq<Observation>): Option<ClaimError>
    requires |probes| == |obs|
  {
    if probes == [] then None
    else if ValidateObservation(probes[0], obs[0]).Some? then ValidateObservation(probes[0], obs[0])
    else FirstError(probes[1..], obs[1..])
  }

  function Values(raw: seq<Option<Observation>>): seq<Observation>
    requires None !in raw
  {
    seq(|raw|, i requires 0 <= i < |raw| => assert raw[i] in raw; raw[i].value)
  }

  // The outcome of finalizing: a raw observation that does not validate is None.
  ghost function FinalizeSpec(probes: seq<Probe>, raw: seq<Option<Observation>>): Finalized {
    if None in raw then Err(Malformed)
    else
      var obs := Values(raw);
      if RepeatsKey(obs) then Err(Duplicate)
      else if !(ByKey(obs).Keys <= KeysOf(probes)) then Err(Unexpected)
      else if !(KeysOf(probes) <= ByKey(obs).Keys) then Err(Missing)
      else
        var ordered := Ordered(probes, ByKey(obs));
        if FirstError(probes, ordered).Some? then Err(FirstError(probes, ordered).value) else Ok(ordered)
  }

  lemma {:induction false} ByKeyIn(obs: seq<Observation>, k: Key)
    ensures k in ByKey(obs) <==> exists i :: 0 <= i < |obs| && ObservationKey(obs[i]) == k
    ensures k in ByKey(obs) ==> ByKey(obs)[k] in obs && ObservationKey(ByKey(obs)[k]) == k
  {
    if obs != [] {
      var n := |obs| - 1;
      ByKeyIn(obs[..n], k);
      if i :| 0 <= i < n && ObservationKey(obs[..n][i]) == k {
        assert ObservationKey(obs[i]) == k;
      }
      if i :| 0 <= i < |obs| && ObservationKey(obs[i]) == k {
        if i < n { assert ObservationKey(obs[..n][i]) == k; }
      }
      if k in ByKey(obs[..n]) { assert ByKey(obs[..n])[k] in obs; }
    }
  }

  method FinalizeJudgmentCommit(probes: seq<Probe>, raw: seq<Option<Observation>>) returns (r: Finalized)
    ensures r == FinalizeSpec(probes, raw)
  {
    var parsed: seq<Observation> := [];
    for i := 0 to |raw|
      invariant None !in raw[..i] && parsed == Values(raw[..i])
    {
      if raw[i].None? { return Err(Malformed); }
      assert raw[..i + 1] == raw[..i] + [raw[i]];
      parsed := parsed + [raw[i].value];
    }
    assert raw[..|raw|] == raw && parsed == Values(raw);
    var byKey: map<Key, Observation> := map[];
    for i := 0 to |parsed|
      invariant None !in raw && parsed == Values(raw)
      invariant byKey == ByKey(parsed[..i]) && !RepeatsKey(parsed[..i])
    {
      assert parsed[..i + 1][..i] == parsed[..i];
      var key := ObservationKey(parsed[i]);
      ByKeyIn(parsed[..i], key);
      if key in byKey {
        ghost var j :| 0 <= j < i && ObservationKey(parsed[..i][j]) == key;
        assert ObservationKey(parsed[j]) == ObservationKey(parsed[i]);
        assert RepeatsKey(parsed) && RepeatsKey(Values(raw));
        return Err(Duplicate);
      }
      byKey := byKey[key := parsed[i]];
    }
    assert parsed[..|parsed|] == parsed;
    var keys := KeysOf(probes);
    DifferenceIff(byKey.Keys, keys);
    DifferenceIff(keys, byKey.Keys);
    if byKey.Keys - keys != {} { return Err(Unexpected); }
    if keys - byKey.Keys != {} { return Err(Missing); }
    var ordered := Ordered(probes, byKey);
    for i := 0 to |probes|
      invariant FirstError(probes, ordered) == FirstError(probes[i..], ordered[i..])
    {
      var e := ValidateObservation(probes[i], ordered[i]);
      assert probes[i..][1..] == probes[i + 1..] && ordered[i..][1..] == ordered[i + 1..];
      if e.Some? { return Err(e.value); }
    }
    r := Ok(ordered);
  }

  // ---- a finalized plan passes its own check ------------------------------------------

  // The observations stand in probe order, and each settles its probe.
  ghost predicate RecordVerifies(probes: seq<Probe>, obs: seq<Observation>) {
    && |obs| == |probes|
    && (forall i :: 0 <= i < |probes| ==> ObservationKey(obs[i]) == ProbeKey(probes[i]))
    && (forall i :: 0 <= i < |probes| ==> ValidateObservation(probes[i], obs[i]).None?)
  }

  lemma {:induction false} NoErrorIff(probes: seq<Probe>, obs: seq<Observation>)
    requires |probes| == |obs|
    ensures FirstError(probes, obs).None? <==> forall i :: 0 <= i < |probes| ==> ValidateObservation(probes[i], obs[i]).None?
  {
    if probes != [] {
      NoErrorIff(probes[1..], obs[1..]);
      assert forall i :: 1 <= i < |probes| ==> probes[i] == probes[1..][i - 1] && obs[i] == obs[1..][i - 1];
    }
  }

  lemma {:induction false} ValuesMultiset(raw: seq<Option<Observation>>, o: Observation)
    requires None !in raw
    ensures o in Values(raw) <==> Some(o) in raw
  {
    if o in Values(raw) {
      var i :| 0 <= i < |raw| && Values(raw)[i] == o;
      assert raw[i] in raw && raw[i] == Some(o);
    }
    if Some(o) in raw {
      var i :| 0 <= i < |raw| && raw[i] == Some(o);
      assert Values(raw)[i] == o;
    }
  }

  // Every plan that is finalized passes the check on its record, with observations that
  // were all supplied.
  lemma {:induction false} FinalizedVerifies(probes: seq<Probe>, raw: seq<Option<Observation>>)
    requires FinalizeSpec(probes, raw).Ok?
    ensures var obs := FinalizeSpec(probes, raw).observations;
      RecordVerifies(probes, obs) && forall i :: 0 <= i < |obs| ==> Some(obs[i]) in raw
  {
    var obs := Values(raw);
    var ordered := Ordered(probes, ByKey(obs));
    NoErrorIff(probes, ordered);
    hide ValidateObservation, FirstError, RepeatsKey;
    forall i | 0 <= i < |probes| ensures ObservationKey(ordered[i]) == ProbeKey(probes[i]) && Some(ordered[i]) in raw {
      assert probes[i] in probes;
      ByKeyIn(obs, ProbeKey(probes[i]));
      ValuesMultiset(raw, ordered[i]);
    }
  }

  // ---- finalization does not depend on the order of the observations -----------------

  lemma {:induction false} SameMembers<T>(s: seq<T>, t: seq<T>, x: T)
    requires multiset(s) == multiset(t)
    ensures x in s <==> x in t
  {
    assert x in s <==> x in multiset(s);
    assert x in t <==> x in multiset(t);
  }

  lemma {:induction false} RepeatsIffCount(obs: seq<Observation>)
    ensures RepeatsKey(obs) <==> |ByKey(obs)| < |obs|
    ensures |ByKey(obs)| <= |obs|
  {
    if obs != [] {
      var n := |obs| - 1;
      var pre := obs[..n];
      RepeatsIffCount(pre);
      ByKeyIn(pre, ObservationKey(obs[n]));
      if RepeatsKey(pre) {
        var i, j :| 0 <= i < j < n && ObservationKey(pre[i]) == ObservationKey(pre[j]);
        assert ObservationKey(obs[i]) == ObservationKey(obs[j]);
      }
      if ObservationKey(obs[n]) in ByKey(pre) {
        var i :| 0 <= i < n && ObservationKey(pre[i]) == ObservationKey(obs[n]);
        assert ObservationKey(obs[i]) == ObservationKey(obs[n]);
      }
      if RepeatsKey(obs) {
        var i, j :| 0 <= i < j < |obs| && ObservationKey(obs[i]) == ObservationKey(obs[j]);
        if j < n {
          assert ObservationKey(pre[i]) == ObservationKey(pre[j]);
        } else {
          assert ObservationKey(pre[i]) == ObservationKey(obs[n]);
        }
      }
    }
  }

  lemma {:induction false} SharedKey(obs: seq<Observation>, i: nat, j: nat)
    requires i < j < |obs|
    ensures ObservationKey(obs[i]) == ObservationKey(obs[j]) ==> RepeatsKey(obs)
  {}

  // Without a repeated key, the map holds exactly the listed observations.
  lemma {:induction false} ByKeyHolds(obs: seq<Observation>, o: Observation)
    requires !RepeatsKey(obs) && o in obs
    ensures ObservationKey(o) in ByKey(obs) && ByKey(obs)[ObservationKey(o)] == o
  {
    hide RepeatsKey;
    var k := ObservationKey(o);
    var i :| 0 <= i < |obs| && obs[i] == o;
    ByKeyIn(obs, k);
    var j :| 0 <= j < |obs| && obs[j] == ByKey(obs)[k];
    if i < j { SharedKey(obs, i, j); }
    if j < i { SharedKey(obs, j, i); }
  }

  lemma {:induction false} SameKeyMap(a: seq<Observation>, b: seq<Observation>)
    requires |a| == |b| && forall o :: o in a <==> o in b
    ensures ByKey(a).Keys == ByKey(b).Keys
    ensures !RepeatsKey(a) && !RepeatsKey(b) ==> ByKey(a) == ByKey(b)
  {
    forall k ensures k in ByKey(a) <==> k in ByKey(b) {
      ByKeyIn(a, k);
      ByKeyIn(b, k);
      if k in ByKey(a) {
        var o := ByKey(a)[k];
        var i :| 0 <= i < |b| && b[i] == o;
      }
      if k in ByKey(b) {
        var o := ByKey(b)[k];
        var i :| 0 <= i < |a| && a[i] == o;
      }
    }
    if !RepeatsKey(a) && !RepeatsKey(b) {
      forall k | k in ByKey(a) ensures ByKey(a)[k] == ByKey(b)[k] {
        ByKeyIn(a, k);
        ByKeyHolds(b, ByKey(a)[k]);
      }
    }
  }

  // Any ordering of the same observations finalizes to the same outcome.
  lemma {:induction false} FinalizeOrderIndependent(probes: seq<Probe>, raw: seq<Option<Observation>>, raw': seq<Option<Observation>>)
    requires multiset(raw) == multiset(raw')
    ensures FinalizeSpec(probes, raw) == FinalizeSpec(probes, raw')
  {
    SameMembers(raw, raw', None);
    assert |raw| == |multiset(raw)| == |raw'|;
    if None !in raw {
      var a, b := Values(raw), Values(raw');
      forall o ensures o in a <==> o in b {
        ValuesMultiset(raw, o);
        ValuesMultiset(raw', o);
        SameMembers(raw, raw', Some(o));
      }
      SameKeyMap(a, b);
      RepeatsIffCount(a);
      RepeatsIffCount(b);
      assert |ByKey(a)| == |ByKey(a).Keys| == |ByKey(b).Keys| == |ByKey(b)|;
    }
  }

  // ---- which error is given ---------------------------------------------------------

  predicate HeldInFlight(o: Observation) {
    o.SawUnavailableTitle? || o.SawUnavailableContent?
  }

  // The observation is what the probe hopes for: nothing there, or its own owner.
  predicate Hoped(p: Probe, o: Observation) {
    match p
    case AbsentTitle(_) => o.SawAbsentTitle?
    case OwnedTitle(_, n) => o.SawCommittedTitle? && o.owner == n
    case AbsentContent(_) => o.SawAbsentContent?
  }

  // What an observation tells of a probe: a claim held by a commit in flight is unavailable,
  // a title or content found where none should be is a conflict, and everything else that
  // was not hoped for is a mismatch.
  lemma {:induction false} AnswerExactly(p: Probe, o: Observation)
    ensures ValidateObservation(p, o) == None <==> !HeldInFlight(o) && Hoped(p, o)
    ensures ValidateObservation(p, o) == Some(Unavailable) <==> HeldInFlight(o)
    ensures ValidateObservation(p, o) == Some(TitleConflict) <==> p.AbsentTitle? && o.SawCommittedTitle?
    ensures ValidateObservation(p, o) == Some(ContentConflict) <==> p.AbsentContent? && o.SawCommittedContent?
    ensures ValidateObservation(p, o) in
      {None, Some(Unavailable), Some(TitleConflict), Some(ContentConflict), Some(Mismatched)}
  {
  }

  // Two observations with one key.
  ghost predicate Repeats(raw: seq<Option<Observation>>) {
    exists i, j :: 0 <= i < j < |raw| && raw[i].Some? && raw[j].Some?
      && ObservationKey(raw[i].value) == ObservationKey(raw[j].value)
  }

  ghost predicate Asked(probes: seq<Probe>, k: Key) {
    exists i :: 0 <= i < |probes| && ProbeKey(probes[i]) == k
  }

  ghost predicate Answered(raw: seq<Option<Observation>>, k: Key) {
    exists i :: 0 <= i < |raw| && raw[i].Some? && ObservationKey(raw[i].value) == k
  }

  ghost predicate NobodyAsked(probes: seq<Probe>, raw: seq<Option<Observation>>) {
    exists i :: 0 <= i < |raw| && raw[i].Some? && !Asked(probes, ObservationKey(raw[i].value))
  }

  ghost predicate Unanswered(probes: seq<Probe>, raw: seq<Option<Observation>>) {
    exists i :: 0 <= i < |probes| && !Answered(raw, ProbeKey(probes[i]))
  }

  // The observation of probe `k` is the one with its key.
  ghost predicate AnswersAt(probes: seq<Probe>, raw: seq<Option<Observation>>, k: nat, o: Observation) {
    k < |probes| && Some(o) in raw && ObservationKey(o) == ProbeKey(probes[k])
  }

  lemma {:induction false} KeysAsked(probes: seq<Probe>, k: Key)
    ensures k in KeysOf(probes) <==> Asked(probes, k)
  {
    if i :| 0 <= i < |probes| && ProbeKey(probes[i]) == k { assert probes[i] in probes; }
  }

  lemma {:induction false} KeysAnswered(raw: seq<Option<Observation>>, k: Key)
    requires None !in raw
    ensures k in ByKey(Values(raw)) <==> Answered(raw, k)
  {
    var obs := Values(raw);
    ByKeyIn(obs, k);
    if i :| 0 <= i < |raw| && raw[i].Some? && ObservationKey(raw[i].value) == k { assert obs[i] == raw[i].value; }
    if i :| 0 <= i < |obs| && ObservationKey(obs[i]) == k { assert raw[i] in raw; }
  }

  lemma {:induction false} RepeatsIs(raw: seq<Option<Observation>>)
    requires None !in raw
    ensures RepeatsKey(Values(raw)) <==> Repeats(raw)
  {
    var obs := Values(raw);
    forall i | 0 <= i < |raw| ensures raw[i] == Some(obs[i]) { assert raw[i] in raw; }
  }

  lemma {:induction false} AskedForAll(probes: seq<Probe>, raw: seq<Option<Observation>>)
    requires None !in raw
    ensures (forall k :: Answered(raw, k) ==> Asked(probes, k)) <==> !NobodyAsked(probes, raw)
  {
    hide Asked;
    if NobodyAsked(probes, raw) {
      var i :| 0 <= i < |raw| && raw[i].Some? && !Asked(probes, ObservationKey(raw[i].value));
      assert Answered(raw, ObservationKey(raw[i].value));
    }
  }

  lemma {:induction false} AnsweredAll(probes: seq<Probe>, raw: seq<Option<Observation>>)
    ensures (forall k :: Asked(probes, k) ==> Answered(raw, k)) <==> !Unanswered(probes, raw)
  {
    hide Answered;
    if Unanswered(probes, raw) {
      var i :| 0 <= i < |probes| && !Answered(raw, ProbeKey(probes[i]));
      assert Asked(probes, ProbeKey(probes[i]));
    }
  }

  lemma {:induction false} ErrorKinds(probes: seq<Probe>, obs: seq<Observation>)
    requires |probes| == |obs|
    ensures FirstError(probes, obs) in
      {None, Some(Unavailable), Some(TitleConflict), Some(ContentConflict), Some(Mismatched)}
  {
    if probes != [] {
      AnswerExactly(probes[0], obs[0]);
      hide ValidateObservation;
      ErrorKinds(probes[1..], obs[1..]);
    }
  }

  // The checks in the order they are made: an observation that does not read, a key given
  // twice, one that no probe asks for, a probe nobody answers.
  lemma {:induction false} FinalizeErrors(probes: seq<Probe>, raw: seq<Option<Observation>>)
    ensures var r := FinalizeSpec(probes, raw);
      if None in raw then r == Err(Malformed)
      else if Repeats(raw) then r == Err(Duplicate)
      else if NobodyAsked(probes, raw) then r == Err(Unexpected)
      else if Unanswered(probes, raw) then r == Err(Missing)
      else r.Ok? || r.error in {Unavailable, TitleConflict, ContentConflict, Mismatched}
  {
    if None !in raw {
      var obs := Values(raw);
      RepeatsIs(raw);
      forall k ensures k in ByKey(obs) <==> Answered(raw, k) { KeysAnswered(raw, k); }
      forall k ensures k in KeysOf(probes) <==> Asked(probes, k) { KeysAsked(probes, k); }
      hide ByKey, KeysOf, RepeatsKey, Repeats, ValidateObservation;
      AskedForAll(probes, raw);
      AnsweredAll(probes, raw);
      if KeysOf(probes) <= ByKey(obs).Keys { ErrorKinds(probes, Ordered(probes, ByKey(obs))); }
    }
  }

  lemma {:induction false} FirstOf(probes: seq<Probe>, obs: seq<Observation>, k: nat)
    requires |probes| == |obs| && k < |probes|
    requires forall j :: 0 <= j < k ==> ValidateObservation(probes[j], obs[j]).None?
    ensures ValidateObservation(probes[k], obs[k]).Some? ==> FirstError(probes, obs) == ValidateObservation(probes[k], obs[k])
  {
    hide ValidateObservation;
    if k > 0 {
      assert ValidateObservation(probes[0], obs[0]).None?;
      FirstOf(probes[1..], obs[1..], k - 1);
    }
  }

  // Past those checks the first probe that its observation does not settle gives its error;
  // when there is none, the observations are returned in probe order.
  lemma {:induction false} FinalizeAnswers(probes: seq<Probe>, raw: seq<Option<Observation>>, k: nat, o: Observation)
    requires None !in raw && !Repeats(raw) && !NobodyAsked(probes, raw) && !Unanswered(probes, raw)
    requires AnswersAt(probes, raw, k, o)
    requires forall j: nat, x :: j < k && AnswersAt(probes, raw, j, x) ==> ValidateObservation(probes[j], x) == None
    ensures ValidateObservation(probes[k], o).Some? ==>
      FinalizeSpec(probes, raw) == Err(ValidateObservation(probes[k], o).value)
    ensures FinalizeSpec(probes, raw).Ok? ==>
      |FinalizeSpec(probes, raw).observations| == |probes| && FinalizeSpec(probes, raw).observations[k] == o
  {
    var obs := Values(raw);
    RepeatsIs(raw);
    forall k ensures k in ByKey(obs) <==> Answered(raw, k) { KeysAnswered(raw, k); }
    forall k ensures k in KeysOf(probes) <==> Asked(probes, k) { KeysAsked(probes, k); }
    AskedForAll(probes, raw);
    AnsweredAll(probes, raw);
    ValuesMultiset(raw, o);
    ByKeyHolds(obs, o);
    hide RepeatsKey, Repeats, ValidateObservation, Asked, Answered;
    var ordered := Ordered(probes, ByKey(obs));
    assert ordered[k] == o;
    forall j: nat | j < k ensures ValidateObservation(probes[j], ordered[j]) == None {
      ByKeyIn(obs, ProbeKey(probes[j]));
      ValuesMultiset(raw, ordered[j]);
      assert AnswersAt(probes, raw, j, ordered[j]);
    }
    hide ByKey, KeysOf;
    FirstOf(probes, ordered, k);
  }
}
