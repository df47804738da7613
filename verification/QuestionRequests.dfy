// What a list of question references asks for.
module QuestionRequests {
  // Resolving is stated by the numbers the references name, not by their spelling.
  import opened Common
  import opened Picking
  import opened Decimal
  import opened Identifiers
  import opened QuestionLines
  import opened Questions
  import opened QuestionFormat
  import opened QuestionOps
  import opened QuestionEdits
  import opened QuestionNormalize
  import opened QuestionHistory
  import opened QuestionResolution

  // ---- references ------------------------------------------------------------------------

  // The reference names the entry: by a number it spells in any accepted way, or by the very
  // time stamp.
  predicate Means(value: string, id: Id) {
    if id.Numbered? then QuestionNumber(value) == Some(id.num) else id.stamp == value
  }

  lemma {:induction false} SpelledOnce(m: nat, n: nat)
    ensures "Q" + Numeral(m) == "Q" + Numeral(n) <==> m == n
  {
    ValueOfNumeral(m);
    ValueOfNumeral(n);
    if "Q" + Numeral(m) == "Q" + Numeral(n) {
      assert Numeral(m) == ("Q" + Numeral(m))[1..] == ("Q" + Numeral(n))[1..] == Numeral(n);
    }
  }

  // A reference and an entry that can be read are compared by what they mean.
  lemma {:induction false} MeansIff(value: string, id: Id)
    requires GoodId(id)
    ensures CanonReference(value) == EntryId(id) <==> Means(value, id)
  {
    hide QuestionNumber, IsLegacyId, Numeral;
    if QuestionNumber(value).Some? {
      var n := QuestionNumber(value).value;
      QuestionNumberInRange(value);
      QuestionIdRoundTrip(n);
      if id.Numbered? { SpelledOnce(id.num, n); }
    } else if id.Numbered? {
      QuestionNumberInRange(id.source);
      QuestionIdRoundTrip(id.num);
    }
  }

  // Leading zeros do not matter.
  lemma {:induction false} ZerosExample()
    ensures CanonReference("Q01") == "Q1" && CanonReference("Q0") == "Q0" && CanonReference("q1") == "q1"
  {
    assert "Q01"[1..] == "01" && "01"[1..] == "1" && "1"[1..] == "" && "01"[..1] == "0" && "0"[..0] == "";
    assert Value("0") == 0 && Value("01") == 1;
    assert StripZeros("01") == "1";
    assert Numeral(1) == "1";
    assert "Q0"[1..] == "0";
  }

  lemma {:induction false} CanonAt(values: seq<string>)
    ensures |CanonReferences(values)| == |values|
    ensures forall i :: 0 <= i < |values| ==> CanonReferences(values)[i] == CanonReference(values[i])
  {
    hide CanonReference;
    if values != [] { CanonAt(values[1..]); }
  }

  predicate FirstAt(values: seq<string>, i: nat) {
    i < |values| && values[i] !in values[..i]
  }

  ghost function Firsts(values: seq<string>): nat -> bool {
    (i: nat) => FirstAt(values, i)
  }

  lemma {:induction false} FirstsOfFront(values: seq<string>, n: nat, i: nat)
    requires i < n <= |values|
    ensures FirstAt(values[..n], i) <==> FirstAt(values, i)
  {
    assert values[..n][..i] == values[..i];
  }

  lemma {:induction false} DedupedStep(values: seq<string>)
    requires values != []
    ensures var n: nat := |values| - 1; var before := Deduped(values[..n]);
      Deduped(values) == if FirstAt(values, n) then before + [values[n]] else before
  {
  }

  // The references, each in the place of its first occurrence.
  lemma {:induction false} DedupedPicks(values: seq<string>)
    ensures Picks(values, Firsts(values), Deduped(values))
  {
    if values == [] {
      PicksNone<string>(Firsts(values));
    } else {
      var n: nat := |values| - 1;
      var front := values[..n];
      DedupedPicks(front);
      DedupedStep(values);
      assert values == front + [values[n]];
      forall i: nat | i < n ensures Firsts(front)(i) <==> Firsts(values)(i) { FirstsOfFront(values, n, i); }
      hide FirstAt, Deduped, Picks;
      PicksSame(front, Firsts(front), Firsts(values), Deduped(front));
      PicksSnoc(front, values[n], Firsts(values), Deduped(front));
    }
  }

  lemma {:induction false} DedupedDistinct(values: seq<string>)
    ensures Distinct(Deduped(values))
  {
    if values != [] {
      var n: nat := |values| - 1;
      DedupedDistinct(values[..n]);
      DedupedStep(values);
      var before := Deduped(values[..n]);
      assert forall i :: 0 <= i < |before| ==> before[i] in before;
      hide Deduped;
    }
  }

  lemma {:induction false} RequestedIff(values: seq<string>, id: Id)
    requires GoodId(id)
    ensures EntryId(id) in Deduped(CanonReferences(values)) <==> exists v :: v in values && Means(v, id)
  {
    CanonAt(values);
    hide CanonReference, Means, EntryId, GoodId;
    var canon := CanonReferences(values);
    if EntryId(id) in canon {
      var i :| 0 <= i < |canon| && canon[i] == EntryId(id);
      MeansIff(values[i], id);
      assert values[i] in values;
    }
    if v :| v in values && Means(v, id) {
      var i :| 0 <= i < |values| && values[i] == v;
      MeansIff(v, id);
      assert canon[i] in canon;
    }
  }

  // ---- resolving ---------------------------------------------------------------------------

  ghost predicate Asked(values: seq<string>, b: Block) {
    b.EntryBlock? && b.entry.head.resolved.None? && exists v :: v in values && Means(v, b.entry.head.id)
  }

  lemma {:induction false} FlipsIff(b: Block, values: seq<string>)
    requires b.EntryBlock? ==> GoodId(b.entry.head.id)
    ensures Flips(b, Deduped(CanonReferences(values))) <==> Asked(values, b)
  {
    hide EntryId, Means, Deduped, CanonReferences, GoodId;
    if b.EntryBlock? { RequestedIff(values, b.entry.head.id); }
  }

  lemma {:induction false} AskedEntry(values: seq<string>, b: Block)
    requires Asked(values, b)
    ensures b.EntryBlock?
  {
  }

  // The open entries that a reference names get the resolution, everything else stays where
  // and as it was; a divider is added iff there was none and an entry was resolved.
  lemma {:induction false} ResolvedExactly(blocks: seq<Block>, values: seq<string>, ref: Ref)
    requires forall b :: b in blocks && b.EntryBlock? ==> GoodId(b.entry.head.id)
    ensures var r := ResolvedBlocks(blocks, Deduped(CanonReferences(values)), ref);
      && |r| >= |blocks|
      && (forall k :: 0 <= k < |blocks| && !Asked(values, blocks[k]) ==> r[k] == blocks[k])
      && (forall k :: 0 <= k < |blocks| && Asked(values, blocks[k]) ==>
            var e := blocks[k].entry;
            r[k] == EntryBlock(Entry(Head(e.head.id, e.head.body, Some(ref)), e.continuation)))
      && r[|blocks|..] ==
           if (exists k :: 0 <= k < |blocks| && Asked(values, blocks[k]))
              && !(exists k :: 0 <= k < |blocks| && blocks[k].Header? && blocks[k].divider)
           then [Prose([""]), Header("## Resolved", true)] else []
  {
    var requested := Deduped(CanonReferences(values));
    hide EntryId, Means, Deduped, CanonReferences, GoodId, Asked, Flips;
    forall k | 0 <= k < |blocks| ensures Flips(blocks[k], requested) <==> Asked(values, blocks[k]) {
      FlipsIff(blocks[k], values);
    }
    forall k | 0 <= k < |blocks| && Asked(values, blocks[k]) ensures blocks[k].EntryBlock? { AskedEntry(values, blocks[k]); }
    assert AnyFlips(blocks, requested) <==> exists k :: 0 <= k < |blocks| && Asked(values, blocks[k]) by {
      if b :| b in blocks && Flips(b, requested) {
        var k :| 0 <= k < |blocks| && blocks[k] == b;
      }
      if k :| 0 <= k < |blocks| && Asked(values, blocks[k]) { assert blocks[k] in blocks; }
    }
    assert HasDivider(blocks) <==> exists k :: 0 <= k < |blocks| && blocks[k].Header? && blocks[k].divider by {
      if k :| 0 <= k < |blocks| && blocks[k].Header? && blocks[k].divider { assert blocks[k] in blocks; }
    }
  }

  // ---- what is reported ----------------------------------------------------------------------

  ghost function Passing(ids: seq<string>, heads: seq<Head>, p: (seq<Head>, string) -> bool): nat -> bool {
    (i: nat) => i < |ids| && p(heads, ids[i])
  }

  lemma {:induction false} SelectPicks(ids: seq<string>, heads: seq<Head>, p: (seq<Head>, string) -> bool)
    ensures Picks(ids, Passing(ids, heads, p), Select(ids, heads, p))
  {
    if ids == [] {
      PicksNone<string>(Passing(ids, heads, p));
    } else {
      var n: nat := |ids| - 1;
      var front := ids[..n];
      SelectPicks(front, heads, p);
      assert ids == front + [ids[n]];
      assert Select(ids, heads, p) == if p(heads, ids[n]) then Select(front, heads, p) + [ids[n]] else Select(front, heads, p);
      hide Select, Picks;
      PicksSame(front, Passing(front, heads, p), Passing(ids, heads, p), Select(front, heads, p));
      PicksSnoc(front, ids[n], Passing(ids, heads, p), Select(front, heads, p));
    }
  }

  // The entries a canonical reference names.
  function NamedBy(heads: seq<Head>, s: string): set<nat> {
    set i: nat | i < |heads| && EntryId(heads[i].id) == s
  }

  lemma {:induction false} NamedBySnoc(heads: seq<Head>, s: string)
    requires heads != []
    ensures var n := |heads| - 1;
      |NamedBy(heads, s)| == |NamedBy(heads[..n], s)| + (if EntryId(heads[n].id) == s then 1 else 0)
  {
    hide EntryId;
    var n: nat := |heads| - 1;
    var before := NamedBy(heads[..n], s);
    var here: set<nat> := if EntryId(heads[n].id) == s then {n} else {};
    forall i: nat ensures i in NamedBy(heads, s) <==> i in before + here {}
    assert NamedBy(heads, s) == before + here;
  }

  lemma {:induction false} CountIs(heads: seq<Head>, s: string)
    ensures CountId(heads, s) == |NamedBy(heads, s)|
  {
    hide EntryId;
    if heads == [] {
      assert NamedBy(heads, s) == {};
    } else {
      var n: nat := |heads| - 1;
      CountIs(heads[..n], s);
      CountIdJoin(heads[..n], [heads[n]], s);
      assert heads == heads[..n] + [heads[n]] && [heads[n]][1..] == [];
      hide NamedBy;
      NamedBySnoc(heads, s);
    }
  }

  ghost predicate NamesOne(heads: seq<Head>, v: string) {
    exists i :: 0 <= i < |heads| && Means(v, heads[i].id)
  }

  ghost predicate NamesTwo(heads: seq<Head>, v: string) {
    exists i, j :: 0 <= i < j < |heads| && Means(v, heads[i].id) && Means(v, heads[j].id)
  }

  ghost predicate NamesOpen(heads: seq<Head>, v: string) {
    exists i :: 0 <= i < |heads| && Means(v, heads[i].id) && heads[i].resolved.None?
  }

  ghost predicate AllGood(heads: seq<Head>) {
    forall h :: h in heads ==> GoodId(h.id)
  }

  lemma {:induction false} AnotherIff(s: set<nat>, i: nat)
    requires i in s
    ensures |s| > 1 <==> exists j :: j in s && j != i
  {
    assert s == (s - {i}) + {i} && |s| == |s - {i}| + 1;
    assert s - {i} != {} <==> exists j :: j in s && j != i;
  }

  lemma {:induction false} NamedIff(heads: seq<Head>, v: string)
    requires AllGood(heads)
    ensures forall i: nat :: i in NamedBy(heads, CanonReference(v)) <==> i < |heads| && Means(v, heads[i].id)
  {
    hide CanonReference, Means, EntryId, GoodId;
    forall i: nat | i < |heads|
      ensures i in NamedBy(heads, CanonReference(v)) <==> Means(v, heads[i].id)
    {
      assert heads[i] in heads;
      MeansIff(v, heads[i].id);
    }
  }

  // How many entries a reference names, and whether one of them is open.
  lemma {:induction false} CountMeans(heads: seq<Head>, v: string)
    requires AllGood(heads)
    ensures CountId(heads, CanonReference(v)) > 0 <==> NamesOne(heads, v)
    ensures CountId(heads, CanonReference(v)) > 1 <==> NamesTwo(heads, v)
  {
    NamedIff(heads, v);
    CountIs(heads, CanonReference(v));
    var named := NamedBy(heads, CanonReference(v));
    hide CanonReference, Means, NamedBy, CountId, AllGood;
    if NamesOne(heads, v) {
      var i: nat :| i < |heads| && Means(v, heads[i].id);
      assert i in named;
      AnotherIff(named, i);
      if j :| j in named && j != i {
        assert Means(v, heads[j].id);
      }
    }
    if NamesTwo(heads, v) {
      var a: nat, b: nat :| a < b < |heads| && Means(v, heads[a].id) && Means(v, heads[b].id);
      assert a in named && b in named;
      AnotherIff(named, a);
    }
    if named != {} {
      var i := Pick(named);
      assert Means(v, heads[i].id);
    }
  }

  lemma {:induction false} OpenMeans(heads: seq<Head>, v: string)
    requires AllGood(heads)
    ensures HasOpen(heads, CanonReference(v)) <==> NamesOpen(heads, v)
  {
    NamedIff(heads, v);
    hide CanonReference, Means, EntryId, AllGood;
    var s := CanonReference(v);
    if h :| h in heads && h.resolved.None? && EntryId(h.id) == s {
      var i: nat :| i < |heads| && heads[i] == h;
      assert i in NamedBy(heads, s);
    }
    if i: nat :| i < |heads| && Means(v, heads[i].id) && heads[i].resolved.None? {
      assert i in NamedBy(heads, s) && heads[i] in heads;
    }
  }

  // The canonical spellings of the references that satisfy `p`.
  ghost predicate SpellsThose(r: seq<string>, values: seq<string>, p: string -> bool) {
    forall s :: s in r <==> exists v :: v in values && CanonReference(v) == s && p(v)
  }

  lemma {:induction false} SelectSpells(values: seq<string>, heads: seq<Head>, p: (seq<Head>, string) -> bool, q: string -> bool)
    requires forall v :: v in values ==> (p(heads, CanonReference(v)) <==> q(v))
    ensures var r := Select(Deduped(CanonReferences(values)), heads, p); SpellsThose(r, values, q) && Distinct(r)
  {
    hide CanonReference;
    var ids := Deduped(CanonReferences(values));
    var r := Select(ids, heads, p);
    SelectPicks(ids, heads, p);
    CanonAt(values);
    DedupedDistinct(CanonReferences(values));
    PicksDistinct(ids, Passing(ids, heads, p), r);
    hide Select, Distinct;
    forall s ensures s in r <==> exists v :: v in values && CanonReference(v) == s && q(v) {
      PicksFrom(ids, Passing(ids, heads, p), r, s);
      if s in r {
        var i: nat :| i < |ids| && p(heads, ids[i]) && ids[i] == s;
        assert s in ids;
        var k :| 0 <= k < |values| && CanonReferences(values)[k] == s;
        assert values[k] in values && CanonReference(values[k]) == s;
      }
      if v :| v in values && CanonReference(v) == s && q(v) {
        var k :| 0 <= k < |values| && values[k] == v;
        assert CanonReferences(values)[k] == s && s in ids;
        var i: nat :| i < |ids| && ids[i] == s;
        assert Passing(ids, heads, p)(i);
      }
    }
  }

  // The reports of a resolution, each reference once: those that name two entries, those
  // that name an entry, those that name none, and those that name an open entry.
  lemma {:induction false} ReportsExactly(values: seq<string>, heads: seq<Head>)
    requires AllGood(heads)
    ensures var ids := Deduped(CanonReferences(values));
      && SpellsThose(Select(ids, heads, Ambiguous), values, v => NamesTwo(heads, v)) && Distinct(Select(ids, heads, Ambiguous))
      && SpellsThose(Select(ids, heads, Present), values, v => NamesOne(heads, v)) && Distinct(Select(ids, heads, Present))
      && SpellsThose(Select(ids, heads, Absent), values, v => !NamesOne(heads, v)) && Distinct(Select(ids, heads, Absent))
      && SpellsThose(Select(ids, heads, HasOpen), values, v => NamesOpen(heads, v)) && Distinct(Select(ids, heads, HasOpen))
  {
    forall v ensures (Ambiguous(heads, CanonReference(v)) <==> NamesTwo(heads, v))
        && (Present(heads, CanonReference(v)) <==> NamesOne(heads, v))
        && (Absent(heads, CanonReference(v)) <==> !NamesOne(heads, v))
        && (HasOpen(heads, CanonReference(v)) <==> NamesOpen(heads, v))
    {
      CountMeans(heads, v);
      OpenMeans(heads, v);
    }
    hide CanonReference, NamesOne, NamesTwo, NamesOpen, HasOpen, Ambiguous, Present, Absent, Deduped, Select, SpellsThose, Distinct, AllGood;
    SelectSpells(values, heads, Ambiguous, v => NamesTwo(heads, v));
    SelectSpells(values, heads, Present, v => NamesOne(heads, v));
    SelectSpells(values, heads, Absent, v => !NamesOne(heads, v));
    SelectSpells(values, heads, HasOpen, v => NamesOpen(heads, v));
  }

  // ---- the whole operation ---------------------------------------------------------------------

  lemma {:induction false} HeadsAmong(blocks: seq<Block>)
    requires forall b :: b in blocks && b.EntryBlock? ==> GoodId(b.entry.head.id)
    ensures AllGood(BlockHeads(blocks))
  {
    hide GoodId;
    if blocks != [] {
      assert blocks[0] in blocks && forall b :: b in blocks[1..] ==> b in blocks;
      HeadsAmong(blocks[1..]);
    }
  }

  lemma {:induction false} GoodHeads(blocks: seq<Block>)
    requires WellFormed(blocks)
    ensures AllGood(BlockHeads(blocks))
    ensures forall b :: b in blocks && b.EntryBlock? ==> GoodId(b.entry.head.id)
  {
    hide GoodId, AllContinuations, AllPlain, Canon, IsTopic, IsSection, IsHeadLine;
    forall b | b in blocks && b.EntryBlock? ensures GoodId(b.entry.head.id) {
      var k :| 0 <= k < |blocks| && blocks[k] == b;
      assert GoodBlock(blocks[k]);
    }
    hide WellFormed, GoodBlock;
    HeadsAmong(blocks);
  }

  // Artifact `i` is the only one whose stem carries the number.
  ghost predicate OnlyArtifact(documents: seq<Document>, n: nat, i: nat) {
    && i < |documents| && ExtractDecisionNumber(documents[i].stem) == Some(n)
    && forall j :: 0 <= j < |documents| && ExtractDecisionNumber(documents[j].stem) == Some(n) ==> j == i
  }

  lemma {:induction false} MatchingIn(documents: seq<Document>, n: nat, d: Document)
    ensures d in Matching(documents, n) <==> d in documents && ExtractDecisionNumber(d.stem) == Some(n)
  {
    hide ExtractDecisionNumber;
    if documents != [] {
      MatchingIn(documents[1..], n, d);
      assert documents == [documents[0]] + documents[1..];
    }
  }

  lemma {:induction false} ShiftedOnly(documents: seq<Document>, n: nat, i: nat)
    requires 0 < i < |documents|
    ensures OnlyArtifact(documents, n, i)
      <==> OnlyArtifact(documents[1..], n, i - 1) && ExtractDecisionNumber(documents[0].stem) != Some(n)
  {
    hide ExtractDecisionNumber;
    var rest := documents[1..];
    forall j | 0 <= j < |rest| ensures rest[j] == documents[j + 1] {}
    if OnlyArtifact(rest, n, i - 1) && ExtractDecisionNumber(documents[0].stem) != Some(n) {
      forall j | 0 <= j < |documents| && ExtractDecisionNumber(documents[j].stem) == Some(n) ensures j == i {
        assert j > 0 && rest[j - 1] == documents[j];
      }
    }
  }

  lemma {:induction false} MatchingOne(documents: seq<Document>, n: nat, i: nat)
    requires i < |documents| && ExtractDecisionNumber(documents[i].stem) == Some(n)
    ensures |Matching(documents, n)| == 1 <==> OnlyArtifact(documents, n, i)
  {
    hide ExtractDecisionNumber;
    var rest := documents[1..];
    if i == 0 {
      if Matching(rest, n) != [] {
        var d := Matching(rest, n)[0];
        MatchingIn(rest, n, d);
        var j :| 0 <= j < |rest| && rest[j] == d;
        assert documents[j + 1] == d;
      } else {
        forall d | d in rest ensures ExtractDecisionNumber(d.stem) != Some(n) { MatchingIn(rest, n, d); }
        forall j | 0 < j < |documents| ensures documents[j] in rest { assert rest[j - 1] == documents[j]; }
      }
    } else {
      MatchingOne(rest, n, i - 1);
      MatchingIn(rest, n, documents[i]);
      assert rest[i - 1] in rest;
      ShiftedOnly(documents, n, i);
    }
  }

  // The resolving decision is accepted iff the identifier carries its number, one artifact
  // alone does, and that one parses as this number and is active.
  lemma {:induction false} AcceptedIff(documents: seq<Document>, resolvedBy: string, n: nat)
    ensures AcceptedDecision(documents, resolvedBy) == Some(n) <==>
      && ExtractDecisionNumber(resolvedBy) == Some(n)
      && exists i: nat :: OnlyArtifact(documents, n, i) && documents[i].parsed == Some((n, true))
  {
    hide ExtractDecisionNumber;
    var matching := Matching(documents, n);
    if matching != [] {
      var d := matching[0];
      MatchingIn(documents, n, d);
      var i: nat :| i < |documents| && documents[i] == d;
      MatchingOne(documents, n, i);
    }
    if i: nat :| OnlyArtifact(documents, n, i) && documents[i].parsed == Some((n, true)) {
      MatchingOne(documents, n, i);
      MatchingIn(documents, n, documents[i]);
    }
  }

  lemma {:induction false} SpellsNone(r: seq<string>, values: seq<string>, p: string -> bool)
    requires SpellsThose(r, values, p)
    ensures r == [] <==> forall v :: v in values ==> !p(v)
  {
    hide CanonReference;
    if r != [] { assert r[0] in r; }
    forall v | v in values && p(v) ensures r != [] { assert CanonReference(v) in r; }
  }

  lemma {:induction false} Reported(targets: seq<string>, heads: seq<Head>)
    requires AllGood(heads)
    ensures var ids := Deduped(CanonReferences(targets));
      && (Select(ids, heads, Ambiguous) == [] <==> forall v :: v in targets ==> !NamesTwo(heads, v))
      && (Select(ids, heads, Absent) == [] <==> forall v :: v in targets ==> NamesOne(heads, v))
  {
    ReportsExactly(targets, heads);
    var ids := Deduped(CanonReferences(targets));
    var ambiguous, absent := Select(ids, heads, Ambiguous), Select(ids, heads, Absent);
    hide CanonReference, CanonReferences, Deduped, NamesOne, NamesTwo, Select, AllGood, Distinct;
    SpellsNone(ambiguous, targets, v => NamesTwo(heads, v));
    SpellsNone(absent, targets, v => !NamesOne(heads, v));
  }

  // A resolution goes through iff the decision is accepted, something is asked for, no
  // reference names two entries, every one names an entry, and number and date can be
  // written; it then reports the references that name an open entry.
  lemma {:induction false} DoneIff(lines: seq<string>, documents: seq<Document>, targets: seq<string>, resolvedBy: string, date: string)
    ensures var heads := BlockHeads(Parsed(lines).blocks); var r := ResolveDocument(lines, documents, targets, resolvedBy, date);
      && (r.Done? <==>
            && targets != [] && (forall v :: v in targets ==> NamesOne(heads, v) && !NamesTwo(heads, v))
            && IsIsoDate(date) && exists n :: n >= 1 && AcceptedDecision(documents, resolvedBy) == Some(n))
      && (r.Done? ==> SpellsThose(r.resolvedIds, targets, v => NamesOpen(heads, v)) && Distinct(r.resolvedIds))
  {
    var heads := BlockHeads(Parsed(lines).blocks);
    ParsedWellFormed(lines);
    GoodHeads(Parsed(lines).blocks);
    hide WellFormed, Parsed, BlockHeads, Deduped, CanonReferences, AcceptedDecision, IsIsoDate, AllGood, NamesOne, NamesTwo, NamesOpen,
      Formatted, Normalized, ResolvedDoc, Select, Distinct, SpellsThose;
    ReportsExactly(targets, heads);
    Reported(targets, heads);
  }

  // What is written then is the printed form of the normalized resolution.
  lemma {:induction false} DoneWrites(lines: seq<string>, documents: seq<Document>, targets: seq<string>, resolvedBy: string, date: string)
    requires ResolveDocument(lines, documents, targets, resolvedBy, date).Done?
    ensures AcceptedDecision(documents, resolvedBy).Some?
    ensures var ref := Ref(AcceptedDecision(documents, resolvedBy).value, date);
      ResolveDocument(lines, documents, targets, resolvedBy, date).lines
      == Formatted(Normalized(ResolvedFile(Parsed(lines), targets, ref)))
  {
    hide Parsed, Formatted, Normalized, ResolvedDoc, AcceptedDecision, BlockHeads, Deduped, CanonReferences, Select, GoodRef;
  }

  // A resolution leaves the file alone iff nothing is asked for or a reference names two
  // entries; otherwise it resolves what the references name.
  lemma {:induction false} ResolvedFileIs(lines: seq<string>, values: seq<string>, ref: Ref)
    ensures var doc := Parsed(lines);
      ResolvedFile(doc, values, ref)
      == if values == [] || (exists v :: v in values && NamesTwo(BlockHeads(doc.blocks), v)) then doc
         else ResolvedDoc(doc, Deduped(CanonReferences(values)), ref)
  {
    ParsedWellFormed(lines);
    GoodHeads(Parsed(lines).blocks);
    Reported(values, BlockHeads(Parsed(lines).blocks));
    hide WellFormed, Parsed, ResolvedDoc, BlockHeads, Deduped, CanonReferences, Select, AllGood, NamesTwo;
  }
}
