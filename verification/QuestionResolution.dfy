// Resolving questions by a decision, from document to document: the entries are flipped, the
// document is normalized and printed. Doing it twice on its own output is doing it once.
module QuestionResolution {
  import opened Common
  import opened Identifiers
  import opened Text
  import opened QuestionLines
  import opened Questions
  import opened QuestionFormat
  import opened QuestionOps
  import opened QuestionEdits
  import opened QuestionNormalize
  import opened QuestionReparse
  import opened QuestionHistory

  // A captured decision artifact: its stem and, when its text parses, number and status.
  datatype Document = Document(stem: string, parsed: Option<(nat, bool)>)

  datatype Outcome = Rejected | Raised | Done(lines: seq<string>, resolvedIds: seq<string>)

  function Matching(documents: seq<Document>, n: nat): seq<Document> {
    if documents == [] then []
    else
      (if ExtractDecisionNumber(documents[0].stem) == Some(n) then [documents[0]] else []) + Matching(documents[1..], n)
  }

  // The one active decision of that number, or None: no number in the identifier, none or
  // several artifacts of that number, an artifact that does not parse as it, or one that
  // is not active.
  function AcceptedDecision(documents: seq<Document>, resolvedBy: string): Option<nat> {
    var number := ExtractDecisionNumber(resolvedBy);
    if number.None? then None
    else
      var matching := Matching(documents, number.value);
      if |matching| == 1 && matching[0].parsed == Some((number.value, true)) then number else None
  }

  predicate HasOpen(heads: seq<Head>, s: string) {
    exists h :: h in heads && h.resolved.None? && EntryId(h.id) == s
  }

  function ResolveDocument(lines: seq<string>, documents: seq<Document>, targets: seq<string>,
                           resolvedBy: string, date: string): Outcome {
    var decision := AcceptedDecision(documents, resolvedBy);
    var requested := Deduped(CanonReferences(targets));
    var doc := Parsed(lines);
    var heads := BlockHeads(doc.blocks);
    if decision.None? || targets == [] then Rejected
    else if Select(requested, heads, Ambiguous) != [] then Rejected
    else if Select(requested, heads, Absent) != [] then Rejected
    else if !GoodRef(Ref(decision.value, date)) then Raised
    else
      var resolved := ResolvedDoc(doc, requested, Ref(decision.value, date));
      Done(Formatted(Normalized(resolved)), Select(requested, heads, HasOpen))
  }

  // ---- What a resolution leaves behind ----------------------------------------------------

  predicate NamesId(b: Block, s: string) {
    b.EntryBlock? && EntryId(b.entry.head.id) == s
  }

  lemma {:induction false} CountIdJoin(a: seq<Head>, b: seq<Head>, s: string)
    ensures CountId(a + b, s) == CountId(a, s) + CountId(b, s)
  {
    if a == [] {
      assert a + b == b;
    } else {
      CountIdJoin(a[1..], b, s);
      assert (a + b)[1..] == a[1..] + b;
    }
  }

  lemma {:induction false} CountIdIsCount(blocks: seq<Block>, s: string)
    ensures CountId(BlockHeads(blocks), s) == Count((b: Block) => NamesId(b, s), blocks)
  {
    hide EntryId;
    if blocks != [] {
      CountIdIsCount(blocks[1..], s);
      CountIdJoin(BlockHead(blocks[0]), BlockHeads(blocks[1..]), s);
      assert BlockHead(blocks[0]) != [] ==> BlockHead(blocks[0])[1..] == [];
    }
  }

  lemma {:induction false} NormalizeKeepsIds(blocks: seq<Block>, s: string)
    ensures CountId(BlockHeads(NormalBlocks(blocks)), s) == CountId(BlockHeads(blocks), s)
  {
    var p := (b: Block) => NamesId(b, s);
    hide EntryId;
    assert OfSubstance(p);
    hide NormalBlocks, BlankProse;
    NormalizeConserves(p, blocks);
    CountIdIsCount(blocks, s);
    CountIdIsCount(NormalBlocks(blocks), s);
    hide CountId, MintsDivider;
  }

  lemma {:induction false} FlipKeepsIds(heads: seq<Head>, requested: seq<string>, ref: Ref, s: string)
    ensures CountId(FlipHeads(heads, requested, ref), s) == CountId(heads, s)
  {
    hide EntryId;
    if heads != [] {
      FlipKeepsIds(heads[1..], requested, ref, s);
      assert FlipHeads(heads, requested, ref)[1..] == FlipHeads(heads[1..], requested, ref);
    }
  }

  // No requested entry is open.
  ghost predicate AllSettled(heads: seq<Head>, requested: seq<string>) {
    forall h :: h in heads ==> h.resolved.Some? || EntryId(h.id) !in requested
  }

  lemma {:induction false} FlipSettles(heads: seq<Head>, requested: seq<string>, ref: Ref)
    ensures AllSettled(FlipHeads(heads, requested, ref), requested)
  {
    hide EntryId;
  }

  lemma {:induction false} SettledCount(blocks: seq<Block>, requested: seq<string>)
    ensures AllSettled(BlockHeads(blocks), requested) <==> Count((b: Block) => Flips(b, requested), blocks) == 0
  {
    hide EntryId;
    if blocks == [] {
      assert AllSettled([], requested);
    } else {
      SettledCount(blocks[1..], requested);
      var first, rest := BlockHead(blocks[0]), BlockHeads(blocks[1..]);
      assert forall h :: h in first + rest <==> h in first || h in rest;
      assert blocks[0].EntryBlock? ==> first[0] in first;
    }
  }

  lemma {:induction false} HeaderNotFlipped(requested: seq<string>)
    ensures !Flips(Header(DividerText(), true), requested)
  {
  }

  lemma {:induction false} NormalizeKeepsSettled(blocks: seq<Block>, requested: seq<string>)
    requires AllSettled(BlockHeads(blocks), requested)
    ensures AllSettled(BlockHeads(NormalBlocks(blocks)), requested)
  {
    var p := (b: Block) => Flips(b, requested);
    assert OfSubstance(p);
    SettledCount(blocks, requested);
    SettledCount(NormalBlocks(blocks), requested);
    hide NormalBlocks, BlankProse, AllSettled, Flips, MintsDivider;
    NormalizeConserves(p, blocks);
    assert !Flips(Header(DividerText(), true), requested) by { HeaderNotFlipped(requested); }
  }

  lemma {:induction false} HeadListed(blocks: seq<Block>, k: nat)
    requires k < |blocks|
    ensures blocks[k].EntryBlock? ==> blocks[k].entry.head in BlockHeads(blocks)
  {
    if k == 0 {
      assert blocks[0].EntryBlock? ==> BlockHead(blocks[0])[0] in BlockHeads(blocks);
    } else {
      HeadListed(blocks[1..], k - 1);
    }
  }

  lemma {:induction false} SettledFlipsNothing(blocks: seq<Block>, requested: seq<string>, ref: Ref)
    requires AllSettled(BlockHeads(blocks), requested)
    ensures ResolvedBlocks(blocks, requested, ref) == blocks
  {
    forall b | b in blocks ensures !Flips(b, requested) {
      var k :| 0 <= k < |blocks| && blocks[k] == b;
      HeadListed(blocks, k);
      hide EntryId, BlockHeads;
    }
    NothingFlips(blocks, requested, ref);
  }

  // ---- Well-formed blocks print in printed form ----------------------------------------------

  lemma {:induction false} HeadCanon(h: Head)
    requires GoodHead(h)
    ensures Canon(RenderHead(h)) == RenderHead(h)
  {
    HeadRoundTrip(h);
    ParsedMarked(RenderHead(h));
    KindsApart(RenderHead(h));
    hide ParseHead, RenderHead, GoodHead, IsSection, IsTopic, IsHeadLine;
  }

  lemma {:induction false} CanonOfBlock(b: Block)
    requires GoodBlock(b)
    ensures CanonAll(RenderBlock(b)) == RenderBlock(b)
  {
    hide IsTopic, IsHeadLine, IsSection, ParseHead, IsContinuation, IsDividerText, RenderHead, RStrip, GoodHead;
    match b
    case Header(text, _) => { hide Canon; }
    case Prose(lines) => CanonPlain(lines);
    case EntryBlock(e) =>
      ContinuationsPlain(e.continuation);
      CanonPlain(e.continuation);
      HeadCanon(e.head);
      hide Canon;
      CanonAllJoin([RenderHead(e.head)], e.continuation);
    case Triple(lines) =>
      CanonPlain(lines[1..]);
      KindsApart(lines[0]);
      assert lines == [lines[0]] + lines[1..];
      CanonAllJoin([lines[0]], lines[1..]);
    case Unparsable(line) => KindsApart(line);
  }

  lemma {:induction false} CanonOfRender(blocks: seq<Block>)
    requires WellFormed(blocks)
    ensures CanonAll(Render(blocks)) == Render(blocks)
  {
    if blocks != [] {
      assert GoodBlock(blocks[0]);
      WellFormedTail(blocks);
      hide WellFormed, GoodBlock, RenderBlock, Canon;
      CanonOfBlock(blocks[0]);
      CanonOfRender(blocks[1..]);
      CanonAllJoin(RenderBlock(blocks[0]), Render(blocks[1..]));
    }
  }

  lemma {:induction false} BareNotTitle()
    ensures !IsTitle("#")
  {
  }

  // What was printed from well-formed blocks under a parsed header prints the same again
  // exactly when that header was not bare.
  lemma {:induction false} PrintedAgain(lines: seq<string>, blocks: seq<Block>)
    requires WellFormed(blocks)
    ensures var out := Formatted(Doc(HeaderText(lines), blocks));
      Formatted(Parsed(out)) == out <==> !BareHeader(lines)
  {
    var header, body := HeaderText(lines), Render(blocks);
    var out := [header] + body;
    CanonOfRender(blocks);
    hide Render, WellFormed, Canon, IsTitle, IsBlank, RStrip, HeaderText, HeaderLines, BareHeader, CanonAll;
    HeaderPrinted(lines);
    HeaderOfSolid(header, body);
    FormatOfParse(out);
    BareNotTitle();
    assert out[1..] == body && out[0..] == out;
    hide Formatted, Parsed;
  }

  // ---- Twice ----------------------------------------------------------------------------------

  lemma {:induction false} SelectSame(ids: seq<string>, a: seq<Head>, b: seq<Head>, p: (seq<Head>, string) -> bool)
    requires forall s :: s in ids ==> (p(a, s) <==> p(b, s))
    ensures Select(ids, a, p) == Select(ids, b, p)
  {
    if ids != [] {
      var n := |ids| - 1;
      assert ids == ids[..n] + [ids[n]];
      assert ids[n] in ids && forall s :: s in ids[..n] ==> s in ids;
      SelectSame(ids[..n], a, b, p);
    }
  }

  lemma {:induction false} SelectNone(ids: seq<string>, heads: seq<Head>, p: (seq<Head>, string) -> bool)
    requires forall s :: s in ids ==> !p(heads, s)
    ensures Select(ids, heads, p) == []
  {
    if ids != [] {
      var n := |ids| - 1;
      assert ids == ids[..n] + [ids[n]];
      assert ids[n] in ids && forall s :: s in ids[..n] ==> s in ids;
      SelectNone(ids[..n], heads, p);
    }
  }

  // The blocks and the heads read back from a resolution.
  lemma {:induction false} ReadBack(lines: seq<string>, requested: seq<string>, ref: Ref)
    requires GoodRef(ref)
    ensures var out := Formatted(Normalized(ResolvedDoc(Parsed(lines), requested, ref)));
      && AllSettled(BlockHeads(Parsed(out).blocks), requested)
      && (forall s: string :: CountId(BlockHeads(Parsed(out).blocks), s) == CountId(BlockHeads(Parsed(lines).blocks), s))
      && Normalized(Parsed(out)) == Parsed(out)
      && (Formatted(Parsed(out)) == out <==> !BareHeader(lines))
  {
    var doc := Parsed(lines);
    var resolved := ResolvedDoc(doc, requested, ref);
    var blocks := NormalBlocks(resolved.blocks);
    var out := Formatted(Normalized(resolved));
    ParsedWellFormed(lines);
    HeaderTextPlain(lines);
    HeaderPrinted(lines);
    hide WellFormed, Formatted, Blocks, Heads, HeaderText, HeaderLines, BlockHeads, NormalBlocks, CountId, GoodRef;
    hide ResolvedBlocks, AllSettled, IsPlain, IsBlank, RStrip, IsTitle, BareHeader, FlipHeads, Moved;
    ResolveWellFormed(doc.blocks, requested, ref);
    NormalizeWellFormed(resolved.blocks);
    ResolveKeepsEntries(doc.blocks, requested, ref);
    FlipSettles(BlockHeads(doc.blocks), requested, ref);
    NormalizeKeepsSettled(resolved.blocks, requested);
    PrintedHeads(lines, blocks);
    HeadsOfParsed(out);
    assert BlockHeads(Parsed(out).blocks) == BlockHeads(blocks);
    forall s: string ensures CountId(BlockHeads(blocks), s) == CountId(BlockHeads(doc.blocks), s) {
      FlipKeepsIds(BlockHeads(doc.blocks), requested, ref, s);
      NormalizeKeepsIds(resolved.blocks, s);
    }
    NormalizeAfterReparse(resolved);
    PrintedAgain(lines, blocks);
  }

  lemma {:induction false} NoneOpen(heads: seq<Head>, requested: seq<string>)
    requires AllSettled(heads, requested)
    ensures forall s :: s in requested ==> !HasOpen(heads, s)
  {
    hide EntryId;
  }

  // Resolving the same questions again, on its own output and on any day, resolves nothing
  // new, and gives the same bytes exactly when the file's header is not bare.
  lemma {:induction false} ResolveDocumentTwice(lines: seq<string>, documents: seq<Document>, targets: seq<string>,
                                                resolvedBy: string, date: string, later: string)
    requires ResolveDocument(lines, documents, targets, resolvedBy, date).Done? && IsIsoDate(later)
    ensures var out := ResolveDocument(lines, documents, targets, resolvedBy, date).lines;
      var again := ResolveDocument(out, documents, targets, resolvedBy, later);
      again.Done? && again.resolvedIds == [] && (again.lines == out <==> !BareHeader(lines))
  {
    var n := AcceptedDecision(documents, resolvedBy).value;
    var requested := Deduped(CanonReferences(targets));
    var out := ResolveDocument(lines, documents, targets, resolvedBy, date).lines;
    hide AcceptedDecision, Deduped, CanonReferences, IsIsoDate, Parsed, Formatted, NormalBlocks, ResolvedBlocks;
    hide BareHeader, BlockHeads, AllSettled, CountId;
    ReadBack(lines, requested, Ref(n, date));
    var before, after := BlockHeads(Parsed(lines).blocks), BlockHeads(Parsed(out).blocks);
    SelectSame(requested, before, after, Ambiguous);
    SelectSame(requested, before, after, Absent);
    SettledFlipsNothing(Parsed(out).blocks, requested, Ref(n, later));
    NoneOpen(after, requested);
    SelectNone(requested, after, HasOpen);
    hide Select, HasOpen;
    assert ResolvedDoc(Parsed(out), requested, Ref(n, later)) == Parsed(out);
  }
}
