// Resolving entries in place. Requests are canonicalized, an ambiguous one stops everything,
// and the requested open entries are flipped, with a divider minted when there is none.
module QuestionEdits {
  import opened Common
  import opened Decimal
  import opened Identifiers
  import opened Text
  import opened QuestionLines
  import opened Questions
  import opened QuestionFormat
  import opened QuestionOps

  // ---- Identifiers of entries -----------------------------------------------------------

  // The canonical id of an entry, whatever text it was written with.
  function EntryId(id: Id): string {
    if id.Numbered? then "Q" + Numeral(id.num) else id.stamp
  }

  // How often a question id names an entry.
  function CountId(heads: seq<Head>, s: string): nat {
    if heads == [] then 0 else (if EntryId(heads[0].id) == s then 1 else 0) + CountId(heads[1..], s)
  }

  predicate HasNum(h: Head, n: nat) {
    h.id.Numbered? && h.id.num == n
  }

  function CountNum(heads: seq<Head>, n: nat): nat {
    if heads == [] then 0 else (if HasNum(heads[0], n) then 1 else 0) + CountNum(heads[1..], n)
  }

  // A request is compared in canonical form.
  function CanonReference(value: string): string {
    if QuestionNumber(value).Some? then "Q" + Numeral(QuestionNumber(value).value) else value
  }

  function CanonReferences(values: seq<string>): seq<string> {
    if values == [] then [] else [CanonReference(values[0])] + CanonReferences(values[1..])
  }

  // Python's `dict.fromkeys`: the first occurrence of each.
  function Deduped(values: seq<string>): (r: seq<string>)
    ensures forall v :: v in r <==> v in values
  {
    if values == [] then []
    else
      var last := values[|values| - 1];
      var before := Deduped(values[..|values| - 1]);
      assert values == values[..|values| - 1] + [last];
      if last in before then before else before + [last]
  }

  // ---- The divider -----------------------------------------------------------------------

  predicate IsDivider(b: Block) {
    b.Header? && b.divider
  }

  predicate HasDivider(blocks: seq<Block>) {
    exists b :: b in blocks && IsDivider(b)
  }

  // ---- Resolving ------------------------------------------------------------------------------

  predicate Flips(b: Block, requested: seq<string>) {
    b.EntryBlock? && b.entry.head.resolved.None? && EntryId(b.entry.head.id) in requested
  }

  function FlipBlock(b: Block, requested: seq<string>, ref: Ref): Block {
    if Flips(b, requested) then EntryBlock(b.entry.(head := b.entry.head.(resolved := Some(ref)))) else b
  }

  function FlipAll(blocks: seq<Block>, requested: seq<string>, ref: Ref): (r: seq<Block>)
    ensures |r| == |blocks|
    ensures forall k :: 0 <= k < |blocks| ==> r[k] == FlipBlock(blocks[k], requested, ref)
  {
    seq(|blocks|, k requires 0 <= k < |blocks| => FlipBlock(blocks[k], requested, ref))
  }

  function DividerText(): string {
    "## Resolved"
  }

  // The blank line and the header minted when no divider is there.
  function MintedDivider(): seq<Block> {
    [Prose([""]), Header(DividerText(), true)]
  }

  predicate AnyFlips(blocks: seq<Block>, requested: seq<string>) {
    exists b :: b in blocks && Flips(b, requested)
  }

  function ResolvedBlocks(blocks: seq<Block>, requested: seq<string>, ref: Ref): seq<Block> {
    FlipAll(blocks, requested, ref)
      + if !HasDivider(blocks) && AnyFlips(blocks, requested) then MintedDivider() else []
  }

  function ResolvedDoc(doc: Doc, requested: seq<string>, ref: Ref): Doc {
    doc.(blocks := ResolvedBlocks(doc.blocks, requested, ref))
  }

  datatype ResolveResult = ResolveResult(file: Doc, moved: seq<string>, unknown: seq<string>, ambiguous: seq<string>)

  predicate Ambiguous(heads: seq<Head>, s: string) {
    CountId(heads, s) > 1
  }

  predicate Present(heads: seq<Head>, s: string) {
    CountId(heads, s) > 0
  }

  predicate Absent(heads: seq<Head>, s: string) {
    CountId(heads, s) == 0
  }

  function Select(ids: seq<string>, heads: seq<Head>, p: (seq<Head>, string) -> bool): seq<string> {
    if ids == [] then []
    else Select(ids[..|ids| - 1], heads, p) + if p(heads, ids[|ids| - 1]) then [ids[|ids| - 1]] else []
  }

  method SelectIds(ids: seq<string>, heads: seq<Head>, p: (seq<Head>, string) -> bool) returns (r: seq<string>)
    ensures r == Select(ids, heads, p)
  {
    r := [];
    for i := 0 to |ids|
      invariant r == Select(ids[..i], heads, p)
    {
      assert ids[..i + 1][..i] == ids[..i];
      if p(heads, ids[i]) {
        r := r + [ids[i]];
      }
    }
    assert ids[..|ids|] == ids;
  }

  // Flips the requested entries, noting whether one of them stands above the divider.
  method FlipEntries(blocks: seq<Block>, requested: seq<string>, ref: Ref) returns (r: seq<Block>)
    ensures r == ResolvedBlocks(blocks, requested, ref)
  {
    var divider := false;
    var flipped := false;
    r := [];
    for i := 0 to |blocks|
      invariant |r| == i && forall k :: 0 <= k < i ==> r[k] == FlipBlock(blocks[k], requested, ref)
      invariant divider <==> exists k :: 0 <= k < i && IsDivider(blocks[k])
      invariant !divider ==> (flipped <==> exists k :: 0 <= k < i && Flips(blocks[k], requested))
    {
      if IsDivider(blocks[i]) {
        divider := true;
      }
      if Flips(blocks[i], requested) && !divider {
        flipped := true;
      }
      r := r + [FlipBlock(blocks[i], requested, ref)];
    }
    assert r == FlipAll(blocks, requested, ref);
    assert divider <==> HasDivider(blocks);
    assert !divider ==> (flipped <==> AnyFlips(blocks, requested));
    if !divider && flipped {
      r := r + [Prose([""])];
      r := r + [Header(DividerText(), true)];
    }
  }

  method Resolve(doc: Doc, ids: seq<string>, ref: Ref) returns (r: ResolveResult)
    ensures ids == [] ==> r == ResolveResult(doc, [], [], [])
    ensures r.ambiguous == Select(Deduped(CanonReferences(ids)), BlockHeads(doc.blocks), Ambiguous)
    ensures r.ambiguous != [] ==> r.file == doc && r.moved == [] && r.unknown == []
    ensures ids != [] && r.ambiguous == [] ==>
      && r.file == ResolvedDoc(doc, Deduped(CanonReferences(ids)), ref)
      && r.moved == Select(Deduped(CanonReferences(ids)), BlockHeads(doc.blocks), Present)
      && r.unknown == Select(Deduped(CanonReferences(ids)), BlockHeads(doc.blocks), Absent)
  {
    if ids == [] {
      return ResolveResult(doc, [], [], []);
    }
    var requested, heads := Deduped(CanonReferences(ids)), BlockHeads(doc.blocks);
    var ambiguous := SelectIds(requested, heads, Ambiguous);
    if ambiguous != [] {
      return ResolveResult(doc, [], [], ambiguous);
    }
    var moved := SelectIds(requested, heads, Present);
    var unknown := SelectIds(requested, heads, Absent);
    var blocks := FlipEntries(doc.blocks, requested, ref);
    r := ResolveResult(doc.(blocks := blocks), moved, unknown, []);
  }

  function FlipHead(h: Head, requested: seq<string>, ref: Ref): Head {
    if h.resolved.None? && EntryId(h.id) in requested then h.(resolved := Some(ref)) else h
  }

  function FlipHeads(heads: seq<Head>, requested: seq<string>, ref: Ref): (r: seq<Head>)
    ensures |r| == |heads|
    ensures forall k :: 0 <= k < |heads| ==> r[k] == FlipHead(heads[k], requested, ref)
  {
    seq(|heads|, k requires 0 <= k < |heads| => FlipHead(heads[k], requested, ref))
  }

  lemma {:induction false} FlipHeadsJoin(a: seq<Head>, b: seq<Head>, requested: seq<string>, ref: Ref)
    ensures FlipHeads(a + b, requested, ref) == FlipHeads(a, requested, ref) + FlipHeads(b, requested, ref)
  {
    hide FlipHead;
  }

  lemma {:induction false} FlipHeadOf(b: Block, requested: seq<string>, ref: Ref)
    ensures BlockHead(FlipBlock(b, requested, ref)) == FlipHeads(BlockHead(b), requested, ref)
  {
    hide EntryId;
  }

  lemma {:induction false} FlipHeadsOf(blocks: seq<Block>, requested: seq<string>, ref: Ref)
    ensures BlockHeads(FlipAll(blocks, requested, ref)) == FlipHeads(BlockHeads(blocks), requested, ref)
  {
    if blocks != [] {
      hide FlipBlock, FlipHead;
      FlipHeadsOf(blocks[1..], requested, ref);
      assert FlipAll(blocks, requested, ref)[1..] == FlipAll(blocks[1..], requested, ref);
      FlipHeadOf(blocks[0], requested, ref);
      hide BlockHead, FlipHeads, FlipAll;
      FlipHeadsJoin(BlockHead(blocks[0]), BlockHeads(blocks[1..]), requested, ref);
    }
  }

  // Resolving touches the resolution of the requested open entries and nothing else of
  // any entry, and keeps their order.
  lemma {:induction false} ResolveKeepsEntries(blocks: seq<Block>, requested: seq<string>, ref: Ref)
    ensures BlockHeads(ResolvedBlocks(blocks, requested, ref)) == FlipHeads(BlockHeads(blocks), requested, ref)
  {
    FlipHeadsOf(blocks, requested, ref);
    var flipped := FlipAll(blocks, requested, ref);
    hide FlipAll, HasDivider, AnyFlips, FlipHeads;
    BlockHeadsJoin(flipped, MintedDivider());
    assert MintedDivider()[1..] == [Header(DividerText(), true)];
    assert BlockHeads(MintedDivider()) == [];
    assert flipped + [] == flipped;
  }

  lemma {:induction false} NothingFlips(blocks: seq<Block>, requested: seq<string>, ref: Ref)
    requires forall b :: b in blocks ==> !Flips(b, requested)
    ensures ResolvedBlocks(blocks, requested, ref) == blocks
  {
    forall k | 0 <= k < |blocks| ensures FlipBlock(blocks[k], requested, ref) == blocks[k] {
      assert blocks[k] in blocks;
    }
    hide FlipBlock, Flips;
    assert FlipAll(blocks, requested, ref) == blocks;
    assert blocks + [] == blocks;
  }

  // A second resolution of the same questions finds nothing to do.
  lemma {:induction false} ResolveTwice(blocks: seq<Block>, requested: seq<string>, ref: Ref, later: Ref)
    ensures var once := ResolvedBlocks(blocks, requested, ref); ResolvedBlocks(once, requested, later) == once
  {
    var once := ResolvedBlocks(blocks, requested, ref);
    forall b | b in once ensures !Flips(b, requested) {
      var k :| 0 <= k < |once| && once[k] == b;
      if k < |blocks| { assert b == FlipBlock(blocks[k], requested, ref); }
    }
    NothingFlips(once, requested, later);
  }

  lemma {:induction false} BlankGood()
    ensures GoodBlock(Prose([""]))
  {
    KindsApart("");
    assert IsBlank("");
    hide IsPlain, IsBlank;
    assert AllPlain([""]);
  }

  lemma {:induction false} DividerStarts()
    ensures IsSection(DividerText())
  {
    assert DividerText()[..3] == "## ";
  }

  lemma {:induction false} TrimmedAlready(l: string)
    requires l == "## Resolved"
    ensures RStrip(l) == l
  {
    assert l[|l| - 1] == 'd';
  }

  lemma {:induction false} DividerStripped()
    ensures Strip(DividerText()) == DividerText()
  {
    var l := DividerText();
    assert l[0] == '#' && l[|l| - 1] == 'd';
  }

  lemma {:induction false} DividerLower()
    ensures |Lower(DividerText())| == 11 && StartsWith(Lower(DividerText())[3..], "resolved")
  {
    var low := Lower(DividerText());
    assert low[3..] == "resolved" == low[3..][..8];
  }

  lemma {:induction false} Reaches(s: string, p: string, k: nat)
    requires k <= |s| && StartsWith(s[k..], p)
    ensures FindText(s, p) >= 0
  {
    if k > 0 {
      assert s[k..] == s[1..][k - 1..];
      Reaches(s[1..], p, k - 1);
    } else {
      assert s[0..] == s;
    }
  }

  lemma {:induction false} DividerNamed()
    ensures IsDividerText(DividerText())
  {
    var l := DividerText();
    DividerStripped();
    DividerLower();
    hide DividerText, Strip, Lower, FindText, StartsWith;
    Reaches(Lower(l), "resolved", 3);
  }

  lemma {:induction false} DividerSection()
    ensures IsSection(DividerText()) && RStrip(DividerText()) == DividerText() && IsDividerText(DividerText())
  {
    hide IsDividerText, RStrip;
    TrimmedAlready(DividerText());
    DividerNamed();
    DividerStarts();
  }

  lemma {:induction false} DividerHeaderGood()
    ensures GoodBlock(Header(DividerText(), true))
  {
    DividerSection();
    hide DividerText, IsSection, IsDividerText, RStrip, GoodBlock;
    SectionGood(DividerText());
  }

  lemma {:induction false} DividerGood()
    ensures GoodBlock(Prose([""])) && GoodBlock(Header(DividerText(), true)) && WellFormed(MintedDivider())
  {
    BlankGood();
    DividerHeaderGood();
    hide GoodBlock, DividerText;
    assert Separate(Prose([""]), Header(DividerText(), true));
  }

  lemma {:induction false} BlankSeparate(b: Block)
    ensures Separate(b, Prose([""]))
  {
  }

  lemma {:induction false} DividerAfter(blocks: seq<Block>)
    requires WellFormed(blocks)
    ensures WellFormed(blocks + MintedDivider()) && WellFormed(blocks + [])
  {
    hide WellFormed, GoodBlock, Separate, DividerText;
    DividerGood();
    assert blocks + [] == blocks;
    if blocks != [] { BlankSeparate(blocks[|blocks| - 1]); }
    WellFormedJoin(blocks, MintedDivider());
  }

  lemma {:induction false} FlipGood(b: Block, requested: seq<string>, ref: Ref)
    requires GoodBlock(b) && GoodRef(ref)
    ensures GoodBlock(FlipBlock(b, requested, ref))
  {
    hide GoodId, GoodRef, AllContinuations, AllPlain, Canon, IsTopic, IsSection, IsHeadLine;
  }

  lemma {:induction false} FlipWellFormed(blocks: seq<Block>, requested: seq<string>, ref: Ref)
    requires WellFormed(blocks) && GoodRef(ref)
    ensures WellFormed(FlipAll(blocks, requested, ref))
  {
    hide GoodBlock, GoodRef, IsContinuation, EntryId;
    var r := FlipAll(blocks, requested, ref);
    forall k | 0 <= k < |r| ensures GoodBlock(r[k]) { FlipGood(blocks[k], requested, ref); }
    forall k | 0 < k < |r| ensures Separate(r[k - 1], r[k]) { assert Separate(blocks[k - 1], blocks[k]); }
  }

  lemma {:induction false} ResolveWellFormed(blocks: seq<Block>, requested: seq<string>, ref: Ref)
    requires WellFormed(blocks) && GoodRef(ref)
    ensures WellFormed(ResolvedBlocks(blocks, requested, ref))
  {
    hide FlipAll, WellFormed, AnyFlips, HasDivider, MintedDivider;
    FlipWellFormed(blocks, requested, ref);
    DividerAfter(FlipAll(blocks, requested, ref));
  }
}
