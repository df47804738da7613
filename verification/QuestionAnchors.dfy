// What stands under what in a questions file, as a fact about its lines. Normalizing moves
// entries, never the text between them, so in the printed file every such line still stands
// under the entry or section it stood under.
module QuestionAnchors {
  import opened Common
  import opened Identifiers
  import opened Text
  import opened QuestionLines
  import opened Questions
  import opened QuestionFormat
  import opened QuestionOps
  import opened QuestionEdits
  import opened QuestionNormalize
  import opened QuestionReparse

  // ---- Anchors of lines -----------------------------------------------------------------

  // Every line that is not blank and belongs to no entry or section header, with the head or
  // header line it stands under.
  function LineAnchors(lines: seq<string>, anchor: Option<string>, inEntry: bool): seq<(Option<string>, string)> {
    if lines == [] then []
    else
      var l, rest := lines[0], lines[1..];
      if IsSection(l) then LineAnchors(rest, Some(l), false)
      else if ParseHead(l).Some? then LineAnchors(rest, Some(l), true)
      else if inEntry && IsContinuation(l) then LineAnchors(rest, anchor, true)
      else (if IsBlank(l) then [] else [(anchor, l)]) + LineAnchors(rest, anchor, false)
  }

  predicate StillLine(l: string) {
    !IsSection(l) && ParseHead(l).None?
  }

  predicate AllStill(lines: seq<string>) {
    forall k :: 0 <= k < |lines| ==> StillLine(lines[k])
  }

  // The lines that are not blank, all under one anchor.
  function Under(anchor: Option<string>, lines: seq<string>): seq<(Option<string>, string)> {
    if lines == [] then []
    else (if IsBlank(lines[0]) then [] else [(anchor, lines[0])]) + Under(anchor, lines[1..])
  }

  function One(anchor: Option<string>, l: string): seq<(Option<string>, string)> {
    if IsBlank(l) then [] else [(anchor, l)]
  }

  lemma {:induction false} OneStill(lines: seq<string>, anchor: Option<string>, inEntry: bool)
    requires lines != [] && StillLine(lines[0]) && (inEntry ==> !IsContinuation(lines[0]))
    ensures LineAnchors(lines, anchor, inEntry) == One(anchor, lines[0]) + LineAnchors(lines[1..], anchor, false)
  {
    hide IsSection, ParseHead, IsContinuation, IsBlank;
  }

  lemma {:induction false} UnderStep(lines: seq<string>, anchor: Option<string>)
    requires lines != []
    ensures Under(anchor, lines) == One(anchor, lines[0]) + Under(anchor, lines[1..])
  {
    hide IsBlank;
  }

  lemma {:induction false} NothingUnder(none: seq<string>, rest: seq<string>, anchor: Option<string>)
    requires none == []
    ensures Under(anchor, none) == [] && none + rest == rest
    ensures LineAnchors(rest, anchor, false) == [] + LineAnchors(rest, anchor, false)
  {
    hide LineAnchors;
  }

  lemma Grouped<T>(a: seq<T>, b: seq<T>, c: seq<T>)
    ensures a + (b + c) == a + b + c
  {
  }

  lemma {:induction false} StillLines(lines: seq<string>, rest: seq<string>, anchor: Option<string>, inEntry: bool)
    requires lines != [] && AllStill(lines) && (inEntry ==> !IsContinuation(lines[0]))
    ensures LineAnchors(lines + rest, anchor, inEntry) == Under(anchor, lines) + LineAnchors(rest, anchor, false)
  {
    hide IsSection, ParseHead, IsContinuation, IsBlank;
    assert StillLine(lines[0]);
    assert (lines + rest)[0] == lines[0] && (lines + rest)[1..] == lines[1..] + rest;
    OneStill(lines + rest, anchor, inEntry);
    UnderStep(lines, anchor);
    hide LineAnchors, Under, StillLine;
    if |lines| == 1 {
      NothingUnder(lines[1..], rest, anchor);
    } else {
      assert AllStill(lines[1..]);
      StillLines(lines[1..], rest, anchor, false);
    }
    Grouped(One(anchor, lines[0]), Under(anchor, lines[1..]), LineAnchors(rest, anchor, false));
  }

  lemma {:induction false} PlainStill(l: string)
    requires IsPlain(l)
    ensures StillLine(l)
  {
    hide ParseHead, IsSection, IsTopic, IsHeadLine;
    if ParseHead(l).Some? { ParsedMarked(l); }
  }

  lemma {:induction false} ContinuationStill(l: string)
    requires IsContinuation(l)
    ensures StillLine(l)
  {
    KindsApart(l);
    hide IsContinuation, IsPlain, StillLine;
    PlainStill(l);
  }

  // The continuation of an entry belongs to the entry.
  lemma {:induction false} Absorbed(lines: seq<string>, rest: seq<string>, anchor: Option<string>)
    requires AllContinuations(lines)
    ensures LineAnchors(lines + rest, anchor, true) == LineAnchors(rest, anchor, true)
  {
    hide IsSection, ParseHead, IsContinuation, IsBlank;
    if lines == [] {
      assert lines + rest == rest;
    } else {
      var l := lines[0];
      assert IsContinuation(l);
      ContinuationStill(l);
      assert (lines + rest)[0] == l && (lines + rest)[1..] == lines[1..] + rest;
      Absorbed(lines[1..], rest, anchor);
    }
  }

  // ---- Anchors of blocks and of their lines --------------------------------------------------

  function FirstLine(b: Block): string {
    if RenderBlock(b) == [] then "" else RenderBlock(b)[0]
  }

  function AnchorLine(anchor: Option<Block>): Option<string> {
    if anchor.None? then None else Some(FirstLine(anchor.value))
  }

  // The lines of anchored blocks, under the lines of their anchors.
  function Flat(anchored: seq<(Option<Block>, Block)>): seq<(Option<string>, string)> {
    if anchored == [] then []
    else Under(AnchorLine(anchored[0].0), RenderBlock(anchored[0].1)) + Flat(anchored[1..])
  }

  predicate IsBareHeader(b: Block) {
    b.Header? && !IsSection(b.text)
  }

  // A `## ` line with nothing behind it prints as `##`, which is no section any more.
  ghost predicate NoBareHeader(blocks: seq<Block>) {
    forall k :: 0 <= k < |blocks| ==> !IsBareHeader(blocks[k])
  }

  lemma {:induction false} BlankUnder(anchor: Option<string>, lines: seq<string>)
    requires forall k :: 0 <= k < |lines| ==> IsBlank(lines[k])
    ensures Under(anchor, lines) == []
  {
    hide IsBlank;
    if lines != [] {
      assert IsBlank(lines[0]);
      BlankUnder(anchor, lines[1..]);
    }
  }

  lemma {:induction false} MarkedStill(b: Block)
    requires GoodBlock(b) && (b.Triple? || b.Unparsable?)
    ensures StillLine(FirstLine(b)) && !IsContinuation(FirstLine(b)) && RenderBlock(b) != []
  {
    hide ParseHead, IsSection, IsTopic, IsHeadLine, IsContinuation;
    var l := FirstLine(b);
    KindsApart(l);
    if b.Triple? && ParseHead(l).Some? { ParsedMarked(l); }
  }

  // The lines of a block that is neither entry nor header.
  lemma {:induction false} OtherStill(b: Block)
    requires GoodBlock(b) && !b.EntryBlock? && !b.Header?
    ensures RenderBlock(b) != [] && AllStill(RenderBlock(b))
    ensures !b.Prose? ==> !IsContinuation(RenderBlock(b)[0])
  {
    hide ParseHead, IsSection, IsTopic, IsHeadLine, IsContinuation, IsPlain, StillLine;
    var lines := RenderBlock(b);
    forall k | 0 <= k < |lines| ensures StillLine(lines[k]) {
      if b.Prose? {
        assert IsPlain(lines[k]);
        PlainStill(lines[k]);
      } else if k > 0 {
        assert IsPlain(b.lines[1..][k - 1]);
        PlainStill(lines[k]);
      } else {
        MarkedStill(b);
      }
    }
    if !b.Prose? { MarkedStill(b); }
  }

  lemma {:induction false} EntryLines(e: Entry, rest: seq<string>, anchor: Option<string>, inEntry: bool)
    requires GoodHead(e.head) && AllContinuations(e.continuation)
    ensures LineAnchors([RenderHead(e.head)] + e.continuation + rest, anchor, inEntry)
         == LineAnchors(rest, Some(RenderHead(e.head)), true)
  {
    var l := RenderHead(e.head);
    hide GoodHead, ParseHead, RenderHead, IsSection, IsTopic, IsHeadLine, IsContinuation, IsBlank, AllContinuations, Under;
    HeadRoundTrip(e.head);
    ParsedMarked(l);
    KindsApart(l);
    var lines := [l] + e.continuation + rest;
    assert lines[0] == l && lines[1..] == e.continuation + rest;
    Absorbed(e.continuation, rest, Some(l));
  }

  lemma {:induction false} HeaderLine(text: string, rest: seq<string>, anchor: Option<string>, inEntry: bool)
    requires IsSection(text)
    ensures LineAnchors([text] + rest, anchor, inEntry) == LineAnchors(rest, Some(text), false)
  {
    hide IsSection, ParseHead;
    assert ([text] + rest)[0] == text && ([text] + rest)[1..] == rest;
  }

  // The first line of the blocks does not read as the continuation of an entry before them.
  predicate Detached(blocks: seq<Block>) {
    blocks != [] && blocks[0].Prose? && blocks[0].lines != [] ==> !IsContinuation(blocks[0].lines[0])
  }

  lemma {:induction false} OtherAnchored(blocks: seq<Block>, anchor: Option<Block>)
    requires blocks != [] && !blocks[0].EntryBlock? && !blocks[0].Header?
    ensures Flat(Anchored(blocks, anchor)) == Under(AnchorLine(anchor), RenderBlock(blocks[0])) + Flat(Anchored(blocks[1..], anchor))
  {
    var b, later := blocks[0], Anchored(blocks[1..], anchor);
    hide IsBlank;
    if BlankProse(b) {
      BlankUnder(AnchorLine(anchor), b.lines);
      assert [] + later == later && [] + Flat(later) == Flat(later);
    } else {
      assert ([(anchor, b)] + later)[1..] == later;
    }
  }

  // What the lines of a printed file stand under is what its blocks stand under.
  lemma {:induction false} AnchorsOfRender(blocks: seq<Block>, anchor: Option<Block>, inEntry: bool)
    requires WellFormed(blocks) && NoBareHeader(blocks) && (inEntry ==> Detached(blocks))
    ensures LineAnchors(Render(blocks), AnchorLine(anchor), inEntry) == Flat(Anchored(blocks, anchor))
  {
    hide GoodHead, IsSection, IsTopic, IsHeadLine, ParseHead, RenderHead, IsContinuation, IsBlank, AllStill, Canon, IsDividerText;
    if blocks != [] {
      var b, rest := blocks[0], blocks[1..];
      assert GoodBlock(b) && !IsBareHeader(b);
      if rest != [] { assert Separate(blocks[0], blocks[1]); }
      WellFormedTail(blocks);
      assert NoBareHeader(rest);
      hide WellFormed, NoBareHeader, LineAnchors, Under;
      if b.Header? {
        HeaderLine(b.text, Render(rest), AnchorLine(anchor), inEntry);
        AnchorsOfRender(rest, Some(b), false);
      } else if b.EntryBlock? {
        EntryLines(b.entry, Render(rest), AnchorLine(anchor), inEntry);
        AnchorsOfRender(rest, Some(b), true);
      } else {
        OtherStill(b);
        StillLines(RenderBlock(b), Render(rest), AnchorLine(anchor), inEntry);
        AnchorsOfRender(rest, anchor, false);
        OtherAnchored(blocks, anchor);
      }
    }
  }

  // ---- Normalizing -------------------------------------------------------------------------------

  lemma {:induction false} CountNone(p: Block -> bool, blocks: seq<Block>)
    ensures Count(p, blocks) == 0 <==> forall k :: 0 <= k < |blocks| ==> !p(blocks[k])
  {
    if blocks != [] {
      CountNone(p, blocks[1..]);
      assert forall k :: 1 <= k < |blocks| ==> blocks[k] == blocks[1..][k - 1];
    }
  }

  lemma {:induction false} NormalNoBare(blocks: seq<Block>)
    requires NoBareHeader(blocks)
    ensures NoBareHeader(NormalBlocks(blocks))
  {
    var p := (b: Block) => IsBareHeader(b);
    assert OfSubstance(p);
    DividerSection();
    hide NormalBlocks, IsSection, DividerText, MintsDivider;
    NormalizeConserves(p, blocks);
    CountNone(p, blocks);
    CountNone(p, NormalBlocks(blocks));
  }

  // No `## ` line of the file has nothing behind it.
  predicate NoBareSection(lines: seq<string>) {
    forall k :: 0 <= k < |lines| ==> IsSection(lines[k]) ==> IsSection(RStrip(lines[k]))
  }

  lemma {:induction false} BlocksNoBare(lines: seq<string>)
    requires NoBareSection(lines)
    ensures NoBareHeader(Blocks(lines))
    decreases |lines|
  {
    hide IsSection, RStrip, IsTopic, IsHeadLine, ParseHead, IsPlain, IsTopicBody, IsContinuation;
    if lines != [] {
      var n := FirstSize(lines);
      assert !IsBareHeader(FirstBlock(lines)) by { assert IsSection(lines[0]) ==> IsSection(RStrip(lines[0])); }
      assert forall k :: 0 <= k < |lines| - n ==> lines[n..][k] == lines[n + k];
      BlocksNoBare(lines[n..]);
      BlocksStep(lines);
      hide FirstBlock, FirstSize, Blocks;
    }
  }

  // Printing a header line in front changes nothing but that line.
  lemma {:induction false} WithHeader(header: string, body: seq<string>)
    requires IsPlain(header)
    ensures LineAnchors([header] + body, None, false) == Under(None, [header]) + LineAnchors(body, None, false)
  {
    PlainStill(header);
    hide IsPlain, StillLine, LineAnchors, Under;
    StillLines([header], body, None, false);
  }

  lemma PartsOf(lines: seq<string>)
    ensures Parsed(lines).blocks == Blocks(lines[HeaderLines(lines)..]) && AnchorLine(None) == None
  {
  }

  lemma {:induction false} DocAnchors(lines: seq<string>, doc: Doc)
    requires doc == Parsed(lines)
    ensures LineAnchors(Formatted(doc), None, false)
         == Under(None, [doc.header]) + LineAnchors(Render(doc.blocks), None, false)
    ensures LineAnchors(Formatted(Normalized(doc)), None, false)
         == Under(None, [doc.header]) + LineAnchors(Render(NormalBlocks(doc.blocks)), None, false)
  {
    HeaderTextPlain(lines);
    hide IsPlain, LineAnchors, Under, NormalBlocks, HeaderText, Blocks, HeaderLines, Render;
    WithHeader(doc.header, Render(doc.blocks));
    WithHeader(doc.header, Render(NormalBlocks(doc.blocks)));
  }

  // In the printed file every line stands under what it would stand under without
  // normalizing.
  lemma {:induction false} NormalizeKeepsLineAnchors(lines: seq<string>)
    requires NoBareSection(lines)
    ensures LineAnchors(Formatted(Normalized(Parsed(lines))), None, false)
         == LineAnchors(Formatted(Parsed(lines)), None, false)
  {
    var doc := Parsed(lines);
    var body := lines[HeaderLines(lines)..];
    assert NoBareSection(body) by { hide IsSection, RStrip; }
    ParsedWellFormed(lines);
    hide *;
    DocAnchors(lines, doc);
    BlocksNoBare(body);
    PartsOf(lines);
    NormalizeWellFormed(doc.blocks);
    NormalNoBare(doc.blocks);
    NormalizeKeepsAnchors(doc.blocks);
    AnchorsOfRender(doc.blocks, None, false);
    AnchorsOfRender(NormalBlocks(doc.blocks), None, false);
  }

  // ---- A section with nothing behind it ------------------------------------------------------

  // A resolved entry, a `## ` with nothing behind it, and the divider.
  function BareFile(e: Head): seq<string> {
    [RenderHead(e), "## ", DividerText()]
  }

  function BareBlocks(e: Head): seq<Block> {
    [EntryBlock(Entry(e, [])), Header("##", false), Header(DividerText(), true)]
  }

  lemma {:induction false} ShortUndivided(l: string)
    requires |Strip(l)| == 2
    ensures !IsDividerText(l)
  {
    assert |Lower(Strip(l))| == 2;
    hide Strip, Lower;
    assert |"resolved"| == 8;
  }

  lemma {:induction false} BareLines()
    ensures IsSection("## ") && RStrip("## ") == "##" && !IsDividerText("## ") && !IsContinuation("## ")
    ensures StillLine("##") && !IsContinuation("##") && !IsBlank("##")
  {
    var s, r := "## ", "##";
    assert s[..3] == "## " && s[..2] == r && r[0] == '#';
    assert RStrip(r) == r && RStrip(s) == RStrip(s[..2]);
    assert LStrip(s) == s;
    assert Strip(s) == r;
    ShortUndivided(s);
    StartsNot(r, "- [");
    assert IsPlain(r);
    PlainStill(r);
  }

  lemma {:induction false} BareMoves(e: Head)
    requires e.resolved.Some?
    ensures NormalBlocks(BareBlocks(e)) == BareBlocks(e)[1..] + [Prose([""]), EntryBlock(Entry(e, []))]
  {
    var b := EntryBlock(Entry(e, []));
    var h, d := Header("##", false), Header(DividerText(), true);
    var blocks := BareBlocks(e);
    assert blocks == [b, h, d] && blocks[1..] == [h, d] && [h, d][1..] == [d] && [d][1..] == [];
    assert SafeAfter(blocks[1..]) && Moved([h, d]) == Moved([d]) == [];
    assert Moved(blocks) == [b];
    assert d in blocks && HasDivider(blocks);
    assert Kept(blocks, false) == Kept([h, d], true) == [h] + Kept([d], false) == [h, d];
    assert [b][1..] == [];
    assert Spaced([b]) == [Prose([""]), b];
    assert InsertBelow([h, d], Spaced([b])) == [h] + InsertBelow([d], Spaced([b])) == [h] + ([d] + Spaced([b]));
  }

  lemma {:induction false} NoLines()
    ensures forall a: Option<string>, inEntry: bool :: LineAnchors([], a, inEntry) == []
  {
  }

  lemma {:induction false} OneUnder(l: string, anchor: Option<string>)
    requires !IsBlank(l)
    ensures Under(anchor, [l]) == [(anchor, l)]
  {
    hide IsBlank;
    assert [l][1..] == [] && Under(anchor, []) == [];
  }

  lemma {:induction false} EmptyStill()
    ensures StillLine("") && IsBlank("") && !IsContinuation("")
  {
  }

  lemma {:induction false} EndingEntry(e: Head, anchor: Option<string>)
    requires GoodHead(e)
    ensures LineAnchors(["", RenderHead(e)], anchor, false) == []
  {
    var l := RenderHead(e);
    EmptyStill();
    hide GoodHead, RenderHead, ParseHead, IsSection, IsContinuation, StillLine, LineAnchors;
    StillLines([""], [l], anchor, false);
    EntryLines(Entry(e, []), [], anchor, false);
    assert [l] + [] + [] == [l] && [""] + [l] == ["", l];
    NoLines();
    assert [""][1..] == [] && Under(anchor, [""]) == [];
  }

  lemma NothingRendered()
    ensures Render([]) == []
  {
  }

  lemma {:induction false} BareText(e: Head)
    ensures Render(BareBlocks(e)) == [RenderHead(e), "##", DividerText()]
    ensures Render(BareBlocks(e)[1..] + [Prose([""]), EntryBlock(Entry(e, []))]) == ["##", DividerText(), "", RenderHead(e)]
  {
    var b, blank := EntryBlock(Entry(e, [])), Prose([""]);
    var h, d := Header("##", false), Header(DividerText(), true);
    hide RenderHead, DividerText, Render;
    NothingRendered();
    RenderCons(d, []);
    RenderCons(h, [d]);
    RenderCons(b, [h, d]);
    assert [d] + [] == [d] && [h] + [d] == [h, d] && [b] + [h, d] == BareBlocks(e);
    RenderCons(b, []);
    RenderCons(blank, [b]);
    RenderCons(d, [blank, b]);
    RenderCons(h, [d, blank, b]);
    assert [b] + [] == [b] && [blank] + [b] == [blank, b] && [d] + [blank, b] == [d, blank, b];
    assert BareBlocks(e)[1..] + [blank, b] == [h] + [d, blank, b];
  }

  lemma {:induction false} AnchorsBefore(l: string, d: string, e: Head)
    requires GoodHead(e) && l == RenderHead(e) && IsSection(d)
    ensures LineAnchors([l, "##", d], None, false) == [(Some(l), "##")]
  {
    BareLines();
    hide GoodHead, RenderHead, ParseHead, IsSection, IsContinuation, IsBlank, RStrip, StillLine, LineAnchors, Under, IsDividerText;
    EntryLines(Entry(e, []), ["##", d], None, false);
    assert [l] + [] + ["##", d] == [l, "##", d];
    StillLines(["##"], [d], Some(l), true);
    HeaderLine(d, [], Some(l), false);
    assert ["##"] + [d] == ["##", d] && [d] + [] == [d];
    NoLines();
    OneUnder("##", Some(l));
  }

  lemma {:induction false} AnchorsAfter(l: string, d: string, e: Head)
    requires GoodHead(e) && l == RenderHead(e) && IsSection(d)
    ensures LineAnchors(["##", d, "", l], None, false) == [(None, "##")]
  {
    BareLines();
    hide GoodHead, RenderHead, ParseHead, IsSection, IsContinuation, IsBlank, RStrip, StillLine, LineAnchors, Under, IsDividerText;
    StillLines(["##"], [d, "", l], None, false);
    HeaderLine(d, ["", l], None, false);
    EndingEntry(e, Some(d));
    assert ["##"] + [d, "", l] == ["##", d, "", l] && [d] + ["", l] == [d, "", l];
    OneUnder("##", None);
  }

  // The bare header stands under the entry before, and under nothing after.
  lemma {:induction false} BareSectionExample(e: Head)
    requires GoodHead(e) && e.resolved.Some?
    ensures LineAnchors(Render(BareBlocks(e)), None, false) == [(Some(RenderHead(e)), "##")]
    ensures LineAnchors(Render(NormalBlocks(BareBlocks(e))), None, false) == [(None, "##")]
  {
    BareMoves(e);
    DividerSection();
    BareText(e);
    hide *;
    AnchorsBefore(RenderHead(e), DividerText(), e);
    AnchorsAfter(RenderHead(e), DividerText(), e);
  }

  lemma {:induction false} HeadFacts(e: Head)
    requires GoodHead(e)
    ensures var l := RenderHead(e);
      ParseHead(l) == Some(e) && IsHeadLine(l) && !IsSection(l) && !IsTopic(l) && !IsBlank(l) && !IsTitle(l)
  {
    var l := RenderHead(e);
    hide GoodHead, RenderHead, ParseHead;
    HeadRoundTrip(e);
    ParsedMarked(l);
    KindsApart(l);
    assert l[..3][0] == '-';
    hide IsSection, IsTopic, IsHeadLine, StartsWith;
    StartsNot(l, "# ");
  }

  lemma {:induction false} BareFirst(e: Head, lines: seq<string>)
    requires GoodHead(e) && lines == BareFile(e)
    ensures FirstBlock(lines) == EntryBlock(Entry(e, [])) && FirstSize(lines) == 1 && HeaderLines(lines) == 0
  {
    hide GoodHead, RenderHead, ParseHead, IsSection, IsTopic, IsHeadLine, IsContinuation, IsBlank, IsTitle, DividerText, StillLine, RStrip, IsDividerText;
    HeadFacts(e);
    BareLines();
    var rest := lines[1..];
    assert rest == ["## ", DividerText()] && RunLength(IsContinuation, rest) == 0 && lines[1..1] == [];
  }

  lemma {:induction false} HeaderFirst(l: string, rest: seq<string>)
    requires IsSection(l)
    ensures FirstBlock([l] + rest) == Header(RStrip(l), IsDividerText(l)) && FirstSize([l] + rest) == 1
    ensures ([l] + rest)[1..] == rest
  {
    hide IsSection, RStrip, IsDividerText;
  }

  // And the file reads as those blocks.
  lemma {:induction false} BareRead(e: Head)
    requires GoodHead(e)
    ensures Parsed(BareFile(e)).blocks == BareBlocks(e)
  {
    var lines, d := BareFile(e), DividerText();
    assert lines[0..] == lines && lines[1..] == ["## "] + [d] && [d] + [] == [d];
    assert Blocks([]) == [];
    BareLines();
    DividerSection();
    hide FirstBlock, FirstSize, Blocks, HeaderLines, BareFile, DividerText, IsSection, RStrip, IsDividerText, StillLine, GoodHead;
    BareFirst(e, lines);
    HeaderFirst("## ", [d]);
    HeaderFirst(d, []);
    BlocksStep(lines);
    BlocksStep(["## "] + [d]);
    BlocksStep([d] + []);
  }
}
