// The entries of a file as a function of its lines. A line is an entry head or not whatever
// stands around it, because no block ever swallows a line that starts like an entry; so the
// entries of a text are those of its parts, one after the other, and a file prints lines of
// the kinds it was parsed from. The edits are proved on top of this.
module QuestionOps {
  import opened Identifiers
  import opened Text
  import opened QuestionLines
  import opened Questions
  import opened QuestionFormat

  // ---- Heads of lines and of blocks --------------------------------------------------

  function HeadAt(l: string): seq<Head> {
    if ParseHead(l).Some? then [ParseHead(l).value] else []
  }

  // Whether a line is an entry head depends on that line alone.
  function Heads(lines: seq<string>): seq<Head> {
    if lines == [] then [] else HeadAt(lines[0]) + Heads(lines[1..])
  }

  function BlockHead(b: Block): seq<Head> {
    if b.EntryBlock? then [b.entry.head] else []
  }

  function BlockHeads(blocks: seq<Block>): seq<Head> {
    if blocks == [] then [] else BlockHead(blocks[0]) + BlockHeads(blocks[1..])
  }

  lemma {:induction false} Associate(a: seq<Head>, b: seq<Head>, c: seq<Head>)
    ensures a + (b + c) == a + b + c
  {
  }

  lemma {:induction false} HeadsJoin(a: seq<string>, b: seq<string>)
    ensures Heads(a + b) == Heads(a) + Heads(b)
  {
    if a == [] {
      assert a + b == b;
    } else {
      hide HeadAt;
      HeadsJoin(a[1..], b);
      assert (a + b)[0] == a[0] && (a + b)[1..] == a[1..] + b;
      Associate(HeadAt(a[0]), Heads(a[1..]), Heads(b));
    }
  }

  lemma {:induction false} BlockHeadsJoin(a: seq<Block>, b: seq<Block>)
    ensures BlockHeads(a + b) == BlockHeads(a) + BlockHeads(b)
  {
    if a == [] {
      assert a + b == b;
    } else {
      hide BlockHead;
      BlockHeadsJoin(a[1..], b);
      assert (a + b)[0] == a[0] && (a + b)[1..] == a[1..] + b;
      Associate(BlockHead(a[0]), BlockHeads(a[1..]), BlockHeads(b));
    }
  }

  lemma {:induction false} HeadsOfPlain(lines: seq<string>)
    requires forall k :: 0 <= k < |lines| ==> IsPlain(lines[k])
    ensures Heads(lines) == []
  {
    hide ParseHead, IsSection, IsTopic, IsHeadLine;
    if lines != [] {
      assert IsPlain(lines[0]);
      HeadsOfPlain(lines[1..]);
      if ParseHead(lines[0]).Some? { ParsedMarked(lines[0]); }
    }
  }

  // ---- Well-formed blocks --------------------------------------------------------------

  predicate AllPlain(lines: seq<string>) {
    forall k :: 0 <= k < |lines| ==> IsPlain(lines[k])
  }

  predicate AllContinuations(lines: seq<string>) {
    forall k :: 0 <= k < |lines| ==> IsContinuation(lines[k])
  }

  // A block that prints lines of its own kind.
  predicate GoodBlock(b: Block) {
    match b
    case Header(text, divider) =>
      !IsTopic(text) && !IsHeadLine(text) && !IsBlank(text) && Canon(text) == text
      && (divider <==> IsSection(text) && IsDividerText(text))
    case Prose(lines) => lines != [] && AllPlain(lines)
    case EntryBlock(e) => GoodHead(e.head) && AllContinuations(e.continuation)
    case Triple(lines) => lines != [] && IsTopic(lines[0]) && AllPlain(lines[1..])
    case Unparsable(line) => IsHeadLine(line) && ParseHead(line).None?
  }

  // Prose right after an entry does not read as its continuation.
  predicate Separate(b: Block, next: Block) {
    b.EntryBlock? && next.Prose? && next.lines != [] ==> !IsContinuation(next.lines[0])
  }

  ghost predicate WellFormed(blocks: seq<Block>) {
    && (forall k :: 0 <= k < |blocks| ==> GoodBlock(blocks[k]))
    && (forall k :: 0 < k < |blocks| ==> Separate(blocks[k - 1], blocks[k]))
  }

  lemma {:induction false} WellFormedCons(b: Block, rest: seq<Block>)
    requires GoodBlock(b) && WellFormed(rest) && (rest != [] ==> Separate(b, rest[0]))
    ensures WellFormed([b] + rest)
  {
    hide GoodBlock, Separate;
  }

  lemma {:induction false} WellFormedJoin(a: seq<Block>, b: seq<Block>)
    requires WellFormed(a) && WellFormed(b)
    requires a != [] && b != [] ==> Separate(a[|a| - 1], b[0])
    ensures WellFormed(a + b)
  {
    hide GoodBlock, Separate;
    var r := a + b;
    forall k | 0 < k < |r| ensures Separate(r[k - 1], r[k]) {
      if k > |a| { assert Separate(b[k - |a| - 1], b[k - |a|]); }
    }
  }

  lemma {:induction false} WellFormedTail(blocks: seq<Block>)
    requires blocks != [] && WellFormed(blocks)
    ensures WellFormed(blocks[1..])
  {
    hide GoodBlock, Separate;
  }

  lemma {:induction false} TopicGood(l: string, rest: seq<string>, run: nat)
    requires IsTopic(l) && run <= |rest| && forall k :: 0 <= k < run ==> IsTopicBody(rest[k])
    ensures GoodBlock(Triple([l] + rest[..run]))
  {
    hide IsTopic, IsPlain, IsBlank;
    assert ([l] + rest[..run])[1..] == rest[..run];
    forall k | 0 <= k < run ensures IsPlain(rest[..run][k]) { assert IsTopicBody(rest[k]); }
  }

  lemma {:induction false} ProseGood(lines: seq<string>)
    requires lines != [] && IsPlain(lines[0])
    ensures GoodBlock(FirstBlock(lines))
  {
    hide IsTopic, IsHeadLine, IsSection;
    var run := RunLength(IsPlain, lines);
    assert FirstBlock(lines) == Prose(lines[..run]);
    hide IsPlain, FirstBlock;
    assert AllPlain(lines[..run]);
  }

  lemma {:induction false} OtherGood(lines: seq<string>)
    requires lines != [] && !IsSection(lines[0])
    ensures GoodBlock(FirstBlock(lines))
  {
    hide IsTopic, IsHeadLine, IsSection, IsContinuation, ParseHead, IsDividerText, RStrip, IsBlank, GoodHead, Canon;
    var l := lines[0];
    KindsApart(l);
    if IsPlain(l) {
      ProseGood(lines);
    } else if IsTopic(l) {
      hide IsPlain;
      var run := RunLength(IsTopicBody, lines[1..]);
      assert FirstBlock(lines) == Triple([l] + lines[1..1 + run]) by { hide IsTopicBody; }
      TopicGood(l, lines[1..], run);
    } else {
      ParseHeadGood(l);
      hide IsPlain;
      assert AllContinuations(lines[1..1 + RunLength(IsContinuation, lines[1..])]);
    }
  }

  // A trimmed section line starts like one, and is one again unless nothing follows.
  lemma {:induction false} SectionTrimmed(l: string)
    requires IsSection(l)
    ensures var r := RStrip(l); !IsBlank(r) && !IsTopic(r) && !IsHeadLine(r) && (IsSection(r) || |r| < 3)
  {
    assert l[..3][0] == '#' && l[..3][1] == '#' && l[..3][2] == ' ';
    RStripStart(l);
    RStripPrefix(l);
    var r := RStrip(l);
    assert r == l[..|r|];
    assert r[0] == '#' && !IsSpace(r[0]);
    hide RStrip;
    if |r| >= 3 { assert r[..3] == l[..3]; }
    KindsApart(r);
  }

  lemma {:induction false} StripTrimmed(l: string)
    requires IsSection(l)
    ensures Strip(RStrip(l)) == RStrip(l) == Strip(l)
  {
    assert l[..3][0] == '#';
    RStripStart(l);
    RStripTwice(l);
    assert LStrip(l) == l && LStrip(RStrip(l)) == RStrip(l);
    hide RStrip;
  }

  lemma {:induction false} ShortNotDivider(r: string)
    requires |r| < 3 && Strip(r) == r
    ensures !IsDividerText(r)
  {
    assert FindText(Lower(r), "resolved") + 8 > 2;
    hide FindText;
  }

  // A header names "resolved" before trimming exactly when it does after.
  lemma {:induction false} DividerTrimmed(l: string)
    requires IsSection(l)
    ensures IsDividerText(l) <==> IsSection(RStrip(l)) && IsDividerText(RStrip(l))
  {
    SectionTrimmed(l);
    StripTrimmed(l);
    var r := RStrip(l);
    hide IsSection, IsTopic, IsHeadLine, IsBlank, RStrip;
    if |r| < 3 { ShortNotDivider(r); }
  }

  lemma {:induction false} SectionGood(l: string)
    requires IsSection(l)
    ensures GoodBlock(Header(RStrip(l), IsDividerText(l)))
  {
    var r := RStrip(l);
    RStripSection(l);
    SectionTrimmed(l);
    DividerTrimmed(l);
    hide Canon, IsDividerText, RStrip, IsSection;
    KindsApart(r);
  }

  lemma {:induction false} FirstGood(lines: seq<string>)
    requires lines != []
    ensures GoodBlock(FirstBlock(lines))
  {
    var l := lines[0];
    KindsApart(l);
    if IsSection(l) {
      SectionGood(l);
      assert FirstBlock(lines) == Header(RStrip(l), IsDividerText(l));
    } else {
      OtherGood(lines);
    }
    hide GoodBlock, FirstBlock;
  }

  lemma {:induction false} FirstSeparate(lines: seq<string>)
    requires lines != []
    ensures var rest := lines[FirstSize(lines)..];
      Blocks(rest) != [] ==> Separate(FirstBlock(lines), Blocks(rest)[0])
  {
    var rest := lines[FirstSize(lines)..];
    hide IsTopic, IsHeadLine, IsSection, IsContinuation, ParseHead, IsDividerText, RStrip;
    if rest != [] {
      BlocksStep(rest);
      hide Blocks;
      if FirstBlock(lines).EntryBlock? { assert !IsContinuation(rest[0]); }
      if FirstBlock(rest).Prose? { assert FirstBlock(rest).lines[0] == rest[0]; }
    }
  }

  lemma {:induction false} BlocksWellFormed(lines: seq<string>)
    ensures WellFormed(Blocks(lines))
    decreases |lines|
  {
    if lines != [] {
      var n := FirstSize(lines);
      BlocksStep(lines);
      FirstGood(lines);
      BlocksWellFormed(lines[n..]);
      FirstSeparate(lines);
      hide FirstBlock, GoodBlock, FirstSize, Separate, Blocks;
      WellFormedCons(FirstBlock(lines), Blocks(lines[n..]));
    }
  }

  lemma {:induction false} ParsedWellFormed(lines: seq<string>)
    ensures WellFormed(Parsed(lines).blocks)
  {
    BlocksWellFormed(lines[HeaderLines(lines)..]);
  }

  lemma {:induction false} HeadsOne(l: string)
    ensures Heads([l]) == HeadAt(l)
  {
    assert [l][1..] == [];
  }

  lemma {:induction false} HeadsCons(l: string, rest: seq<string>)
    ensures Heads([l] + rest) == HeadAt(l) + Heads(rest)
  {
    assert ([l] + rest)[1..] == rest;
  }

  // A well-formed block prints exactly its own head.
  lemma {:induction false} HeadsOfBlock(b: Block)
    requires GoodBlock(b)
    ensures Heads(RenderBlock(b)) == BlockHead(b)
  {
    hide ParseHead, IsTopic, IsSection, IsContinuation, IsDividerText, IsHeadLine, GoodHead, Canon, IsBlank;
    match b
    case Header(text, _) =>
      HeadsOne(text);
      if ParseHead(text).Some? { ParsedMarked(text); }
    case Prose(lines) => HeadsOfPlain(lines);
    case EntryBlock(e) =>
      ContinuationsPlain(e.continuation);
      HeadsOfPlain(e.continuation);
      HeadRoundTrip(e.head);
      HeadsCons(RenderHead(e.head), e.continuation);
      hide RenderHead, Heads;
    case Triple(lines) =>
      HeadsOfPlain(lines[1..]);
      HeadsCons(lines[0], lines[1..]);
      assert lines == [lines[0]] + lines[1..];
      KindsApart(lines[0]);
      if ParseHead(lines[0]).Some? { ParsedMarked(lines[0]); }
    case Unparsable(line) => HeadsOne(line);
  }

  // The heads among the printed lines are the heads of the blocks, in order: nothing is
  // swallowed and nothing is invented.
  lemma {:induction false} HeadsOfRender(blocks: seq<Block>)
    requires WellFormed(blocks)
    ensures Heads(Render(blocks)) == BlockHeads(blocks)
  {
    if blocks != [] {
      WellFormedTail(blocks);
      HeadsOfBlock(blocks[0]);
      HeadsOfRender(blocks[1..]);
      HeadsJoin(RenderBlock(blocks[0]), Render(blocks[1..]));
      hide WellFormed, Heads, RenderBlock;
    }
  }

  lemma {:induction false} CanonHead(l: string)
    ensures ParseHead(Canon(l)) == ParseHead(l)
  {
    hide ParseHead, IsSection, IsHeadLine, RStrip, RenderHead, IsTopic, IsBlank;
    KindsApart(l);
    if ParseHead(l).Some? { ParsedMarked(l); }
    if IsSection(l) {
      SectionTrimmed(l);
      if ParseHead(RStrip(l)).Some? { ParsedMarked(RStrip(l)); }
    } else if IsHeadLine(l) && ParseHead(l).Some? {
      HeadPrinted(l);
    }
  }

  lemma {:induction false} HeadsOfCanon(lines: seq<string>)
    ensures Heads(CanonAll(lines)) == Heads(lines)
  {
    if lines != [] {
      HeadsOfCanon(lines[1..]);
      assert CanonAll(lines)[1..] == CanonAll(lines[1..]);
      CanonHead(lines[0]);
      hide Canon;
    }
  }

  // The entries of a file are a homomorphism over its lines.
  lemma {:induction false} HeadsOfBlocks(lines: seq<string>)
    ensures BlockHeads(Blocks(lines)) == Heads(lines)
  {
    BlocksWellFormed(lines);
    HeadsOfRender(Blocks(lines));
    RenderOfBlocks(lines);
    HeadsOfCanon(lines);
    hide Heads, Blocks, BlockHeads, Render, WellFormed, CanonAll;
  }

  lemma {:induction false} HeadsSplit(lines: seq<string>, n: nat)
    requires n <= |lines|
    ensures Heads(lines) == Heads(lines[..n]) + Heads(lines[n..])
  {
    hide Heads;
    HeadsJoin(lines[..n], lines[n..]);
    assert lines == lines[..n] + lines[n..];
  }

  lemma {:induction false} TitlePlain(l: string)
    requires IsTitle(l)
    ensures IsPlain(l)
  {
    TitleStart(l);
    if |l| >= 3 { assert l[..3][1] == l[1] && l[..3][0] == l[0]; }
    if |l| >= 4 { assert l[..4][1] == l[1]; }
  }

  // Neither the blanks nor the header in front hold an entry.
  lemma {:induction false} HeadsOfHeader(lines: seq<string>)
    ensures Heads(lines[..HeaderLines(lines)]) == []
  {
    var h, i := HeaderLines(lines), LeadingBlanks(lines);
    forall k | 0 <= k < h ensures IsPlain(lines[..h][k]) {
      KindsApart(lines[k]);
      if k == i { TitlePlain(lines[k]); }
    }
    hide IsPlain, Heads, RunLength, IsTitle, IsBlank;
    HeadsOfPlain(lines[..h]);
  }

  lemma {:induction false} HeadsOfParsed(lines: seq<string>)
    ensures BlockHeads(Parsed(lines).blocks) == Heads(lines)
  {
    hide Heads, Blocks, BlockHeads, HeaderLines, HeaderText;
    var h := HeaderLines(lines);
    HeadsOfBlocks(lines[h..]);
    HeadsOfHeader(lines);
    HeadsSplit(lines, h);
    assert [] + Heads(lines[h..]) == Heads(lines[h..]);
  }

  lemma {:induction false} HeadsOfFormatted(doc: Doc)
    requires WellFormed(doc.blocks) && IsPlain(doc.header)
    ensures Heads(Formatted(doc)) == BlockHeads(doc.blocks)
  {
    HeadsOfRender(doc.blocks);
    HeadsCons(doc.header, Render(doc.blocks));
    if ParseHead(doc.header).Some? { ParsedMarked(doc.header); }
    hide Heads, WellFormed, Render;
  }

  lemma {:induction false} HeaderTextPlain(lines: seq<string>)
    ensures IsPlain(HeaderText(lines))
  {
    HeaderPrinted(lines);
    hide HeaderText, RStrip, BareHeader;
    if BareHeader(lines) { assert HeaderText(lines) == "#"; } else { TitlePlain(HeaderText(lines)); }
  }
}
