// Normalizing a file that was printed and read again: which entries may move is a fact
// about lines, so printing a normalized file leaves nothing to move. The first part reads off
// the lines which heads are loose, that is, resolved, above the divider, and followed by
// nothing but blanks up to the next structured line; the second part shows that these are the
// entries normalization moves; the third that the normalized blocks print and read back as
// blocks of the same kinds. Together: normalizing the text of a normalized file changes
// nothing, and so the file on disk settles after one pass.
module QuestionReparse {
  import opened Text
  import opened QuestionLines
  import opened Questions
  import opened QuestionFormat
  import opened QuestionOps
  import opened QuestionEdits
  import opened QuestionNormalize

  // ---- The same question asked of lines ----------------------------------------------------

  // Only blank lines stand before the next entry head, section or the end.
  predicate LineSafe(lines: seq<string>) {
    if lines == [] then true
    else if IsBlank(lines[0]) then LineSafe(lines[1..])
    else IsSection(lines[0]) || ParseHead(lines[0]).Some?
  }

  function AfterEntry(rest: seq<string>): seq<string> {
    rest[RunLength(IsContinuation, rest)..]
  }

  predicate IsDividerLine(l: string) {
    IsSection(l) && IsDividerText(l)
  }

  predicate ResolvedLine(l: string) {
    ParseHead(l).Some? && ParseHead(l).value.resolved.Some?
  }

  // The resolved heads above the divider that nothing hangs on.
  function LooseHeads(lines: seq<string>): seq<Head> {
    if lines == [] || IsDividerLine(lines[0]) then []
    else
      var loose := ResolvedLine(lines[0]) && LineSafe(AfterEntry(lines[1..]));
      (if loose then [ParseHead(lines[0]).value] else []) + LooseHeads(lines[1..])
  }

  // A line that is neither an entry head nor the divider.
  predicate Inert(l: string) {
    !ResolvedLine(l) && !IsDividerLine(l)
  }

  lemma {:induction false} PlainInert(l: string)
    requires IsPlain(l)
    ensures Inert(l) && ParseHead(l).None?
  {
    hide IsSection, IsTopic, IsHeadLine, ParseHead, IsDividerText;
    if ParseHead(l).Some? { ParsedMarked(l); }
  }

  lemma {:induction false} LooseSkip(a: seq<string>, b: seq<string>)
    requires forall k :: 0 <= k < |a| ==> Inert(a[k])
    ensures LooseHeads(a + b) == LooseHeads(b)
  {
    hide ResolvedLine, IsDividerLine, LineSafe;
    if a == [] {
      assert a + b == b;
    } else {
      assert Inert(a[0]);
      LooseSkip(a[1..], b);
      assert (a + b)[1..] == a[1..] + b;
      assert [] + LooseHeads(b) == LooseHeads(b);
    }
  }

  lemma {:induction false} LoosePlain(a: seq<string>, b: seq<string>)
    requires AllPlain(a)
    ensures LooseHeads(a + b) == LooseHeads(b)
  {
    hide IsPlain, Inert, LooseHeads;
    forall k | 0 <= k < |a| ensures Inert(a[k]) { PlainInert(a[k]); }
    LooseSkip(a, b);
  }

  lemma {:induction false} LineSafeBlank(a: seq<string>, b: seq<string>)
    requires AllBlank(a)
    ensures LineSafe(a + b) == LineSafe(b)
  {
    hide IsBlank, IsSection, ParseHead;
    if a == [] {
      assert a + b == b;
    } else {
      assert IsBlank(a[0]);
      LineSafeBlank(a[1..], b);
      assert (a + b)[1..] == a[1..] + b;
    }
  }

  // Plain lines that are not all blank hold an entry back.
  lemma {:induction false} LineSafePlain(a: seq<string>, b: seq<string>)
    requires AllPlain(a) && !AllBlank(a)
    ensures !LineSafe(a + b)
  {
    hide IsBlank, IsSection, ParseHead, IsTopic, IsHeadLine;
    assert (a + b)[0] == a[0] && (a + b)[1..] == a[1..] + b;
    assert IsPlain(a[0]);
    if IsBlank(a[0]) {
      assert forall k :: 1 <= k < |a| ==> a[k] == a[1..][k - 1];
      LineSafePlain(a[1..], b);
    } else {
      PlainInert(a[0]);
    }
  }

  // ---- Blocks and lines agree ------------------------------------------------------------------

  // What a non-empty list of lines starts with, seen as lines.
  lemma {:induction false} SafeOfFirst(lines: seq<string>)
    requires lines != []
    ensures var b, rest := FirstBlock(lines), lines[FirstSize(lines)..];
      LineSafe(lines) == if BlankProse(b) then LineSafe(rest) else b.EntryBlock? || b.Header?
  {
    var n := FirstSize(lines);
    assert lines == lines[..n] + lines[n..];
    hide IsTopic, IsHeadLine, IsSection, ParseHead, IsBlank, IsDividerText, RStrip;
    KindsApart(lines[0]);
    if IsPlain(lines[0]) {
      hide IsPlain;
      if AllBlank(lines[..n]) {
        LineSafeBlank(lines[..n], lines[n..]);
      } else {
        LineSafePlain(lines[..n], lines[n..]);
      }
    } else if ParseHead(lines[0]).Some? {
      ParsedMarked(lines[0]);
    }
    hide LineSafe;
  }

  lemma {:induction false} SafeOfBlocks(lines: seq<string>)
    ensures SafeAfter(Blocks(lines)) == LineSafe(lines)
    decreases |lines|
  {
    if lines != [] {
      var rest := lines[FirstSize(lines)..];
      SafeOfFirst(lines);
      BlocksStep(lines);
      SafeOfBlocks(rest);
      hide Blocks, FirstBlock, LineSafe, FirstSize, BlankProse;
      assert ([FirstBlock(lines)] + Blocks(rest))[1..] == Blocks(rest);
    }
  }

  lemma {:induction false} MovedCons(b: Block, rest: seq<Block>)
    ensures BlockHeads(Moved([b] + rest)) ==
      if IsDivider(b) then []
      else (if Resolved(b) && SafeAfter(rest) then [b.entry.head] else []) + BlockHeads(Moved(rest))
  {
    assert ([b] + rest)[1..] == rest;
    hide SafeAfter;
    if !IsDivider(b) {
      if Resolved(b) && SafeAfter(rest) {
        assert ([b] + Moved(rest))[1..] == Moved(rest);
      } else {
        assert [] + Moved(rest) == Moved(rest);
        assert [] + BlockHeads(Moved(rest)) == BlockHeads(Moved(rest));
      }
    }
  }

  lemma {:induction false} LooseOfPlain(lines: seq<string>)
    requires lines != [] && IsPlain(lines[0])
    ensures var b, rest := FirstBlock(lines), lines[FirstSize(lines)..];
      LooseHeads(lines) == LooseHeads(rest) == [] + LooseHeads(rest) && !IsDivider(b) && !Resolved(b)
  {
    hide IsTopic, IsHeadLine, IsSection, ParseHead, IsBlank, IsDividerText, RStrip, LineSafe, LooseHeads;
    var n := RunLength(IsPlain, lines);
    assert FirstBlock(lines) == Prose(lines[..n]) && FirstSize(lines) == n;
    hide IsPlain, FirstBlock, FirstSize;
    LoosePlain(lines[..n], lines[n..]);
    assert lines == lines[..n] + lines[n..];
    assert [] + LooseHeads(lines[n..]) == LooseHeads(lines[n..]);
  }

  lemma {:induction false} LooseUnfold(lines: seq<string>)
    requires lines != []
    ensures var loose := ResolvedLine(lines[0]) && LineSafe(AfterEntry(lines[1..]));
      var here := if loose then [ParseHead(lines[0]).value] else [];
      LooseHeads(lines) == if IsDividerLine(lines[0]) then [] else here + LooseHeads(lines[1..])
  {
    hide IsDividerLine, LineSafe, AfterEntry;
  }

  // What follows the first line of a structured block, up to its end, is plain.
  lemma {:induction false} RestPlain(lines: seq<string>)
    requires lines != [] && !IsPlain(lines[0])
    ensures AllPlain(lines[1..FirstSize(lines)])
  {
    hide IsTopic, IsHeadLine, IsSection, ParseHead, IsBlank, IsContinuation;
    var n := FirstSize(lines);
    forall k | 0 <= k < n - 1 ensures IsPlain(lines[1..n][k]) {
      KindsApart(lines[1..][k]);
    }
  }

  // The continuation of a structured block holds nothing loose.
  lemma {:induction false} LooseRest(lines: seq<string>)
    requires lines != [] && !IsPlain(lines[0])
    ensures LooseHeads(lines[1..]) == LooseHeads(lines[FirstSize(lines)..])
  {
    var n := FirstSize(lines);
    RestPlain(lines);
    hide IsPlain, FirstSize, LooseHeads;
    LoosePlain(lines[1..n], lines[n..]);
    assert lines[1..] == lines[1..n] + lines[n..];
  }

  // The block and its first line agree on what they are.
  lemma {:induction false} FirstAsLine(lines: seq<string>)
    requires lines != [] && !IsPlain(lines[0])
    ensures var b, l := FirstBlock(lines), lines[0];
      && (IsDivider(b) <==> IsDividerLine(l))
      && (Resolved(b) <==> ResolvedLine(l))
      && (Resolved(b) ==> b.entry.head == ParseHead(l).value && AfterEntry(lines[1..]) == lines[FirstSize(lines)..])
  {
    var l := lines[0];
    hide IsTopic, IsHeadLine, IsSection, ParseHead, IsDividerText, RStrip, IsContinuation;
    KindsApart(l);
    if ParseHead(l).Some? { ParsedMarked(l); }
  }

  lemma {:induction false} LooseOfOther(lines: seq<string>)
    requires lines != [] && !IsPlain(lines[0])
    ensures var b, rest := FirstBlock(lines), lines[FirstSize(lines)..];
      LooseHeads(lines) ==
      if IsDivider(b) then []
      else (if Resolved(b) && LineSafe(rest) then [b.entry.head] else []) + LooseHeads(rest)
  {
    FirstAsLine(lines);
    LooseRest(lines);
    LooseUnfold(lines);
    hide FirstBlock, FirstSize, LooseHeads, LineSafe, IsPlain, AfterEntry, ResolvedLine, IsDividerLine, ParseHead;
  }

  lemma {:induction false} LooseOfFirst(lines: seq<string>)
    requires lines != []
    ensures var b, rest := FirstBlock(lines), lines[FirstSize(lines)..];
      LooseHeads(lines) ==
      if IsDivider(b) then []
      else (if Resolved(b) && LineSafe(rest) then [b.entry.head] else []) + LooseHeads(rest)
  {
    if IsPlain(lines[0]) { LooseOfPlain(lines); } else { LooseOfOther(lines); }
    hide FirstBlock, FirstSize, LooseHeads, LineSafe, Resolved;
  }

  // Which entries of a parsed file move is read off its lines.
  lemma {:induction false} MovedOfBlocks(lines: seq<string>)
    ensures BlockHeads(Moved(Blocks(lines))) == LooseHeads(lines)
    decreases |lines|
  {
    if lines != [] {
      var rest := lines[FirstSize(lines)..];
      BlocksStep(lines);
      MovedOfBlocks(rest);
      SafeOfBlocks(rest);
      var all := [FirstBlock(lines)] + Blocks(rest);
      assert all[1..] == Blocks(rest);
      LooseOfFirst(lines);
      MovedCons(FirstBlock(lines), Blocks(rest));
      hide Blocks, FirstBlock, LooseHeads, FirstSize, Moved, BlockHeads, SafeAfter, LineSafe;
    }
  }

  // ---- Printing a settled file ----------------------------------------------------------------

  // A topic or an unparsable line is neither blank nor a safe stop.
  lemma {:induction false} SolidFirst(b: Block)
    requires GoodBlock(b) && (b.Triple? || b.Unparsable?)
    ensures RenderBlock(b) != [] && !IsBlank(RenderBlock(b)[0]) && !IsContinuation(RenderBlock(b)[0])
    ensures !IsSection(RenderBlock(b)[0]) && ParseHead(RenderBlock(b)[0]).None?
  {
    hide IsTopic, IsHeadLine, IsSection, ParseHead, IsBlank, IsContinuation;
    var l := RenderBlock(b)[0];
    KindsApart(l);
    if ParseHead(l).Some? { ParsedMarked(l); }
  }

  lemma {:induction false} UnsafeRender(blocks: seq<Block>)
    requires WellFormed(blocks) && !SafeAfter(blocks)
    ensures !LineSafe(Render(blocks))
  {
    var b := blocks[0];
    assert GoodBlock(b);
    WellFormedTail(blocks);
    hide IsTopic, IsHeadLine, IsSection, ParseHead, IsBlank, IsDividerText, WellFormed, IsPlain, Canon;
    if BlankProse(b) {
      UnsafeRender(blocks[1..]);
      LineSafeBlank(b.lines, Render(blocks[1..]));
    } else if b.Prose? {
      LineSafePlain(b.lines, Render(blocks[1..]));
    } else {
      SolidFirst(b);
      assert Render(blocks)[0] == RenderBlock(b)[0];
    }
  }

  lemma {:induction false} UnsafeAfterEntry(e: Block, rest: seq<Block>)
    requires e.EntryBlock? && GoodBlock(e) && WellFormed(rest) && !SafeAfter(rest)
    requires rest != [] ==> Separate(e, rest[0])
    ensures AfterEntry(e.entry.continuation + Render(rest)) == Render(rest)
    ensures !LineSafe(Render(rest))
  {
    UnsafeRender(rest);
    var b, r := rest[0], Render(rest);
    assert GoodBlock(b);
    assert r == RenderBlock(b) + Render(rest[1..]);
    assert !IsContinuation(r[0]) by {
      if !b.Prose? { SolidFirst(b); }
      hide IsContinuation, IsPlain, IsTopic, IsSection, ParseHead;
      assert RenderBlock(b) != [] && r[0] == RenderBlock(b)[0];
    }
    hide IsContinuation, LineSafe, SafeAfter, WellFormed, Render;
    RunOf(IsContinuation, e.entry.continuation, r);
    assert (e.entry.continuation + r)[|e.entry.continuation|..] == r;
  }

  lemma {:induction false} OtherInert(b: Block)
    requires GoodBlock(b) && !b.EntryBlock? && !IsDivider(b)
    ensures forall k :: 0 <= k < |RenderBlock(b)| ==> Inert(RenderBlock(b)[k])
  {
    hide IsTopic, IsHeadLine, IsSection, ParseHead, IsBlank, IsDividerText, Canon;
    var lines := RenderBlock(b);
    forall k | 0 <= k < |lines| ensures Inert(lines[k]) {
      KindsApart(lines[k]);
      if ParseHead(lines[k]).Some? { ParsedMarked(lines[k]); }
      if b.Prose? { assert IsPlain(b.lines[k]); }
      if b.Triple? && k > 0 { assert IsPlain(b.lines[1..][k - 1]); }
    }
  }

  lemma Regroup(l: string, continuation: seq<string>, rest: seq<string>)
    ensures ([l] + continuation) + rest == [l] + (continuation + rest)
  {
  }

  lemma {:induction false} EntryParts(b: Block)
    requires b.EntryBlock? && GoodBlock(b)
    ensures RenderBlock(b) == [RenderHead(b.entry.head)] + b.entry.continuation
    ensures AllPlain(b.entry.continuation)
    ensures ResolvedLine(RenderHead(b.entry.head)) <==> Resolved(b)
  {
    HeadRoundTrip(b.entry.head);
    hide GoodHead, RenderHead, ParseHead, IsContinuation, IsPlain;
    ContinuationsPlain(b.entry.continuation);
  }

  lemma {:induction false} LooseStep(l: string, rest: seq<string>)
    requires ResolvedLine(l) ==> !LineSafe(AfterEntry(rest))
    requires LooseHeads(rest) == []
    ensures LooseHeads([l] + rest) == []
  {
    hide LineSafe, AfterEntry, ResolvedLine, IsDividerLine;
    assert ([l] + rest)[1..] == rest;
  }

  lemma {:induction false} LooseEntry(b: Block, rest: seq<Block>)
    requires b.EntryBlock? && GoodBlock(b) && WellFormed(rest) && LooseHeads(Render(rest)) == []
    requires rest != [] ==> Separate(b, rest[0])
    requires Resolved(b) ==> !SafeAfter(rest)
    ensures LooseHeads(RenderBlock(b) + Render(rest)) == []
  {
    var e, lines := b.entry, Render(rest);
    EntryParts(b);
    var l := RenderHead(e.head);
    hide *;
    LoosePlain(e.continuation, lines);
    if Resolved(b) { UnsafeAfterEntry(b, rest); }
    Regroup(l, e.continuation, lines);
    LooseStep(l, e.continuation + lines);
  }

  // When no block may move, no printed head may.
  lemma {:induction false} LooseOfRender(blocks: seq<Block>)
    requires WellFormed(blocks) && Moved(blocks) == []
    ensures LooseHeads(Render(blocks)) == []
  {
    if blocks != [] {
      var b, rest := blocks[0], Render(blocks[1..]);
      assert GoodBlock(b);
      assert blocks[1..] != [] ==> Separate(b, blocks[1..][0]);
      WellFormedTail(blocks);
      hide IsTopic, IsHeadLine, IsSection, ParseHead, IsBlank, IsDividerText, IsPlain, Canon, LineSafe, SafeAfter, WellFormed;
      if IsDivider(b) {
        assert Render(blocks)[0] == b.text;
      } else {
        assert Moved(blocks[1..]) == [];
        LooseOfRender(blocks[1..]);
        if b.EntryBlock? {
          LooseEntry(b, blocks[1..]);
        } else {
          OtherInert(b);
          LooseSkip(RenderBlock(b), rest);
        }
      }
    }
  }

  // ---- Well-formedness of the normalized blocks ---------------------------------------------------

  // Behind a moved entry no prose is left over.
  lemma {:induction false} DroppedFirst(rest: seq<Block>)
    requires SafeAfter(rest)
    ensures Kept(rest, true) != [] ==> !Kept(rest, true)[0].Prose?
  {
    if rest != [] && !IsDivider(rest[0]) {
      if BlankProse(rest[0]) {
        DroppedFirst(rest[1..]);
      } else if Movable(rest) {
        DroppedFirst(rest[1..]);
      }
    }
  }

  lemma {:induction false} KeptFirst(blocks: seq<Block>)
    ensures var kept := Kept(blocks, false); kept != [] && kept[0].Prose? ==> blocks != [] && kept[0] == blocks[0]
  {
    if blocks != [] && !IsDivider(blocks[0]) && Movable(blocks) { DroppedFirst(blocks[1..]); }
  }

  lemma {:induction false} KeptWellFormed(blocks: seq<Block>, dropping: bool)
    requires WellFormed(blocks)
    ensures WellFormed(Kept(blocks, dropping))
  {
    hide GoodBlock, SafeAfter, BlankProse;
    if blocks != [] && !IsDivider(blocks[0]) {
      WellFormedTail(blocks);
      KeptWellFormed(blocks[1..], true);
      KeptWellFormed(blocks[1..], false);
      KeptFirst(blocks[1..]);
      var kept := Kept(blocks[1..], false);
      assert GoodBlock(blocks[0]);
      if kept != [] {
        assert blocks[1..] != [] ==> Separate(blocks[0], blocks[1]);
        assert Separate(blocks[0], kept[0]);
      }
      WellFormedCons(blocks[0], kept);
      hide WellFormed;
    }
  }

  lemma {:induction false} SpacedPair(e: Block, rest: seq<Block>)
    requires e.EntryBlock? && GoodBlock(e) && WellFormed(rest) && (rest != [] ==> rest[0] == Prose([""]))
    ensures WellFormed([Prose([""]), e] + rest)
  {
    hide GoodBlock, WellFormed;
    BlankGood();
    BlankSeparate(e);
    WellFormedCons(e, rest);
    assert Separate(Prose([""]), ([e] + rest)[0]);
    hide Separate;
    WellFormedCons(Prose([""]), [e] + rest);
    assert [Prose([""]), e] + rest == [Prose([""])] + ([e] + rest);
  }

  lemma {:induction false} SpacedWellFormed(moved: seq<Block>)
    requires forall b :: b in moved ==> b.EntryBlock? && GoodBlock(b)
    ensures WellFormed(Spaced(moved)) && (Spaced(moved) != [] ==> Spaced(moved)[0] == Prose([""]))
  {
    if moved != [] {
      hide GoodBlock, WellFormed;
      assert moved[0] in moved && forall b :: b in moved[1..] ==> b in moved;
      SpacedWellFormed(moved[1..]);
      SpacedPair(moved[0], Spaced(moved[1..]));
    } else {
      assert WellFormed([]);
    }
  }

  // Blocks that a blank line starts can follow anything, and a header can follow them.
  lemma {:induction false} InsertWellFormed(s: seq<Block>, extra: seq<Block>)
    requires WellFormed(s) && WellFormed(extra) && extra != [] && extra[0] == Prose([""])
    ensures WellFormed(InsertBeforeHeader(s, extra))
    ensures var r := InsertBeforeHeader(s, extra); r != [] && (r[0] == extra[0] || (s != [] && r[0] == s[0]))
  {
    if s != [] {
      hide GoodBlock;
      if s[0].Header? {
        assert Separate(extra[|extra| - 1], s[0]);
        WellFormedJoin(extra, s);
      } else {
        WellFormedTail(s);
        InsertWellFormed(s[1..], extra);
        BlankSeparate(s[0]);
        assert GoodBlock(s[0]);
        assert s[1..] != [] ==> Separate(s[0], s[1]);
        WellFormedCons(s[0], InsertBeforeHeader(s[1..], extra));
      }
      hide WellFormed, Separate;
    }
  }

  lemma {:induction false} BelowWellFormed(s: seq<Block>, extra: seq<Block>)
    requires WellFormed(s) && WellFormed(extra) && extra != [] && extra[0] == Prose([""])
    ensures WellFormed(InsertBelow(s, extra))
    ensures s != [] ==> InsertBelow(s, extra) != [] && InsertBelow(s, extra)[0] == s[0]
    ensures s == [] ==> InsertBelow(s, extra) == []
  {
    if s != [] {
      hide GoodBlock, InsertBeforeHeader;
      WellFormedTail(s);
      BlankSeparate(s[0]);
      assert GoodBlock(s[0]);
      assert s[1..] != [] ==> Separate(s[0], s[1]);
      if IsDivider(s[0]) {
        InsertWellFormed(s[1..], extra);
        WellFormedCons(s[0], InsertBeforeHeader(s[1..], extra));
      } else {
        BelowWellFormed(s[1..], extra);
        WellFormedCons(s[0], InsertBelow(s[1..], extra));
      }
      hide WellFormed, Separate;
    }
  }

  lemma {:induction false} MintedJoin(kept: seq<Block>, extra: seq<Block>)
    requires WellFormed(kept) && WellFormed(extra) && extra != [] && extra[0] == Prose([""])
    ensures WellFormed(kept + MintedDivider() + extra)
  {
    hide GoodBlock, DividerText;
    DividerAfter(kept);
    var front := kept + MintedDivider();
    BlankSeparate(front[|front| - 1]);
    hide WellFormed, Separate, MintedDivider;
    WellFormedJoin(front, extra);
  }

  lemma {:induction false} NormalizeWellFormed(blocks: seq<Block>)
    requires WellFormed(blocks)
    ensures WellFormed(NormalBlocks(blocks))
  {
    var kept, moved := Kept(blocks, false), Moved(blocks);
    if moved != [] {
      MovedEntries(blocks);
      forall b | b in moved ensures b.EntryBlock? && GoodBlock(b) {
        var k :| 0 <= k < |blocks| && blocks[k] == b;
        hide GoodBlock;
      }
      hide GoodBlock, Kept, Moved, Separate;
      KeptWellFormed(blocks, false);
      SpacedWellFormed(moved);
      assert Spaced(moved) != [];
      hide WellFormed, Spaced, MintedDivider;
      BelowWellFormed(kept, Spaced(moved));
      MintedJoin(kept, Spaced(moved));
      hide InsertBelow;
    }
  }

  // ---- Normalizing after a round trip through text ----------------------------------------------

  lemma {:induction false} EntriesCounted(entries: seq<Block>)
    requires forall b :: b in entries ==> b.EntryBlock?
    ensures |BlockHeads(entries)| == |entries|
  {
    if entries != [] {
      assert entries[0] in entries && forall b :: b in entries[1..] ==> b in entries;
      EntriesCounted(entries[1..]);
    }
  }

  lemma {:induction false} MovedHeads(lines: seq<string>)
    requires BlockHeads(Moved(Blocks(lines))) == []
    ensures Moved(Blocks(lines)) == [] && NormalBlocks(Blocks(lines)) == Blocks(lines)
  {
    MovedEntries(Blocks(lines));
    var moved := Moved(Blocks(lines));
    hide Moved, Blocks;
    EntriesCounted(moved);
  }

  // A file that was normalized and printed has nothing to move when it is read again.
  lemma {:induction false} NormalizeAfterReparse(doc: Doc)
    requires WellFormed(doc.blocks) && IsPlain(doc.header) && !IsBlank(doc.header)
    ensures var again := Parsed(Formatted(Normalized(doc))); Normalized(again) == again && Moved(again.blocks) == []
  {
    var blocks := NormalBlocks(doc.blocks);
    NormalizeSettles(doc.blocks);
    NormalizeWellFormed(doc.blocks);
    hide NormalBlocks, WellFormed, Moved, Inert, LooseHeads, IsPlain, IsBlank, HeaderText;
    LooseOfRender(blocks);
    var lines := [doc.header] + Render(blocks);
    PlainInert(doc.header);
    LooseSkip([doc.header], Render(blocks));
    HeaderOfSolid(doc.header, Render(blocks));
    var body := lines[HeaderLines(lines)..];
    assert lines[1..] == Render(blocks) && lines[0..] == lines;
    assert LooseHeads(body) == [];
    MovedOfBlocks(body);
    MovedHeads(body);
    hide Render, HeaderLines, Blocks;
  }
}
