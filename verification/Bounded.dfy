// The bounded rendering of open-questions.md.
module Bounded {
  // Regions, windows, and the discovery pointers that are kept whole or surfaced again.
  import opened Common
  import opened Decimal
  import opened Identifiers
  import opened Text
  import opened QuestionLines
  import opened Questions
  import opened QuestionFormat

  const RAW_FILE_CHAR_BUDGET: nat := 40_000

  const OPEN_PREAMBLE_HEAD_CHARS: nat := 30_000

  const OPEN_PREAMBLE_TAIL_CHARS: nat := 10_000

  const POINTER_EXTRACT_LIMIT: nat := 20

  // ---- Text and lines -------------------------------------------------------------------

  function Content(lines: seq<string>): string {
    if lines == [] then "" else if |lines| == 1 then lines[0] else lines[0] + "\n" + Content(lines[1..])
  }

  function LineLength(lines: seq<string>, k: nat): nat {
    if k < |lines| then |lines[k]| else 0
  }

  // The position of the first character of a line; one past the end for |lines|, plus one.
  function Offset(lines: seq<string>, k: nat): nat {
    if k == 0 then 0 else Offset(lines, k - 1) + LineLength(lines, k - 1) + 1
  }

  lemma {:induction false} OffsetTail(lines: seq<string>, k: nat)
    requires 1 <= k <= |lines|
    ensures Offset(lines, k) == |lines[0]| + 1 + Offset(lines[1..], k - 1)
  {
    if k > 1 { OffsetTail(lines, k - 1); }
  }

  lemma {:induction false} ContentLength(lines: seq<string>)
    requires lines != []
    ensures |Content(lines)| == Offset(lines, |lines|) - 1
  {
    if |lines| > 1 {
      ContentLength(lines[1..]);
      OffsetTail(lines, |lines|);
    }
  }

  lemma {:induction false} OffsetGrows(lines: seq<string>, i: nat, j: nat)
    requires i <= j
    ensures Offset(lines, i) <= Offset(lines, j)
  {
    if i < j { OffsetGrows(lines, i, j - 1); }
  }

  lemma {:induction false} OffsetsAscend(lines: seq<string>, i: nat, j: nat)
    requires i < j <= |lines|
    ensures Offset(lines, i) + |lines[i]| + 1 <= Offset(lines, j)
  {
    if i < j - 1 { OffsetsAscend(lines, i, j - 1); }
  }

  lemma ContentStep(lines: seq<string>)
    requires |lines| > 1
    ensures Content(lines) == lines[0] + "\n" + Content(lines[1..])
  {
  }

  lemma CharBehind(front: string, back: string, i: nat)
    requires i < |back|
    ensures (front + back)[|front| + i] == back[i]
  {
  }

  lemma {:induction false} FirstOffset(lines: seq<string>)
    ensures Offset(lines, 0) == 0
  {
  }

  // A newline stands in front of every line but the first.
  lemma {:induction false} NewlineBefore(lines: seq<string>, k: nat)
    requires 1 <= k < |lines|
    ensures Offset(lines, k) <= |Content(lines)| && Content(lines)[Offset(lines, k) - 1] == '\n'
  {
    hide *;
    ContentLength(lines);
    OffsetsAscend(lines, k, |lines|);
    OffsetTail(lines, k);
    ContentStep(lines);
    var rest := lines[1..];
    FirstOffset(rest);
    if k > 1 {
      NewlineBefore(rest, k - 1);
      OffsetsAscend(rest, 0, k - 1);
      CharBehind(lines[0] + "\n", Content(rest), Offset(rest, k - 1) - 1);
    }
  }

  // ---- Where the entries are ---------------------------------------------------------------

  datatype Span = Span(start: nat, end: nat)

  // An entry with the lines it covers.
  datatype Located = Located(first: nat, last: nat, entry: Entry)

  function Locate(blocks: seq<Block>, cursor: nat): seq<Located> {
    if blocks == [] then []
    else
      var next := cursor + |RenderBlock(blocks[0])|;
      (if blocks[0].EntryBlock? then [Located(cursor, next, blocks[0].entry)] else []) + Locate(blocks[1..], next)
  }

  ghost predicate Fits(lines: seq<string>, from: nat, l: Located) {
    && from <= l.first < l.last <= |lines|
    && IsHeadLine(lines[l.first])
    && (forall i :: l.first < i < l.last ==> IsContinuation(lines[i]))
  }

  // Entries of a file stand one after the other, head line first, and go on with their
  // continuation lines.
  ghost predicate InPlace(lines: seq<string>, from: nat, located: seq<Located>) {
    && (forall k :: 0 <= k < |located| ==> Fits(lines, from, located[k]))
    && (forall j, k :: 0 <= j < k < |located| ==> located[j].last <= located[k].first)
  }

  lemma {:induction false} NothingInPlace(lines: seq<string>, from: nat)
    ensures InPlace(lines, from, Locate(Blocks([]), from))
  {
    hide IsHeadLine, IsContinuation;
    assert Locate(Blocks([]), from) == [];
  }

  function OneLocated(b: Block, first: nat, last: nat): seq<Located> {
    if b.EntryBlock? then [Located(first, last, b.entry)] else []
  }

  lemma {:induction false} LocateCons(b: Block, rest: seq<Block>, cursor: nat)
    ensures Locate([b] + rest, cursor)
         == OneLocated(b, cursor, cursor + |RenderBlock(b)|) + Locate(rest, cursor + |RenderBlock(b)|)
  {
    assert ([b] + rest)[1..] == rest;
  }

  lemma {:induction false} LocateStep(rest: seq<string>, cursor: nat)
    requires rest != []
    ensures var n := FirstSize(rest);
      Locate(Blocks(rest), cursor)
      == OneLocated(FirstBlock(rest), cursor, cursor + n) + Locate(Blocks(rest[n..]), cursor + n)
  {
    hide FirstBlock, FirstSize, Blocks, Locate, RenderBlock, CanonAll;
    FirstBlockCanon(rest);
    BlocksStep(rest);
    LocateCons(FirstBlock(rest), Blocks(rest[FirstSize(rest)..]), cursor);
  }

  lemma {:induction false} EntryFits(lines: seq<string>, from: nat)
    requires from < |lines| && FirstBlock(lines[from..]).EntryBlock?
    ensures var rest := lines[from..]; Fits(lines, from, Located(from, from + FirstSize(rest), FirstBlock(rest).entry))
  {
    hide IsHeadLine, IsContinuation, IsSection, IsTopic, ParseHead;
    var rest := lines[from..];
    assert rest[0] == lines[from];
    forall i | from < i < from + FirstSize(rest) ensures IsContinuation(lines[i]) {
      assert rest[1..][i - from - 1] == lines[i];
    }
  }

  lemma {:induction false} InPlaceCons(lines: seq<string>, from: nat, l: Located, later: seq<Located>)
    requires Fits(lines, from, l) && l.first == from && InPlace(lines, l.last, later)
    ensures InPlace(lines, from, [l] + later)
  {
    hide IsHeadLine, IsContinuation;
    var all := [l] + later;
    forall k | 0 <= k < |all| ensures Fits(lines, from, all[k]) {
      if k > 0 { assert Fits(lines, l.last, later[k - 1]); }
    }
    forall j, k | 0 <= j < k < |all| ensures all[j].last <= all[k].first {
      assert Fits(lines, l.last, later[k - 1]);
    }
  }

  lemma {:induction false} InPlaceLater(lines: seq<string>, from: nat, later: nat, located: seq<Located>)
    requires from <= later && InPlace(lines, later, located)
    ensures InPlace(lines, from, located)
  {
    hide IsHeadLine, IsContinuation;
    forall k | 0 <= k < |located| ensures Fits(lines, from, located[k]) {
      assert Fits(lines, later, located[k]);
    }
  }

  lemma {:induction false} PlaceStep(lines: seq<string>, from: nat, later: seq<Located>)
    requires from < |lines|
    requires InPlace(lines, from + FirstSize(lines[from..]), later)
    ensures var rest := lines[from..];
      InPlace(lines, from, OneLocated(FirstBlock(rest), from, from + FirstSize(rest)) + later)
  {
    hide FirstBlock, FirstSize, InPlace, Fits;
    var b, n := FirstBlock(lines[from..]), FirstSize(lines[from..]);
    if b.EntryBlock? {
      EntryFits(lines, from);
      InPlaceCons(lines, from, Located(from, from + n, b.entry), later);
    } else {
      assert [] + later == later;
      InPlaceLater(lines, from, from + n, later);
    }
  }

  lemma {:induction false} LocateBlocks(lines: seq<string>, from: nat)
    requires from <= |lines|
    ensures InPlace(lines, from, Locate(Blocks(lines[from..]), from))
    decreases |lines| - from
  {
    hide FirstBlock, FirstSize, Blocks, Locate;
    var rest := lines[from..];
    if rest == [] {
      NothingInPlace(lines, from);
    } else {
      var n := FirstSize(rest);
      assert rest[n..] == lines[from + n..];
      LocateBlocks(lines, from + n);
      LocateStep(rest, from);
      PlaceStep(lines, from, Locate(Blocks(lines[from + n..]), from + n));
    }
  }

  // The cursor comes out at the last line, so the layout is never given up.
  lemma {:induction false} CursorReachesEnd(lines: seq<string>)
    ensures HeaderLines(lines) + |Render(Parsed(lines).blocks)| == |lines|
  {
    RenderOfBlocks(lines[HeaderLines(lines)..]);
  }

  // ---- The layout ------------------------------------------------------------------------------

  predicate IsResolvedLine(l: string) {
    Strip(l) == "## Resolved"
  }

  predicate NotResolvedLine(l: string) {
    !IsResolvedLine(l)
  }

  predicate StartsSection(l: string) {
    StartsWith(LStrip(l), "## ")
  }

  predicate NotSectionStart(l: string) {
    !StartsSection(l)
  }

  // A discovery pointer, not a question for review.
  predicate IsPointerBody(body: string) {
    var s := LStrip(body);
    StartsWith(s, "BRIEF:") || StartsWith(s, "RESUME:") || StartsWith(s, "SELECT:")
  }

  datatype Pointer = Pointer(span: Span, entry: Entry)

  datatype Layout = Layout(preamble: Span, resolved: Option<Span>, post: Option<Span>, pointers: seq<Pointer>)

  // The first exact resolved line, or |lines|.
  function ResolvedAt(lines: seq<string>): (k: nat)
    ensures k <= |lines|
  {
    RunLength(NotResolvedLine, lines)
  }

  // The first section line after it, or |lines|.
  function PostAt(lines: seq<string>): (k: nat)
    ensures k <= |lines|
  {
    var r := ResolvedAt(lines);
    if r == |lines| then r else r + 1 + RunLength(NotSectionStart, lines[r + 1..])
  }

  // From the start of its head line to the end of its last line.
  function SpanOf(lines: seq<string>, l: Located): Span {
    Span(Offset(lines, l.first), if l.last == 0 then 0 else Offset(lines, l.last - 1) + LineLength(lines, l.last - 1))
  }

  predicate Eligible(e: Entry) {
    e.head.resolved.None? && IsPointerBody(e.head.body)
  }

  predicate InResolved(lines: seq<string>, start: nat) {
    var r, p := ResolvedAt(lines), PostAt(lines);
    r < |lines| && Offset(lines, r) <= start && (p < |lines| ==> start < Offset(lines, p))
  }

  // The pointer an entry gives rise to: an open discovery pointer outside the resolved region.
  predicate IsPointerAt(lines: seq<string>, l: Located) {
    Eligible(l.entry) && !InResolved(lines, SpanOf(lines, l).start)
  }

  function PointerOf(lines: seq<string>, l: Located): Pointer {
    Pointer(SpanOf(lines, l), l.entry)
  }

  function Pointers(lines: seq<string>, located: seq<Located>): seq<Pointer> {
    if located == [] then []
    else (if IsPointerAt(lines, located[0]) then [PointerOf(lines, located[0])] else []) + Pointers(lines, located[1..])
  }

  function EntriesOf(lines: seq<string>): seq<Located> {
    Locate(Parsed(lines).blocks, HeaderLines(lines))
  }

  lemma {:induction false} EntriesInPlace(lines: seq<string>)
    ensures InPlace(lines, HeaderLines(lines), EntriesOf(lines))
  {
    LocateBlocks(lines, HeaderLines(lines));
  }

  // An entry that goes on over the first exact resolved line.
  predicate Crosses(lines: seq<string>, l: Located) {
    l.first < ResolvedAt(lines) < l.last
  }

  function LayoutOf(lines: seq<string>): Layout {
    var total, r, p := |Content(lines)|, ResolvedAt(lines), PostAt(lines);
    var pointers := Pointers(lines, EntriesOf(lines));
    if r == |lines| then Layout(Span(0, total), None, None, pointers)
    else if p == |lines| then Layout(Span(0, Offset(lines, r)), Some(Span(Offset(lines, r), total)), None, pointers)
    else
      Layout(Span(0, Offset(lines, r)), Some(Span(Offset(lines, r), Offset(lines, p))),
             Some(Span(Offset(lines, p), total)), pointers)
  }

  function LengthOf(s: Span): nat {
    if s.start <= s.end then s.end - s.start else 0
  }

  predicate Within(s: Span, region: Span) {
    region.start <= s.start && s.end <= region.end
  }

  // The regions follow one another without gap or overlap, from the first character to
  // the last.
  predicate RegionsTile(layout: Layout, total: nat) {
    && layout.preamble.start == 0
    && (layout.resolved.None? ==> layout.post.None? && layout.preamble.end == total)
    && (layout.resolved.Some? ==>
          && layout.preamble.end == layout.resolved.value.start <= layout.resolved.value.end
          && (if layout.post.None? then layout.resolved.value.end == total
              else layout.resolved.value.end == layout.post.value.start <= layout.post.value.end == total))
  }

  predicate SpanFits(content: string, s: Span) {
    s.start < s.end <= |content| && (s.start > 0 ==> content[s.start - 1] == '\n')
  }

  // Pointers are not empty, follow one another with a newline between them, and each has
  // a newline or the start of the text in front.
  ghost predicate PointersApart(content: string, pointers: seq<Pointer>) {
    && (forall k :: 0 <= k < |pointers| ==> SpanFits(content, pointers[k].span))
    && (forall j, k :: 0 <= j < k < |pointers| ==> pointers[j].span.end < pointers[k].span.start)
  }

  lemma PostBehind(lines: seq<string>)
    ensures ResolvedAt(lines) < |lines| ==> ResolvedAt(lines) < PostAt(lines)
    ensures ResolvedAt(lines) == |lines| ==> PostAt(lines) == |lines|
  {
    hide ResolvedAt;
  }

  predicate AllWithin(pointers: seq<Pointer>, region: Span) {
    forall k :: 0 <= k < |pointers| ==> Within(pointers[k].span, region)
  }

  lemma {:induction false} LayoutTiles(lines: seq<string>)
    requires lines != []
    ensures RegionsTile(LayoutOf(lines), |Content(lines)|)
  {
    hide Content, Offset, ResolvedAt, PostAt, Pointers, EntriesOf;
    ContentLength(lines);
    var n, r, p := |lines|, ResolvedAt(lines), PostAt(lines);
    PostBehind(lines);
    if r < n { OffsetsAscend(lines, r, n); }
    if p < n { OffsetsAscend(lines, p, n); }
    OffsetGrows(lines, r, p);
  }

  // ---- Windows ---------------------------------------------------------------------------------

  // The last newline in [lo, hi), or -1.
  function LastNewline(content: string, lo: nat, hi: nat): (k: int)
    requires hi <= |content|
    ensures k == -1 || (lo <= k < hi && content[k] == '\n')
    ensures forall i :: lo <= i < hi && k < i ==> content[i] != '\n'
  {
    if hi <= lo then -1 else if content[hi - 1] == '\n' then hi - 1 else LastNewline(content, lo, hi - 1)
  }

  // The first newline in [lo, hi), or -1.
  function FirstNewline(content: string, lo: nat, hi: nat): (k: int)
    requires hi <= |content|
    ensures k == -1 || (lo <= k < hi && content[k] == '\n')
    ensures forall i :: lo <= i < hi && (k == -1 || i < k) ==> content[i] != '\n'
    decreases hi - lo
  {
    if hi <= lo then -1 else if content[lo] == '\n' then lo else FirstNewline(content, lo + 1, hi)
  }

  predicate Splits(cut: nat, s: Span) {
    s.start < cut < s.end
  }

  // A cut splits no pointer.
  ghost predicate CleanCut(cut: nat, pointers: seq<Pointer>) {
    forall k :: 0 <= k < |pointers| ==> !Splits(cut, pointers[k].span)
  }

  ghost predicate NoNewlineIn(content: string, lo: nat, hi: nat) {
    hi <= |content| && forall i :: lo <= i < hi ==> content[i] != '\n'
  }

  // The last newline of a window, or its end when it holds none.
  ghost predicate LastLineEnd(content: string, lo: nat, hi: nat, cut: nat) {
    if cut < hi <= |content| then lo <= cut && content[cut] == '\n' && NoNewlineIn(content, cut + 1, hi)
    else cut == hi && NoNewlineIn(content, lo, hi)
  }

  // Right after the first newline of a window, or its start when it holds none.
  ghost predicate FirstLineStart(content: string, lo: nat, hi: nat, start: nat) {
    if lo < start <= hi <= |content| then content[start - 1] == '\n' && NoNewlineIn(content, lo, start - 1)
    else start == lo && NoNewlineIn(content, lo, hi)
  }

  // The cut stays where it is, or moves in front of the one pointer it would split.
  ghost predicate MovedBack(region: Span, pointers: seq<Pointer>, cut: nat, end: nat) {
    && (CleanCut(cut, pointers) ==> end == cut)
    && (forall k :: 0 <= k < |pointers| && Splits(cut, pointers[k].span) ==>
          end == Max(region.start, pointers[k].span.start - 1))
  }

  // Likewise, past the one pointer it would split.
  ghost predicate MovedOn(region: Span, pointers: seq<Pointer>, cut: nat, start: nat) {
    && (CleanCut(cut, pointers) ==> start == cut)
    && (forall k :: 0 <= k < |pointers| && Splits(cut, pointers[k].span) ==>
          start == Min(region.end, pointers[k].span.end + 1))
  }

  // A retained head: nothing without a budget, the region when it fits, and otherwise up to
  // the last newline of the window, in front of the pointer that newline would split.
  ghost predicate IsHead(content: string, region: Span, budget: int, pointers: seq<Pointer>, end: nat) {
    && region.start <= end <= region.end <= |content|
    && end - region.start <= Max(budget, 0)
    && CleanCut(end, pointers)
    && (if budget <= 0 then end == region.start
        else if region.end - region.start <= budget then end == region.end
        else exists cut :: LastLineEnd(content, region.start, region.start + budget, cut) && MovedBack(region, pointers, cut, end))
  }

  // Moving the cut in front of a pointer, past the newline that precedes it, splits no
  // other.
  lemma {:induction false} HeadMoved(content: string, region: Span, pointers: seq<Pointer>, k: nat, cut: nat, end: nat)
    requires PointersApart(content, pointers) && k < |pointers|
    requires AllWithin(pointers, region)
    requires Splits(cut, pointers[k].span) && end == Max(region.start, pointers[k].span.start - 1)
    ensures CleanCut(end, pointers) && MovedBack(region, pointers, cut, end)
    ensures region.start <= end <= cut && end <= region.end
  {
    assert SpanFits(content, pointers[k].span) && Within(pointers[k].span, region);
    forall j | 0 <= j < |pointers| ensures !Splits(end, pointers[j].span) && (Splits(cut, pointers[j].span) ==> j == k) {
      assert Within(pointers[j].span, region);
      if j < k { assert pointers[j].span.end < pointers[k].span.start; }
      if j > k { assert pointers[k].span.end < pointers[j].span.start; }
    }
  }

  method HeadWindow(content: string, region: Span, budget: int, pointers: seq<Pointer>) returns (end: nat)
    requires region.start <= region.end <= |content| && PointersApart(content, pointers)
    requires AllWithin(pointers, region)
    ensures IsHead(content, region, budget, pointers, end)
  {
    if budget <= 0 {
      return region.start;
    }
    if region.end - region.start <= budget {
      return region.end;
    }
    var newline := LastNewline(content, region.start, region.start + budget);
    end := if newline != -1 then newline else region.start + budget;
    ghost var cut := end;
    assert LastLineEnd(content, region.start, region.start + budget, cut);
    var k := 0;
    while k < |pointers|
      invariant k <= |pointers| && end == cut && forall j :: 0 <= j < k ==> !Splits(cut, pointers[j].span)
    {
      if Splits(end, pointers[k].span) {
        end := Max(region.start, pointers[k].span.start - 1);
        HeadMoved(content, region, pointers, k, cut, end);
        return;
      }
      k := k + 1;
    }
    assert MovedBack(region, pointers, cut, end);
  }

  // A retained tail: nothing without a budget, the region when it fits, and otherwise from
  // right after the first newline of the window, past the pointer that start would split.
  ghost predicate IsTail(content: string, region: Span, budget: int, pointers: seq<Pointer>, start: nat) {
    && region.start <= start <= region.end
    && region.end - start <= Max(budget, 0)
    && CleanCut(start, pointers)
    && (if budget <= 0 then start == region.end
        else if region.end - region.start <= budget then start == region.start
        else exists cut :: FirstLineStart(content, region.end - budget, region.end, cut) && MovedOn(region, pointers, cut, start))
  }

  lemma {:induction false} TailMoved(content: string, region: Span, pointers: seq<Pointer>, k: nat, cut: nat, start: nat)
    requires PointersApart(content, pointers) && k < |pointers|
    requires AllWithin(pointers, region)
    requires Splits(cut, pointers[k].span) && start == Min(region.end, pointers[k].span.end + 1)
    ensures CleanCut(start, pointers) && MovedOn(region, pointers, cut, start)
    ensures cut <= start <= region.end
  {
    assert SpanFits(content, pointers[k].span) && Within(pointers[k].span, region);
    forall j | 0 <= j < |pointers| ensures !Splits(start, pointers[j].span) && (Splits(cut, pointers[j].span) ==> j == k) {
      assert Within(pointers[j].span, region);
      if j < k { assert pointers[j].span.end < pointers[k].span.start; }
      if j > k { assert pointers[k].span.end < pointers[j].span.start; }
    }
  }

  method TailWindow(content: string, region: Span, budget: int, pointers: seq<Pointer>) returns (start: nat)
    requires region.start <= region.end <= |content| && PointersApart(content, pointers)
    requires AllWithin(pointers, region)
    ensures IsTail(content, region, budget, pointers, start)
  {
    if budget <= 0 {
      return region.end;
    }
    if region.end - region.start <= budget {
      return region.start;
    }
    var naive := region.end - budget;
    var newline := FirstNewline(content, naive, region.end);
    start := if newline != -1 then newline + 1 else naive;
    ghost var cut := start;
    assert FirstLineStart(content, naive, region.end, cut);
    var k := 0;
    while k < |pointers|
      invariant k <= |pointers| && start == cut && forall j :: 0 <= j < k ==> !Splits(cut, pointers[j].span)
    {
      if Splits(start, pointers[k].span) {
        start := Min(region.end, pointers[k].span.end + 1);
        TailMoved(content, region, pointers, k, cut, start);
        return;
      }
      k := k + 1;
    }
    assert MovedOn(region, pointers, cut, start);
  }

  // A newline that lies in no pointer.
  ghost predicate FreeNewline(content: string, pointers: seq<Pointer>, q: nat) {
    && q < |content| && content[q] == '\n'
    && (forall k :: 0 <= k < |pointers| ==> !(pointers[k].span.start <= q < pointers[k].span.end))
  }

  // Where a head of that budget may end: at any free newline of its window.
  ghost predicate HeadStop(content: string, region: Span, budget: int, pointers: seq<Pointer>, q: nat) {
    q == region.start || (region.start <= q < region.end && q - region.start < budget && FreeNewline(content, pointers, q))
  }

  // Where a tail of that budget may start: right after any free newline of its window.
  ghost predicate TailStart(content: string, region: Span, budget: int, pointers: seq<Pointer>, d: nat) {
    d == region.end || (region.start < d <= region.end && region.end - d < budget && FreeNewline(content, pointers, d - 1))
  }

  // No place where the head may end lies behind its end.
  lemma {:induction false} HeadLongest(content: string, region: Span, budget: int, pointers: seq<Pointer>, end: nat, q: nat)
    requires IsHead(content, region, budget, pointers, end) && HeadStop(content, region, budget, pointers, q)
    ensures q <= end
  {
    if q != region.start && region.end - region.start > budget {
      var cut: nat :| LastLineEnd(content, region.start, region.start + budget, cut) && MovedBack(region, pointers, cut, end);
      assert q <= cut;
    }
  }

  // No place where the tail may start lies in front of its start.
  lemma {:induction false} TailLongest(content: string, region: Span, budget: int, pointers: seq<Pointer>, start: nat, d: nat)
    requires region.end <= |content|
    requires IsTail(content, region, budget, pointers, start) && TailStart(content, region, budget, pointers, d)
    ensures start <= d
  {
    if d != region.end && region.end - region.start > budget {
      var cut: nat :| FirstLineStart(content, region.end - budget, region.end, cut) && MovedOn(region, pointers, cut, start);
      assert cut <= d;
    }
  }

  // ---- Some of the pointers ---------------------------------------------------------------------

  function Chosen(pointers: seq<Pointer>, f: Pointer -> bool): seq<Pointer> {
    if pointers == [] then []
    else
      var n := |pointers| - 1;
      Chosen(pointers[..n], f) + if f(pointers[n]) then [pointers[n]] else []
  }

  lemma {:induction false} ChosenMember(pointers: seq<Pointer>, f: Pointer -> bool, p: Pointer)
    ensures p in Chosen(pointers, f) <==> p in pointers && f(p)
  {
    if pointers != [] {
      var n := |pointers| - 1;
      assert pointers == pointers[..n] + [pointers[n]];
      ChosenMember(pointers[..n], f, p);
    }
  }

  lemma {:induction false} ChosenApart(content: string, pointers: seq<Pointer>, f: Pointer -> bool)
    requires PointersApart(content, pointers)
    ensures PointersApart(content, Chosen(pointers, f))
  {
    hide SpanFits;
    if pointers != [] {
      var n := |pointers| - 1;
      var before := Chosen(pointers[..n], f);
      ChosenApart(content, pointers[..n], f);
      forall k | 0 <= k < |before| ensures before[k].span.end < pointers[n].span.start {
        ChosenMember(pointers[..n], f, before[k]);
        var j :| 0 <= j < n && pointers[..n][j] == before[k];
        assert pointers[j].span.end < pointers[n].span.start;
      }
    }
  }

  function EndsBy(end: nat): Pointer -> bool {
    (p: Pointer) => p.span.end <= end
  }

  function StartsFrom(start: nat): Pointer -> bool {
    (p: Pointer) => start <= p.span.start
  }

  lemma {:induction false} ChosenWithin(pointers: seq<Pointer>, f: Pointer -> bool, region: Span)
    requires forall p: Pointer :: p in pointers && f(p) ==> Within(p.span, region)
    ensures AllWithin(Chosen(pointers, f), region)
  {
    var chosen := Chosen(pointers, f);
    forall k | 0 <= k < |chosen| ensures Within(chosen[k].span, region) { ChosenMember(pointers, f, chosen[k]); }
  }

  // ---- Pieces ------------------------------------------------------------------------------------

  // Retained text, or a marker with the count it names and the pointers omitted there.
  datatype Piece = Retained(span: Span) | Omitted(count: nat, pointers: seq<Pointer>)

  // The pieces account, in order, for every character from `pos` to `end`, and a pointer
  // listed with a marker lies wholly in what the marker stands for.
  predicate Tiles(pieces: seq<Piece>, pos: nat, end: nat) {
    if pieces == [] then pos == end
    else match pieces[0]
      case Retained(span) => span.start == pos <= span.end && Tiles(pieces[1..], span.end, end)
      case Omitted(count, pointers) => AllWithin(pointers, Span(pos, pos + count)) && Tiles(pieces[1..], pos + count, end)
  }

  function RetainedChars(pieces: seq<Piece>): nat {
    if pieces == [] then 0
    else
      var p := pieces[0];
      (if p.Retained? && p.span.start <= p.span.end then p.span.end - p.span.start else 0) + RetainedChars(pieces[1..])
  }

  function OmittedChars(pieces: seq<Piece>): nat {
    if pieces == [] then 0 else (if pieces[0].Omitted? then pieces[0].count else 0) + OmittedChars(pieces[1..])
  }

  predicate Holds(piece: Piece, p: Pointer) {
    match piece
    case Retained(span) => Within(p.span, span)
    case Omitted(_, pointers) => p in pointers
  }

  // How many pieces hold the pointer: as text around it, or listed with a marker.
  function Homes(pieces: seq<Piece>, p: Pointer): nat {
    if pieces == [] then 0 else (if Holds(pieces[0], p) then 1 else 0) + Homes(pieces[1..], p)
  }

  lemma {:induction false} TilesJoin(a: seq<Piece>, b: seq<Piece>, pos: nat, mid: nat, end: nat)
    requires Tiles(a, pos, mid) && Tiles(b, mid, end)
    ensures Tiles(a + b, pos, end)
  {
    if a == [] {
      assert a + b == b;
    } else {
      assert (a + b)[1..] == a[1..] + b;
      match a[0]
      case Retained(span) => TilesJoin(a[1..], b, span.end, mid, end);
      case Omitted(count, _) => TilesJoin(a[1..], b, pos + count, mid, end);
    }
  }

  lemma {:induction false} SumsJoin(a: seq<Piece>, b: seq<Piece>, p: Pointer)
    ensures RetainedChars(a + b) == RetainedChars(a) + RetainedChars(b)
    ensures Homes(a + b, p) == Homes(a, p) + Homes(b, p)
  {
    if a == [] {
      assert a + b == b;
    } else {
      assert (a + b)[1..] == a[1..] + b;
      hide Holds;
      SumsJoin(a[1..], b, p);
    }
  }

  // Retained and omitted characters add up to the length of what is tiled.
  lemma {:induction false} TilesAddUp(pieces: seq<Piece>, pos: nat, end: nat)
    requires Tiles(pieces, pos, end)
    ensures pos + RetainedChars(pieces) + OmittedChars(pieces) == end
  {
    if pieces != [] {
      match pieces[0]
      case Retained(span) => TilesAddUp(pieces[1..], span.end, end);
      case Omitted(count, _) => TilesAddUp(pieces[1..], pos + count, end);
    }
  }

  // Each pointer ends before the next one starts.
  ghost predicate InFileOrder(pointers: seq<Pointer>) {
    forall j, k :: 0 <= j < k < |pointers| ==> pointers[j].span.end <= pointers[k].span.start
  }

  ghost predicate MarkersInOrder(pieces: seq<Piece>) {
    forall i :: 0 <= i < |pieces| && pieces[i].Omitted? ==> InFileOrder(pieces[i].pointers)
  }

  function InNeither(head: Span, tail: Span): Pointer -> bool {
    (p: Pointer) => !Within(p.span, head) && !Within(p.span, tail)
  }

  // The pointers that lie in neither window.
  function Outside(pointers: seq<Pointer>, head: Span, tail: Span): seq<Pointer> {
    Chosen(pointers, InNeither(head, tail))
  }

  function KeptText(start: nat, end: nat): seq<Piece> {
    if start < end then [Retained(Span(start, end))] else []
  }

  // Head text, a marker over the middle, tail text.
  function Cut(region: Span, head: nat, tail: nat, pointers: seq<Pointer>): seq<Piece>
    requires region.start <= head <= tail <= region.end
  {
    KeptText(region.start, head)
      + [Omitted(tail - head, Outside(pointers, Span(region.start, head), Span(tail, region.end)))]
      + KeptText(tail, region.end)
  }

  lemma {:induction false} CutInOrder(content: string, region: Span, head: nat, tail: nat, pointers: seq<Pointer>)
    requires region.start <= head <= tail <= region.end && PointersApart(content, pointers)
    ensures MarkersInOrder(Cut(region, head, tail, pointers))
  {
    var front, back := Span(region.start, head), Span(tail, region.end);
    ChosenApart(content, pointers, InNeither(front, back));
    hide Chosen;
    assert InFileOrder(Outside(pointers, front, back));
  }

  predicate NotEmpty(p: Pointer) {
    p.span.start < p.span.end
  }

  // A region rendered: all of it accounted for, each of its pointers in exactly one piece,
  // no pointer that does not lie in it in any, and every marker's pointers in file order.
  ghost predicate Renders(pieces: seq<Piece>, region: Span, pointers: seq<Pointer>) {
    && Tiles(pieces, region.start, region.end) && MarkersInOrder(pieces)
    && (forall p: Pointer :: p in pointers ==> Homes(pieces, p) == 1)
    && (forall p: Pointer :: NotEmpty(p) && !Within(p.span, region) ==> Homes(pieces, p) == 0)
  }

  lemma {:induction false} OneHome(piece: Piece, p: Pointer)
    ensures Homes([piece], p) == if Holds(piece, p) then 1 else 0
    ensures RetainedChars([piece]) == RetainedChars(if piece.Retained? then [piece] else [])
  {
    assert [piece][1..] == [];
  }

  lemma {:induction false} KeptTextIs(start: nat, end: nat, p: Pointer)
    requires start <= end
    ensures Tiles(KeptText(start, end), start, end) && RetainedChars(KeptText(start, end)) == end - start
    ensures p.span.start < p.span.end ==>
      Homes(KeptText(start, end), p) == if Within(p.span, Span(start, end)) then 1 else 0
  {
    assert start < end ==> KeptText(start, end)[1..] == [];
  }

  lemma {:induction false} MarkerTiles(count: nat, pointers: seq<Pointer>, pos: nat)
    requires AllWithin(pointers, Span(pos, pos + count))
    ensures Tiles([Omitted(count, pointers)], pos, pos + count)
  {
    assert [Omitted(count, pointers)][1..] == [];
  }

  lemma {:induction false} CutRenders(content: string, region: Span, head: nat, tail: nat, pointers: seq<Pointer>)
    requires region.start <= head <= tail <= region.end
    requires PointersApart(content, pointers) && AllWithin(pointers, region)
    requires CleanCut(head, pointers) && CleanCut(tail, pointers)
    ensures Tiles(Cut(region, head, tail, pointers), region.start, region.end)
    ensures RetainedChars(Cut(region, head, tail, pointers)) == head - region.start + (region.end - tail)
  {
    var front, back := Span(region.start, head), Span(tail, region.end);
    var mid := Outside(pointers, front, back);
    forall k | 0 <= k < |mid| ensures Within(mid[k].span, Span(head, tail)) {
      ChosenMember(pointers, InNeither(front, back), mid[k]);
      var j :| 0 <= j < |pointers| && pointers[j] == mid[k];
      assert !Splits(head, pointers[j].span) && !Splits(tail, pointers[j].span);
      assert SpanFits(content, pointers[j].span) && Within(pointers[j].span, region);
    }
    var any := Pointer(Span(0, 0), Entry(Head(Legacy(""), "", None), []));
    KeptTextIs(region.start, head, any);
    KeptTextIs(tail, region.end, any);
    MarkerTiles(tail - head, mid, head);
    hide KeptText, Outside, Within, Tiles;
    TilesJoin(KeptText(region.start, head), [Omitted(tail - head, mid)], region.start, head, tail);
    TilesJoin(KeptText(region.start, head) + [Omitted(tail - head, mid)], KeptText(tail, region.end), region.start, tail, region.end);
    SumsJoin(KeptText(region.start, head), [Omitted(tail - head, mid)], any);
    SumsJoin(KeptText(region.start, head) + [Omitted(tail - head, mid)], KeptText(tail, region.end), any);
    OneHome(Omitted(tail - head, mid), any);
  }

  lemma {:induction false} CutHomes(content: string, region: Span, head: nat, tail: nat, pointers: seq<Pointer>, p: Pointer)
    requires region.start <= head <= tail <= region.end && p.span.start < p.span.end
    ensures Homes(Cut(region, head, tail, pointers), p) ==
      if Within(p.span, Span(region.start, head)) || Within(p.span, Span(tail, region.end)) || p in pointers then 1 else 0
  {
    var mid := Outside(pointers, Span(region.start, head), Span(tail, region.end));
    ChosenMember(pointers, InNeither(Span(region.start, head), Span(tail, region.end)), p);
    KeptTextIs(region.start, head, p);
    KeptTextIs(tail, region.end, p);
    SumsJoin(KeptText(region.start, head), [Omitted(tail - head, mid)], p);
    SumsJoin(KeptText(region.start, head) + [Omitted(tail - head, mid)], KeptText(tail, region.end), p);
    OneHome(Omitted(tail - head, mid), p);
    hide KeptText, Outside, Homes;
  }

  // ---- The rendering -----------------------------------------------------------------------------

  ghost predicate Windows(content: string, region: Span, pointers: seq<Pointer>, head: nat, tail: nat) {
    && IsHead(content, region, OPEN_PREAMBLE_HEAD_CHARS, pointers, head)
    && IsTail(content, region, OPEN_PREAMBLE_TAIL_CHARS, pointers, tail)
    && head <= tail
  }

  // The preamble: whole within the budget, or else a head, a marker and a tail.
  ghost predicate IsFront(content: string, region: Span, pointers: seq<Pointer>, pieces: seq<Piece>) {
    if region.end - region.start <= RAW_FILE_CHAR_BUDGET then pieces == [Retained(region)]
    else exists head, tail :: Windows(content, region, pointers, head, tail) && pieces == Cut(region, head, tail, pointers)
  }

  // What follows the resolved region: a marker alone, the whole, or a head and a marker,
  // according to what is left of the budget.
  ghost predicate IsBack(content: string, region: Span, remaining: int, pointers: seq<Pointer>, pieces: seq<Piece>)
    requires region.start <= region.end
  {
    if remaining <= 0 then pieces == [Omitted(region.end - region.start, pointers)]
    else if region.end - region.start <= remaining then pieces == [Retained(region)]
    else exists head :: IsHead(content, region, remaining, pointers, head) && pieces == Cut(region, head, region.end, pointers)
  }

  // A preamble over the budget keeps everything up to any place where its head may end, and
  // everything from any place where its tail may start.
  lemma {:induction false} FrontRetains(content: string, region: Span, pointers: seq<Pointer>, pieces: seq<Piece>, q: nat, d: nat)
    requires region.start <= region.end <= |content| && PointersApart(content, pointers) && AllWithin(pointers, region)
    requires IsFront(content, region, pointers, pieces) && region.end - region.start > RAW_FILE_CHAR_BUDGET
    requires HeadStop(content, region, OPEN_PREAMBLE_HEAD_CHARS, pointers, q)
    requires TailStart(content, region, OPEN_PREAMBLE_TAIL_CHARS, pointers, d)
    ensures RetainedChars(pieces) >= q - region.start + (region.end - d)
  {
    var head, tail :| Windows(content, region, pointers, head, tail) && pieces == Cut(region, head, tail, pointers);
    HeadLongest(content, region, OPEN_PREAMBLE_HEAD_CHARS, pointers, head, q);
    TailLongest(content, region, OPEN_PREAMBLE_TAIL_CHARS, pointers, tail, d);
    CutRenders(content, region, head, tail, pointers);
    hide *;
  }

  lemma {:induction false} EndIsClean(pointers: seq<Pointer>, region: Span)
    requires AllWithin(pointers, region)
    ensures CleanCut(region.end, pointers)
  {
    assert forall k :: 0 <= k < |pointers| ==> Within(pointers[k].span, region);
  }

  lemma {:induction false} WholeRenders(content: string, region: Span, pointers: seq<Pointer>)
    requires region.start <= region.end
    requires PointersApart(content, pointers) && AllWithin(pointers, region)
    ensures Renders([Retained(region)], region, pointers)
    ensures RetainedChars([Retained(region)]) == region.end - region.start
  {
    assert [Retained(region)][1..] == [];
    forall p: Pointer ensures Homes([Retained(region)], p) == if Within(p.span, region) then 1 else 0 {
      OneHome(Retained(region), p);
    }
    forall p | p in pointers ensures Within(p.span, region) {
      var k :| 0 <= k < |pointers| && pointers[k] == p;
    }
  }

  // Likewise behind the resolved region, as far as the budget goes.
  lemma {:induction false} BackRetains(content: string, region: Span, remaining: nat, pointers: seq<Pointer>, pieces: seq<Piece>, q: nat)
    requires region.start <= region.end <= |content| && PointersApart(content, pointers) && AllWithin(pointers, region)
    requires IsBack(content, region, remaining, pointers, pieces)
    requires HeadStop(content, region, remaining, pointers, q)
    ensures RetainedChars(pieces) >= q - region.start
  {
    if 0 < remaining < region.end - region.start {
      var head :| IsHead(content, region, remaining, pointers, head) && pieces == Cut(region, head, region.end, pointers);
      HeadLongest(content, region, remaining, pointers, head, q);
      EndIsClean(pointers, region);
      CutRenders(content, region, head, region.end, pointers);
    } else if remaining > 0 {
      WholeRenders(content, region, pointers);
    }
  }

  lemma {:induction false} CutIsRendering(content: string, region: Span, head: nat, tail: nat, pointers: seq<Pointer>)
    requires region.start <= head <= tail <= region.end
    requires PointersApart(content, pointers) && AllWithin(pointers, region)
    requires CleanCut(head, pointers) && CleanCut(tail, pointers)
    ensures Renders(Cut(region, head, tail, pointers), region, pointers)
    ensures RetainedChars(Cut(region, head, tail, pointers)) == head - region.start + (region.end - tail)
  {
    var pieces := Cut(region, head, tail, pointers);
    CutRenders(content, region, head, tail, pointers);
    CutInOrder(content, region, head, tail, pointers);
    hide MarkersInOrder, Cut, Homes, Tiles, RetainedChars, CleanCut;
    forall p | p in pointers ensures Homes(pieces, p) == 1 && Within(p.span, region) {
      var k :| 0 <= k < |pointers| && pointers[k] == p;
      assert SpanFits(content, pointers[k].span) && Within(pointers[k].span, region);
      CutHomes(content, region, head, tail, pointers, p);
    }
    forall p: Pointer | NotEmpty(p) && !Within(p.span, region) ensures Homes(pieces, p) == 0 {
      CutHomes(content, region, head, tail, pointers, p);
    }
  }

  method PreamblePieces(content: string, region: Span, pointers: seq<Pointer>) returns (pieces: seq<Piece>, rendered: nat)
    requires region.start <= region.end <= |content|
    requires PointersApart(content, pointers) && AllWithin(pointers, region)
    ensures Renders(pieces, region, pointers) && RetainedChars(pieces) == rendered <= RAW_FILE_CHAR_BUDGET
    ensures IsFront(content, region, pointers, pieces)
  {
    var length := region.end - region.start;
    if length <= RAW_FILE_CHAR_BUDGET {
      pieces, rendered := [Retained(region)], length;
      WholeRenders(content, region, pointers);
      return;
    }
    var head := HeadWindow(content, region, OPEN_PREAMBLE_HEAD_CHARS, pointers);
    var tail := TailWindow(content, region, OPEN_PREAMBLE_TAIL_CHARS, pointers);
    rendered := head - region.start + (region.end - tail);
    pieces := Cut(region, head, tail, pointers);
    assert Windows(content, region, pointers, head, tail);
    hide IsHead, IsTail, Renders, RetainedChars, Cut, Windows;
    CutIsRendering(content, region, head, tail, pointers);
  }

  lemma {:induction false} GoneRenders(region: Span, pointers: seq<Pointer>)
    requires region.start <= region.end && AllWithin(pointers, region) && InFileOrder(pointers)
    ensures var pieces := [Omitted(region.end - region.start, pointers)];
      Renders(pieces, region, pointers) && RetainedChars(pieces) == 0
  {
    var piece := Omitted(region.end - region.start, pointers);
    MarkerTiles(region.end - region.start, pointers, region.start);
    assert [piece][1..] == [];
    forall p: Pointer ensures Homes([piece], p) == if p in pointers then 1 else 0 { OneHome(piece, p); }
    forall p | p in pointers ensures Within(p.span, region) {
      var k :| 0 <= k < |pointers| && pointers[k] == p;
    }
  }

  method PostPieces(content: string, region: Span, remaining: int, pointers: seq<Pointer>) returns (pieces: seq<Piece>)
    requires region.start <= region.end <= |content|
    requires PointersApart(content, pointers) && AllWithin(pointers, region)
    ensures Renders(pieces, region, pointers) && RetainedChars(pieces) <= Max(remaining, 0)
    ensures IsBack(content, region, remaining, pointers, pieces)
  {
    var length := region.end - region.start;
    if remaining <= 0 {
      pieces := [Omitted(length, pointers)];
      GoneRenders(region, pointers);
    } else if length <= remaining {
      pieces := [Retained(region)];
      WholeRenders(content, region, pointers);
    } else {
      var head := HeadWindow(content, region, remaining, pointers);
      pieces := Cut(region, head, region.end, pointers);
      EndIsClean(pointers, region);
      CutIsRendering(content, region, head, region.end, pointers);
    }
  }

  // The pointer lies wholly in open content: before the resolved region, or after it.
  predicate InOpenRegion(layout: Layout, p: Pointer) {
    Within(p.span, layout.preamble) || (layout.post.Some? && Within(p.span, layout.post.value))
  }

  // The whole file accounted for, within the budget, every pointer that lies in a region in
  // exactly one piece, and any other in none; the markers list theirs in file order.
  ghost predicate IsBounded(pieces: seq<Piece>, layout: Layout, total: nat) {
    && Tiles(pieces, 0, total) && MarkersInOrder(pieces)
    && RetainedChars(pieces) <= RAW_FILE_CHAR_BUDGET
    && (forall p :: p in layout.pointers ==> Homes(pieces, p) == if InOpenRegion(layout, p) then 1 else 0)
  }

  lemma {:induction false} PreambleWithin(content: string, pointers: seq<Pointer>, region: Span)
    requires region.start == 0
    ensures AllWithin(Chosen(pointers, EndsBy(region.end)), region)
  {
    ChosenWithin(pointers, EndsBy(region.end), region);
  }

  lemma {:induction false} PostWithin(content: string, pointers: seq<Pointer>, post: Span)
    requires PointersApart(content, pointers) && post.end == |content|
    ensures AllWithin(Chosen(pointers, StartsFrom(post.start)), post)
  {
    forall p: Pointer | p in pointers && StartsFrom(post.start)(p) ensures Within(p.span, post) {
      var k :| 0 <= k < |pointers| && pointers[k] == p;
      assert SpanFits(content, pointers[k].span);
    }
    ChosenWithin(pointers, StartsFrom(post.start), post);
  }

  function ResolvedPiece(layout: Layout): seq<Piece> {
    if layout.resolved.None? then []
    else [Omitted(LengthOf(layout.resolved.value), [])]
  }

  lemma {:induction false} ResolvedPieceIs(layout: Layout, total: nat, p: Pointer)
    requires RegionsTile(layout, total)
    ensures var end := if layout.post.Some? then layout.post.value.start else total;
      Tiles(ResolvedPiece(layout), layout.preamble.end, end)
    ensures RetainedChars(ResolvedPiece(layout)) == 0 && Homes(ResolvedPiece(layout), p) == 0
  {
    if layout.resolved.Some? { assert ResolvedPiece(layout)[1..] == []; }
  }

  function FrontPointers(layout: Layout): seq<Pointer> {
    Chosen(layout.pointers, EndsBy(layout.preamble.end))
  }

  function BackPointers(layout: Layout): seq<Pointer> {
    if layout.post.None? then [] else Chosen(layout.pointers, StartsFrom(layout.post.value.start))
  }

  lemma {:induction false} PointerHomes(layout: Layout, total: nat, front: seq<Piece>, back: seq<Piece>, p: Pointer)
    requires RegionsTile(layout, total) && NotEmpty(p) && p in layout.pointers
    requires Renders(front, layout.preamble, FrontPointers(layout))
    requires layout.post.None? ==> back == []
    requires layout.post.Some? ==> Renders(back, layout.post.value, BackPointers(layout))
    ensures Homes(front, p) + Homes(back, p) == if InOpenRegion(layout, p) then 1 else 0
  {
    hide Tiles, Holds, MarkersInOrder;
    ChosenMember(layout.pointers, EndsBy(layout.preamble.end), p);
    if layout.post.Some? { ChosenMember(layout.pointers, StartsFrom(layout.post.value.start), p); }
    hide Chosen;
  }

  // The pieces of the two open regions, with the resolved marker between them.
  lemma {:induction false} BoundedJoin(content: string, layout: Layout, front: seq<Piece>, back: seq<Piece>)
    requires RegionsTile(layout, |content|) && PointersApart(content, layout.pointers)
    requires Renders(front, layout.preamble, FrontPointers(layout))
    requires layout.post.None? ==> back == []
    requires layout.post.Some? ==> Renders(back, layout.post.value, BackPointers(layout))
    requires RetainedChars(front) + RetainedChars(back) <= RAW_FILE_CHAR_BUDGET
    ensures IsBounded(front + ResolvedPiece(layout) + back, layout, |content|)
  {
    var middle := ResolvedPiece(layout);
    var any := Pointer(Span(0, 0), Entry(Head(Legacy(""), "", None), []));
    var end := if layout.post.Some? then layout.post.value.start else |content|;
    ResolvedPieceIs(layout, |content|, any);
    TilesJoin(front, middle, 0, layout.preamble.end, end);
    TilesJoin(front + middle, back, 0, end, |content|);
    SumsJoin(front, middle, any);
    SumsJoin(front + middle, back, any);
    assert MarkersInOrder(front + middle + back);
    hide Tiles, RetainedChars, ResolvedPiece, MarkersInOrder;
    forall p | p in layout.pointers
      ensures Homes(front + middle + back, p) == if InOpenRegion(layout, p) then 1 else 0
    {
      ResolvedPieceIs(layout, |content|, p);
      SumsJoin(front, middle, p);
      SumsJoin(front + middle, back, p);
      var k :| 0 <= k < |layout.pointers| && layout.pointers[k] == p;
      assert SpanFits(content, layout.pointers[k].span);
      PointerHomes(layout, |content|, front, back, p);
    }
  }

  ghost predicate Regions(content: string, layout: Layout, front: seq<Piece>, back: seq<Piece>) {
    && RegionsTile(layout, |content|)
    && IsFront(content, layout.preamble, FrontPointers(layout), front)
    && (if layout.post.None? then back == []
        else IsBack(content, layout.post.value, RAW_FILE_CHAR_BUDGET - RetainedChars(front), BackPointers(layout), back))
  }

  // The pieces of the preamble, the resolved marker, and the pieces of what follows it.
  ghost predicate IsRendering(content: string, layout: Layout, pieces: seq<Piece>) {
    exists front, back :: Regions(content, layout, front, back) && pieces == front + ResolvedPiece(layout) + back
  }

  // Text is kept up to, and from, every free newline of the windows, and a region that fits
  // what is left of the budget is kept whole.
  ghost predicate KeepsEnough(content: string, layout: Layout, pieces: seq<Piece>) {
    var region, kept := layout.preamble, RetainedChars(pieces);
    var length := region.end - region.start;
    var remaining := RAW_FILE_CHAR_BUDGET - length;
    if remaining < 0 then
      forall q: nat, d: nat ::
        (&& HeadStop(content, region, OPEN_PREAMBLE_HEAD_CHARS, FrontPointers(layout), q)
         && TailStart(content, region, OPEN_PREAMBLE_TAIL_CHARS, FrontPointers(layout), d)) ==>
          kept >= q - region.start + (region.end - d)
    else if layout.post.None? then kept == length
    else if layout.post.value.end - layout.post.value.start <= remaining then
      kept == length + (layout.post.value.end - layout.post.value.start)
    else
      forall q: nat :: HeadStop(content, layout.post.value, remaining, BackPointers(layout), q) ==>
        kept >= length + (q - layout.post.value.start)
  }

  lemma {:induction false} TilingEnds(content: string, layout: Layout)
    requires RegionsTile(layout, |content|)
    ensures layout.preamble.start <= layout.preamble.end <= |content|
    ensures layout.post.Some? ==> layout.post.value.start <= layout.post.value.end <= |content|
  {
  }

  lemma {:induction false} RegionsApart(content: string, layout: Layout)
    requires RegionsTile(layout, |content|) && PointersApart(content, layout.pointers)
    ensures PointersApart(content, FrontPointers(layout)) && AllWithin(FrontPointers(layout), layout.preamble)
    ensures layout.post.Some? ==>
      PointersApart(content, BackPointers(layout)) && AllWithin(BackPointers(layout), layout.post.value)
  {
    hide PointersApart, AllWithin, Chosen;
    ChosenApart(content, layout.pointers, EndsBy(layout.preamble.end));
    PreambleWithin(content, layout.pointers, layout.preamble);
    if layout.post.Some? {
      ChosenApart(content, layout.pointers, StartsFrom(layout.post.value.start));
      PostWithin(content, layout.pointers, layout.post.value);
    }
  }

  method BoundedOpenQuestions(content: string, layout: Layout) returns (pieces: seq<Piece>)
    requires RegionsTile(layout, |content|) && PointersApart(content, layout.pointers)
    ensures IsBounded(pieces, layout, |content|) && IsRendering(content, layout, pieces)
  {
    TilingEnds(content, layout);
    RegionsApart(content, layout);
    hide PointersApart, AllWithin, FrontPointers, BackPointers, Renders, IsFront, IsBack, RetainedChars, IsBounded;
    var region, inPreamble := layout.preamble, FrontPointers(layout);
    var front, rendered := PreamblePieces(content, region, inPreamble);
    var back := [];
    if layout.post.Some? {
      var post, inPost := layout.post.value, BackPointers(layout);
      back := PostPieces(content, post, RAW_FILE_CHAR_BUDGET - rendered, inPost);
    }
    BoundedJoin(content, layout, front, back);
    assert Regions(content, layout, front, back);
    pieces := front + ResolvedPiece(layout) + back;
  }

  lemma {:induction false} FrontKeeps(content: string, layout: Layout, front: seq<Piece>)
    requires RegionsTile(layout, |content|) && IsFront(content, layout.preamble, FrontPointers(layout), front)
    requires PointersApart(content, FrontPointers(layout)) && AllWithin(FrontPointers(layout), layout.preamble)
    requires layout.preamble.end - layout.preamble.start > RAW_FILE_CHAR_BUDGET
    ensures var region, pointers := layout.preamble, FrontPointers(layout);
      forall q: nat, d: nat ::
        HeadStop(content, region, OPEN_PREAMBLE_HEAD_CHARS, pointers, q)
        && TailStart(content, region, OPEN_PREAMBLE_TAIL_CHARS, pointers, d) ==>
          RetainedChars(front) >= q - region.start + (region.end - d)
  {
    var region, pointers := layout.preamble, FrontPointers(layout);
    hide *;
    forall q: nat, d: nat | HeadStop(content, region, OPEN_PREAMBLE_HEAD_CHARS, pointers, q)
                         && TailStart(content, region, OPEN_PREAMBLE_TAIL_CHARS, pointers, d)
      ensures RetainedChars(front) >= q - region.start + (region.end - d)
    {
      TilingEnds(content, layout);
      FrontRetains(content, region, pointers, front, q, d);
    }
  }

  lemma {:induction false} WholeFront(content: string, layout: Layout, front: seq<Piece>)
    requires RegionsTile(layout, |content|) && IsFront(content, layout.preamble, FrontPointers(layout), front)
    requires layout.preamble.end - layout.preamble.start <= RAW_FILE_CHAR_BUDGET
    ensures RetainedChars(front) == layout.preamble.end - layout.preamble.start
  {
    assert front[1..] == [];
  }

  lemma {:induction false} BackWhole(content: string, region: Span, remaining: nat, pointers: seq<Pointer>, pieces: seq<Piece>)
    requires region.start <= region.end && IsBack(content, region, remaining, pointers, pieces)
    requires region.end - region.start <= remaining
    ensures RetainedChars(pieces) == region.end - region.start
  {
    assert pieces[1..] == [];
  }

  lemma {:induction false} BackKeeps(content: string, layout: Layout, front: seq<Piece>, back: seq<Piece>)
    requires Regions(content, layout, front, back) && layout.post.Some?
    requires PointersApart(content, BackPointers(layout)) && AllWithin(BackPointers(layout), layout.post.value)
    requires RetainedChars(front) <= RAW_FILE_CHAR_BUDGET
    ensures var post, remaining := layout.post.value, RAW_FILE_CHAR_BUDGET - RetainedChars(front);
      && (post.end - post.start <= remaining ==> RetainedChars(back) == post.end - post.start)
      && (forall q: nat :: HeadStop(content, post, remaining, BackPointers(layout), q) ==>
            RetainedChars(back) >= q - post.start)
  {
    var post, remaining := layout.post.value, RAW_FILE_CHAR_BUDGET - RetainedChars(front);
    assert IsBack(content, post, remaining, BackPointers(layout), back);
    TilingEnds(content, layout);
    hide *;
    if post.end - post.start <= remaining { BackWhole(content, post, remaining, BackPointers(layout), back); }
    forall q: nat | HeadStop(content, post, remaining, BackPointers(layout), q) ensures RetainedChars(back) >= q - post.start {
      BackRetains(content, post, remaining, BackPointers(layout), back, q);
    }
  }

  lemma {:induction false} RetainedOf(layout: Layout, front: seq<Piece>, back: seq<Piece>)
    ensures RetainedChars(front + ResolvedPiece(layout) + back) == RetainedChars(front) + RetainedChars(back)
  {
    var middle := ResolvedPiece(layout);
    var any := Pointer(Span(0, 0), Entry(Head(Legacy(""), "", None), []));
    assert middle != [] ==> middle[1..] == [];
    SumsJoin(front, middle, any);
    SumsJoin(front + middle, back, any);
  }

  lemma {:induction false} RenderingKeepsEnough(content: string, layout: Layout, pieces: seq<Piece>)
    requires PointersApart(content, layout.pointers) && IsRendering(content, layout, pieces)
    ensures KeepsEnough(content, layout, pieces)
  {
    var front, back :| Regions(content, layout, front, back) && pieces == front + ResolvedPiece(layout) + back;
    RegionsApart(content, layout);
    RetainedOf(layout, front, back);
    hide PointersApart, AllWithin, IsFront, IsBack, HeadStop, TailStart, FrontPointers, BackPointers, RetainedChars;
    if layout.preamble.end - layout.preamble.start > RAW_FILE_CHAR_BUDGET {
      FrontKeeps(content, layout, front);
    } else {
      WholeFront(content, layout, front);
      if layout.post.Some? { BackKeeps(content, layout, front, back); }
    }
  }

  // ---- From the lines of a file --------------------------------------------------------------------

  lemma {:induction false} PointersOf(lines: seq<string>, located: seq<Located>, p: Pointer)
    ensures p in Pointers(lines, located) <==>
      exists k :: 0 <= k < |located| && IsPointerAt(lines, located[k]) && p == PointerOf(lines, located[k])
  {
    hide IsPointerAt, PointerOf;
    if located != [] {
      var rest := located[1..];
      PointersOf(lines, rest, p);
      if p in Pointers(lines, rest) {
        var k :| 0 <= k < |rest| && IsPointerAt(lines, rest[k]) && p == PointerOf(lines, rest[k]);
        assert located[k + 1] == rest[k];
      }
      if k :| 0 < k < |located| && IsPointerAt(lines, located[k]) && p == PointerOf(lines, located[k]) {
        assert rest[k - 1] == located[k];
      }
    }
  }

  lemma {:induction false} InPlaceRest(lines: seq<string>, from: nat, located: seq<Located>)
    requires InPlace(lines, from, located) && located != []
    ensures InPlace(lines, from, located[1..])
    ensures forall k :: 1 <= k < |located| ==> located[0].last <= located[k].first
  {
    hide Fits;
  }

  lemma SpanEnds(lines: seq<string>, l: Located)
    requires l.first < l.last <= |lines|
    ensures SpanOf(lines, l).end + 1 == Offset(lines, l.last) && (l.first == 0 ==> Offset(lines, l.first) == 0)
  {
  }

  lemma {:induction false} SpanIsLine(lines: seq<string>, l: Located)
    requires Fits(lines, 0, l)
    ensures SpanFits(Content(lines), SpanOf(lines, l))
    ensures SpanOf(lines, l).end + 1 == Offset(lines, l.last)
  {
    assert |lines[l.first]| >= 3;
    hide Content, IsHeadLine, IsContinuation, Fits, Offset;
    ContentLength(lines);
    SpanEnds(lines, l);
    OffsetsAscend(lines, l.first, l.last);
    OffsetGrows(lines, l.last, |lines|);
    if l.first > 0 { NewlineBefore(lines, l.first); }
  }

  // All the pointers start behind a position.
  ghost predicate AllAfter(end: nat, pointers: seq<Pointer>) {
    forall k :: 0 <= k < |pointers| ==> end < pointers[k].span.start
  }

  lemma {:induction false} AfterCons(end: nat, p: Pointer, later: seq<Pointer>)
    requires end < p.span.start && AllAfter(end, later)
    ensures AllAfter(end, [p] + later)
  {
  }

  lemma {:induction false} LaterStarts(lines: seq<string>, end: nat, last: nat, rest: seq<Located>)
    requires end < Offset(lines, last)
    requires forall k :: 0 <= k < |rest| ==> last <= rest[k].first
    ensures AllAfter(end, Pointers(lines, rest))
  {
    if rest == [] {
      assert AllAfter(end, []);
    } else {
      hide IsPointerAt, Offset, AllAfter;
      var l, before := rest[0], Pointers(lines, rest[1..]);
      LaterStarts(lines, end, last, rest[1..]);
      OffsetGrows(lines, last, l.first);
      AfterCons(end, PointerOf(lines, l), before);
      assert [] + before == before;
    }
  }

  lemma {:induction false} ApartCons(content: string, p: Pointer, later: seq<Pointer>)
    requires SpanFits(content, p.span) && PointersApart(content, later)
    requires AllAfter(p.span.end, later)
    ensures PointersApart(content, [p] + later)
  {
    hide SpanFits;
  }

  lemma {:induction false} PointersStandApart(lines: seq<string>, from: nat, located: seq<Located>)
    requires InPlace(lines, from, located)
    ensures PointersApart(Content(lines), Pointers(lines, located))
  {
    if located != [] {
      var l, rest := located[0], located[1..];
      hide Content, Offset, IsPointerAt, SpanFits, SpanOf;
      InPlaceRest(lines, from, located);
      PointersStandApart(lines, from, rest);
      assert Fits(lines, from, l);
      hide Fits, InPlace;
      SpanIsLine(lines, l);
      LaterStarts(lines, SpanOf(lines, l).end, l.last, rest);
      var later := Pointers(lines, rest);
      assert [] + later == later;
      ApartCons(Content(lines), PointerOf(lines, l), later);
      hide PointersApart;
    }
  }

  lemma {:induction false} HeadNotResolved(l: string)
    requires IsHeadLine(l)
    ensures !IsResolvedLine(l)
  {
    assert l[..3][0] == '-' && !IsSpace(l[0]);
    assert LStrip(l) == l;
    RStripStart(l);
  }

  // Where the open regions begin and end, in lines.
  lemma {:induction false} LayoutShape(lines: seq<string>)
    requires lines != []
    ensures var layout, r, p, n := LayoutOf(lines), ResolvedAt(lines), PostAt(lines), |lines|;
      && layout.preamble == Span(0, if r == n then |Content(lines)| else Offset(lines, r))
      && (layout.post.Some? <==> r < n && p < n)
      && (layout.post.Some? ==> layout.post.value == Span(Offset(lines, p), |Content(lines)|))
      && layout.pointers == Pointers(lines, EntriesOf(lines))
      && (r < n ==> r < p)
      && |Content(lines)| + 1 == Offset(lines, n)
  {
    ContentLength(lines);
    hide Content, Offset, IsResolvedLine, StartsSection;
  }

  lemma {:induction false} ResolvedNotEmpty(l: string)
    requires IsResolvedLine(l)
    ensures |l| > 0
  {
    assert |Strip(l)| <= |l|;
  }

  lemma {:induction false} ResolvedLineThere(lines: seq<string>)
    ensures ResolvedAt(lines) < |lines| ==> IsResolvedLine(lines[ResolvedAt(lines)]) && |lines[ResolvedAt(lines)]| > 0
  {
    var r := ResolvedAt(lines);
    if r < |lines| {
      assert !NotResolvedLine(lines[r]);
      hide IsResolvedLine;
      ResolvedNotEmpty(lines[r]);
    }
  }

  lemma {:induction false} PlacedBefore(lines: seq<string>, l: Located, r: nat)
    requires l.first < l.last <= |lines| && r <= |lines| && r != l.first
    ensures l.last <= r ==> Offset(lines, l.last) <= Offset(lines, r)
    ensures r < l.first ==> Offset(lines, r) < Offset(lines, l.first)
    ensures l.first < r ==> Offset(lines, l.first) < Offset(lines, r)
  {
    if l.last <= r { OffsetGrows(lines, l.last, r); }
    if r < l.first { OffsetsAscend(lines, r, l.first); }
    if l.first < r { OffsetsAscend(lines, l.first, r); }
  }

  lemma {:induction false} CrossingEnds(lines: seq<string>, l: Located, r: nat)
    requires l.first < r < l.last <= |lines|
    requires |lines[r]| > 0
    ensures SpanOf(lines, l).end > Offset(lines, r)
  {
    OffsetsAscend(lines, r, l.last);
  }

  // A pointer lies wholly in one open region exactly when its entry does not go on over the
  // first `## Resolved` line.
  lemma {:induction false} PointerPlaced(lines: seq<string>, l: Located)
    requires Fits(lines, 0, l) && IsPointerAt(lines, l)
    ensures InOpenRegion(LayoutOf(lines), PointerOf(lines, l)) <==> !Crosses(lines, l)
  {
    hide LayoutOf, ResolvedAt, PostAt, Content, Eligible, IsHeadLine, IsContinuation, IsResolvedLine;
    var r, post, n := ResolvedAt(lines), PostAt(lines), |lines|;
    LayoutShape(lines);
    SpanIsLine(lines, l);
    HeadNotResolved(lines[l.first]);
    ResolvedLineThere(lines);
    assert SpanOf(lines, l).start == Offset(lines, l.first);
    OffsetGrows(lines, l.last, n);
    PlacedBefore(lines, l, r);
    if r < n { OffsetGrows(lines, r, post); }
    if r < n && l.first < r < l.last { CrossingEnds(lines, l, r); }
    hide SpanOf, Fits, Offset, SpanFits;
  }

  lemma LayoutReady(lines: seq<string>)
    requires lines != []
    ensures RegionsTile(LayoutOf(lines), |Content(lines)|) && PointersApart(Content(lines), LayoutOf(lines).pointers)
  {
    hide *;
    LayoutTiles(lines);
    LayoutShape(lines);
    EntriesInPlace(lines);
    PointersStandApart(lines, HeaderLines(lines), EntriesOf(lines));
  }

  lemma BoundedParts(pieces: seq<Piece>, layout: Layout, total: nat)
    requires IsBounded(pieces, layout, total)
    ensures Tiles(pieces, 0, total) && RetainedChars(pieces) <= RAW_FILE_CHAR_BUDGET && MarkersInOrder(pieces)
  {
    hide MarkersInOrder, Tiles, RetainedChars, Homes;
  }

  // An eligible pointer is in one piece, or, when it crosses, in none.
  ghost predicate HomeOnce(lines: seq<string>, pieces: seq<Piece>, l: Located) {
    IsPointerAt(lines, l) ==> Homes(pieces, PointerOf(lines, l)) == if Crosses(lines, l) then 0 else 1
  }

  lemma {:induction false} HomesOfEntry(lines: seq<string>, pieces: seq<Piece>, l: Located)
    requires lines != [] && IsBounded(pieces, LayoutOf(lines), |Content(lines)|) && l in EntriesOf(lines)
    ensures HomeOnce(lines, pieces, l)
  {
    EntriesInPlace(lines);
    LayoutShape(lines);
    var located := EntriesOf(lines);
    hide EntriesOf, LayoutOf, Content, Offset, IsPointerAt, PointerOf, Crosses, Tiles, InOpenRegion, Pointers;
    PointersOf(lines, located, PointerOf(lines, l));
    var k :| 0 <= k < |located| && located[k] == l;
    assert Fits(lines, HeaderLines(lines), located[k]);
    hide InPlace, HeaderLines;
    if IsPointerAt(lines, l) { PointerPlaced(lines, l); }
  }

  // ---- Surfacing the omitted pointers -----------------------------------------------------------

  function Listed(pieces: seq<Piece>): seq<Pointer> {
    if pieces == [] then [] else (if pieces[0].Omitted? then pieces[0].pointers else []) + Listed(pieces[1..])
  }

  lemma MinFits(slots: int, n: nat)
    ensures slots > 0 ==> 0 <= Min(slots, n) <= n
  {
  }

  // The slots left, and how much of what was seen has been surfaced.
  ghost predicate Surfacing(seen: seq<Pointer>, surfaced: seq<Pointer>, overflow: int, slots: int) {
    && slots == POINTER_EXTRACT_LIMIT - |surfaced| && slots >= 0
    && |surfaced| + overflow == |seen| && overflow >= 0
    && surfaced == seen[..Min(POINTER_EXTRACT_LIMIT, |seen|)]
  }

  lemma SurfacingStarts(pieces: seq<Piece>)
    ensures Surfacing([], [], 0, POINTER_EXTRACT_LIMIT) && Listed(pieces) == [] + Listed(pieces[0..])
  {
    assert pieces[0..] == pieces;
  }

  lemma ListedStep(pieces: seq<Piece>, i: nat, seen: seq<Pointer>)
    requires i < |pieces|
    ensures var here := if pieces[i].Omitted? then pieces[i].pointers else [];
      seen + Listed(pieces[i..]) == seen + here + Listed(pieces[i + 1..])
    ensures seen + [] == seen
  {
    assert pieces[i..][1..] == pieces[i + 1..];
  }

  lemma {:induction false} SurfaceMore(seen: seq<Pointer>, surfaced: seq<Pointer>, overflow: int, slots: int,
                                       pointers: seq<Pointer>, extracted: seq<Pointer>)
    requires Surfacing(seen, surfaced, overflow, slots)
    requires extracted == if slots > 0 then pointers[..Min(slots, |pointers|)] else []
    ensures |extracted| <= slots && |extracted| <= |pointers|
    ensures Surfacing(seen + pointers, surfaced + extracted, overflow + (|pointers| - |extracted|), slots - |extracted|)
  {
    if |seen| > POINTER_EXTRACT_LIMIT {
      assert (seen + pointers)[..POINTER_EXTRACT_LIMIT] == seen[..POINTER_EXTRACT_LIMIT];
    }
  }

  lemma SurfacingEnds(pieces: seq<Piece>, seen: seq<Pointer>, surfaced: seq<Pointer>, overflow: int, slots: int)
    requires Surfacing(seen, surfaced, overflow, slots) && Listed(pieces) == seen + Listed(pieces[|pieces|..])
    ensures surfaced == Listed(pieces)[..Min(POINTER_EXTRACT_LIMIT, |Listed(pieces)|)]
    ensures |surfaced| + overflow == |Listed(pieces)|
  {
    assert pieces[|pieces|..] == [] && Listed(pieces) == seen;
  }

  // The pointers surfaced again: the first twenty in file order, over all markers; the
  // trailer counts the others.
  method Assemble(pieces: seq<Piece>) returns (surfaced: seq<Pointer>, overflow: nat)
    ensures surfaced == Listed(pieces)[..Min(POINTER_EXTRACT_LIMIT, |Listed(pieces)|)]
    ensures |surfaced| + overflow == |Listed(pieces)|
  {
    hide *;
    surfaced, overflow := [], 0;
    var slots := POINTER_EXTRACT_LIMIT;
    ghost var seen: seq<Pointer> := [];
    SurfacingStarts(pieces);
    var i := 0;
    while i < |pieces|
      invariant i <= |pieces| && Listed(pieces) == seen + Listed(pieces[i..])
      invariant Surfacing(seen, surfaced, overflow, slots)
    {
      ListedStep(pieces, i, seen);
      if pieces[i].Omitted? {
        var pointers := pieces[i].pointers;
        MinFits(slots, |pointers|);
        var extracted := if slots > 0 then pointers[..Min(slots, |pointers|)] else [];
        SurfaceMore(seen, surfaced, overflow, slots, pointers, extracted);
        overflow := overflow + (|pointers| - |extracted|);
        slots := slots - |extracted|;
        surfaced := surfaced + extracted;
        seen := seen + pointers;
      }
      i := i + 1;
    }
    SurfacingEnds(pieces, seen, surfaced, overflow, slots);
  }

  lemma {:induction false} OrderJoin(a: seq<Pointer>, b: seq<Pointer>, pos: nat, mid: nat, end: nat)
    requires InFileOrder(a) && InFileOrder(b) && pos <= mid <= end
    requires AllWithin(a, Span(pos, mid)) && AllWithin(b, Span(mid, end))
    ensures InFileOrder(a + b) && AllWithin(a + b, Span(pos, end))
  {
    var all := a + b;
    forall k | 0 <= k < |all| ensures Within(all[k].span, Span(pos, end)) {
      if k < |a| { assert Within(a[k].span, Span(pos, mid)); } else { assert Within(b[k - |a|].span, Span(mid, end)); }
    }
    forall j, k | 0 <= j < k < |all| ensures all[j].span.end <= all[k].span.start {
      if j < |a| <= k { assert Within(a[j].span, Span(pos, mid)) && Within(b[k - |a|].span, Span(mid, end)); }
    }
  }

  // Markers in file order over a tiling list their pointers in file order.
  lemma {:induction false} ListedInOrder(pieces: seq<Piece>, pos: nat, end: nat)
    requires Tiles(pieces, pos, end) && MarkersInOrder(pieces)
    ensures InFileOrder(Listed(pieces)) && AllWithin(Listed(pieces), Span(pos, end)) && pos <= end
  {
    if pieces == [] {
      assert Listed(pieces) == [];
    } else {
      var rest := pieces[1..];
      assert MarkersInOrder(rest) by { assert forall i :: 0 <= i < |rest| ==> rest[i] == pieces[i + 1]; }
      var here := if pieces[0].Omitted? then pieces[0].pointers else [];
      var next := if pieces[0].Retained? then pieces[0].span.end else pos + pieces[0].count;
      ListedInOrder(rest, next, end);
      OrderJoin(here, Listed(rest), pos, next, end);
    }
  }

  // The pointer lies wholly in a retained piece.
  predicate KeptWhole(pieces: seq<Piece>, p: Pointer) {
    pieces != [] && ((pieces[0].Retained? && Within(p.span, pieces[0].span)) || KeptWhole(pieces[1..], p))
  }

  // A pointer with one home is retained or listed, not both; one without is neither.
  lemma {:induction false} HomeIsOne(pieces: seq<Piece>, p: Pointer)
    ensures Homes(pieces, p) == 0 ==> !KeptWhole(pieces, p) && p !in Listed(pieces)
    ensures Homes(pieces, p) == 1 ==> (KeptWhole(pieces, p) <==> p !in Listed(pieces))
  {
    if pieces != [] { HomeIsOne(pieces[1..], p); }
  }

  // What becomes of an entry that is an eligible pointer: it is retained whole or listed
  // with a marker, and not both; one that crosses is neither.
  ghost predicate Accounted(lines: seq<string>, pieces: seq<Piece>, l: Located) {
    IsPointerAt(lines, l) ==>
      var p := PointerOf(lines, l);
      if Crosses(lines, l) then !KeptWhole(pieces, p) && p !in Listed(pieces)
      else KeptWhole(pieces, p) <==> p !in Listed(pieces)
  }

  lemma {:induction false} EntryAccounted(lines: seq<string>, pieces: seq<Piece>, l: Located)
    requires HomeOnce(lines, pieces, l)
    ensures Accounted(lines, pieces, l)
  {
    hide IsPointerAt, PointerOf, Crosses, Homes, KeptWhole, Listed;
    HomeIsOne(pieces, PointerOf(lines, l));
  }

  // The file's own layout, cut to the budget. All characters are accounted for, the budget
  // is kept and used, and each pointer is whole in the retained text or listed with a
  // marker, unless it goes on over the first `## Resolved` line, which loses it. Of the
  // listed ones the first twenty are surfaced in file order and the others counted.
  method RenderOpenQuestions(lines: seq<string>) returns (pieces: seq<Piece>, surfaced: seq<Pointer>, overflow: nat)
    requires lines != []
    ensures Tiles(pieces, 0, |Content(lines)|) && IsRendering(Content(lines), LayoutOf(lines), pieces)
    ensures RetainedChars(pieces) + OmittedChars(pieces) == |Content(lines)|
    ensures RetainedChars(pieces) <= RAW_FILE_CHAR_BUDGET && KeepsEnough(Content(lines), LayoutOf(lines), pieces)
    ensures forall l :: l in EntriesOf(lines) ==> Accounted(lines, pieces, l)
    ensures InFileOrder(Listed(pieces))
    ensures surfaced == Listed(pieces)[..Min(POINTER_EXTRACT_LIMIT, |Listed(pieces)|)]
    ensures |surfaced| + overflow == |Listed(pieces)|
  {
    var layout, content := LayoutOf(lines), Content(lines);
    LayoutReady(lines);
    hide *;
    pieces := BoundedOpenQuestions(content, layout);
    BoundedParts(pieces, layout, |content|);
    TilesAddUp(pieces, 0, |content|);
    RenderingKeepsEnough(content, layout, pieces);
    ListedInOrder(pieces, 0, |content|);
    forall l | l in EntriesOf(lines) ensures Accounted(lines, pieces, l) {
      HomesOfEntry(lines, pieces, l);
      EntryAccounted(lines, pieces, l);
    }
    surfaced, overflow := Assemble(pieces);
  }

  // ---- An entry that crosses ---------------------------------------------------------------------

  // A line of prose as long as the whole budget.
  function Padding(): (s: string)
    ensures |s| == RAW_FILE_CHAR_BUDGET && forall i :: 0 <= i < |s| ==> s[i] == 'x'
  {
    seq(RAW_FILE_CHAR_BUDGET, _ => 'x')
  }

  function CrossingFile(): seq<string> {
    ["- [Q1] BRIEF: x", "  ## Resolved", Padding()]
  }

  function CrossingHead(): Head {
    Head(Numbered(1, "Q1"), "BRIEF: x", None)
  }

  lemma {:induction false} CrossingHeadRead()
    ensures ParseHead(CrossingFile()[0]) == Some(CrossingHead()) && IsHeadLine(CrossingFile()[0])
    ensures IsPointerBody(CrossingHead().body)
  {
    var h := CrossingHead();
    QuestionIdRoundTrip(1);
    assert Numeral(1) == "1";
    assert "Q" + "1" == "Q1";
    assert LStrip(h.body) == h.body && h.body[..6] == "BRIEF:";
    assert RenderHead(h) == CrossingFile()[0];
    HeadRoundTrip(h);
    assert CrossingFile()[0][..3] == HeadMark();
  }

  lemma {:induction false} CrossingLines()
    ensures var l := CrossingFile()[1];
      IsContinuation(l) && IsResolvedLine(l) && !IsResolvedLine(CrossingFile()[0]) && !IsBlank(CrossingFile()[0])
  {
    var h, l, s := CrossingFile()[0], CrossingFile()[1], "## Resolved";
    assert l[..2] == "  " && l[1..][1..] == s;
    assert s[0] == '#' && s[|s| - 1] == 'd';
    assert LStrip(l) == LStrip(l[1..]) == LStrip(s) == s;
    assert h[0] == '-' && !IsSpace(h[0]);
    assert IsHeadLine(h) by { assert h[..3] == HeadMark(); }
    HeadNotResolved(h);
  }

  lemma {:induction false} PaddingPlain()
    ensures IsPlain(Padding()) && !IsContinuation(Padding())
  {
    var s := Padding();
    assert s[0] == 'x';
    hide Padding;
    StartsNot(s, "## ");
    StartsNot(s, "### ");
    StartsNot(s, HeadMark());
    StartsNot(s, "  ");
  }

  // A head line and one continuation line make one entry.
  lemma {:induction false} EntryOfTwo(lines: seq<string>, h: Head)
    requires |lines| == 3 && ParseHead(lines[0]) == Some(h) && IsHeadLine(lines[0])
    requires IsContinuation(lines[1]) && !IsContinuation(lines[2])
    ensures FirstBlock(lines) == EntryBlock(Entry(h, [lines[1]])) && FirstSize(lines) == 2
  {
    hide ParseHead, IsHeadLine, IsContinuation, IsSection, IsTopic;
    KindsApart(lines[0]);
    var rest := lines[1..];
    assert rest[0] == lines[1] && rest[1..][0] == lines[2] && RunLength(IsContinuation, rest) == 1;
    assert lines[1..2] == [lines[1]];
  }

  lemma {:induction false} NothingLocated(l: string, cursor: nat)
    requires IsPlain(l)
    ensures Locate(Blocks([l]), cursor) == []
  {
    hide IsSection, IsTopic, IsHeadLine;
    var lines := [l];
    assert RunLength(IsPlain, lines) == 1 && lines[1..] == [];
    assert Blocks(lines[1..]) == [];
    assert Blocks(lines) == [Prose(lines[..1])];
  }

  lemma {:induction false} OneEntry(lines: seq<string>, e: Entry)
    requires |lines| == 3 && FirstBlock(lines) == EntryBlock(e) && FirstSize(lines) == 2 && HeaderLines(lines) == 0
    requires IsPlain(lines[2])
    ensures EntriesOf(lines) == [Located(0, 2, e)]
  {
    hide FirstBlock, FirstSize, HeaderLines, Blocks, Locate, IsPlain;
    assert lines[0..] == lines && lines[2..] == [lines[2]];
    LocateStep(lines, 0);
    NothingLocated(lines[2], 2);
  }

  lemma {:induction false} NoHeader(lines: seq<string>)
    requires lines != [] && !IsBlank(lines[0]) && lines[0] != [] && lines[0][0] != '#'
    ensures HeaderLines(lines) == 0
  {
    StartsNot(lines[0], "# ");
    hide IsBlank, StartsWith;
  }

  // The second line is the first resolved one.
  lemma {:induction false} ResolvedSecond(lines: seq<string>)
    requires |lines| == 3 && !IsResolvedLine(lines[0]) && IsResolvedLine(lines[1])
    ensures ResolvedAt(lines) == 1
  {
    hide IsResolvedLine;
    assert lines[1..][0] == lines[1];
  }

  // An open discovery pointer of two lines that crosses.
  lemma {:induction false} CrossesAt(lines: seq<string>, l: Located)
    requires |lines| == 3 && l.first == 0 && l.last == 2 && ResolvedAt(lines) == 1
    requires IsHeadLine(lines[0]) && IsContinuation(lines[1]) && Eligible(l.entry)
    ensures Fits(lines, 0, l) && IsPointerAt(lines, l) && Crosses(lines, l)
  {
    hide IsHeadLine, IsContinuation, ResolvedAt, PostAt, Eligible;
    assert Offset(lines, 0) == 0 < Offset(lines, 1);
  }

  // The last line alone fills the budget.
  lemma {:induction false} OverBudget(lines: seq<string>)
    requires |lines| == 3 && |lines[2]| == RAW_FILE_CHAR_BUDGET
    ensures |Content(lines)| > RAW_FILE_CHAR_BUDGET
  {
    ContentLength(lines);
    assert Offset(lines, 3) == Offset(lines, 2) + |lines[2]| + 1;
    OffsetsAscend(lines, 0, 2);
  }

  // The file is over the budget. Its one entry is an open discovery pointer outside the
  // resolved region that goes on over the first resolved line, so no rendering that accounts
  // for its entries keeps it or lists it.
  lemma {:induction false} CrossingExample(pieces: seq<Piece>)
    ensures var lines, l := CrossingFile(), Located(0, 2, Entry(CrossingHead(), [CrossingFile()[1]]));
      && |Content(lines)| > RAW_FILE_CHAR_BUDGET
      && EntriesOf(lines) == [l] && IsPointerAt(lines, l) && Crosses(lines, l)
      && !InOpenRegion(LayoutOf(lines), PointerOf(lines, l))
      && (Accounted(lines, pieces, l) ==>
            !KeptWhole(pieces, PointerOf(lines, l)) && PointerOf(lines, l) !in Listed(pieces))
  {
    var lines, e := CrossingFile(), Entry(CrossingHead(), [CrossingFile()[1]]);
    var l := Located(0, 2, e);
    CrossingHeadRead();
    CrossingLines();
    PaddingPlain();
    OverBudget(lines);
    assert lines[0][0] == '-' && |lines[0]| == 15;
    ResolvedSecond(lines);
    NoHeader(lines);
    hide IsResolvedLine, ParseHead, IsHeadLine, IsContinuation, IsPointerBody, LayoutOf, InOpenRegion, ResolvedAt, HeaderLines, EntriesOf, PostAt;
    hide IsPlain, Content, Padding, KeptWhole, Listed;
    EntryOfTwo(lines, CrossingHead());
    OneEntry(lines, e);
    hide CrossingFile, InResolved, Crosses, Fits, PointerOf, CrossingHead;
    CrossesAt(lines, l);
    PointerPlaced(lines, l);
  }
}
