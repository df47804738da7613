// open-questions.md as blocks: the parser and the printer.
module Questions {
  import opened Identifiers
  import opened Text
  import opened QuestionLines

  // ---- Lines ---------------------------------------------------------------------------

  predicate IsSection(l: string) {
    StartsWith(l, "## ")
  }

  predicate IsTopic(l: string) {
    StartsWith(l, "### ")
  }

  predicate IsHeadLine(l: string) {
    StartsWith(l, HeadMark())
  }

  predicate IsContinuation(l: string) {
    StartsWith(l, "  ")
  }

  // Any line that is not the start of a structured block.
  predicate IsPlain(l: string) {
    !IsSection(l) && !IsTopic(l) && !IsHeadLine(l)
  }

  // What a `### ` block goes on with.
  predicate IsTopicBody(l: string) {
    !IsBlank(l) && IsPlain(l)
  }

  // Any `## ` header that names "resolved".
  predicate IsDividerText(l: string) {
    FindText(Lower(Strip(l)), "resolved") >= 0
  }

  // A line of text starts one kind of block at most, and a continuation none.
  lemma {:induction false} KindsApart(l: string)
    ensures IsSection(l) ==> !IsTopic(l) && !IsHeadLine(l)
    ensures IsTopic(l) ==> !IsHeadLine(l)
    ensures IsContinuation(l) ==> IsPlain(l)
    ensures IsBlank(l) ==> IsPlain(l)
  {
    if |l| >= 3 { assert l[..3][0] == l[0] && l[..3][2] == l[2]; }
    if |l| >= 4 { assert l[..4][0] == l[0] && l[..4][2] == l[2]; }
    if |l| >= 2 { assert l[..2][0] == l[0]; }
  }

  // ---- Blocks ------------------------------------------------------------------------------

  datatype Entry = Entry(head: Head, continuation: seq<string>)

  datatype Block =
    | Header(text: string, divider: bool)
    | Prose(lines: seq<string>)
    | EntryBlock(entry: Entry)
    | Triple(lines: seq<string>)
    | Unparsable(line: string)

  datatype Doc = Doc(header: string, blocks: seq<Block>)

  // How many leading elements satisfy `p`.
  function RunLength(p: string -> bool, s: seq<string>): (n: nat)
    ensures n <= |s|
    ensures forall k :: 0 <= k < n ==> p(s[k])
    ensures n < |s| ==> !p(s[n])
  {
    if s != [] && p(s[0]) then 1 + RunLength(p, s[1..]) else 0
  }

  // The block a non-empty list of lines starts with, and how many lines it covers.
  function FirstBlock(lines: seq<string>): Block
    requires lines != []
  {
    var l := lines[0];
    if IsSection(l) then Header(RStrip(l), IsDividerText(l))
    else if IsTopic(l) then Triple([l] + lines[1..1 + RunLength(IsTopicBody, lines[1..])])
    else if IsHeadLine(l) then
      (if ParseHead(l).None? then Unparsable(l)
       else EntryBlock(Entry(ParseHead(l).value, lines[1..1 + RunLength(IsContinuation, lines[1..])])))
    else Prose(lines[..RunLength(IsPlain, lines)])
  }

  function FirstSize(lines: seq<string>): (n: nat)
    requires lines != []
    ensures 1 <= n <= |lines|
  {
    var l := lines[0];
    if IsSection(l) then 1
    else if IsTopic(l) then 1 + RunLength(IsTopicBody, lines[1..])
    else if IsHeadLine(l) then (if ParseHead(l).None? then 1 else 1 + RunLength(IsContinuation, lines[1..]))
    else RunLength(IsPlain, lines)
  }

  function Blocks(lines: seq<string>): seq<Block>
    decreases |lines|
  {
    if lines == [] then [] else [FirstBlock(lines)] + Blocks(lines[FirstSize(lines)..])
  }

  function RenderBlock(b: Block): seq<string> {
    match b
    case Header(text, _) => [text]
    case Prose(lines) => lines
    case EntryBlock(e) => [RenderHead(e.head)] + e.continuation
    case Triple(lines) => lines
    case Unparsable(line) => [line]
  }

  function Render(blocks: seq<Block>): seq<string> {
    if blocks == [] then [] else RenderBlock(blocks[0]) + Render(blocks[1..])
  }

  // ---- The file header -----------------------------------------------------------------------

  const DEFAULT_HEADER: string := "# Open Questions"

  predicate IsTitle(l: string) {
    StartsWith(l, "# ") && !IsSection(l)
  }

  function LeadingBlanks(lines: seq<string>): (n: nat)
    ensures n <= |lines|
  {
    RunLength(IsBlank, lines)
  }

  // Lines used up before the first block: blanks, and the `# ` header when there is one.
  function HeaderLines(lines: seq<string>): (n: nat)
    ensures n <= |lines|
  {
    var i := LeadingBlanks(lines);
    if i < |lines| && IsTitle(lines[i]) then i + 1 else i
  }

  function HeaderText(lines: seq<string>): string {
    var i := LeadingBlanks(lines);
    if i < |lines| && IsTitle(lines[i]) then RStrip(lines[i]) else DEFAULT_HEADER
  }

  function Parsed(lines: seq<string>): Doc {
    Doc(HeaderText(lines), Blocks(lines[HeaderLines(lines)..]))
  }

  function Formatted(doc: Doc): seq<string> {
    [doc.header] + Render(doc.blocks)
  }

  // ---- The parser ---------------------------------------------------------------------------

  method ParseHeader(lines: seq<string>) returns (header: string, i: nat)
    ensures header == HeaderText(lines) && i == HeaderLines(lines)
  {
    i := 0;
    while i < |lines| && IsBlank(lines[i])
      invariant i <= |lines| && LeadingBlanks(lines) == i + LeadingBlanks(lines[i..])
    {
      i := i + 1;
    }
    header := DEFAULT_HEADER;
    if i < |lines| && IsTitle(lines[i]) {
      header := RStrip(lines[i]);
      i := i + 1;
    }
  }

  // The lines from `start` on that satisfy `p`, up to the first that does not.
  method TakeRun(p: string -> bool, lines: seq<string>, start: nat) returns (run: seq<string>, j: nat)
    requires start <= |lines|
    ensures j == start + RunLength(p, lines[start..]) && run == lines[start..][..j - start]
  {
    run := [];
    j := start;
    while j < |lines| && p(lines[j])
      invariant start <= j <= |lines| && run == lines[start..j]
      invariant RunLength(p, lines[start..]) == j - start + RunLength(p, lines[j..])
    {
      assert lines[j..][1..] == lines[j + 1..];
      run := run + [lines[j]];
      j := j + 1;
    }
    assert lines[start..][..j - start] == lines[start..j];
  }

  lemma {:induction false} BlocksStep(lines: seq<string>)
    requires lines != []
    ensures Blocks(lines) == [FirstBlock(lines)] + Blocks(lines[FirstSize(lines)..])
  {
  }

  lemma {:induction false} RunOf(p: string -> bool, run: seq<string>, rest: seq<string>)
    requires forall k :: 0 <= k < |run| ==> p(run[k])
    requires rest == [] || !p(rest[0])
    ensures RunLength(p, run + rest) == |run|
  {
    if run == [] {
      assert run + rest == rest;
    } else {
      RunOf(p, run[1..], rest);
      assert (run + rest)[1..] == run[1..] + rest;
    }
  }

  // Plain lines in front of anything that is not plain make one prose block.
  lemma {:induction false} BlocksOfProse(pending: seq<string>, rest: seq<string>)
    requires pending != [] && (forall k :: 0 <= k < |pending| ==> IsPlain(pending[k]))
    requires rest == [] || !IsPlain(rest[0])
    ensures Blocks(pending + rest) == [Prose(pending)] + Blocks(rest)
  {
    var lines := pending + rest;
    RunOf(IsPlain, pending, rest);
    assert lines[0] == pending[0];
    assert lines[..|pending|] == pending && lines[|pending|..] == rest;
    hide IsPlain, Blocks, RunLength;
    BlocksStep(lines);
  }

  // Prose waiting to be flushed, in front of the lines still to read.
  function Flushed(pending: seq<string>): seq<Block> {
    if pending == [] then [] else [Prose(pending)]
  }

  lemma {:induction false} FlushStep(pending: seq<string>, rest: seq<string>)
    requires forall k :: 0 <= k < |pending| ==> IsPlain(pending[k])
    requires rest == [] || !IsPlain(rest[0])
    ensures Blocks(pending + rest) == Flushed(pending) + Blocks(rest)
  {
    if pending == [] {
      assert pending + rest == rest;
      assert [] + Blocks(rest) == Blocks(rest);
      hide Blocks;
    } else {
      hide Blocks;
      BlocksOfProse(pending, rest);
    }
  }

  // Half-way through the body: what is built, what waits, and what is still to read.
  ghost predicate Reading(body: seq<string>, blocks: seq<Block>, pending: seq<string>, rest: seq<string>) {
    && (forall k :: 0 <= k < |pending| ==> IsPlain(pending[k]))
    && Blocks(body) == blocks + Blocks(pending + rest)
  }

  lemma {:induction false} ReadStarts(body: seq<string>)
    ensures Reading(body, [], [], body)
  {
    hide Blocks;
    assert [] + body == body;
    assert [] + Blocks(body) == Blocks(body);
  }

  lemma {:induction false} ReadPlain(body: seq<string>, blocks: seq<Block>, pending: seq<string>, rest: seq<string>)
    requires Reading(body, blocks, pending, rest) && rest != [] && IsPlain(rest[0])
    ensures Reading(body, blocks, pending + [rest[0]], rest[1..])
  {
    hide Blocks, IsPlain;
    assert pending + rest == (pending + [rest[0]]) + rest[1..];
  }

  lemma {:induction false} Regroup(a: seq<Block>, b: seq<Block>, x: Block, c: seq<Block>)
    ensures a + (b + ([x] + c)) == a + b + [x] + c
  {
  }

  lemma {:induction false} ReadBlock(body: seq<string>, blocks: seq<Block>, pending: seq<string>, rest: seq<string>)
    requires Reading(body, blocks, pending, rest) && rest != [] && !IsPlain(rest[0])
    ensures Reading(body, blocks + Flushed(pending) + [FirstBlock(rest)], [], rest[FirstSize(rest)..])
  {
    hide IsPlain, FirstBlock;
    hide Blocks, FirstSize, Flushed;
    FlushStep(pending, rest);
    BlocksStep(rest);
    var later := rest[FirstSize(rest)..];
    assert [] + later == later;
    Regroup(blocks, Flushed(pending), FirstBlock(rest), Blocks(later));
  }

  lemma {:induction false} DropTwice(lines: seq<string>, i: nat, n: nat)
    requires i + n <= |lines|
    ensures lines[i..][n..] == lines[i + n..]
  {
  }

  lemma {:induction false} ReadEnds(body: seq<string>, blocks: seq<Block>, pending: seq<string>)
    requires Reading(body, blocks, pending, [])
    ensures Blocks(body) == blocks + Flushed(pending)
  {
    hide IsPlain;
    FlushStep(pending, []);
    assert Blocks([]) == [];
    assert Flushed(pending) + [] == Flushed(pending);
    hide Blocks, Flushed;
  }

  method FlushProse(blocks: seq<Block>, pending: seq<string>) returns (all: seq<Block>)
    ensures all == blocks + Flushed(pending)
  {
    all := blocks;
    if pending != [] {
      all := all + [Prose(pending)];
    }
  }

  lemma {:induction false} ReadAll(lines: seq<string>)
    ensures lines[|lines|..] == []
  {
  }

  method CheckPlain(line: string) returns (plain: bool)
    ensures plain == IsPlain(line)
  {
    plain := !IsSection(line) && !IsTopic(line) && !IsHeadLine(line);
  }

  // A structured block, read from its first line.
  method ParseBlock(lines: seq<string>, i: nat) returns (block: Block, size: nat)
    requires i < |lines| && !IsPlain(lines[i])
    ensures block == FirstBlock(lines[i..]) && size == FirstSize(lines[i..])
  {
    var line := lines[i];
    assert lines[i..][0] == line && lines[i..][1..] == lines[i + 1..];
    hide RStrip, IsDividerText, ParseHead, RunLength, IsTopicBody;
    if IsSection(line) {
      block, size := Header(RStrip(line), IsDividerText(line)), 1;
    } else if IsTopic(line) {
      var run, j := TakeRun(IsTopicBody, lines, i + 1);
      block, size := Triple([line] + run), j - i;
    } else {
      var head := ParseHead(line);
      if head.None? {
        block, size := Unparsable(line), 1;
      } else {
        var run, j := TakeRun(IsContinuation, lines, i + 1);
        block, size := EntryBlock(Entry(head.value, run)), j - i;
      }
    }
  }

  // One turn of the loop: a plain line waits, anything else flushes and becomes a block.
  method ReadNext(lines: seq<string>, i: nat, blocks: seq<Block>, pending: seq<string>, ghost body: seq<string>)
    returns (blocks': seq<Block>, pending': seq<string>, i': nat)
    requires i < |lines| && Reading(body, blocks, pending, lines[i..])
    ensures i < i' <= |lines| && Reading(body, blocks', pending', lines[i'..])
  {
    hide *;
    var line := lines[i];
    ghost var rest := lines[i..];
    assert rest[0] == line;
    var plain := CheckPlain(line);
    if plain {
      ReadPlain(body, blocks, pending, rest);
      DropTwice(lines, i, 1);
      blocks', pending', i' := blocks, pending + [line], i + 1;
    } else {
      ReadBlock(body, blocks, pending, rest);
      var flushed := FlushProse(blocks, pending);
      var block, size := ParseBlock(lines, i);
      DropTwice(lines, i, size);
      blocks', pending', i' := flushed + [block], [], i + size;
    }
  }

  method ParseBody(lines: seq<string>, start: nat) returns (blocks: seq<Block>)
    requires start <= |lines|
    ensures blocks == Blocks(lines[start..])
  {
    var i, pending := start, [];
    blocks := [];
    ghost var body := lines[start..];
    hide *;
    ReadStarts(body);
    while i < |lines|
      invariant i <= |lines| && Reading(body, blocks, pending, lines[i..])
    {
      blocks, pending, i := ReadNext(lines, i, blocks, pending, body);
    }
    ReadAll(lines);
    ReadEnds(body, blocks, pending);
    blocks := FlushProse(blocks, pending);
  }

  method Parse(lines: seq<string>) returns (doc: Doc)
    ensures doc == Parsed(lines)
  {
    var header, start := ParseHeader(lines);
    var blocks := ParseBody(lines, start);
    doc := Doc(header, blocks);
  }

  method Format(doc: Doc) returns (out: seq<string>)
    ensures out == Formatted(doc)
  {
    out := [doc.header];
    var k := 0;
    while k < |doc.blocks|
      invariant k <= |doc.blocks| && Formatted(doc) == out + Render(doc.blocks[k..])
    {
      out := out + RenderBlock(doc.blocks[k]);
      k := k + 1;
    }
    assert doc.blocks[k..] == [];
  }
}
