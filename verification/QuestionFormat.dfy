// Printing a parsed file: it changes lines one by one, keeps their number below the header,
// and does nothing the second time, one degenerate header apart. Each line has a printed
// form of its own (a head with its marks in order, a section header trimmed, anything else as
// it is), and the printed file is the file header followed by the printed forms of the lines
// of the body, so that what parsing and printing do together is a fact about lines.
module QuestionFormat {
  import opened Text
  import opened QuestionLines
  import opened Questions

  // What parsing and printing make of one line of the body.
  function Canon(l: string): string {
    if IsSection(l) then RStrip(l)
    else if IsHeadLine(l) && ParseHead(l).Some? then RenderHead(ParseHead(l).value)
    else l
  }

  function CanonAll(lines: seq<string>): (r: seq<string>)
    ensures |r| == |lines|
    ensures forall k :: 0 <= k < |lines| ==> r[k] == Canon(lines[k])
  {
    seq(|lines|, k requires 0 <= k < |lines| => Canon(lines[k]))
  }

  lemma {:induction false} CanonAllJoin(a: seq<string>, b: seq<string>)
    ensures CanonAll(a + b) == CanonAll(a) + CanonAll(b)
  {
    hide Canon;
  }

  lemma {:induction false} CanonPlain(lines: seq<string>)
    requires forall k :: 0 <= k < |lines| ==> IsPlain(lines[k])
    ensures CanonAll(lines) == lines
  {
    hide IsSection, IsHeadLine, IsTopic;
    forall k | 0 <= k < |lines| ensures Canon(lines[k]) == lines[k] { assert IsPlain(lines[k]); }
    hide Canon;
  }

  lemma {:induction false} ContinuationsPlain(lines: seq<string>)
    requires forall k :: 0 <= k < |lines| ==> IsContinuation(lines[k])
    ensures forall k :: 0 <= k < |lines| ==> IsPlain(lines[k])
  {
    hide IsContinuation, IsPlain, IsSection, IsTopic, IsHeadLine;
    forall k | 0 <= k < |lines| ensures IsPlain(lines[k]) { KindsApart(lines[k]); }
  }

  lemma {:induction false} PlainPrinted(lines: seq<string>)
    requires lines != [] && IsPlain(lines[0])
    ensures RenderBlock(FirstBlock(lines)) == CanonAll(lines[..FirstSize(lines)])
  {
    hide IsSection, IsTopic, IsHeadLine, Canon, ParseHead, RStrip, IsDividerText;
    CanonPlain(lines[..RunLength(IsPlain, lines)]);
  }

  lemma {:induction false} CanonCons(l: string, rest: seq<string>)
    ensures CanonAll([l] + rest) == [Canon(l)] + CanonAll(rest)
  {
    hide Canon;
    CanonAllJoin([l], rest);
    assert CanonAll([l]) == [Canon(l)];
  }

  // The lines behind the first of a structured block print as they stand.
  lemma {:induction false} RestPrinted(lines: seq<string>)
    requires lines != [] && !IsPlain(lines[0])
    ensures CanonAll(lines[1..FirstSize(lines)]) == lines[1..FirstSize(lines)]
  {
    hide IsSection, IsTopic, IsHeadLine, ParseHead, IsContinuation, IsBlank, CanonAll, Canon;
    var rest := lines[1..FirstSize(lines)];
    forall k | 0 <= k < |rest| ensures IsPlain(rest[k]) { KindsApart(lines[1..][k]); }
    hide FirstSize, IsPlain;
    CanonPlain(rest);
  }

  lemma {:induction false} FirstPrinted(lines: seq<string>)
    requires lines != [] && !IsPlain(lines[0])
    ensures RenderBlock(FirstBlock(lines)) == [Canon(lines[0])] + lines[1..FirstSize(lines)]
  {
    hide IsSection, IsTopic, IsHeadLine, ParseHead, RStrip, RenderHead, IsDividerText, IsContinuation;
    KindsApart(lines[0]);
  }

  // A block prints as many lines as it was read from, each in its printed form.
  lemma {:induction false} FirstBlockCanon(lines: seq<string>)
    requires lines != []
    ensures RenderBlock(FirstBlock(lines)) == CanonAll(lines[..FirstSize(lines)])
  {
    hide Canon;
    var n := FirstSize(lines);
    if IsPlain(lines[0]) {
      PlainPrinted(lines);
    } else {
      hide FirstBlock, FirstSize, RenderBlock, IsPlain, CanonAll;
      FirstPrinted(lines);
      RestPrinted(lines);
      CanonCons(lines[0], lines[1..n]);
      assert lines[..n] == [lines[0]] + lines[1..n];
    }
  }

  lemma {:induction false} CanonSplit(lines: seq<string>, n: nat)
    requires n <= |lines|
    ensures CanonAll(lines) == CanonAll(lines[..n]) + CanonAll(lines[n..])
  {
    hide Canon;
    CanonAllJoin(lines[..n], lines[n..]);
    assert lines == lines[..n] + lines[n..];
  }

  lemma {:induction false} RenderCons(b: Block, rest: seq<Block>)
    ensures Render([b] + rest) == RenderBlock(b) + Render(rest)
  {
    assert ([b] + rest)[1..] == rest;
  }

  // The blocks tile the lines they were parsed from.
  lemma {:induction false} RenderOfBlocks(lines: seq<string>)
    ensures Render(Blocks(lines)) == CanonAll(lines)
    decreases |lines|
  {
    if lines != [] {
      var n := FirstSize(lines);
      hide FirstSize, FirstBlock, Blocks, RenderBlock, Render, CanonAll;
      FirstBlockCanon(lines);
      RenderOfBlocks(lines[n..]);
      BlocksStep(lines);
      CanonSplit(lines, n);
      RenderCons(FirstBlock(lines), Blocks(lines[n..]));
    }
  }

  // Printing a parsed file normalizes its lines one by one.
  lemma {:induction false} FormatOfParse(lines: seq<string>)
    ensures Formatted(Parsed(lines)) == [HeaderText(lines)] + CanonAll(lines[HeaderLines(lines)..])
  {
    RenderOfBlocks(lines[HeaderLines(lines)..]);
  }

  // ---- The second time ---------------------------------------------------------------

  lemma {:induction false} RStripTwice(s: string)
    ensures RStrip(RStrip(s)) == RStrip(s)
  {
  }

  lemma {:induction false} RStripSection(l: string)
    requires IsSection(l)
    ensures Canon(RStrip(l)) == RStrip(l)
  {
    hide ParseHead, RenderHead;
    var r := RStrip(l);
    RStripTwice(l);
    RStripPrefix(l);
    if |r| < 3 {
      assert !IsSection(r) && !IsHeadLine(r);
    } else {
      assert r[..3] == l[..3];
    }
    hide RStrip;
  }

  lemma {:induction false} ParsedMarked(l: string)
    requires ParseHead(l).Some?
    ensures IsHeadLine(l)
  {
  }

  lemma {:induction false} HeadPrinted(l: string)
    requires IsHeadLine(l) && ParseHead(l).Some?
    ensures var p := RenderHead(ParseHead(l).value);
      IsHeadLine(p) && !IsSection(p) && ParseHead(p) == ParseHead(l)
  {
    var h := ParseHead(l).value;
    ParseHeadGood(l);
    HeadRoundTrip(h);
    ParsedMarked(RenderHead(h));
    hide ParseHead, RenderHead, GoodHead;
    KindsApart(RenderHead(h));
  }

  // Printing a line twice is printing it once.
  lemma {:induction false} CanonTwice(l: string)
    ensures Canon(Canon(l)) == Canon(l)
  {
    hide ParseHead, RenderHead, RStrip, IsHeadLine, IsSection;
    if IsSection(l) {
      RStripSection(l);
    } else if IsHeadLine(l) && ParseHead(l).Some? {
      HeadPrinted(l);
    }
  }

  lemma {:induction false} CanonAllTwice(lines: seq<string>)
    ensures CanonAll(CanonAll(lines)) == CanonAll(lines)
  {
    forall k | 0 <= k < |lines| ensures Canon(Canon(lines[k])) == Canon(lines[k]) { CanonTwice(lines[k]); }
    hide Canon;
  }

  // The file's header is a `# ` with nothing but blanks after it: it prints as "#", which
  // is not read as a header again.
  predicate BareHeader(lines: seq<string>) {
    var i := LeadingBlanks(lines);
    i < |lines| && IsTitle(lines[i]) && IsBlank(lines[i][1..])
  }

  lemma {:induction false} RStripStart(s: string)
    requires s != [] && !IsSpace(s[0])
    ensures RStrip(s) != [] && RStrip(s)[0] == s[0]
    ensures |RStrip(s)| == 1 <==> IsBlank(s[1..])
  {
    if IsSpace(s[|s| - 1]) {
      RStripStart(s[..|s| - 1]);
      assert s[1..] == s[..|s| - 1][1..] + [s[|s| - 1]];
    } else if |s| > 1 {
      assert s[1..][|s| - 2] == s[|s| - 1];
    }
  }

  lemma {:induction false} TitleStart(l: string)
    requires IsTitle(l)
    ensures |l| >= 2 && l[0] == '#' && l[1] == ' ' && !IsBlank(l)
  {
    assert l[..2][0] == '#' && l[..2][1] == ' ';
  }

  // A trimmed title is a title again unless it was bare.
  lemma {:induction false} TitleTrimmed(l: string)
    requires IsTitle(l)
    ensures IsBlank(l[1..]) ==> RStrip(l) == "#"
    ensures !IsBlank(l[1..]) ==> IsTitle(RStrip(l))
    ensures !IsBlank(RStrip(l))
  {
    TitleStart(l);
    RStripStart(l);
    RStripPrefix(l);
    var r := RStrip(l);
    assert r == l[..|r|];
    hide RStrip;
    if |r| == 1 {
      assert r == "#";
    } else {
      assert r[..2] == l[..2];
      if |r| >= 3 { assert r[..3] == l[..3]; }
    }
  }

  // How a file that starts with a given non-blank line is read.
  lemma {:induction false} HeaderOfSolid(first: string, rest: seq<string>)
    requires !IsBlank(first)
    ensures IsTitle(first) ==> HeaderText([first] + rest) == RStrip(first) && HeaderLines([first] + rest) == 1
    ensures !IsTitle(first) ==> HeaderText([first] + rest) == DEFAULT_HEADER && HeaderLines([first] + rest) == 0
  {
    assert LeadingBlanks([first] + rest) == 0;
    hide IsTitle, IsBlank, RStrip, RunLength;
  }

  lemma {:induction false} DefaultIsTitle()
    ensures IsTitle(DEFAULT_HEADER) && RStrip(DEFAULT_HEADER) == DEFAULT_HEADER && !IsBlank(DEFAULT_HEADER)
  {
    assert DEFAULT_HEADER[0] == '#';
    assert DEFAULT_HEADER[..2] == "# " && DEFAULT_HEADER[..3][1] == ' ';
  }

  // The header a file prints, and whether it reads back.
  lemma {:induction false} HeaderPrinted(lines: seq<string>)
    ensures !IsBlank(HeaderText(lines))
    ensures BareHeader(lines) ==> HeaderText(lines) == "#"
    ensures !BareHeader(lines) ==> IsTitle(HeaderText(lines)) && RStrip(HeaderText(lines)) == HeaderText(lines)
  {
    DefaultIsTitle();
    var i := LeadingBlanks(lines);
    hide RunLength, IsTitle, IsBlank;
    if i < |lines| && IsTitle(lines[i]) {
      TitleTrimmed(lines[i]);
      RStripTwice(lines[i]);
    }
    hide RStrip;
  }

  // Parsing and printing twice is the same as once exactly when the header is not bare.
  lemma {:induction false} FormatIsProjection(lines: seq<string>)
    ensures var once := Formatted(Parsed(lines));
      Formatted(Parsed(once)) == once <==> !BareHeader(lines)
  {
    var body := CanonAll(lines[HeaderLines(lines)..]);
    var header := HeaderText(lines);
    var once := [header] + body;
    FormatOfParse(lines);
    FormatOfParse(once);
    HeaderPrinted(lines);
    HeaderOfSolid(header, body);
    CanonAllTwice(lines[HeaderLines(lines)..]);
    assert BareHeader(lines) ==> !IsTitle(header);
    hide Canon, IsTitle, IsBlank, RStrip, Formatted, Parsed, HeaderText, HeaderLines, BareHeader, CanonAll;
    assert once[1..] == body && once[0..] == once;
  }

  predicate InPrintedForm(lines: seq<string>) {
    && lines != [] && IsTitle(lines[0]) && RStrip(lines[0]) == lines[0]
    && forall k :: 1 <= k < |lines| ==> Canon(lines[k]) == lines[k]
  }

  // Printing leaves a text alone exactly when it is in printed form: a trimmed `# ` header
  // on its first line, and every other line printed as it stands.
  lemma {:induction false} FormatFixes(lines: seq<string>)
    ensures Formatted(Parsed(lines)) == lines <==> InPrintedForm(lines)
  {
    hide Canon, RStrip, IsBlank, IsTitle, Formatted, Parsed;
    FormatOfParse(lines);
    HeaderPrinted(lines);
    var h := HeaderLines(lines);
    var printed := [HeaderText(lines)] + CanonAll(lines[h..]);
    if printed == lines {
      assert h == 1;
      assert lines[0] == HeaderText(lines);
      HeaderOfSolid(lines[0], lines[1..]);
      assert lines == [lines[0]] + lines[1..];
      assert printed[1..] == CanonAll(lines[1..]);
    }
    if InPrintedForm(lines) {
      TitleStart(lines[0]);
      HeaderOfSolid(lines[0], lines[1..]);
      assert lines == [lines[0]] + lines[1..];
      assert CanonAll(lines[1..]) == lines[1..];
    }
  }

  // The smallest file that prints differently the second time.
  lemma {:induction false} BareHeaderExample()
    ensures var once := Formatted(Parsed(["# "]));
      once == ["#"] && Formatted(Parsed(once)) != once
  {
    var lines := ["# "];
    assert lines[0][..2] == "# " && !IsBlank(lines[0]) by { assert lines[0][0] == '#'; }
    assert IsTitle(lines[0]);
    HeaderOfSolid(lines[0], []);
    assert [lines[0]] + [] == lines;
    assert lines[0][1..] == " ";
    assert LeadingBlanks(lines) == 0;
    FormatIsProjection(lines);
    FormatOfParse(lines);
    TitleTrimmed(lines[0]);
    assert CanonAll(lines[1..]) == [];
  }
}
