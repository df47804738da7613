// The body of a decision file as lines: the writer, and the reader that looks for its two
// anchors outside code fences. The writer puts the rationale under the decision anchor and,
// when something was rejected, a section of subsections under the second anchor. The reader
// walks the lines with a fence state, takes the first unfenced decision anchor and the last
// unfenced rejected anchor behind it, and cuts the section into its subsections. Reading what
// was written gives back the rationale and the alternatives exactly when the fences in the
// rationale are closed and the section shows no unfenced anchor of its own.
module DecisionBody {
  import opened Common
  import opened Identifiers
  import opened Text

  // A text is its lines, at least one.  Stripping it drops blank lines at either end, the
  // leading whitespace of its first line and the trailing whitespace of its last.
  type Lines = seq<string>

  function DropHead(lines: Lines): (r: Lines)
    ensures r == [] || !IsBlank(r[0])
  {
    if lines != [] && IsBlank(lines[0]) then DropHead(lines[1..]) else lines
  }

  function DropTail(lines: Lines): (r: Lines)
    ensures r == [] || !IsBlank(r[|r| - 1])
  {
    if lines != [] && IsBlank(lines[|lines| - 1]) then DropTail(lines[..|lines| - 1]) else lines
  }

  // A text of two lines or more with its first and last line replaced.
  function WithEnds(t: Lines, first: string, last: string): Lines
    requires |t| > 1
  {
    [first] + t[1..|t| - 1] + [last]
  }

  function TrimEnds(t: Lines): Lines
    requires t != []
  {
    if |t| == 1 then [Strip(t[0])] else WithEnds(t, LStrip(t[0]), RStrip(t[|t| - 1]))
  }

  function StripLines(lines: Lines): Lines {
    var t := DropTail(DropHead(lines));
    if t == [] then [""] else TrimEnds(t)
  }

  function NonBlank(lines: Lines): nat {
    if lines == [] then 0 else (if IsBlank(lines[0]) then 0 else 1) + NonBlank(lines[1..])
  }

  predicate Clean(first: string, last: string) {
    !IsBlank(first) && !IsBlank(last) && LStrip(first) == first && RStrip(last) == last
  }

  predicate Stripped(t: Lines) {
    t == [""] || (t != [] && Clean(t[0], t[|t| - 1]))
  }

  // ---- Fences and anchors ------------------------------------------------------------

  // A line that starts with three backquotes or tildes after blanks.
  function FenceMarker(line: string): Option<char> {
    var s := Strip(line);
    if StartsWith(s, "```") then Some('`') else if StartsWith(s, "~~~") then Some('~') else None
  }

  // Nothing but the marker, so it can close.
  predicate BareRun(line: string, c: char) {
    var s := Strip(line);
    forall i :: 0 <= i < |s| ==> s[i] == c
  }

  function NextFence(open: Option<char>, line: string): Option<char> {
    var marker := FenceMarker(line);
    if marker.None? then open
    else if open.None? then marker
    else if marker == open && BareRun(line, marker.value) then None
    else open
  }

  function FenceAfter(open: Option<char>, lines: Lines): Option<char>
    decreases |lines|
  {
    if lines == [] then open else FenceAfter(NextFence(open, lines[0]), lines[1..])
  }

  function DecisionAnchor(): string {
    "## Decision"
  }

  function RejectedAnchor(): string {
    "## Rejected Alternatives"
  }

  // An unfenced line that is the anchor, trailing whitespace aside.
  predicate Seen(open: Option<char>, line: string, anchor: string) {
    open.None? && FenceMarker(line).None? && RStrip(line) == anchor
  }

  // The first unfenced anchor, or -1.
  function FirstSeen(open: Option<char>, lines: Lines, anchor: string): (k: int)
    ensures -1 <= k < |lines|
    decreases |lines|
  {
    if lines == [] then -1
    else if Seen(open, lines[0], anchor) then 0
    else
      var k := FirstSeen(NextFence(open, lines[0]), lines[1..], anchor);
      if k < 0 then -1 else k + 1
  }

  // The last unfenced anchor, or -1.
  function LastSeen(open: Option<char>, lines: Lines, anchor: string): (k: int)
    ensures -1 <= k < |lines|
    decreases |lines|
  {
    if lines == [] then -1
    else
      var k := LastSeen(NextFence(open, lines[0]), lines[1..], anchor);
      if k >= 0 then k + 1 else if Seen(open, lines[0], anchor) then 0 else -1
  }

  datatype Parts = Parts(rationale: Option<Lines>, rejected: Option<Lines>)

  function Split(lines: Lines): Parts {
    var d := FirstSeen(None, lines, DecisionAnchor());
    if d < 0 then Parts(None, None)
    else
      var rest := lines[d + 1..];
      var r := LastSeen(None, rest, RejectedAnchor());
      if r < 0 then Parts(Some(StripLines(rest)), None)
      else Parts(Some(StripLines(rest[..r])), Some(StripLines(rest[r + 1..])))
  }

  function Shift(k: int, offset: nat): int {
    if k < 0 then -1 else k + offset
  }

  // No decision anchor among the first `i` lines.
  ghost predicate Searching(lines: Lines, i: nat, open: Option<char>) {
    i <= |lines| && FirstSeen(None, lines, DecisionAnchor()) == Shift(FirstSeen(open, lines[i..], DecisionAnchor()), i)
  }

  function Latest(lines: Lines, i: nat, open: Option<char>, decision: nat, rejected: int): int
    requires decision < i <= |lines|
  {
    var k := LastSeen(open, lines[i..], RejectedAnchor());
    if k >= 0 then k + i - decision - 1 else if rejected < 0 then -1 else rejected - decision - 1
  }

  // The decision anchor is found, and `rejected` is the last rejected anchor so far.
  ghost predicate Found(lines: Lines, i: nat, open: Option<char>, decision: nat, rejected: int) {
    && decision < i <= |lines|
    && decision == FirstSeen(None, lines, DecisionAnchor())
    && (rejected < 0 || decision < rejected < i)
    && LastSeen(None, lines[decision + 1..], RejectedAnchor()) == Latest(lines, i, open, decision, rejected)
  }

  lemma {:induction false} ScanStarts(lines: Lines)
    ensures Searching(lines, 0, None)
  {
    assert lines[0..] == lines;
    hide FirstSeen;
  }

  lemma {:induction false} SeenIs(open: Option<char>, line: string, anchor: string)
    ensures Seen(open, line, anchor) <==> FenceMarker(line).None? && open.None? && RStrip(line) == anchor
    ensures FenceMarker(line).None? ==> NextFence(open, line) == open
  {
    hide FenceMarker, RStrip;
  }

  // What the whole scan has found is what the split is made from.
  lemma {:induction false} ScanEnds(lines: Lines, open: Option<char>, decision: int, rejected: int)
    requires decision < 0 ==> rejected < 0
    requires if decision < 0 then Searching(lines, |lines|, open) else Found(lines, |lines|, open, decision, rejected)
    ensures decision < 0 ==> Split(lines) == Parts(None, None)
    ensures decision >= 0 ==> decision < |lines| && rejected < |lines| && (rejected < 0 || decision < rejected)
    ensures decision >= 0 && rejected < 0 ==> Split(lines) == Parts(Some(StripLines(lines[decision + 1..])), None)
    ensures decision >= 0 && rejected >= 0 ==>
      Split(lines) == Parts(Some(StripLines(lines[decision + 1..rejected])), Some(StripLines(lines[rejected + 1..])))
  {
    hide DecisionAnchor, RejectedAnchor, StripLines, Seen, NextFence;
    assert lines[|lines|..] == [];
    if decision >= 0 && rejected >= 0 {
      var rest := lines[decision + 1..];
      assert rest[..rejected - decision - 1] == lines[decision + 1..rejected];
      assert rest[rejected - decision..] == lines[rejected + 1..];
    }
  }

  lemma {:induction false} FirstSeenStep(open: Option<char>, lines: Lines, anchor: string)
    requires lines != []
    ensures FirstSeen(open, lines, anchor) ==
      if Seen(open, lines[0], anchor) then 0 else Shift(FirstSeen(NextFence(open, lines[0]), lines[1..], anchor), 1)
  {
    hide Seen, NextFence;
  }

  lemma {:induction false} SeenUnfenced(open: Option<char>, line: string, anchor: string)
    requires Seen(open, line, anchor)
    ensures NextFence(open, line) == None
  {
    hide FenceMarker, RStrip;
  }

  lemma {:induction false} SearchStep(lines: Lines, i: nat, open: Option<char>)
    requires i < |lines| && Searching(lines, i, open)
    ensures !Seen(open, lines[i], DecisionAnchor()) ==> Searching(lines, i + 1, NextFence(open, lines[i]))
    ensures Seen(open, lines[i], DecisionAnchor()) ==>
      Found(lines, i + 1, NextFence(open, lines[i]), i, -1) && NextFence(open, lines[i]) == None
  {
    hide DecisionAnchor, RejectedAnchor, Seen, NextFence, FirstSeen, LastSeen;
    assert lines[i..][0] == lines[i] && lines[i..][1..] == lines[i + 1..];
    FirstSeenStep(open, lines[i..], DecisionAnchor());
    if Seen(open, lines[i], DecisionAnchor()) { SeenUnfenced(open, lines[i], DecisionAnchor()); }
  }

  lemma {:induction false} LastSeenStep(open: Option<char>, lines: Lines, anchor: string)
    requires lines != []
    ensures LastSeen(open, lines, anchor) ==
      var k := LastSeen(NextFence(open, lines[0]), lines[1..], anchor);
      if k >= 0 then k + 1 else if Seen(open, lines[0], anchor) then 0 else -1
  {
  }

  lemma {:induction false} FoundStep(lines: Lines, i: nat, open: Option<char>, decision: nat, rejected: int)
    requires i < |lines| && Found(lines, i, open, decision, rejected)
    ensures Found(lines, i + 1, NextFence(open, lines[i]), decision, if Seen(open, lines[i], RejectedAnchor()) then i else rejected)
  {
    hide DecisionAnchor, RejectedAnchor, FirstSeen, LastSeen, Seen, NextFence;
    assert lines[i..][0] == lines[i] && lines[i..][1..] == lines[i + 1..];
    LastSeenStep(open, lines[i..], RejectedAnchor());
  }

  method SplitDecisionBody(lines: Lines) returns (parts: Parts)
    ensures parts == Split(lines)
  {
    var fence: Option<char> := None;
    var decision, rejected := -1, -1;
    var i := 0;
    ScanStarts(lines);
    hide DecisionAnchor, RejectedAnchor, StripLines, RStrip, Searching, Found, FenceMarker, Split, Seen, NextFence;
    while i < |lines|
      invariant i <= |lines| && (decision < 0 ==> rejected < 0)
      invariant if decision < 0 then Searching(lines, i, fence) else Found(lines, i, fence, decision, rejected)
    {
      var line := lines[i];
      SeenIs(fence, line, DecisionAnchor());
      SeenIs(fence, line, RejectedAnchor());
      if decision < 0 { SearchStep(lines, i, fence); } else { FoundStep(lines, i, fence, decision, rejected); }
      if FenceMarker(line).Some? {
        fence := NextFence(fence, line);
      } else if fence.None? {
        var trimmed := RStrip(line);
        if decision < 0 {
          if trimmed == DecisionAnchor() {
            decision := i;
          }
        } else if trimmed == RejectedAnchor() {
          rejected := i;
        }
      }
      i := i + 1;
    }
    ScanEnds(lines, fence, decision, rejected);
    if decision < 0 {
      return Parts(None, None);
    }
    if rejected < 0 {
      return Parts(Some(StripLines(lines[decision + 1..])), None);
    }
    parts := Parts(Some(StripLines(lines[decision + 1..rejected])), Some(StripLines(lines[rejected + 1..])));
  }

  // ---- The writer ------------------------------------------------------------------------

  datatype Alternative = Alternative(name: string, reason: Option<Lines>)

  function HeadingLine(name: string): string {
    "### " + name
  }

  // A `### ` subsection after a blank line, and its reason after another.
  function Subsection(a: Alternative): Lines {
    ["", HeadingLine(a.name)] + if a.reason.Some? then [""] + StripLines(a.reason.value) else []
  }

  function Subsections(rejected: seq<Alternative>): Lines {
    if rejected == [] then [] else Subsection(rejected[0]) + Subsections(rejected[1..])
  }

  // What stands below the rejected anchor, up to the end of the file.
  function RejectedSection(rejected: seq<Alternative>): Lines {
    Subsections(rejected) + [""]
  }

  // What stands below the decision anchor.
  function BelowDecision(rationale: Lines, rejected: seq<Alternative>): Lines {
    [""] + StripLines(rationale)
      + if rejected == [] then [""] else ["", RejectedAnchor()] + RejectedSection(rejected)
  }

  // A title or a name goes into one line of the file; one that holds a newline would be
  // written as several.
  predicate OneLineText(s: string) {
    '\n' !in s
  }

  ghost predicate OneLineNames(rejected: seq<Alternative>) {
    forall k :: 0 <= k < |rejected| ==> OneLineText(rejected[k].name)
  }

  // The part of the file after its front matter.
  function FormatBody(title: string, rationale: Lines, rejected: seq<Alternative>): Lines {
    ["", "# " + title, "", DecisionAnchor()] + BelowDecision(rationale, rejected)
  }

  // ---- Stripping ---------------------------------------------------------------------------

  lemma {:induction false} BlankCons(s: string)
    requires s != []
    ensures IsBlank(s) <==> IsSpace(s[0]) && IsBlank(s[1..])
  {
    assert s == [s[0]] + s[1..];
  }

  lemma {:induction false} BlankSnoc(s: string)
    requires s != []
    ensures IsBlank(s) <==> IsSpace(s[|s| - 1]) && IsBlank(s[..|s| - 1])
  {
    assert s == s[..|s| - 1] + [s[|s| - 1]];
  }

  lemma {:induction false} LStripKeeps(s: string)
    ensures IsBlank(LStrip(s)) <==> IsBlank(s)
    ensures LStrip(LStrip(s)) == LStrip(s)
  {
    hide IsSpace, IsBlank;
    if s != [] && IsSpace(s[0]) {
      BlankCons(s);
      LStripKeeps(s[1..]);
    }
  }

  lemma {:induction false} RStripKeeps(s: string)
    ensures IsBlank(RStrip(s)) <==> IsBlank(s)
    ensures RStrip(RStrip(s)) == RStrip(s)
    ensures s != [] && !IsSpace(s[0]) ==> LStrip(RStrip(s)) == RStrip(s)
  {
    hide IsSpace, IsBlank;
    if s != [] && IsSpace(s[|s| - 1]) {
      BlankSnoc(s);
      RStripKeeps(s[..|s| - 1]);
    }
  }

  lemma {:induction false} StripClean(s: string)
    ensures IsBlank(Strip(s)) <==> IsBlank(s)
    ensures LStrip(Strip(s)) == Strip(s) && RStrip(Strip(s)) == Strip(s)
  {
    hide IsSpace, IsBlank;
    LStripKeeps(s);
    RStripKeeps(LStrip(s));
  }

  lemma {:induction false} TrimmedClean(t: Lines)
    requires t != [] && !IsBlank(t[0]) && !IsBlank(t[|t| - 1])
    ensures var r := TrimEnds(t); r != [] && Clean(r[0], r[|r| - 1])
  {
    hide IsBlank, LStrip, RStrip, Strip;
    if |t| == 1 {
      StripClean(t[0]);
    } else {
      LStripKeeps(t[0]);
      RStripKeeps(t[|t| - 1]);
      assert TrimEnds(t)[0] == LStrip(t[0]) && TrimEnds(t)[|TrimEnds(t)| - 1] == RStrip(t[|t| - 1]);
    }
  }

  // Dropping blank lines at the end leaves the first line alone.
  lemma {:induction false} DropTailHead(lines: Lines)
    requires lines == [] || !IsBlank(lines[0])
    ensures DropTail(lines) == [] || DropTail(lines)[0] == lines[0]
  {
    hide IsBlank;
    if lines != [] && IsBlank(lines[|lines| - 1]) { DropTailHead(lines[..|lines| - 1]); }
  }

  lemma {:induction false} StripLinesStripped(lines: Lines)
    ensures Stripped(StripLines(lines))
  {
    var h := DropHead(lines);
    assert h == [] ==> DropTail(h) == [];
    hide IsBlank, DropHead, DropTail;
    DropTailHead(h);
    var t := DropTail(h);
    if t != [] { TrimmedClean(t); }
    hide TrimEnds;
  }

  lemma {:induction false} HeadDropped(lines: Lines)
    ensures DropHead([""] + lines) == DropHead(lines)
  {
    assert IsBlank("") && ([""] + lines)[1..] == lines;
  }

  lemma {:induction false} NonBlankJoin(a: Lines, b: Lines)
    ensures NonBlank(a + b) == NonBlank(a) + NonBlank(b)
  {
    hide IsBlank;
    if a == [] {
      assert a + b == b;
    } else {
      NonBlankJoin(a[1..], b);
      assert (a + b)[1..] == a[1..] + b;
    }
  }

  lemma {:induction false} EndsOf(t: Lines, first: string, last: string)
    requires |t| > 1
    ensures WithEnds(t, t[0], t[|t| - 1]) == t
    ensures NonBlank(WithEnds(t, first, last)) == NonBlank([first]) + NonBlank(t[1..|t| - 1]) + NonBlank([last])
  {
    hide NonBlank;
    NonBlankJoin([first] + t[1..|t| - 1], [last]);
    NonBlankJoin([first], t[1..|t| - 1]);
  }

  lemma {:induction false} TrimClean(t: Lines)
    requires t != [] && Clean(t[0], t[|t| - 1])
    ensures TrimEnds(t) == t
  {
    hide IsBlank, LStrip, RStrip;
    if |t| > 1 { EndsOf(t, t[0], t[|t| - 1]); }
  }

  // Stripping a stripped text between blank lines gives it back.
  lemma {:induction false} StripPadded(t: Lines)
    requires Stripped(t)
    ensures StripLines([""] + t + [""]) == t && StripLines(t + [""]) == t
  {
    assert IsBlank("");
    var padded := t + [""];
    assert ([""] + t + [""])[1..] == padded;
    if t == [""] {
      assert padded[1..] == [""] && [""][1..] == [];
      assert DropHead(padded) == [];
    } else {
      hide IsBlank;
      assert DropHead(padded) == padded;
      assert padded[..|t|] == t;
      hide DropHead;
      assert DropTail(padded) == t;
      TrimClean(t);
      hide DropTail, TrimEnds, Clean;
    }
    HeadDropped(padded);
    assert [""] + t + [""] == [""] + padded;
    hide DropHead, DropTail;
  }

  // ---- Counting what is not blank -----------------------------------------------------------

  lemma {:induction false} DropHeadCount(lines: Lines)
    ensures NonBlank(DropHead(lines)) == NonBlank(lines)
  {
    hide IsBlank;
    if lines != [] && IsBlank(lines[0]) { DropHeadCount(lines[1..]); }
  }

  lemma {:induction false} DropTailCount(lines: Lines)
    ensures NonBlank(DropTail(lines)) == NonBlank(lines)
  {
    hide IsBlank;
    if lines != [] && IsBlank(lines[|lines| - 1]) {
      var n := |lines| - 1;
      DropTailCount(lines[..n]);
      assert lines == lines[..n] + [lines[n]];
      NonBlankJoin(lines[..n], [lines[n]]);
      assert [lines[n]][1..] == [];
    }
  }

  lemma {:induction false} OneLine(s: string)
    ensures NonBlank([s]) == if IsBlank(s) then 0 else 1
  {
    assert [s][1..] == [];
  }

  lemma {:induction false} TrimCount(t: Lines)
    requires t != []
    ensures NonBlank(TrimEnds(t)) == NonBlank(t)
  {
    hide IsBlank, LStrip, RStrip, NonBlank, Strip, WithEnds;
    var first, last := t[0], t[|t| - 1];
    OneLine(first);
    OneLine(last);
    if |t| == 1 {
      StripClean(first);
      OneLine(Strip(first));
      assert t == [first];
    } else {
      LStripKeeps(first);
      RStripKeeps(last);
      OneLine(LStrip(first));
      OneLine(RStrip(last));
      EndsOf(t, LStrip(first), RStrip(last));
      EndsOf(t, first, last);
    }
  }

  // Stripping keeps the number of lines that are not blank.
  lemma {:induction false} StripCount(lines: Lines)
    ensures NonBlank(StripLines(lines)) == NonBlank(lines)
  {
    DropHeadCount(lines);
    DropTailCount(DropHead(lines));
    var t := DropTail(DropHead(lines));
    OneLine("");
    assert NonBlank([]) == 0;
    hide DropHead, DropTail, NonBlank;
    if t != [] { TrimCount(t); }
    hide TrimEnds;
  }

  // ---- Reading what was written ----------------------------------------------------------------

  lemma {:induction false} LastSeenJoin(open: Option<char>, a: Lines, b: Lines, anchor: string)
    ensures LastSeen(open, a + b, anchor) ==
      var k := LastSeen(FenceAfter(open, a), b, anchor);
      if k >= 0 then k + |a| else LastSeen(open, a, anchor)
    decreases |a|
  {
    hide Seen, NextFence;
    if a == [] {
      assert a + b == b;
    } else {
      LastSeenJoin(NextFence(open, a[0]), a[1..], b, anchor);
      assert (a + b)[0] == a[0] && (a + b)[1..] == a[1..] + b;
    }
  }

  lemma {:induction false} FenceAfterJoin(open: Option<char>, a: Lines, b: Lines)
    ensures FenceAfter(open, a + b) == FenceAfter(FenceAfter(open, a), b)
    decreases |a|
  {
    hide NextFence;
    if a == [] {
      assert a + b == b;
    } else {
      FenceAfterJoin(NextFence(open, a[0]), a[1..], b);
      assert (a + b)[0] == a[0] && (a + b)[1..] == a[1..] + b;
    }
  }

  // A line of no interest to the scan.
  lemma {:induction false} InertLine(open: Option<char>, line: string, anchor: string)
    requires FenceMarker(line).None? && RStrip(line) != anchor
    ensures NextFence(open, line) == open && !Seen(open, line, anchor)
    ensures LastSeen(open, [line], anchor) == -1 && FenceAfter(open, [line]) == open
  {
    assert [line][1..] == [];
    hide FenceMarker, RStrip;
  }

  lemma {:induction false} EmptyLine()
    ensures FenceMarker("").None? && RStrip("") == ""
  {
    assert Strip("") == "";
  }

  lemma {:induction false} AnchorEnds()
    ensures RejectedAnchor() != "" && RejectedAnchor()[0] == '#' && RStrip(RejectedAnchor()) == RejectedAnchor()
    ensures DecisionAnchor() != "" && DecisionAnchor()[0] == '#' && RStrip(DecisionAnchor()) == DecisionAnchor()
    ensures !IsBlank(RejectedAnchor())
  {
    assert RejectedAnchor()[|RejectedAnchor()| - 1] == 's' && DecisionAnchor()[|DecisionAnchor()| - 1] == 'n';
  }

  lemma {:induction false} RStripFirst(s: string)
    requires s != [] && !IsSpace(s[0])
    ensures RStrip(s) != [] && RStrip(s)[0] == s[0]
  {
    if IsSpace(s[|s| - 1]) { RStripFirst(s[..|s| - 1]); }
  }

  // A line that starts with `#` is no fence.
  lemma {:induction false} HashLine(line: string)
    requires line != [] && line[0] == '#'
    ensures FenceMarker(line).None?
  {
    assert LStrip(line) == line;
    RStripFirst(line);
    assert Strip(line)[0] == '#';
    hide Strip;
  }

  lemma {:induction false} AnchorLines()
    ensures FenceMarker("").None? && RStrip("") == ""
    ensures FenceMarker(RejectedAnchor()).None? && RStrip(RejectedAnchor()) == RejectedAnchor()
    ensures FenceMarker(DecisionAnchor()).None? && RStrip(DecisionAnchor()) == DecisionAnchor()
    ensures RejectedAnchor() != "" && DecisionAnchor() != "" && !IsBlank(RejectedAnchor())
  {
    EmptyLine();
    AnchorEnds();
    hide RejectedAnchor, DecisionAnchor, FenceMarker;
    HashLine(RejectedAnchor());
    HashLine(DecisionAnchor());
  }

  lemma {:induction false} FirstSeenSkips(lines: Lines, anchor: string)
    requires lines != [] && FenceMarker(lines[0]).None? && RStrip(lines[0]) != anchor
    ensures FirstSeen(None, lines, anchor) == Shift(FirstSeen(None, lines[1..], anchor), 1)
  {
    hide FenceMarker, RStrip;
  }

  lemma {:induction false} TitleIsNoAnchor(title: string)
    ensures RStrip("# " + title) != DecisionAnchor()
  {
    var l := "# " + title;
    var r := RStrip(l);
    RStripPrefix(l);
    assert r == l[..|r|];
    if |r| >= 2 { assert r[1] == l[1] == ' '; }
    assert DecisionAnchor()[1] == '#';
  }

  // The writer's own decision anchor is the first one the reader sees, whatever the title.
  lemma {:induction false} DecisionFound(title: string, rest: Lines)
    ensures FirstSeen(None, ["", "# " + title, "", DecisionAnchor()] + rest, DecisionAnchor()) == 3
  {
    AnchorLines();
    HashLine("# " + title);
    TitleIsNoAnchor(title);
    var lines := ["", "# " + title, "", DecisionAnchor()] + rest;
    assert lines[1..][1..][1..][0] == lines[3];
    hide FenceMarker, RStrip, DecisionAnchor, RejectedAnchor;
    FirstSeenSkips(lines, DecisionAnchor());
    FirstSeenSkips(lines[1..], DecisionAnchor());
    FirstSeenSkips(lines[1..][1..], DecisionAnchor());
  }

  lemma {:induction false} LastSeenIs(open: Option<char>, lines: Lines, anchor: string)
    ensures var k := LastSeen(open, lines, anchor); k >= 0 ==> RStrip(lines[k]) == anchor
    decreases |lines|
  {
    hide FenceMarker, RStrip, NextFence;
    if lines != [] { LastSeenIs(NextFence(open, lines[0]), lines[1..], anchor); }
  }

  // A text between blank lines: same anchors, same fences.
  lemma {:induction false} PaddedScan(t: Lines, anchor: string)
    requires anchor != ""
    ensures LastSeen(None, [""] + t + [""], anchor) == Shift(LastSeen(None, t, anchor), 1)
    ensures FenceAfter(None, [""] + t + [""]) == FenceAfter(None, t)
  {
    AnchorLines();
    InertLine(None, "", anchor);
    InertLine(FenceAfter(None, [""] + t), "", anchor);
    hide FenceMarker, RStrip, LastSeen, FenceAfter, DecisionAnchor, RejectedAnchor;
    LastSeenJoin(None, [""] + t, [""], anchor);
    LastSeenJoin(None, [""], t, anchor);
    FenceAfterJoin(None, [""] + t, [""]);
    FenceAfterJoin(None, [""], t);
  }

  // Reading a written body comes down to what stands below the decision anchor.
  lemma {:induction false} SplitOfFormat(title: string, rationale: Lines, rejected: seq<Alternative>)
    ensures Split(FormatBody(title, rationale, rejected)) ==
      var rest := BelowDecision(rationale, rejected);
      var r := LastSeen(None, rest, RejectedAnchor());
      if r < 0 then Parts(Some(StripLines(rest)), None)
      else Parts(Some(StripLines(rest[..r])), Some(StripLines(rest[r + 1..])))
  {
    var rest := BelowDecision(rationale, rejected);
    hide StripLines, DecisionAnchor, RejectedAnchor, FirstSeen, LastSeen, BelowDecision;
    DecisionFound(title, rest);
    assert FormatBody(title, rationale, rejected)[4..] == rest;
  }

  // Without rejected alternatives the rationale comes back, and nothing else, exactly when
  // it holds no unfenced rejected anchor of its own.
  lemma {:induction false} PlainRoundTrip(title: string, rationale: Lines)
    requires OneLineText(title)
    ensures Split(FormatBody(title, rationale, [])) == Parts(Some(StripLines(rationale)), None)
      <==> LastSeen(None, StripLines(rationale), RejectedAnchor()) < 0
  {
    var t := StripLines(rationale);
    StripLinesStripped(rationale);
    StripPadded(t);
    AnchorLines();
    hide StripLines, DecisionAnchor, RejectedAnchor, RStrip, FenceMarker, FirstSeen, LastSeen, Stripped;
    PaddedScan(t, RejectedAnchor());
    SplitOfFormat(title, rationale, []);
  }

  lemma {:induction false} RestOfSection(rationale: Lines, rejected: seq<Alternative>)
    requires rejected != []
    ensures BelowDecision(rationale, rejected)
         == ([""] + StripLines(rationale) + [""]) + ([RejectedAnchor()] + RejectedSection(rejected))
  {
    hide StripLines, RejectedAnchor, RejectedSection;
  }

  lemma {:induction false} FrontBack(front: Lines, line: string, back: Lines)
    ensures (front + ([line] + back))[..|front|] == front
    ensures (front + ([line] + back))[|front| + 1..] == back
  {
  }

  lemma {:induction false} PaddedCount(t: Lines)
    ensures NonBlank([""] + t + [""]) == NonBlank(t)
  {
    assert IsBlank("");
    OneLine("");
    hide NonBlank;
    NonBlankJoin([""] + t, [""]);
    NonBlankJoin([""], t);
  }

  // When the last anchor is elsewhere, what stands above it has another number of lines
  // that are not blank.
  lemma {:induction false} WrongPlace(front: Lines, s: Lines)
    requires LastSeen(None, front + ([RejectedAnchor()] + s), RejectedAnchor()) != |front|
    ensures var rest := front + ([RejectedAnchor()] + s);
      var r := LastSeen(None, rest, RejectedAnchor());
      NonBlank(StripLines(if r < 0 then rest else rest[..r])) != NonBlank(front)
  {
    var a := RejectedAnchor();
    var rest := front + ([a] + s);
    var r := LastSeen(None, rest, a);
    AnchorLines();
    LastSeenIs(None, rest, a);
    OneLine(a);
    hide FenceMarker, DecisionAnchor, RejectedAnchor, StripLines, LastSeen, NonBlank;
    StripCount(if r < 0 then rest else rest[..r]);
    if 0 <= r < |front| {
      RStripKeeps(front[r]);
      OneLine(front[r]);
      hide RStrip, IsBlank;
      assert front == rest[..r] + [front[r]] + front[r + 1..];
      NonBlankJoin(rest[..r] + [front[r]], front[r + 1..]);
      NonBlankJoin(rest[..r], [front[r]]);
    } else {
      hide RStrip, IsBlank;
      var above := if r < 0 then rest else rest[..r];
      assert above == front + [a] + above[|front| + 1..];
      NonBlankJoin(front + [a], above[|front| + 1..]);
      NonBlankJoin(front, [a]);
    }
  }

  // Whether the two texts come back is whether the last anchor is the writer's.
  lemma {:induction false} SplitAt(t: Lines, s: Lines)
    requires Stripped(t)
    ensures var front := [""] + t + [""];
      var rest := front + ([RejectedAnchor()] + s);
      var r := LastSeen(None, rest, RejectedAnchor());
      && (r == |front| ==> StripLines(rest[..r]) == t && rest[r + 1..] == s)
      && (r != |front| ==> StripLines(if r < 0 then rest else rest[..r]) != t)
  {
    var front := [""] + t + [""];
    hide StripLines, RejectedAnchor, LastSeen, NonBlank, Stripped;
    StripPadded(t);
    PaddedCount(t);
    FrontBack(front, RejectedAnchor(), s);
    if LastSeen(None, front + ([RejectedAnchor()] + s), RejectedAnchor()) != |front| { WrongPlace(front, s); }
  }

  // Where the last anchor is, when one follows a front.
  lemma {:induction false} AnchorPlace(front: Lines, s: Lines)
    ensures var open := FenceAfter(None, front);
      LastSeen(None, front + ([RejectedAnchor()] + s), RejectedAnchor()) == |front|
      <==> open == None && LastSeen(None, s, RejectedAnchor()) < 0
  {
    var open, a := FenceAfter(None, front), RejectedAnchor();
    AnchorLines();
    hide FenceMarker, RStrip, DecisionAnchor, RejectedAnchor;
    assert ([a] + s)[1..] == s;
    LastSeenJoin(None, front, [a] + s, a);
    assert NextFence(open, a) == open;
    assert LastSeen(open, [a] + s, a) ==
      (var k := LastSeen(open, s, a); if k >= 0 then k + 1 else if open.None? then 0 else -1);
    hide LastSeen;
  }

  // With rejected alternatives the rationale and the section below the anchor come back
  // exactly when the rationale leaves no fence open and the section shows no unfenced
  // anchor; the rationale may then repeat either anchor as it likes.
  lemma {:induction false} SectionRoundTrip(title: string, rationale: Lines, rejected: seq<Alternative>)
    requires rejected != [] && OneLineText(title) && OneLineNames(rejected)
    ensures Split(FormatBody(title, rationale, rejected))
        == Parts(Some(StripLines(rationale)), Some(StripLines(RejectedSection(rejected))))
      <==> FenceAfter(None, StripLines(rationale)) == None && LastSeen(None, RejectedSection(rejected), RejectedAnchor()) < 0
  {
    var t, s := StripLines(rationale), RejectedSection(rejected);
    StripLinesStripped(rationale);
    AnchorLines();
    hide StripLines, DecisionAnchor, RejectedAnchor, RStrip, FenceMarker, LastSeen, Stripped, RejectedSection, FenceAfter, Split;
    PaddedScan(t, RejectedAnchor());
    var front := [""] + t + [""];
    AnchorPlace(front, s);
    RestOfSection(rationale, rejected);
    SplitOfFormat(title, rationale, rejected);
    SplitAt(t, s);
    hide BelowDecision, FormatBody;
  }

  // ---- The subsections ----------------------------------------------------------------------------

  function HashMark(): (s: string)
    ensures |s| == 3
  {
    "###"
  }

  // `###`, whitespace, and a name on the same line.
  predicate IsHeading(l: string) {
    StartsWith(l, HashMark()) && |l| > 3 && IsSpace(l[3]) && !IsBlank(l[3..])
  }

  // `###` alone: the pattern then takes the next line that is not blank for the name.
  predicate IsBareHash(l: string) {
    StartsWith(l, HashMark()) && IsBlank(l[3..])
  }

  predicate NoHash(l: string) {
    !IsHeading(l) && !IsBareHash(l)
  }

  function LeadingBlankLines(lines: Lines): (n: nat)
    ensures n <= |lines|
  {
    if lines != [] && IsBlank(lines[0]) then 1 + LeadingBlankLines(lines[1..]) else 0
  }

  predicate HeadingAt(lines: Lines) {
    && lines != []
    && (IsHeading(lines[0]) || (IsBareHash(lines[0]) && LeadingBlankLines(lines[1..]) < |lines| - 1))
  }

  // The heading's name, and the lines it takes up.
  function HeadingName(lines: Lines): string
    requires HeadingAt(lines)
  {
    if IsHeading(lines[0]) then Strip(lines[0][3..]) else Strip(lines[1 + LeadingBlankLines(lines[1..])])
  }

  function HeadingSize(lines: Lines): (n: nat)
    requires HeadingAt(lines)
    ensures 1 <= n <= |lines|
  {
    if IsHeading(lines[0]) then 1 else 2 + LeadingBlankLines(lines[1..])
  }

  // The lines up to the next heading.
  function BodyLength(lines: Lines): (n: nat)
    ensures n <= |lines|
  {
    if lines == [] || HeadingAt(lines) then 0 else 1 + BodyLength(lines[1..])
  }

  function Reason(body: Lines): Option<Lines> {
    if NonBlank(body) == 0 then None else Some(StripLines(body))
  }

  // The `### ` subsections of the section below the rejected anchor.
  function Alternatives(lines: Lines): seq<Alternative>
    decreases |lines|
  {
    if lines == [] then []
    else if HeadingAt(lines) then
      var rest := lines[HeadingSize(lines)..];
      var n := BodyLength(rest);
      [Alternative(HeadingName(lines), Reason(rest[..n]))] + Alternatives(rest[n..])
    else Alternatives(lines[1..])
  }

  predicate NoHashes(lines: Lines) {
    forall k :: 0 <= k < |lines| ==> NoHash(lines[k])
  }

  // A trimmed name of one line, and a reason that is not blank and has no `###` line.
  predicate GoodAlternative(a: Alternative) {
    && !IsBlank(a.name) && OneLineText(a.name) && Strip(a.name) == a.name
    && (a.reason.Some? ==> NonBlank(a.reason.value) > 0 && NoHashes(StripLines(a.reason.value)))
  }

  function ReadBack(a: Alternative): Alternative {
    if a.reason.None? then a else a.(reason := Some(StripLines(a.reason.value)))
  }

  function ReadBackAll(rejected: seq<Alternative>): seq<Alternative> {
    if rejected == [] then [] else [ReadBack(rejected[0])] + ReadBackAll(rejected[1..])
  }

  function ReasonPart(a: Alternative): Lines {
    if a.reason.Some? then [""] + StripLines(a.reason.value) else []
  }

  lemma {:induction false} HeadingShape(name: string)
    ensures var l := HeadingLine(name);
      |l| > 3 && l[3] == ' ' && StartsWith(l, HashMark()) && l[3..] == " " + name
  {
    var l := HeadingLine(name);
    assert l[..3] == HashMark();
  }

  lemma {:induction false} SpacedName(name: string)
    ensures IsBlank(" " + name) <==> IsBlank(name)
    ensures Strip(" " + name) == Strip(name)
  {
    BlankCons(" " + name);
    assert (" " + name)[1..] == name;
    hide RStrip, IsBlank;
  }

  lemma {:induction false} HeadingRead(name: string)
    requires !IsBlank(name) && Strip(name) == name
    ensures IsHeading(HeadingLine(name)) && Strip(HeadingLine(name)[3..]) == name
  {
    HeadingShape(name);
    SpacedName(name);
    hide HeadingLine, Strip, IsBlank, HashMark, StartsWith;
  }

  lemma {:induction false} EmptyNoHash()
    ensures NoHash("") && IsBlank("")
  {
  }

  // Lines without `###` in front of a heading, or of nothing, are one body.
  lemma {:induction false} BodyRead(body: Lines, rest: Lines)
    requires NoHashes(body) && (rest == [] || HeadingAt(rest))
    ensures BodyLength(body + rest) == |body|
  {
    hide IsHeading, IsBareHash;
    if body == [] {
      assert body + rest == rest;
    } else {
      assert NoHash(body[0]);
      assert forall k :: 0 <= k < |body| - 1 ==> body[1..][k] == body[k + 1];
      BodyRead(body[1..], rest);
      assert (body + rest)[0] == body[0] && (body + rest)[1..] == body[1..] + rest;
      hide LeadingBlankLines;
    }
  }

  lemma {:induction false} StripsBlankFront(lines: Lines)
    ensures StripLines([""] + lines) == StripLines(lines)
  {
    HeadDropped(lines);
    hide DropHead, DropTail;
  }

  lemma {:induction false} StripStripped(t: Lines)
    requires Stripped(t)
    ensures StripLines(t) == t
  {
    if t == [""] {
      assert IsBlank("") && DropHead([""][1..]) == [];
    } else {
      hide IsBlank;
      assert DropHead(t) == t && DropTail(t) == t;
      TrimClean(t);
    }
  }

  lemma {:induction false} PaddedNoHash(t: Lines, more: Lines)
    requires NoHashes(t) && (more == [] || more == [""])
    ensures NoHashes([""] + t + more)
  {
    EmptyNoHash();
    hide NoHash, IsBlank;
  }

  lemma {:induction false} BlankReason(more: Lines)
    requires more == [] || more == [""]
    ensures NoHashes(more) && Reason(more) == None
  {
    EmptyNoHash();
    OneLine("");
    assert NonBlank([]) == 0;
    hide NoHash, IsBlank, NonBlank, StripLines;
  }

  lemma {:induction false} FrontCount(t: Lines)
    ensures NonBlank([""] + t) == NonBlank(t)
  {
    EmptyNoHash();
    assert ([""] + t)[1..] == t;
  }

  lemma {:induction false} PaddedReason(r: Lines, more: Lines)
    requires NonBlank(r) > 0 && (more == [] || more == [""])
    ensures Reason([""] + StripLines(r) + more) == Some(StripLines(r))
  {
    var t := StripLines(r);
    StripLinesStripped(r);
    StripCount(r);
    StripsBlankFront(t);
    StripStripped(t);
    StripPadded(t);
    PaddedCount(t);
    hide StripLines, Stripped, NonBlank;
    assert [""] + t + [] == [""] + t;
    FrontCount(t);
  }

  // One alternative is read back from its lines, whether another follows or not.
  lemma {:induction false} ReasonRead(a: Alternative, more: Lines)
    requires GoodAlternative(a) && (more == [] || more == [""])
    ensures NoHashes(ReasonPart(a) + more) && Reason(ReasonPart(a) + more) == ReadBack(a).reason
  {
    hide NoHashes, Reason, StripLines, NonBlank, IsBlank, Strip;
    if a.reason.Some? {
      PaddedNoHash(StripLines(a.reason.value), more);
      PaddedReason(a.reason.value, more);
    } else {
      assert ReasonPart(a) + more == more;
      BlankReason(more);
    }
  }

  lemma {:induction false} AlternativesStep(lines: Lines)
    requires HeadingAt(lines)
    ensures var rest := lines[HeadingSize(lines)..];
      var n := BodyLength(rest);
      Alternatives(lines) == [Alternative(HeadingName(lines), Reason(rest[..n]))] + Alternatives(rest[n..])
  {
    hide HeadingAt, HeadingName, HeadingSize, BodyLength, Reason;
  }

  lemma {:induction false} ConsParts(l: string, rest: Lines)
    ensures ([l] + rest)[0] == l && ([l] + rest)[1..] == rest
  {
  }

  // A heading line in front, and what it is read as.
  lemma {:induction false} HeadingFirst(name: string, rest: Lines)
    requires !IsBlank(name) && Strip(name) == name
    ensures var lines := [HeadingLine(name)] + rest;
      HeadingAt(lines) && HeadingSize(lines) == 1 && HeadingName(lines) == name && lines[1..] == rest
  {
    hide IsHeading, Strip, LeadingBlankLines, IsBlank, HeadingLine, IsBareHash;
    HeadingRead(name);
    ConsParts(HeadingLine(name), rest);
  }

  lemma {:induction false} FrontOf(a: Lines, b: Lines)
    ensures (a + b)[..|a|] == a && (a + b)[|a|..] == b
  {
  }

  // The first heading of a section, and what is read from there.
  lemma {:induction false} FirstRead(a: Alternative, body: Lines, rest: Lines)
    requires GoodAlternative(a) && NoHashes(body) && Reason(body) == ReadBack(a).reason
    requires rest == [] || HeadingAt(rest)
    ensures Alternatives([HeadingLine(a.name)] + (body + rest)) == [ReadBack(a)] + Alternatives(rest)
  {
    hide Strip, IsBlank, NoHashes, Reason, StripLines, NonBlank, HeadingAt, HeadingName, HeadingSize, Alternatives;
    HeadingFirst(a.name, body + rest);
    BodyRead(body, rest);
    FrontOf(body, rest);
    hide BodyLength, HeadingLine;
    AlternativesStep([HeadingLine(a.name)] + (body + rest));
  }

  // The section without the blank line it starts with.
  function Section(rejected: seq<Alternative>): Lines
    requires rejected != []
  {
    [HeadingLine(rejected[0].name)] + (ReasonPart(rejected[0]) + Subsections(rejected[1..]))
  }

  lemma {:induction false} SubsectionsStart(rejected: seq<Alternative>)
    requires rejected != []
    ensures Subsections(rejected) == [""] + Section(rejected)
  {
    hide StripLines, HeadingLine;
  }

  ghost predicate AllGood(rejected: seq<Alternative>) {
    forall k :: 0 <= k < |rejected| ==> GoodAlternative(rejected[k])
  }

  lemma {:induction false} SectionHeads(rejected: seq<Alternative>)
    requires rejected != [] && GoodAlternative(rejected[0])
    ensures HeadingAt(Section(rejected))
  {
    hide Strip, IsBlank, NoHashes, StripLines, NonBlank, HeadingAt, HeadingName, HeadingSize, HeadingLine, ReasonPart, Subsections;
    HeadingFirst(rejected[0].name, ReasonPart(rejected[0]) + Subsections(rejected[1..]));
  }

  lemma {:induction false} NoAlternatives()
    ensures Alternatives([]) == []
  {
  }

  lemma {:induction false} LastSection(rejected: seq<Alternative>)
    requires |rejected| == 1
    ensures Section(rejected) == [HeadingLine(rejected[0].name)] + (ReasonPart(rejected[0]) + [] + [])
  {
    hide ReasonPart, HeadingLine;
    assert Subsections(rejected[1..]) == [];
    assert ReasonPart(rejected[0]) + [] + [] == ReasonPart(rejected[0]) + [];
  }

  lemma {:induction false} LastRead(rejected: seq<Alternative>)
    requires |rejected| == 1 && GoodAlternative(rejected[0])
    ensures Alternatives(Section(rejected)) == [ReadBack(rejected[0])]
  {
    var a := rejected[0];
    hide GoodAlternative, HeadingAt, ReasonPart, ReadBack, NoHashes, Reason, Alternatives, HeadingLine;
    ReasonRead(a, []);
    FirstRead(a, ReasonPart(a) + [], []);
    NoAlternatives();
    LastSection(rejected);
  }

  lemma {:induction false} Regroup(a: Lines, b: Lines)
    ensures a + ([""] + b) == a + [""] + b
  {
  }

  lemma {:induction false} MoreRead(rejected: seq<Alternative>)
    requires |rejected| > 1 && GoodAlternative(rejected[0]) && HeadingAt(Section(rejected[1..]))
    ensures Alternatives(Section(rejected)) == [ReadBack(rejected[0])] + Alternatives(Section(rejected[1..]))
  {
    var a, later := rejected[0], rejected[1..];
    hide GoodAlternative, HeadingAt, ReasonPart, ReadBack, NoHashes, Reason, Subsections, Alternatives, HeadingLine;
    ReasonRead(a, [""]);
    SubsectionsStart(later);
    FirstRead(a, ReasonPart(a) + [""], Section(later));
    Regroup(ReasonPart(a), Section(later));
  }

  lemma {:induction false} SectionRead(rejected: seq<Alternative>)
    requires rejected != [] && AllGood(rejected)
    ensures Alternatives(Section(rejected)) == ReadBackAll(rejected)
    ensures HeadingAt(Section(rejected))
    decreases |rejected|
  {
    hide HeadingAt, Alternatives, Section, GoodAlternative, ReadBack;
    var later := rejected[1..];
    assert GoodAlternative(rejected[0]);
    SectionHeads(rejected);
    if later == [] {
      LastRead(rejected);
      assert ReadBackAll(rejected) == [ReadBack(rejected[0])];
    } else {
      assert AllGood(later);
      SectionRead(later);
      MoreRead(rejected);
    }
  }

  // ---- The whole body --------------------------------------------------------------------------------

  lemma {:induction false} HeadingStart(name: string)
    ensures var l := HeadingLine(name);
      l != [] && !IsBlank(l) && LStrip(l) == l && (name != [] ==> l[|l| - 1] == name[|name| - 1])
  {
    var l := HeadingLine(name);
    assert l[0] == '#' && !IsSpace('#');
  }

  lemma {:induction false} RStripFixed(s: string)
    requires s != [] && !IsSpace(s[|s| - 1])
    ensures RStrip(s) == s
  {
  }

  lemma {:induction false} RStripLast(s: string)
    requires s != [] && RStrip(s) == s
    ensures !IsSpace(s[|s| - 1])
  {
  }

  lemma {:induction false} HeadingClean(name: string)
    requires !IsBlank(name) && Strip(name) == name
    ensures Clean(HeadingLine(name), HeadingLine(name))
  {
    StripClean(name);
    hide Strip, IsBlank;
    var l := HeadingLine(name);
    HeadingStart(name);
    assert |name| > 0 by { EmptyNoHash(); }
    RStripLast(name);
    RStripFixed(l);
  }

  lemma {:induction false} SectionEnds(rejected: seq<Alternative>)
    requires |rejected| > 1
    ensures var s, l := Section(rejected), Section(rejected[1..]); s[|s| - 1] == l[|l| - 1]
  {
    hide ReasonPart, HeadingLine;
    SubsectionsStart(rejected[1..]);
    hide Subsections;
  }

  lemma {:induction false} ReasonClean(a: Alternative)
    requires GoodAlternative(a) && a.reason.Some?
    ensures var t := StripLines(a.reason.value); t != [] && Clean(t[0], t[|t| - 1])
  {
    StripLinesStripped(a.reason.value);
    StripCount(a.reason.value);
    OneLine("");
    EmptyNoHash();
    hide StripLines, NonBlank, IsBlank, Clean;
  }

  lemma {:induction false} SectionLast(rejected: seq<Alternative>)
    requires rejected != [] && AllGood(rejected)
    ensures var s := Section(rejected); !IsBlank(s[|s| - 1]) && RStrip(s[|s| - 1]) == s[|s| - 1]
    decreases |rejected|
  {
    hide StripLines, IsBlank, RStrip, HeadingLine, NoHashes, NonBlank, Strip;
    var a, later := rejected[0], rejected[1..];
    assert GoodAlternative(a);
    if later == [] {
      LastSection(rejected);
      HeadingClean(a.name);
      if a.reason.Some? { ReasonClean(a); }
    } else {
      hide GoodAlternative, ReasonPart;
      assert AllGood(later);
      SectionLast(later);
      SubsectionsStart(later);
      SectionEnds(rejected);
      hide Section;
    }
  }

  lemma {:induction false} SectionClean(rejected: seq<Alternative>)
    requires rejected != [] && AllGood(rejected)
    ensures Stripped(Section(rejected))
  {
    hide StripLines, HeadingLine, IsBlank, LStrip, RStrip, Subsections, ReasonPart, NoHashes, NonBlank, Strip;
    assert GoodAlternative(rejected[0]);
    HeadingClean(rejected[0].name);
    hide GoodAlternative;
    SectionLast(rejected);
    ConsParts(HeadingLine(rejected[0].name), ReasonPart(rejected[0]) + Subsections(rejected[1..]));
  }

  // The section is written in stripped form, one blank line in front and one behind.
  lemma {:induction false} SectionStripped(rejected: seq<Alternative>)
    requires rejected != [] && AllGood(rejected)
    ensures StripLines(RejectedSection(rejected)) == Section(rejected)
  {
    SubsectionsStart(rejected);
    SectionClean(rejected);
    hide Section, Subsections, GoodAlternative, StripLines, Stripped;
    StripPadded(Section(rejected));
  }

  function ParseRejected(section: Option<Lines>): seq<Alternative> {
    if section.None? then [] else Alternatives(section.value)
  }

  // The exact condition, over the section as written: with nothing rejected the rationale
  // shows no unfenced rejected anchor; otherwise the rationale leaves no fence open and the
  // section shows none. What each part must satisfy for it is AllQuiet, below.
  predicate Recoverable(rationale: Lines, rejected: seq<Alternative>) {
    if rejected == [] then LastSeen(None, StripLines(rationale), RejectedAnchor()) < 0
    else
      FenceAfter(None, StripLines(rationale)) == None && LastSeen(None, RejectedSection(rejected), RejectedAnchor()) < 0
  }

  lemma GoodNames(rejected: seq<Alternative>)
    requires AllGood(rejected)
    ensures OneLineNames(rejected)
  {
    forall k | 0 <= k < |rejected| ensures OneLineText(rejected[k].name) { assert GoodAlternative(rejected[k]); }
  }

  // Splitting a written body and reading its subsections gives back the rationale and every
  // rejected alternative, stripped.
  lemma {:induction false} BodyRoundTrip(title: string, rationale: Lines, rejected: seq<Alternative>)
    requires OneLineText(title) && Recoverable(rationale, rejected) && AllGood(rejected)
    ensures var parts := Split(FormatBody(title, rationale, rejected));
      parts.rationale == Some(StripLines(rationale)) && ParseRejected(parts.rejected) == ReadBackAll(rejected)
  {
    GoodNames(rejected);
    hide Split, FormatBody, StripLines, LastSeen, FenceAfter, RejectedSection, RejectedAnchor, Alternatives, AllGood;
    if rejected == [] {
      PlainRoundTrip(title, rationale);
    } else {
      SectionRoundTrip(title, rationale, rejected);
      SectionStripped(rejected);
      SectionRead(rejected);
    }
  }

  // ---- Reason by reason ---------------------------------------------------------------------------

  // Alone, the text closes its fences and shows no unfenced rejected anchor.
  predicate Quiet(lines: Lines) {
    FenceAfter(None, lines) == None && LastSeen(None, lines, RejectedAnchor()) < 0
  }

  ghost predicate AllQuiet(rejected: seq<Alternative>) {
    forall k :: 0 <= k < |rejected| && rejected[k].reason.Some? ==> Quiet(StripLines(rejected[k].reason.value))
  }

  lemma {:induction false} QuietJoin(a: Lines, b: Lines)
    requires Quiet(a) && Quiet(b)
    ensures Quiet(a + b)
  {
    hide FenceAfter, LastSeen, RejectedAnchor;
    LastSeenJoin(None, a, b, RejectedAnchor());
    FenceAfterJoin(None, a, b);
  }

  lemma {:induction false} QuietLine(line: string)
    requires FenceMarker(line).None? && RStrip(line) != RejectedAnchor()
    ensures Quiet([line])
  {
    hide FenceMarker, RStrip, RejectedAnchor;
    InertLine(None, line, RejectedAnchor());
  }

  lemma {:induction false} HeadingQuiet(name: string)
    ensures Quiet(["", HeadingLine(name)]) && Quiet([""]) && FenceMarker(HeadingLine(name)).None?
  {
    var l := HeadingLine(name);
    assert l[0] == '#' && l[2] == '#' && RejectedAnchor()[2] == ' ';
    HashLine(l);
    RStripPrefix(l);
    assert RStrip(l) != RejectedAnchor();
    AnchorLines();
    hide HeadingLine, FenceMarker, RStrip, RejectedAnchor, DecisionAnchor, Quiet;
    QuietLine(l);
    QuietLine("");
    QuietJoin([""], [l]);
    assert ["", l] == [""] + [l];
  }

  lemma {:induction false} NothingQuiet()
    ensures Quiet([])
  {
  }

  lemma {:induction false} SubsectionsQuiet(rejected: seq<Alternative>)
    requires AllQuiet(rejected)
    ensures Quiet(Subsections(rejected))
  {
    hide Quiet, HeadingLine, StripLines;
    if rejected == [] {
      NothingQuiet();
    } else {
      var a := rejected[0];
      assert AllQuiet(rejected[1..]);
      SubsectionsQuiet(rejected[1..]);
      HeadingQuiet(a.name);
      var reason := if a.reason.Some? then [""] + StripLines(a.reason.value) else [];
      NothingQuiet();
      if a.reason.Some? { QuietJoin([""], StripLines(a.reason.value)); }
      QuietJoin(["", HeadingLine(a.name)], reason);
      QuietJoin(Subsection(a), Subsections(rejected[1..]));
    }
  }

  // A condition on the parts: a rationale that closes its fences, and reasons that each
  // close theirs and show no unfenced rejected anchor, come back whole; with nothing
  // rejected the rationale must show none itself.
  lemma {:induction false} PartsRoundTrip(title: string, rationale: Lines, rejected: seq<Alternative>)
    requires OneLineText(title) && AllQuiet(rejected) && AllGood(rejected)
    requires if rejected == [] then Quiet(StripLines(rationale)) else FenceAfter(None, StripLines(rationale)) == None
    ensures var parts := Split(FormatBody(title, rationale, rejected));
      parts.rationale == Some(StripLines(rationale)) && ParseRejected(parts.rejected) == ReadBackAll(rejected)
  {
    SubsectionsQuiet(rejected);
    HeadingQuiet("");
    QuietJoin(Subsections(rejected), [""]);
    hide Split, FormatBody, StripLines, LastSeen, FenceAfter, Subsections, RejectedAnchor, Alternatives, AllGood, AllQuiet;
    BodyRoundTrip(title, rationale, rejected);
  }

  // ---- A fence left open by one reason -----------------------------------------------------------

  function OpenReason(): Lines {
    ["```"]
  }

  function FencedReason(): Lines {
    ["```", RejectedAnchor(), "```"]
  }

  function OpenFenceRejected(): seq<Alternative> {
    [Alternative("a", Some(OpenReason())), Alternative("b", Some(FencedReason()))]
  }

  lemma {:induction false} FenceLine()
    ensures FenceMarker("```") == Some('`') && BareRun("```", '`') && Clean("```", "```")
    ensures NextFence(None, "```") == Some('`') && NextFence(Some('`'), "```") == None
  {
    var l := "```";
    assert LStrip(l) == l && RStrip(l) == l && l[..3] == l;
    assert !IsSpace(l[0]);
  }

  lemma {:induction false} ReasonsAlone()
    ensures StripLines(OpenReason()) == OpenReason() && StripLines(FencedReason()) == FencedReason()
    ensures LastSeen(None, OpenReason(), RejectedAnchor()) < 0 && Quiet(FencedReason())
    ensures FenceAfter(None, OpenReason()) == Some('`')
  {
    FenceLine();
    AnchorLines();
    var a, f := RejectedAnchor(), "```";
    hide FenceMarker, RStrip, RejectedAnchor, DecisionAnchor, BareRun, Clean, StripLines;
    StripStripped(OpenReason());
    StripStripped(FencedReason());
    assert OpenReason()[1..] == [];
    assert FencedReason()[1..] == [a, f] && [a, f][1..] == [f] && [f][1..] == [];
    assert NextFence(Some('`'), a) == Some('`');
    assert !Seen(None, f, a) && !Seen(Some('`'), a, a) && !Seen(Some('`'), f, a);
    hide Seen, NextFence;
    assert LastSeen(None, [], a) < 0 && LastSeen(None, [f], a) == LastSeen(None, OpenReason(), a);
    assert LastSeen(Some('`'), [f], a) < 0;
    assert LastSeen(Some('`'), [a, f], a) < 0;
    assert FenceAfter(Some('`'), [f]) == None;
    assert FenceAfter(Some('`'), [a, f]) == None;
  }

  lemma {:induction false} OpenFenceLines()
    ensures RejectedSection(OpenFenceRejected())
         == (["", HeadingLine("a")] + [""] + ["```"]) + (["", HeadingLine("b")] + [""] + ["```"]) + [RejectedAnchor(), "```", ""]
  {
    ReasonsAlone();
    hide StripLines, HeadingLine, RejectedAnchor, LastSeen, FenceAfter, Quiet;
    var rejected := OpenFenceRejected();
    assert rejected[1..][1..] == [] && rejected[1..][0] == rejected[1];
    assert Subsections(rejected[1..]) == Subsection(rejected[1]) + [];
    assert Subsections(rejected) == Subsection(rejected[0]) + Subsection(rejected[1]);
  }

  lemma {:induction false} OneFence(f: string)
    ensures FenceAfter(None, [f]) == NextFence(None, f) && FenceAfter(Some('`'), [f]) == NextFence(Some('`'), f)
  {
    hide NextFence;
    assert [f][1..] == [];
  }

  // A heading between blank lines leaves the fence as it is.
  lemma {:induction false} HeadingPasses(open: Option<char>, name: string)
    ensures FenceAfter(open, ["", HeadingLine(name)] + [""]) == open
  {
    HeadingQuiet(name);
    AnchorLines();
    hide FenceMarker, HeadingLine, Quiet, LastSeen, RejectedAnchor, DecisionAnchor, RStrip;
    var l := HeadingLine(name);
    assert NextFence(open, l) == open && NextFence(open, "") == open;
    var lines := ["", l] + [""];
    assert lines[1..] == [l, ""] && [l, ""][1..] == [""] && [""][1..] == [];
    hide NextFence;
    assert FenceAfter(open, [""]) == open;
  }

  lemma {:induction false} AnchorFirst(rest: Lines)
    ensures LastSeen(None, [RejectedAnchor()] + rest, RejectedAnchor()) >= 0
  {
    AnchorLines();
    hide FenceMarker, RStrip, RejectedAnchor, DecisionAnchor;
  }

  lemma {:induction false} OpenFenceSection()
    ensures LastSeen(None, RejectedSection(OpenFenceRejected()), RejectedAnchor()) >= 0
  {
    var a, f := RejectedAnchor(), "```";
    var first, second := ["", HeadingLine("a")] + [""] + [f], ["", HeadingLine("b")] + [""] + [f];
    FenceLine();
    ReasonsAlone();
    AnchorLines();
    OpenFenceLines();
    hide FenceMarker, RStrip, RejectedAnchor, DecisionAnchor, BareRun, Clean, StripLines, HeadingLine, NextFence, Quiet;
    HeadingPasses(None, "a");
    HeadingPasses(Some('`'), "b");
    hide FenceAfter;
    FenceAfterJoin(None, ["", HeadingLine("a")] + [""], [f]);
    FenceAfterJoin(Some('`'), ["", HeadingLine("b")] + [""], [f]);
    FenceAfterJoin(None, first, second);
    OneFence(f);
    hide LastSeen;
    LastSeenJoin(None, first + second, [a, f, ""], a);
    AnchorFirst([f, ""]);
    assert [a] + [f, ""] == [a, f, ""];
  }

  lemma {:induction false} OpenFenceReasons()
    ensures var rejected := OpenFenceRejected();
      && |rejected| == 2 && OneLineNames(rejected)
      && (forall k :: 0 <= k < 2 ==> rejected[k].reason.Some?)
      && (forall k :: 0 <= k < 2 ==> LastSeen(None, StripLines(rejected[k].reason.value), RejectedAnchor()) < 0)
  {
    ReasonsAlone();
    hide StripLines, LastSeen, FenceAfter, RejectedAnchor;
  }

  // Neither reason shows an unfenced anchor alone, but the fence the first leaves open turns
  // the fences of the second inside out: the file does not read back.
  lemma {:induction false} OpenFenceExample(title: string, rationale: Lines)
    requires OneLineText(title)
    ensures var rejected := OpenFenceRejected();
      && (forall k :: 0 <= k < 2 ==> LastSeen(None, StripLines(rejected[k].reason.value), RejectedAnchor()) < 0)
      && LastSeen(None, RejectedSection(rejected), RejectedAnchor()) >= 0
      && Split(FormatBody(title, rationale, rejected))
           != Parts(Some(StripLines(rationale)), Some(StripLines(RejectedSection(rejected))))
  {
    OpenFenceReasons();
    OpenFenceSection();
    hide *;
    SectionRoundTrip(title, rationale, OpenFenceRejected());
  }

  // ---- A name of several lines -----------------------------------------------------------------

  lemma {:induction false} StrippedB()
    ensures StripLines(["b"]) == ["b"]
  {
    assert LStrip("b") == "b" && RStrip("b") == "b" && !IsBlank("b") by { assert "b"[0] == 'b'; }
    StripStripped(["b"]);
  }

  lemma JoinTwo(a: string, b: string)
    ensures Join("\n", [a, b]) == a + "\n" + b
  {
    assert [a, b][1..] == [b];
  }

  lemma JoinFour(a: string, b: string, c: string, d: string)
    ensures Join("\n", [a, b, c, d]) == a + "\n" + b + "\n" + c + "\n" + d
  {
    assert [a, b, c, d][1..] == [b, c, d] && [b, c, d][1..] == [c, d];
    JoinTwo(c, d);
    assert Join("\n", [b, c, d]) == b + "\n" + (c + "\n" + d);
    assert Join("\n", [a, b, c, d]) == a + "\n" + (b + "\n" + (c + "\n" + d));
  }

  // An alternative whose name holds a newline is written as the same text as another one, so
  // it cannot be read back: the name `a`, a blank line and `b` reads as `a` for the reason `b`.
  lemma {:induction false} LongNameExample()
    ensures Join("\n", Subsection(Alternative("a\n\nb", None))) == Join("\n", Subsection(Alternative("a", Some(["b"]))))
  {
    var long, short := "### " + "a\n\nb", "### " + "a";
    StrippedB();
    hide StripLines;
    assert Subsection(Alternative("a\n\nb", None)) == ["", long];
    assert Subsection(Alternative("a", Some(["b"]))) == ["", short, "", "b"];
    JoinTwo("", long);
    JoinFour("", short, "", "b");
    assert long == short + "\n" + "" + "\n" + "b";
    assert "" + "\n" + short + "\n" + "" + "\n" + "b" == "" + "\n" + (short + "\n" + "" + "\n" + "b");
  }
}
