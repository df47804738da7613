// Decision bodies as texts: lines joined by newlines, the fences and anchors among them, and
// the file that is written.
module BodyTexts {
  import opened Common
  import opened Identifiers
  import opened Text
  import opened DecisionBody

  // ---- stripping a text of lines --------------------------------------------------------

  lemma {:induction false} JoinOne(s: string)
    ensures Join("\n", [s]) == s
  {
  }

  lemma {:induction false} JoinLines(a: Lines, b: Lines)
    requires a != [] && b != []
    ensures Join("\n", a + b) == Join("\n", a) + "\n" + Join("\n", b)
  {
    if |a| == 1 {
      assert (a + b)[1..] == b;
    } else {
      JoinLines(a[1..], b);
      assert (a + b)[1..] == a[1..] + b;
    }
  }

  lemma {:induction false} JoinFirst(a: string, l: string, rest: Lines)
    ensures Join("\n", [a + l] + rest) == a + Join("\n", [l] + rest)
  {
    if rest != [] {
      JoinLines([a + l], rest);
      JoinLines([l], rest);
    } else {
      assert [a + l] + rest == [a + l] && [l] + rest == [l];
    }
  }

  lemma {:induction false} JoinLast(rest: Lines, l: string, b: string)
    ensures Join("\n", rest + [l + b]) == Join("\n", rest + [l]) + b
  {
    if rest != [] {
      JoinLines(rest, [l + b]);
      JoinLines(rest, [l]);
    } else {
      assert rest + [l + b] == [l + b] && rest + [l] == [l];
    }
  }

  lemma {:induction false} BlankJoin(a: string, b: string)
    ensures IsBlank(a + b) <==> IsBlank(a) && IsBlank(b)
    ensures IsBlank("\n") && IsBlank("")
  {
    assert IsBlank(a + b) ==> (forall i :: 0 <= i < |a| ==> a[i] == (a + b)[i]) && (forall i :: 0 <= i < |b| ==> b[i] == (a + b)[|a| + i]);
  }

  lemma {:induction false} HeadDrops(lines: Lines) returns (x: string)
    ensures Join("\n", lines) == x + Join("\n", DropHead(lines)) && IsBlank(x)
  {
    hide IsBlank;
    x := "";
    BlankJoin("", "");
    if lines != [] && IsBlank(lines[0]) {
      var y := HeadDrops(lines[1..]);
      BlankJoin(lines[0], "\n");
      BlankJoin(lines[0] + "\n", y);
      assert DropHead(lines) == DropHead(lines[1..]);
      if |lines| > 1 {
        x := lines[0] + "\n" + y;
        assert lines[0] + "\n" + (y + Join("\n", DropHead(lines))) == x + Join("\n", DropHead(lines));
      } else {
        x := lines[0];
        assert lines[1..] == [];
      }
    }
  }

  lemma {:induction false} TailDrops(lines: Lines) returns (y: string)
    ensures Join("\n", lines) == Join("\n", DropTail(lines)) + y && IsBlank(y)
  {
    hide IsBlank;
    y := "";
    BlankJoin("", "");
    var n := |lines| - 1;
    if lines != [] && IsBlank(lines[n]) {
      var x := TailDrops(lines[..n]);
      BlankJoin("\n", lines[n]);
      BlankJoin(x, "\n" + lines[n]);
      assert DropTail(lines) == DropTail(lines[..n]);
      if n > 0 {
        JoinLines(lines[..n], [lines[n]]);
        assert lines == lines[..n] + [lines[n]];
        y := x + ("\n" + lines[n]);
        assert Join("\n", DropTail(lines)) + x + "\n" + lines[n] == Join("\n", DropTail(lines)) + y;
      } else {
        y := lines[0];
        assert lines[..0] == [];
      }
    }
  }

  lemma {:induction false} LStripSplits(s: string)
    requires !IsBlank(s)
    ensures s == s[..|s| - |LStrip(s)|] + LStrip(s) && IsBlank(s[..|s| - |LStrip(s)|]) && LStrip(s) != []
  {
    LStripSuffix(s);
    LStripDrops(s);
    assert s[..|s|] == s;
  }

  lemma {:induction false} RStripSplits(s: string)
    requires !IsBlank(s)
    ensures s == RStrip(s) + s[|RStrip(s)|..] && IsBlank(s[|RStrip(s)|..]) && RStrip(s) != []
  {
    RStripPrefix(s);
    RStripDrops(s);
    assert s[0..] == s;
  }

  // A text of two lines or more as its ends, their blanks and the lines between.
  lemma {:induction false} EndsSplit(t: Lines) returns (x: string, first: string, mid: Lines, last: string, y: string)
    requires |t| > 1 && !IsBlank(t[0]) && !IsBlank(t[|t| - 1])
    ensures t == [x + first] + (mid + [last + y]) && TrimEnds(t) == [first] + (mid + [last])
    ensures IsBlank(x) && IsBlank(y)
    ensures first != [] && last != [] && !IsSpace(first[0]) && !IsSpace(last[|last| - 1])
  {
    var n := |t| - 1;
    LStripSplits(t[0]);
    RStripSplits(t[n]);
    first, last, mid := LStrip(t[0]), RStrip(t[n]), t[1..n];
    x, y := t[0][..|t[0]| - |first|], t[n][|last|..];
    hide IsBlank, IsSpace;
    assert t == [t[0]] + (mid + [t[n]]);
    assert [first] + mid + [last] == [first] + (mid + [last]);
  }

  lemma {:induction false} OneTrimmed(t: Lines) returns (x: string, y: string)
    requires |t| == 1 && !IsBlank(t[0])
    ensures Join("\n", t) == x + Join("\n", TrimEnds(t)) + y && IsBlank(x) && IsBlank(y)
    ensures var r := Join("\n", TrimEnds(t)); r != [] && !IsSpace(r[0]) && !IsSpace(r[|r| - 1])
  {
    x, y := StripSplits(t[0]);
    BlankJoin(x, y);
    var r := Strip(t[0]);
    hide Strip, IsSpace;
    JoinOne(t[0]);
    JoinOne(r);
    assert x + [] + y == x + y;
    hide Join, IsBlank;
    assert r != [];
  }

  lemma {:induction false} FrontJoined(first: string, rest: Lines)
    requires first != []
    ensures var r := Join("\n", [first] + rest); r != [] && r[0] == first[0]
  {
    if rest != [] {
      JoinLines([first], rest);
      JoinOne(first);
    } else {
      assert [first] + rest == [first];
    }
  }

  // Blanks before the first line and behind the last are the ends of the text.
  lemma {:induction false} EndsMoved(x: string, first: string, mid: Lines, last: string, y: string)
    requires first != [] && last != []
    ensures var r := Join("\n", [first] + (mid + [last]));
      && Join("\n", [x + first] + (mid + [last + y])) == x + r + y
      && r != [] && r[0] == first[0] && r[|r| - 1] == last[|last| - 1]
  {
    hide Join;
    var r := Join("\n", [first] + (mid + [last]));
    JoinFirst(x, first, mid + [last + y]);
    JoinLast([first] + mid, last, y);
    assert [first] + (mid + [last + y]) == [first] + mid + [last + y] && [first] + (mid + [last]) == [first] + mid + [last];
    JoinLines([first] + mid, [last]);
    JoinOne(last);
    FrontJoined(first, mid + [last]);
  }

  // Trimming the first and the last line takes blanks off the ends of the text.
  lemma {:induction false} EndsTrimmed(t: Lines) returns (x: string, y: string)
    requires t != [] && !IsBlank(t[0]) && !IsBlank(t[|t| - 1])
    ensures Join("\n", t) == x + Join("\n", TrimEnds(t)) + y && IsBlank(x) && IsBlank(y)
    ensures var r := Join("\n", TrimEnds(t)); r != [] && !IsSpace(r[0]) && !IsSpace(r[|r| - 1])
  {
    if |t| == 1 {
      x, y := OneTrimmed(t);
    } else {
      var first, mid, last;
      x, first, mid, last, y := EndsSplit(t);
      hide *;
      EndsMoved(x, first, mid, last, y);
    }
  }

  lemma {:induction false} Nested(x: string, a: string, r: string, b: string, y: string)
    ensures x + (a + r + b) + y == (x + a) + r + (b + y)
  {
  }

  lemma {:induction false} StripSolid(text: string, x: string, a: string, r: string, b: string, y: string)
    requires text == x + (a + r + b) + y && IsBlank(x) && IsBlank(a) && IsBlank(b) && IsBlank(y)
    requires r != [] && !IsSpace(r[0]) && !IsSpace(r[|r| - 1])
    ensures Strip(text) == r
  {
    Nested(x, a, r, b, y);
    BlankJoin(x, a);
    BlankJoin(b, y);
    hide IsSpace, IsBlank, Strip;
    StripExactly(text, x + a, r, b + y);
  }

  lemma {:induction false} StripNothing(text: string, x: string, y: string)
    requires text == x + "" + y && IsBlank(x) && IsBlank(y)
    ensures Strip(text) == ""
  {
    BlankJoin(x, y);
    assert text == (x + y) + "" + "";
    hide IsSpace, IsBlank, Strip;
    BlankJoin("", "");
    StripExactly(text, x + y, "", "");
  }

  lemma {:induction false} JoinNone()
    ensures Join("\n", []) == ""
  {
  }

  // Stripping the lines is stripping the text they make.
  lemma {:induction false} StripText(lines: Lines)
    ensures Join("\n", StripLines(lines)) == Strip(Join("\n", lines))
  {
    hide IsSpace, IsBlank, Strip, TrimEnds, Join;
    var x := HeadDrops(lines);
    var h := DropHead(lines);
    var y := TailDrops(h);
    var t := DropTail(h);
    if t == [] {
      JoinNone();
      JoinOne("");
      StripNothing(Join("\n", lines), x, y);
    } else {
      DropTailHead(h);
      var a, b := EndsTrimmed(t);
      StripSolid(Join("\n", lines), x, a, Join("\n", TrimEnds(t)), b, y);
    }
  }

  // ---- fences and anchors -------------------------------------------------------------------

  // The line's text, blanks around it aside.
  predicate Opens(line: string, c: char) {
    var s := Strip(line);
    |s| >= 3 && s[0] == c && s[1] == c && s[2] == c
  }

  predicate Closes(line: string, c: char) {
    var s := Strip(line);
    |s| >= 3 && forall i :: 0 <= i < |s| ==> s[i] == c
  }

  // Outside a fence, three backquotes or tildes at the start of a line open one; inside, only
  // a line of nothing but the opening character closes it, and nothing else changes it.
  lemma {:induction false} FenceRule(line: string)
    ensures FenceMarker(line).Some? <==> Opens(line, '`') || Opens(line, '~')
    ensures Opens(line, '`') ==> NextFence(None, line) == Some('`')
    ensures Opens(line, '~') ==> NextFence(None, line) == Some('~')
    ensures !Opens(line, '`') && !Opens(line, '~') ==> NextFence(None, line) == None
    ensures forall c :: c in {'`', '~'} ==> NextFence(Some(c), line) == if Closes(line, c) then None else Some(c)
  {
    var s := Strip(line);
    hide Strip;
    assert StartsWith(s, "```") <==> |s| >= 3 && s[0] == '`' && s[1] == '`' && s[2] == '`' by {
      if |s| >= 3 { assert s[..3] == [s[0], s[1], s[2]]; }
    }
    assert StartsWith(s, "~~~") <==> |s| >= 3 && s[0] == '~' && s[1] == '~' && s[2] == '~' by {
      if |s| >= 3 { assert s[..3] == [s[0], s[1], s[2]]; }
    }
  }

  // The fence state in front of line `k`.
  function FenceBefore(lines: Lines, k: nat): Option<char>
    requires k <= |lines|
  {
    if k == 0 then None else NextFence(FenceBefore(lines, k - 1), lines[k - 1])
  }

  // Line `k` stands outside every fence, is no fence line, and is the anchor but for blanks
  // behind it.
  predicate AnchorAt(lines: Lines, k: nat, anchor: string) {
    k < |lines| && FenceBefore(lines, k) == None && FenceMarker(lines[k]).None? && RStrip(lines[k]) == anchor
  }

  lemma {:induction false} FenceOfRest(lines: Lines, open: Option<char>, i: nat, k: nat)
    requires i <= k <= |lines| && open == FenceBefore(lines, i)
    ensures FenceAfter(open, lines[i..k]) == FenceBefore(lines, k)
    decreases k - i
  {
    hide NextFence;
    if i < k {
      assert lines[i..k][0] == lines[i] && lines[i..k][1..] == lines[i + 1..k];
      FenceOfRest(lines, NextFence(open, lines[i]), i + 1, k);
    }
  }

  lemma {:induction false} FirstFrom(lines: Lines, i: nat, anchor: string)
    requires i <= |lines|
    ensures var k := FirstSeen(FenceBefore(lines, i), lines[i..], anchor);
      && (k >= 0 ==> AnchorAt(lines, i + k, anchor) && forall j: nat :: i <= j < i + k ==> !AnchorAt(lines, j, anchor))
      && (k < 0 ==> forall j: nat :: i <= j < |lines| ==> !AnchorAt(lines, j, anchor))
    decreases |lines| - i
  {
    hide NextFence, FenceMarker, RStrip;
    if i < |lines| {
      assert lines[i..][0] == lines[i] && lines[i..][1..] == lines[i + 1..];
      FirstFrom(lines, i + 1, anchor);
      assert Seen(FenceBefore(lines, i), lines[i], anchor) <==> AnchorAt(lines, i, anchor);
    }
  }

  lemma {:induction false} LastFrom(lines: Lines, i: nat, anchor: string)
    requires i <= |lines|
    ensures var k := LastSeen(FenceBefore(lines, i), lines[i..], anchor);
      && (k >= 0 ==> AnchorAt(lines, i + k, anchor) && forall j: nat :: i + k < j < |lines| ==> !AnchorAt(lines, j, anchor))
      && (k < 0 ==> forall j: nat :: i <= j < |lines| ==> !AnchorAt(lines, j, anchor))
    decreases |lines| - i
  {
    hide NextFence, FenceMarker, RStrip;
    if i < |lines| {
      assert lines[i..][0] == lines[i] && lines[i..][1..] == lines[i + 1..];
      LastFrom(lines, i + 1, anchor);
      assert Seen(FenceBefore(lines, i), lines[i], anchor) <==> AnchorAt(lines, i, anchor);
    }
  }

  function TextOf(t: Option<Lines>): string {
    Join("\n", t.GetOr([]))
  }

  ghost predicate IsLast(rest: Lines, r: nat) {
    AnchorAt(rest, r, "## Rejected Alternatives") && forall j: nat :: r < j < |rest| ==> !AnchorAt(rest, j, "## Rejected Alternatives")
  }

  ghost predicate IsFirst(lines: Lines, d: nat) {
    AnchorAt(lines, d, "## Decision") && forall j: nat :: j < d ==> !AnchorAt(lines, j, "## Decision")
  }

  // Without an unfenced decision anchor the split finds nothing.
  lemma {:induction false} SplitNothing(lines: Lines)
    ensures Split(lines).rationale.Some? <==> exists d: nat :: IsFirst(lines, d)
    ensures Split(lines).rationale.None? ==> Split(lines).rejected.None? && forall d: nat :: !AnchorAt(lines, d, "## Decision")
  {
    assert lines[0..] == lines;
    FirstFrom(lines, 0, "## Decision");
    var k := FirstSeen(None, lines, "## Decision");
    hide FenceMarker, RStrip, FirstSeen, LastSeen, StripLines;
    if k >= 0 { assert IsFirst(lines, k); }
  }

  lemma {:induction false} FirstIs(lines: Lines, d: nat)
    requires IsFirst(lines, d)
    ensures FirstSeen(None, lines, "## Decision") == d < |lines|
  {
    assert lines[0..] == lines;
    FirstFrom(lines, 0, "## Decision");
    hide FenceMarker, RStrip, FirstSeen;
  }

  lemma {:induction false} LastIs(rest: Lines, r: nat)
    requires IsLast(rest, r)
    ensures LastSeen(None, rest, "## Rejected Alternatives") == r < |rest|
  {
    assert rest[0..] == rest;
    LastFrom(rest, 0, "## Rejected Alternatives");
    hide FenceMarker, RStrip, LastSeen;
  }

  lemma {:induction false} NoneIs(rest: Lines)
    requires forall r: nat :: !AnchorAt(rest, r, "## Rejected Alternatives")
    ensures LastSeen(None, rest, "## Rejected Alternatives") < 0
  {
    assert rest[0..] == rest;
    LastFrom(rest, 0, "## Rejected Alternatives");
    hide FenceMarker, RStrip, LastSeen;
  }

  // Without a rejected anchor below it, everything below the decision anchor is the
  // rationale, stripped as a text.
  lemma {:induction false} SplitWithout(lines: Lines, d: nat)
    requires IsFirst(lines, d) && d < |lines|
    requires var rest := lines[d + 1..]; forall r: nat :: !AnchorAt(rest, r, "## Rejected Alternatives")
    ensures Split(lines).rejected.None? && TextOf(Split(lines).rationale) == Strip(Join("\n", lines[d + 1..]))
  {
    FirstIs(lines, d);
    NoneIs(lines[d + 1..]);
    StripText(lines[d + 1..]);
    hide FirstSeen, LastSeen, StripLines, Strip, Join, AnchorAt;
  }

  // With one, the rationale is what stands between the first decision anchor and the last
  // rejected anchor below it, and the rejected section what stands below that.
  lemma {:induction false} SplitExactly(lines: Lines, d: nat, r: nat)
    requires IsFirst(lines, d) && d < |lines| && IsLast(lines[d + 1..], r)
    ensures var rest := lines[d + 1..];
      && r < |rest| && Split(lines).rejected.Some?
      && TextOf(Split(lines).rationale) == Strip(Join("\n", rest[..r]))
      && TextOf(Split(lines).rejected) == Strip(Join("\n", rest[r + 1..]))
  {
    var rest := lines[d + 1..];
    FirstIs(lines, d);
    LastIs(rest, r);
    StripText(rest[..r]);
    StripText(rest[r + 1..]);
    hide FirstSeen, LastSeen, StripLines, Strip, Join, AnchorAt, IsFirst, IsLast;
  }

  // ---- the written file ----------------------------------------------------------------------

  // One alternative: its heading and, below a blank line, its reason.
  function AlternativeText(a: Alternative): string {
    "\n\n### " + a.name + if a.reason.Some? then "\n\n" + Strip(Join("\n", a.reason.value)) else ""
  }

  function AlternativesText(rejected: seq<Alternative>): string {
    if rejected == [] then "" else AlternativeText(rejected[0]) + AlternativesText(rejected[1..])
  }

  lemma {:induction false} EmptyFirst(t: Lines)
    requires t != []
    ensures Join("\n", [""] + t) == "\n" + Join("\n", t)
  {
    JoinLines([""], t);
  }

  lemma {:induction false} HeadingPair(l: string)
    ensures Join("\n", ["", l]) == "\n" + l
  {
    assert ["", l][1..] == [l] && Join("\n", [l]) == l;
    assert "" + "\n" + l == "\n" + l;
  }

  lemma {:induction false} PairGlued(l: string, x: string)
    ensures "\n" + (("\n" + l) + "\n" + ("\n" + x)) == "\n\n" + l + ("\n\n" + x)
  {
  }

  lemma {:induction false} SubsectionText(a: Alternative)
    ensures "\n" + Join("\n", Subsection(a)) == AlternativeText(a)
  {
    var head := ["", HeadingLine(a.name)];
    HeadingPair(HeadingLine(a.name));
    if a.reason.Some? {
      var reason := StripLines(a.reason.value);
      StripText(a.reason.value);
      StripLinesStripped(a.reason.value);
      assert reason != [];
      hide StripLines, Strip, Join;
      JoinLines(head, [""] + reason);
      EmptyFirst(reason);
      PairGlued(HeadingLine(a.name), Join("\n", reason));
    } else {
      assert head + [] == Subsection(a);
    }
  }

  lemma {:induction false} NonEmpty(a: Alternative)
    ensures Subsection(a) != []
  {
  }

  lemma {:induction false} SubsectionsText(rejected: seq<Alternative>)
    requires rejected != []
    ensures Subsections(rejected) != [] && "\n" + Join("\n", Subsections(rejected)) == AlternativesText(rejected)
  {
    var first, rest := Subsection(rejected[0]), Subsections(rejected[1..]);
    SubsectionText(rejected[0]);
    hide Subsection, AlternativeText, Join;
    assert first != [] by { NonEmpty(rejected[0]); }
    if |rejected| == 1 {
      assert first + rest == first;
      assert AlternativesText(rejected[1..]) == "";
    } else {
      SubsectionsText(rejected[1..]);
      JoinLines(first, rest);
      assert "\n" + (Join("\n", first) + "\n" + Join("\n", rest)) == ("\n" + Join("\n", first)) + ("\n" + Join("\n", rest));
    }
  }

  lemma {:induction false} GroupedParts(h: string, x: string, y: string)
    ensures h + "\n" + x + "\n" + y == (h + "\n" + x) + ("\n" + y)
  {
  }

  lemma {:induction false} TwoGlued(a: string, b: string)
    ensures ("" + "\n" + a) + "\n" + ("" + "\n" + (b + "\n" + "")) + "\n" == "\n" + a + "\n\n" + b + "\n\n"
  {
  }

  lemma {:induction false} TwoHeadings(a: string, b: string)
    ensures Join("\n", ["", a, "", b, ""]) + "\n" == "\n" + a + "\n\n" + b + "\n\n"
  {
    var upper, lower := ["", a], ["", b, ""];
    assert ["", a, "", b, ""] == upper + lower;
    JoinLines(upper, lower);
    assert upper[1..] == [a] && lower[1..] == [b, ""] && lower[1..][1..] == [""];
    assert Join("\n", [a]) == a && Join("\n", [""]) == "";
    assert Join("\n", upper) == "" + "\n" + a;
    assert Join("\n", [b, ""]) == b + "\n" + "";
    assert Join("\n", lower) == "" + "\n" + (b + "\n" + "");
    hide Join;
    TwoGlued(a, b);
  }

  lemma {:induction false} Regrouped(a: string, b: string, c: string, d: string, e: string, f: string)
    ensures a + (b + c) + d + e + f == (a + b) + c + (d + e + f)
  {
  }

  lemma {:induction false} HeadText(title: string)
    ensures Join("\n", ["", "# " + title, "", "## Decision", ""]) + "\n" == "\n# " + title + "\n\n## Decision\n\n"
  {
    hide Join;
    TwoHeadings("# " + title, "## Decision");
    assert "\n" + "# " == "\n# " && "\n\n" + "## Decision" + "\n\n" == "\n\n## Decision\n\n";
    Regrouped("\n", "# ", title, "\n\n", "## Decision", "\n\n");
  }

  lemma {:induction false} Glue(r: string, x: string)
    ensures "\n" + (("" + "\n" + r) + "\n" + (x + "\n" + "")) == "\n\n" + r + ("\n" + x) + "\n"
  {
  }

  lemma {:induction false} SectionGlued(x: string)
    ensures "\n" + (("" + "\n" + RejectedAnchor()) + "\n" + (x + "\n" + ""))
      == "\n\n## Rejected Alternatives" + ("\n" + x) + "\n"
  {
    Glue("## Rejected Alternatives", x);
    assert "\n\n" + "## Rejected Alternatives" == "\n\n## Rejected Alternatives";
  }

  lemma {:induction false} TailText(rejected: seq<Alternative>)
    ensures var tail: Lines := if rejected == [] then [""] else ["", RejectedAnchor()] + RejectedSection(rejected);
      "\n" + Join("\n", tail) == (if rejected == [] then "" else "\n\n## Rejected Alternatives" + AlternativesText(rejected)) + "\n"
  {
    if rejected != [] {
      SubsectionsText(rejected);
      var head, sections := ["", RejectedAnchor()], Subsections(rejected);
      assert head[1..] == [RejectedAnchor()];
      assert Join("\n", head) == "" + "\n" + RejectedAnchor();
      hide Subsections, AlternativesText, Join;
      JoinLines(head, sections + [""]);
      JoinLines(sections, [""]);
      JoinOne("");
      SectionGlued(Join("\n", sections));
    } else {
      JoinOne("");
    }
  }

  lemma {:induction false} FormatParts(title: string, rationale: Lines, rejected: seq<Alternative>)
    ensures FormatBody(title, rationale, rejected)
      == ["", "# " + title, "", "## Decision", ""] + StripLines(rationale)
        + if rejected == [] then [""] else ["", RejectedAnchor()] + RejectedSection(rejected)
  {
    hide StripLines, RejectedSection;
    var upper, t := ["", "# " + title, "", "## Decision"], StripLines(rationale);
    var tail: Lines := if rejected == [] then [""] else ["", RejectedAnchor()] + RejectedSection(rejected);
    assert upper + ([""] + t + tail) == upper + [""] + t + tail;
  }

  // The text that is written below the front matter: title, rationale and, when something
  // was rejected, its section, with single blank lines between the parts.
  lemma {:induction false} WrittenText(title: string, rationale: Lines, rejected: seq<Alternative>)
    ensures Join("\n", FormatBody(title, rationale, rejected))
      == ("\n# " + title + "\n\n## Decision\n\n" + Strip(Join("\n", rationale)))
        + ((if rejected == [] then "" else "\n\n## Rejected Alternatives" + AlternativesText(rejected)) + "\n")
  {
    var head, t := ["", "# " + title, "", "## Decision", ""], StripLines(rationale);
    var tail: Lines := if rejected == [] then [""] else ["", RejectedAnchor()] + RejectedSection(rejected);
    StripText(rationale);
    StripLinesStripped(rationale);
    FormatParts(title, rationale, rejected);
    HeadText(title);
    TailText(rejected);
    assert t != [];
    hide *;
    JoinLines(head, t);
    JoinLines(head + t, tail);
    GroupedParts(Join("\n", head), Join("\n", t), Join("\n", tail));
  }

  // ---- the rejected section read back -------------------------------------------------------

  predicate Hashes(l: string) {
    |l| >= 3 && l[0] == '#' && l[1] == '#' && l[2] == '#'
  }

  // A heading with its name behind the hashes, or on the next line that is not blank when
  // nothing stands behind them; `end` is the line below it.
  predicate HeadingIs(lines: Lines, i: nat, end: nat, name: string) {
    && i < end <= |lines| && Hashes(lines[i])
    && (if IsBlank(lines[i][3..])
        then i < end - 1 && !IsBlank(lines[end - 1]) && name == Strip(lines[end - 1])
          && forall k :: i < k < end - 1 ==> IsBlank(lines[k])
        else IsSpace(lines[i][3]) && end == i + 1 && name == Strip(lines[i][3..]))
  }

  ghost predicate HeadingFrom(lines: Lines, i: nat) {
    exists end: nat, name :: HeadingIs(lines, i, end, name)
  }

  lemma {:induction false} BlankRun(lines: Lines)
    ensures var n := LeadingBlankLines(lines);
      (forall k :: 0 <= k < n ==> IsBlank(lines[k])) && (n < |lines| ==> !IsBlank(lines[n]))
  {
    hide IsBlank;
    if lines != [] && IsBlank(lines[0]) {
      BlankRun(lines[1..]);
      var n := LeadingBlankLines(lines[1..]);
      forall k | 0 <= k < n + 1 ensures IsBlank(lines[k]) {
        if k > 0 { assert lines[k] == lines[1..][k - 1]; }
      }
      assert n < |lines[1..]| ==> lines[1..][n] == lines[n + 1];
    }
  }

  lemma {:induction false} HashesIs(l: string)
    ensures StartsWith(l, HashMark()) <==> Hashes(l)
  {
    if |l| >= 3 { assert l[..3] == [l[0], l[1], l[2]]; }
  }

  // The heading, its name and its end are what the reader takes them for.
  lemma {:induction false} HeadingRuns(lines: Lines, i: nat)
    requires i < |lines|
    ensures HeadingAt(lines[i..]) <==> HeadingFrom(lines, i)
    ensures HeadingAt(lines[i..]) ==> HeadingIs(lines, i, i + HeadingSize(lines[i..]), HeadingName(lines[i..]))
    ensures forall end: nat, name :: HeadingIs(lines, i, end, name) ==>
      HeadingAt(lines[i..]) && end == i + HeadingSize(lines[i..]) && name == HeadingName(lines[i..])
  {
    var l, rest := lines[i], lines[i..];
    assert rest[0] == l && rest[1..] == lines[i + 1..];
    HashesIs(l);
    var n := LeadingBlankLines(rest[1..]);
    BlankRun(rest[1..]);
    hide Strip, IsSpace, HashMark, Hashes, StartsWith;
    forall k | i < k < i + 1 + n ensures IsBlank(lines[k]) { assert rest[1..][k - i - 1] == lines[k]; }
    assert n < |rest[1..]| ==> rest[1..][n] == lines[i + 1 + n] && rest[1 + n] == lines[i + 1 + n];
    hide IsBlank;
    if HeadingAt(rest) { assert HeadingIs(lines, i, i + HeadingSize(rest), HeadingName(rest)); }
  }

  lemma {:induction false} AlternativesSkip(lines: Lines, i: nat)
    requires i <= |lines| && forall j: nat :: j < i ==> !HeadingAt(lines[j..])
    ensures Alternatives(lines) == Alternatives(lines[i..])
  {
    hide HeadingAt;
    if i > 0 {
      assert lines[0..] == lines;
      forall j: nat | j < i - 1 ensures !HeadingAt(lines[1..][j..]) { assert lines[1..][j..] == lines[j + 1..]; }
      AlternativesSkip(lines[1..], i - 1);
      assert lines[1..][i - 1..] == lines[i..];
    } else {
      assert lines[0..] == lines;
    }
  }

  lemma {:induction false} BodyRuns(lines: Lines, e: nat, k: nat)
    requires e <= k <= |lines| && (forall j: nat :: e <= j < k ==> !HeadingAt(lines[j..]))
    requires k < |lines| ==> HeadingAt(lines[k..])
    ensures BodyLength(lines[e..]) == k - e
    decreases k - e
  {
    hide HeadingAt;
    if e < k {
      BodyRuns(lines, e + 1, k);
      assert lines[e..][1..] == lines[e + 1..];
    }
  }

  lemma {:induction false} BlankOne()
    ensures NonBlank([""]) == 0
  {
    OneLine("");
  }

  lemma {:induction false} CleanText(t: Lines)
    requires Stripped(t) && t != [""]
    ensures Join("\n", t) != "" && NonBlank(t) > 0
  {
    if |t| == 1 {
      OneLine(t[0]);
      assert t == [t[0]];
    } else {
      JoinLines([t[0]], t[1..]);
      assert t == [t[0]] + t[1..];
    }
  }

  lemma {:induction false} NonBlankText(lines: Lines)
    ensures NonBlank(lines) == 0 <==> Strip(Join("\n", lines)) == ""
  {
    StripText(lines);
    StripLinesStripped(lines);
    StripCount(lines);
    hide Strip, NonBlank, StripLines, IsBlank;
    var t := StripLines(lines);
    if t == [""] {
      JoinOne("");
      assert NonBlank([""]) == 0 by { BlankOne(); }
    } else {
      CleanText(t);
    }
  }

  // Without a heading nothing is read.
  lemma {:induction false} AlternativesNone(lines: Lines)
    requires forall i: nat :: i < |lines| ==> !HeadingFrom(lines, i)
    ensures Alternatives(lines) == []
  {
    forall j: nat | j < |lines| ensures !HeadingAt(lines[j..]) { HeadingRuns(lines, j); }
    hide HeadingAt, HeadingFrom;
    AlternativesSkip(lines, |lines|);
    assert lines[|lines|..] == [];
  }

  lemma {:induction false} Slices(lines: Lines, i: nat, h: nat, n: nat)
    requires i + h + n <= |lines|
    ensures lines[i..][h..] == lines[i + h..]
    ensures lines[i + h..][..n] == lines[i + h..i + h + n] && lines[i + h..][n..] == lines[i + h + n..]
  {
  }

  lemma {:induction false} OneRead(here: Lines, rest: Lines, body: Lines, tail: Lines)
    requires HeadingAt(here) && rest == here[HeadingSize(here)..]
    requires body == rest[..BodyLength(rest)] && tail == rest[BodyLength(rest)..]
    ensures var all := Alternatives(here);
      && all != [] && all[0] == Alternative(HeadingName(here), Reason(body)) && all[1..] == Alternatives(tail)
  {
    hide HeadingName, HeadingSize, Reason;
  }

  lemma {:induction false} OneAt(lines: Lines, i: nat, end: nat, k: nat)
    requires i < end <= k <= |lines| && HeadingAt(lines[i..])
    requires end == i + HeadingSize(lines[i..]) && BodyLength(lines[end..]) == k - end
    ensures var all := Alternatives(lines[i..]);
      && all != [] && all[0] == Alternative(HeadingName(lines[i..]), Reason(lines[end..k])) && all[1..] == Alternatives(lines[k..])
  {
    hide *;
    Slices(lines, i, end - i, k - end);
    OneRead(lines[i..], lines[end..], lines[end..k], lines[k..]);
  }

  lemma {:induction false} ReasonText(body: Lines)
    ensures Reason(body).None? <==> Strip(Join("\n", body)) == ""
    ensures Reason(body).Some? ==> Join("\n", Reason(body).value) == Strip(Join("\n", body))
  {
    NonBlankText(body);
    StripText(body);
    hide Strip, NonBlank, StripLines;
  }

  // The first alternative is the first heading with the text up to the next one, stripped, or
  // without a reason when that is blank; the others are read from there on.
  lemma {:induction false} AlternativesFirst(lines: Lines, i: nat, end: nat, name: string, k: nat)
    requires HeadingIs(lines, i, end, name) && forall j: nat :: j < i ==> !HeadingFrom(lines, j)
    requires end <= k <= |lines| && (k < |lines| ==> HeadingFrom(lines, k))
    requires forall j: nat :: end <= j < k ==> !HeadingFrom(lines, j)
    ensures var all, text := Alternatives(lines), Strip(Join("\n", lines[end..k]));
      && all != [] && all[0].name == name && all[1..] == Alternatives(lines[k..])
      && (all[0].reason.None? <==> text == "")
      && (all[0].reason.Some? ==> Join("\n", all[0].reason.value) == text)
  {
    HeadingRuns(lines, i);
    forall j: nat | j < |lines| ensures HeadingAt(lines[j..]) <==> HeadingFrom(lines, j) { HeadingRuns(lines, j); }
    hide HeadingFrom, HeadingIs, HeadingName, HeadingSize, HeadingAt, Strip, Alternatives;
    AlternativesSkip(lines, i);
    BodyRuns(lines, end, k);
    OneAt(lines, i, end, k);
    ReasonText(lines[end..k]);
    hide *;
  }
}
