// Which block every line of a questions file belongs to.
module BlockForms {
  // Blocks cover the lines one after the other, and each is as long as its kind allows.
  import opened Common
  import opened Identifiers
  import opened Text
  import opened QuestionLines
  import opened Questions
  import opened QuestionEdits
  import opened HeadForms

  // ---- the kinds of lines ------------------------------------------------------------------

  // The line starts with these characters.
  predicate Begins(l: string, p: string) {
    |l| >= |p| && l[..|p|] == p
  }

  // Text of no structure: not a section, topic or entry line.
  predicate Bare(l: string) {
    !Begins(l, "## ") && !Begins(l, "### ") && !Begins(l, "- [")
  }

  ghost predicate NamesResolved(l: string) {
    exists k: nat :: k <= |Lower(Strip(l))| && Begins(Lower(Strip(l))[k..], "resolved")
  }

  lemma {:induction false} NamesResolvedIff(l: string)
    ensures IsDividerText(l) <==> NamesResolved(l)
  {
    var t := Lower(Strip(l));
    hide Strip, Lower, FindText;
    if FindText(t, "resolved") >= 0 { FindTextIs(t, "resolved"); }
    if k: nat :| k <= |t| && Begins(t[k..], "resolved") { Reaches(t, "resolved", k); }
  }

  lemma {:induction false} KindsAre(l: string)
    ensures IsSection(l) <==> Begins(l, "## ")
    ensures IsTopic(l) <==> Begins(l, "### ")
    ensures IsHeadLine(l) <==> Begins(l, "- [")
    ensures IsContinuation(l) <==> Begins(l, "  ")
    ensures IsPlain(l) <==> Bare(l)
  {
  }

  // ---- the blocks ----------------------------------------------------------------------------

  // The block reads exactly these lines, and `next`, the line behind them, does not belong.
  ghost predicate Reads(b: Block, ls: seq<string>, next: Option<string>)
    requires ls != []
  {
    match b
    case Header(text, divider) =>
      |ls| == 1 && Begins(ls[0], "## ") && text == RStrip(ls[0]) && (divider <==> NamesResolved(ls[0]))
    case Triple(lines) =>
      && Begins(ls[0], "### ") && lines == ls
      && (forall i :: 1 <= i < |ls| ==> Bare(ls[i]) && !IsBlank(ls[i]))
      && (next.Some? ==> !Bare(next.value) || IsBlank(next.value))
    case EntryBlock(e) =>
      && ParseHead(ls[0]) == Some(e.head) && e.continuation == ls[1..]
      && (forall i :: 1 <= i < |ls| ==> Begins(ls[i], "  "))
      && (next.Some? ==> !Begins(next.value, "  "))
    case Unparsable(line) =>
      |ls| == 1 && line == ls[0] && Begins(line, "- [") && ParseHead(line).None?
    case Prose(lines) =>
      lines == ls && (forall i :: 0 <= i < |ls| ==> Bare(ls[i])) && (next.Some? ==> !Bare(next.value))
  }

  function LineAt(lines: seq<string>, k: nat): Option<string> {
    if k < |lines| then Some(lines[k]) else None
  }

  // Block `k` reads the lines from `at[k]` to `at[k + 1]`.
  ghost predicate TileAt(lines: seq<string>, blocks: seq<Block>, at: seq<nat>, k: nat) {
    && k < |blocks| && k + 1 < |at| && at[k] < at[k + 1] <= |lines|
    && Reads(blocks[k], lines[at[k]..at[k + 1]], LineAt(lines, at[k + 1]))
  }

  ghost predicate Tiled(lines: seq<string>, blocks: seq<Block>, at: seq<nat>) {
    && |at| == |blocks| + 1 && at[0] == 0 && at[|blocks|] == |lines|
    && (forall k: nat :: k < |blocks| ==> TileAt(lines, blocks, at, k))
  }

  lemma {:induction false} RunReads(p: string -> bool, lines: seq<string>)
    requires lines != []
    ensures var n := RunLength(p, lines[1..]);
      1 + n <= |lines| && (forall i :: 1 <= i < 1 + n ==> p(lines[i])) && (1 + n < |lines| ==> !p(lines[1 + n]))
  {
    var rest := lines[1..];
    var n := RunLength(p, rest);
    forall i | 1 <= i < 1 + n ensures p(lines[i]) { assert rest[i - 1] == lines[i]; }
    assert n < |rest| ==> rest[n] == lines[1 + n];
  }

  lemma {:induction false} TopicReads(lines: seq<string>)
    requires lines != [] && IsTopic(lines[0]) && !IsSection(lines[0])
    ensures var n := FirstSize(lines); Reads(FirstBlock(lines), lines[..n], LineAt(lines, n))
  {
    var l, n := lines[0], FirstSize(lines);
    KindsAre(l);
    RunReads(IsTopicBody, lines);
    forall i | 0 <= i < |lines| ensures IsPlain(lines[i]) <==> Bare(lines[i]) { KindsAre(lines[i]); }
    hide IsSection, IsTopic, IsHeadLine, IsPlain, ParseHead, Begins, Bare, IsBlank, RunLength;
    assert lines[..n] == [l] + lines[1..n];
  }

  lemma {:induction false} EntryReads(lines: seq<string>)
    requires lines != [] && IsHeadLine(lines[0]) && !IsTopic(lines[0]) && !IsSection(lines[0])
    ensures var n := FirstSize(lines); Reads(FirstBlock(lines), lines[..n], LineAt(lines, n))
  {
    var l, n := lines[0], FirstSize(lines);
    KindsAre(l);
    RunReads(IsContinuation, lines);
    forall i | 0 <= i < |lines| ensures IsContinuation(lines[i]) <==> Begins(lines[i], "  ") { KindsAre(lines[i]); }
    hide IsSection, IsTopic, IsHeadLine, IsContinuation, ParseHead, Begins, RunLength;
    assert lines[..n][1..] == lines[1..n];
  }

  lemma {:induction false} FirstReads(lines: seq<string>)
    requires lines != []
    ensures var n := FirstSize(lines); Reads(FirstBlock(lines), lines[..n], LineAt(lines, n))
  {
    var l := lines[0];
    KindsAre(l);
    NamesResolvedIff(l);
    if !IsSection(l) && IsTopic(l) {
      TopicReads(lines);
    } else if !IsSection(l) && IsHeadLine(l) {
      EntryReads(lines);
    } else {
      forall i | 0 <= i < |lines| ensures IsPlain(lines[i]) <==> Bare(lines[i]) { KindsAre(lines[i]); }
      hide IsSection, IsTopic, IsHeadLine, IsPlain, IsDividerText, NamesResolved, ParseHead, Begins, Bare, RStrip, RunLength;
    }
  }

  lemma {:induction false} TileShift(lines: seq<string>, n: nat, b: Block, rest: seq<Block>, at: seq<nat>, all: seq<nat>, k: nat)
    requires n <= |lines| && TileAt(lines[n..], rest, at, k)
    requires k + 2 < |all| && all[k + 1] == at[k] + n && all[k + 2] == at[k + 1] + n
    ensures TileAt(lines, [b] + rest, all, k + 1)
  {
    hide Reads;
    assert lines[all[k + 1]..all[k + 2]] == lines[n..][at[k]..at[k + 1]];
    assert LineAt(lines, all[k + 2]) == LineAt(lines[n..], at[k + 1]);
  }

  lemma {:induction false} TiledCons(lines: seq<string>, n: nat, b: Block, rest: seq<Block>, at: seq<nat>) returns (all: seq<nat>)
    requires 0 < n <= |lines| && Reads(b, lines[..n], LineAt(lines, n)) && Tiled(lines[n..], rest, at)
    ensures Tiled(lines, [b] + rest, all)
  {
    all := [0] + seq(|at|, i requires 0 <= i < |at| => at[i] + n);
    var blocks := [b] + rest;
    hide Reads;
    assert TileAt(lines, blocks, all, 0) by { assert lines[0..n] == lines[..n]; }
    hide TileAt;
    forall k: nat | k < |blocks| ensures TileAt(lines, blocks, all, k) {
      if k > 0 { TileShift(lines, n, b, rest, at, all, k - 1); }
    }
  }

  // The blocks of a list of lines cover it: sections and lines that are no entry alone, a
  // topic with the text up to a blank, an entry with its indented lines, and everything
  // between as one block of prose.
  lemma {:induction false} BlocksTile(lines: seq<string>) returns (at: seq<nat>)
    ensures Tiled(lines, Blocks(lines), at)
    decreases |lines|
  {
    if lines == [] {
      at := [0];
    } else {
      var n := FirstSize(lines);
      at := BlocksTile(lines[n..]);
      FirstReads(lines);
      BlocksStep(lines);
      hide Tiled, Reads, FirstBlock, FirstSize, Blocks;
      at := TiledCons(lines, n, FirstBlock(lines), Blocks(lines[n..]), at);
    }
  }

  // The file header: the first line that is not blank, when it starts with one hash and a
  // blank; blocks begin behind it, or at that line.
  lemma {:induction false} HeaderExactly(lines: seq<string>) returns (k: nat)
    ensures k <= |lines| && (forall i :: 0 <= i < k ==> IsBlank(lines[i])) && (k < |lines| ==> !IsBlank(lines[k]))
    ensures if k < |lines| && Begins(lines[k], "# ") then HeaderText(lines) == RStrip(lines[k]) && HeaderLines(lines) == k + 1
      else HeaderText(lines) == "# Open Questions" && HeaderLines(lines) == k
  {
    k := LeadingBlanks(lines);
    hide IsBlank, RStrip;
    if k < |lines| && Begins(lines[k], "# ") && |lines[k]| >= 3 { assert lines[k][1] == lines[k][..2][1] && lines[k][..3][1] == lines[k][1]; }
  }
}
