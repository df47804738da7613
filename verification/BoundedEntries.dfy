// Which lines of a questions file are its discovery pointers, and where its regions begin.
module BoundedEntries {
  import opened Common
  import opened Picking
  import opened Text
  import opened QuestionLines
  import opened Questions
  import opened QuestionFormat
  import opened Bounded

  // ---- every entry line is located ------------------------------------------------------------

  // The entry of line `l.first`, with all the indented lines behind it.
  ghost predicate WholeEntry(lines: seq<string>, l: Located) {
    && l.first < l.last <= |lines|
    && ParseHead(lines[l.first]) == Some(l.entry.head) && l.entry.continuation == lines[l.first + 1..l.last]
    && (forall i :: l.first < i < l.last ==> IsContinuation(lines[i]))
    && (l.last < |lines| ==> !IsContinuation(lines[l.last]))
  }

  ghost predicate Starts(located: seq<Located>, i: nat) {
    exists k :: 0 <= k < |located| && located[k].first == i
  }

  ghost predicate AllWhole(lines: seq<string>, from: nat, located: seq<Located>) {
    && (forall k :: 0 <= k < |located| ==> from <= located[k].first && WholeEntry(lines, located[k]))
    && (forall j, k :: 0 <= j < k < |located| ==> located[j].last <= located[k].first)
  }

  // The list locates every entry line from `from` on, once, in order.
  ghost predicate LocatesAll(lines: seq<string>, from: nat, located: seq<Located>) {
    && AllWhole(lines, from, located)
    && (forall i: nat :: from <= i < |lines| && ParseHead(lines[i]).Some? ==> Starts(located, i))
  }

  lemma {:induction false} FirstWhole(lines: seq<string>, from: nat)
    requires from < |lines| && FirstBlock(lines[from..]).EntryBlock?
    ensures var n := FirstSize(lines[from..]); WholeEntry(lines, Located(from, from + n, FirstBlock(lines[from..]).entry))
  {
    hide IsContinuation, IsSection, IsTopic, IsHeadLine, ParseHead;
    var rest := lines[from..];
    var n := FirstSize(rest);
    assert rest[1..] == lines[from + 1..] && rest[0] == lines[from];
    assert rest[1..n] == lines[from + 1..from + n];
    forall i | from < i < from + n ensures IsContinuation(lines[i]) { assert rest[1..][i - from - 1] == lines[i]; }
    assert n < |rest| ==> rest[1..][n - 1] == lines[from + n];
  }

  // No entry line hides inside a block.
  lemma {:induction false} NoneInside(lines: seq<string>, from: nat, i: nat)
    requires from < |lines| && from <= i < from + FirstSize(lines[from..])
    requires ParseHead(lines[i]).Some?
    ensures i == from && FirstBlock(lines[from..]).EntryBlock?
  {
    var rest := lines[from..];
    ParsedMarked(lines[i]);
    KindsApart(lines[i]);
    KindsApart(rest[0]);
    assert rest[i - from] == lines[i];
    assert forall j :: 1 <= j < |rest| ==> rest[1..][j - 1] == rest[j];
    hide IsContinuation, IsSection, IsTopic, IsHeadLine, ParseHead, IsBlank, IsDividerText;
  }

  lemma {:induction false} EntryCovers(lines: seq<string>, l: Located)
    requires WholeEntry(lines, l)
    ensures l.first < l.last
  {
  }

  lemma {:induction false} WholeCons(lines: seq<string>, from: nat, l: Located, located: seq<Located>)
    requires WholeEntry(lines, l) && l.first == from && AllWhole(lines, l.last, located)
    ensures AllWhole(lines, from, [l] + located)
  {
    hide WholeEntry;
    assert l.first < l.last by { EntryCovers(lines, l); }
    var all := [l] + located;
    forall k | 0 <= k < |all| ensures from <= all[k].first && WholeEntry(lines, all[k]) {
      if k > 0 { assert all[k] == located[k - 1]; }
    }
    forall j, k | 0 <= j < k < |all| ensures all[j].last <= all[k].first {
      assert all[k] == located[k - 1];
    }
  }

  lemma {:induction false} StartsAfter(l: Located, located: seq<Located>, i: nat)
    ensures Starts([l] + located, i) <==> i == l.first || Starts(located, i)
  {
    var all := [l] + located;
    if k :| 0 <= k < |located| && located[k].first == i { assert all[k + 1].first == i; }
    if i == l.first { assert all[0].first == i; }
  }

  lemma {:induction false} StartedHere(lines: seq<string>, from: nat, located: seq<Located>, i: nat)
    requires from < |lines| && LocatesAll(lines, from + FirstSize(lines[from..]), located)
    requires from <= i < |lines| && ParseHead(lines[i]).Some?
    ensures (FirstBlock(lines[from..]).EntryBlock? && i == from) || Starts(located, i)
  {
    if i < from + FirstSize(lines[from..]) { NoneInside(lines, from, i); }
    hide FirstSize, FirstBlock, ParseHead, Starts, AllWhole;
  }

  lemma {:induction false} LocatesOne(lines: seq<string>, l: Located, located: seq<Located>)
    requires WholeEntry(lines, l) && AllWhole(lines, l.last, located)
    requires forall i: nat :: l.first <= i < |lines| && ParseHead(lines[i]).Some? ==> i == l.first || Starts(located, i)
    ensures LocatesAll(lines, l.first, [l] + located)
  {
    WholeCons(lines, l.first, l, located);
    hide WholeEntry, AllWhole, Starts, ParseHead;
    forall i: nat ensures Starts([l] + located, i) <==> i == l.first || Starts(located, i) { StartsAfter(l, located, i); }
  }

  lemma {:induction false} WholeLater(lines: seq<string>, from: nat, later: nat, located: seq<Located>)
    requires from <= later && AllWhole(lines, later, located)
    ensures AllWhole(lines, from, located)
  {
    hide WholeEntry;
  }

  lemma {:induction false} MoreEntry(lines: seq<string>, from: nat, n: nat, located: seq<Located>)
    requires from < |lines| && FirstBlock(lines[from..]).EntryBlock? && n == FirstSize(lines[from..])
    requires LocatesAll(lines, from + n, located)
    ensures LocatesAll(lines, from, [Located(from, from + n, FirstBlock(lines[from..]).entry)] + located)
  {
    hide FirstBlock, FirstSize, Starts, ParseHead, WholeEntry, AllWhole;
    forall i: nat | from <= i < |lines| && ParseHead(lines[i]).Some? ensures i == from || Starts(located, i) {
      StartedHere(lines, from, located, i);
    }
    FirstWhole(lines, from);
    LocatesOne(lines, Located(from, from + n, FirstBlock(lines[from..]).entry), located);
  }

  lemma {:induction false} MoreOther(lines: seq<string>, from: nat, n: nat, located: seq<Located>)
    requires from < |lines| && !FirstBlock(lines[from..]).EntryBlock? && n == FirstSize(lines[from..])
    requires LocatesAll(lines, from + n, located)
    ensures LocatesAll(lines, from, located)
  {
    hide FirstBlock, FirstSize, Starts, ParseHead, WholeEntry, AllWhole;
    forall i: nat | from <= i < |lines| && ParseHead(lines[i]).Some? ensures Starts(located, i) {
      StartedHere(lines, from, located, i);
    }
    WholeLater(lines, from, from + n, located);
  }

  lemma {:induction false} LocatesMore(lines: seq<string>, from: nat, n: nat, located: seq<Located>)
    requires from < |lines| && n == FirstSize(lines[from..]) && LocatesAll(lines, from + n, located)
    ensures LocatesAll(lines, from, OneLocated(FirstBlock(lines[from..]), from, from + n) + located)
  {
    hide FirstBlock, FirstSize, LocatesAll;
    if FirstBlock(lines[from..]).EntryBlock? {
      MoreEntry(lines, from, n, located);
    } else {
      MoreOther(lines, from, n, located);
      assert [] + located == located;
    }
  }

  lemma {:induction false} NothingLocated(lines: seq<string>, from: nat)
    requires from >= |lines|
    ensures LocatesAll(lines, from, Locate(Blocks([]), from))
  {
    assert Locate(Blocks([]), from) == [];
  }

  lemma {:induction false} LocatesFrom(lines: seq<string>, from: nat)
    requires from <= |lines|
    ensures LocatesAll(lines, from, Locate(Blocks(lines[from..]), from))
    decreases |lines| - from
  {
    hide FirstBlock, FirstSize, Blocks, Locate, LocatesAll, ParseHead;
    var rest := lines[from..];
    if rest == [] {
      NothingLocated(lines, from);
    } else {
      var n := FirstSize(rest);
      assert rest[n..] == lines[from + n..];
      LocatesFrom(lines, from + n);
      LocateStep(rest, from);
      LocatesMore(lines, from, n, Locate(Blocks(lines[from + n..]), from + n));
    }
  }

  // The entries are those of the entry lines below the file header, in order, each with all
  // the indented lines that follow it.
  lemma {:induction false} EntriesExactly(lines: seq<string>)
    ensures LocatesAll(lines, HeaderLines(lines), EntriesOf(lines))
  {
    LocatesFrom(lines, HeaderLines(lines));
  }

  // ---- the regions ----------------------------------------------------------------------------

  // Line `r` is the first that is exactly the resolved header, blanks around it aside.
  ghost predicate FirstResolved(lines: seq<string>, r: nat) {
    && r <= |lines| && (r < |lines| ==> Strip(lines[r]) == "## Resolved")
    && forall i :: 0 <= i < r ==> Strip(lines[i]) != "## Resolved"
  }

  predicate SectionLine(l: string) {
    var t := LStrip(l);
    |t| >= 3 && t[0] == '#' && t[1] == '#' && t[2] == ' '
  }

  lemma {:induction false} SectionIs(l: string)
    ensures StartsSection(l) <==> SectionLine(l)
  {
    var t := LStrip(l);
    hide LStrip;
    if |t| >= 3 { assert t[..3] == [t[0], t[1], t[2]]; }
  }

  // The resolved region begins at the first such line, and the part after it at the next
  // line that starts a section, blanks in front aside.
  lemma {:induction false} RegionLines(lines: seq<string>)
    ensures var r, p := ResolvedAt(lines), PostAt(lines);
      && FirstResolved(lines, r) && (r == |lines| ==> p == r)
      && (r < |lines| ==> r < p && (p < |lines| ==> SectionLine(lines[p])) && forall i :: r < i < p ==> !SectionLine(lines[i]))
  {
    var r := ResolvedAt(lines);
    hide Strip, LStrip;
    assert r < |lines| ==> !NotResolvedLine(lines[r]);
    forall i | 0 <= i < r ensures Strip(lines[i]) != "## Resolved" { assert NotResolvedLine(lines[i]); }
    if r < |lines| {
      var p, rest := PostAt(lines), lines[r + 1..];
      forall i | r < i < p ensures !SectionLine(lines[i]) {
        assert rest[i - r - 1] == lines[i] && NotSectionStart(lines[i]);
        SectionIs(lines[i]);
      }
      if p < |lines| {
        assert rest[p - r - 1] == lines[p];
        SectionIs(lines[p]);
      }
    }
  }

  // ---- the pointers ---------------------------------------------------------------------------

  predicate Discovers(body: string) {
    var s := LStrip(body);
    || (|s| >= 6 && s[..6] == "BRIEF:")
    || (|s| >= 7 && (s[..7] == "RESUME:" || s[..7] == "SELECT:"))
  }

  // An open entry whose body starts with one of the three words, at a line outside the
  // resolved region.
  ghost predicate Points(lines: seq<string>, l: Located) {
    && l.entry.head.resolved.None? && Discovers(l.entry.head.body)
    && !(ResolvedAt(lines) <= l.first < PostAt(lines))
  }

  ghost function PointsAt(lines: seq<string>, located: seq<Located>): nat -> bool {
    (i: nat) => i < |located| && Points(lines, located[i])
  }

  lemma {:induction false} OffsetOrder(lines: seq<string>, i: nat, j: nat)
    ensures Offset(lines, i) <= Offset(lines, j) <==> i <= j
  {
    if i <= j { OffsetGrows(lines, i, j); }
    if j < i {
      OffsetGrows(lines, j + 1, i);
      assert Offset(lines, j + 1) > Offset(lines, j);
    }
  }

  lemma {:induction false} PointsIff(lines: seq<string>, l: Located)
    requires l.first < |lines|
    ensures IsPointerAt(lines, l) <==> Points(lines, l)
  {
    OffsetOrder(lines, ResolvedAt(lines), l.first);
    OffsetOrder(lines, PostAt(lines), l.first);
    hide Offset, LStrip;
    RegionLines(lines);
  }

  function PointersFor(lines: seq<string>, from: seq<Located>): (r: seq<Pointer>)
    ensures |r| == |from|
  {
    seq(|from|, k requires 0 <= k < |from| => Pointer(SpanOf(lines, from[k]), from[k].entry))
  }

  lemma {:induction false} PointersForCons(lines: seq<string>, l: Located, from: seq<Located>)
    ensures PointersFor(lines, [l] + from) == [PointerOf(lines, l)] + PointersFor(lines, from)
  {
    hide SpanOf;
  }

  lemma {:induction false} PointersFrom(lines: seq<string>, located: seq<Located>, i: nat)
    requires i <= |located| && forall k :: 0 <= k < |located| ==> located[k].first < |lines|
    ensures Pointers(lines, located[i..]) == PointersFor(lines, Picking.Chosen(located, PointsAt(lines, located), i))
    decreases |located| - i
  {
    if i < |located| {
      assert located[i..][0] == located[i] && located[i..][1..] == located[i + 1..];
      PointersFrom(lines, located, i + 1);
      PointsIff(lines, located[i]);
      hide PointersFor, PointerOf, Points, IsPointerAt;
      PointersForCons(lines, located[i], Picking.Chosen(located, PointsAt(lines, located), i + 1));
    }
  }

  lemma {:induction false} PointersPick(lines: seq<string>, located: seq<Located>) returns (from: seq<Located>)
    requires forall k :: 0 <= k < |located| ==> located[k].first < |lines|
    ensures Picks(located, PointsAt(lines, located), from) && Pointers(lines, located) == PointersFor(lines, from)
  {
    from := Picking.Chosen(located, PointsAt(lines, located), 0);
    ChosenPicks(located, PointsAt(lines, located));
    assert located[0..] == located;
    PointersFrom(lines, located, 0);
    hide *;
  }

  lemma {:induction false} FirstsWithin(lines: seq<string>)
    ensures forall k :: 0 <= k < |EntriesOf(lines)| ==> EntriesOf(lines)[k].first < |lines|
    ensures LayoutOf(lines).pointers == Pointers(lines, EntriesOf(lines))
  {
    EntriesExactly(lines);
    hide EntriesOf, Pointers, Offset, ParseHead, IsContinuation, ResolvedAt, PostAt;
  }

  // The pointers of a file are its open entries that start with one of the three words and
  // stand outside the resolved region, in file order, each with the place of its text.
  lemma {:induction false} PointersExactly(lines: seq<string>) returns (from: seq<Located>)
    ensures Picks(EntriesOf(lines), PointsAt(lines, EntriesOf(lines)), from)
    ensures LayoutOf(lines).pointers == PointersFor(lines, from)
  {
    hide *;
    FirstsWithin(lines);
    from := PointersPick(lines, EntriesOf(lines));
  }

  // ---- text and spans -------------------------------------------------------------------------

  lemma {:induction false} ContentIs(lines: seq<string>)
    ensures Content(lines) == Join("\n", lines)
  {
    if |lines| > 1 { ContentIs(lines[1..]); }
  }

  lemma {:induction false} OffsetFront(lines: seq<string>, k: nat, j: nat)
    requires j <= k <= |lines|
    ensures Offset(lines[..k], j) == Offset(lines, j)
  {
    if j > 0 { OffsetFront(lines, k, j - 1); }
  }

  lemma {:induction false} ContentJoin(a: seq<string>, b: seq<string>)
    requires a != [] && b != []
    ensures Content(a + b) == Content(a) + "\n" + Content(b)
  {
    if |a| == 1 {
      assert (a + b)[1..] == b;
    } else {
      ContentJoin(a[1..], b);
      assert (a + b)[1..] == a[1..] + b;
    }
  }

  // The text of the first lines is the front of the text.
  lemma {:induction false} FrontText(lines: seq<string>, k: nat)
    requires 0 < k <= |lines|
    ensures |Content(lines[..k])| == Offset(lines, k) - 1 && Content(lines[..k]) <= Content(lines)
  {
    OffsetFront(lines, k, k);
    ContentLength(lines[..k]);
    assert lines == lines[..k] + lines[k..];
    if k < |lines| { ContentJoin(lines[..k], lines[k..]); } else { assert lines[..k] == lines; }
  }

  lemma {:induction false} BackText(lines: seq<string>, k: nat)
    requires k < |lines|
    ensures Offset(lines, k) <= |Content(lines)| && Content(lines)[Offset(lines, k)..] == Content(lines[k..])
  {
    assert lines == lines[..k] + lines[k..];
    if k > 0 {
      FrontText(lines, k);
      ContentJoin(lines[..k], lines[k..]);
    } else {
      assert lines[0..] == lines;
    }
  }

  // The span of an entry is the text of its lines.
  lemma {:induction false} SpanText(lines: seq<string>, l: Located)
    requires l.first < l.last <= |lines|
    ensures var s := SpanOf(lines, l);
      s.start <= s.end <= |Content(lines)| && Content(lines)[s.start..s.end] == Content(lines[l.first..l.last])
  {
    var front := lines[..l.last];
    FrontText(lines, l.last);
    BackText(front, l.first);
    OffsetFront(lines, l.last, l.first);
    assert front[l.first..] == lines[l.first..l.last];
    hide Content;
    var s := SpanOf(lines, l);
    assert s.end == Offset(lines, l.last) - 1;
    assert Content(lines)[..s.end] == Content(front);
    assert Content(lines)[s.start..s.end] == Content(front)[s.start..];
  }
}
