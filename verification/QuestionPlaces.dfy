// Where normalizing puts every block.
module QuestionPlaces {
  // It is stated by positions in the file: which entries leave, where they arrive and in
  // which order, and what stays.
  import opened Picking
  import opened Text
  import opened Questions
  import opened QuestionEdits
  import opened QuestionNormalize

  // ---- positions -------------------------------------------------------------------------

  // No divider stands at or before block `i`.
  ghost predicate AboveDivider(blocks: seq<Block>, i: nat) {
    forall k :: 0 <= k <= i && k < |blocks| ==> !(blocks[k].Header? && blocks[k].divider)
  }

  ghost predicate BlankLines(b: Block) {
    b.Prose? && forall k :: 0 <= k < |b.lines| ==> IsBlank(b.lines[k])
  }

  // Only blank prose stands between the two positions.
  ghost predicate BlankBetween(blocks: seq<Block>, a: nat, b: nat) {
    forall k :: a <= k < b && k < |blocks| ==> BlankLines(blocks[k])
  }

  ghost predicate NextSubstance(blocks: seq<Block>, i: nat, j: nat) {
    && i < j <= |blocks| && BlankBetween(blocks, i + 1, j)
    && (j == |blocks| || blocks[j].EntryBlock? || blocks[j].Header?)
  }

  // The next block after `i` that is not blank prose, if any, is an entry or a header.
  ghost predicate NothingHangs(blocks: seq<Block>, i: nat) {
    exists j: nat :: NextSubstance(blocks, i, j)
  }

  // Block `i` is a resolved entry above the divider that nothing hangs on.
  ghost predicate Moves(blocks: seq<Block>, i: nat) {
    && i < |blocks| && blocks[i].EntryBlock? && blocks[i].entry.head.resolved.Some?
    && AboveDivider(blocks, i) && NothingHangs(blocks, i)
  }

  // Nothing but blanks stands between a moving entry and position `i`.
  ghost predicate Trails(blocks: seq<Block>, i: nat) {
    exists m: nat :: m < i && Moves(blocks, m) && BlankBetween(blocks, m + 1, i)
  }

  // Block `i` stays: it does not move, and is not a blank that trails a moving entry.
  ghost predicate Stays(blocks: seq<Block>, i: nat) {
    i < |blocks| && !Moves(blocks, i) && !(BlankLines(blocks[i]) && Trails(blocks, i))
  }

  // ---- the recursive reading, by positions --------------------------------------------------

  lemma {:induction false} BlankSame(b: Block)
    ensures BlankLines(b) <==> BlankProse(b)
    ensures BlankLines(b) ==> !b.EntryBlock? && !b.Header?
  {
  }

  lemma {:induction false} SafeStep(rest: seq<Block>)
    requires rest != [] && BlankProse(rest[0])
    ensures SafeAfter(rest) == SafeAfter(rest[1..])
  {
  }

  lemma {:induction false} NextPast(blocks: seq<Block>, i: nat)
    requires i + 1 < |blocks| && BlankLines(blocks[i + 1])
    ensures NothingHangs(blocks, i) <==> NothingHangs(blocks, i + 1)
  {
    BlankSame(blocks[i + 1]);
    hide BlankLines;
    if j: nat :| NextSubstance(blocks, i, j) {
      assert j > i + 1;
      assert NextSubstance(blocks, i + 1, j);
    }
    var n := i + 1;
    if j: nat :| NextSubstance(blocks, n, j) {
      assert NextSubstance(blocks, i, j);
    }
  }

  lemma {:induction false} SafeHere(blocks: seq<Block>, i: nat)
    requires i + 1 < |blocks| && !BlankLines(blocks[i + 1])
    ensures NothingHangs(blocks, i) <==> blocks[i + 1].EntryBlock? || blocks[i + 1].Header?
    ensures SafeAfter(blocks[i + 1..]) <==> blocks[i + 1].EntryBlock? || blocks[i + 1].Header?
  {
    BlankSame(blocks[i + 1]);
    hide BlankLines, BlankProse;
    if blocks[i + 1].EntryBlock? || blocks[i + 1].Header? {
      assert NextSubstance(blocks, i, i + 1);
    }
    if j: nat :| NextSubstance(blocks, i, j) {
      assert j == i + 1;
    }
  }

  lemma {:induction false} SafeIff(blocks: seq<Block>, i: nat)
    requires i < |blocks|
    ensures SafeAfter(blocks[i + 1..]) <==> NothingHangs(blocks, i)
    decreases |blocks| - i
  {
    var rest := blocks[i + 1..];
    if rest == [] {
      assert NextSubstance(blocks, i, |blocks|);
    } else {
      assert rest[0] == blocks[i + 1] && rest[1..] == blocks[i + 2..];
      BlankSame(rest[0]);
      hide SafeAfter, BlankLines, BlankProse;
      SafeIff(blocks, i + 1);
      if BlankLines(blocks[i + 1]) {
        NextPast(blocks, i);
        SafeStep(rest);
      } else {
        SafeHere(blocks, i);
      }
    }
  }

  ghost predicate NoneBefore(blocks: seq<Block>, k: nat) {
    forall i :: 0 <= i < k && i < |blocks| ==> !IsDivider(blocks[i])
  }

  lemma {:induction false} MovesIff(blocks: seq<Block>, k: nat)
    requires k < |blocks| && NoneBefore(blocks, k)
    ensures Moves(blocks, k) <==> !IsDivider(blocks[k]) && Movable(blocks[k..])
  {
    SafeIff(blocks, k);
    assert blocks[k..][1..] == blocks[k + 1..] && blocks[k..][0] == blocks[k];
    hide SafeAfter, NothingHangs;
  }

  // Nothing from the divider on moves.
  lemma {:induction false} StopsAtDivider(blocks: seq<Block>, d: nat, i: nat)
    requires d < |blocks| && IsDivider(blocks[d]) && d <= i
    ensures !Moves(blocks, i)
  {
    hide NothingHangs;
  }

  ghost function MovesIn(blocks: seq<Block>): nat -> bool {
    (i: nat) => Moves(blocks, i)
  }

  ghost function StaysIn(blocks: seq<Block>): nat -> bool {
    (i: nat) => Stays(blocks, i)
  }

  lemma {:induction false} MovedFrom(blocks: seq<Block>, k: nat)
    requires k <= |blocks| && NoneBefore(blocks, k)
    ensures Moved(blocks[k..]) == Chosen(blocks, MovesIn(blocks), k)
    decreases |blocks| - k
  {
    if k < |blocks| {
      assert blocks[k..][1..] == blocks[k + 1..] && blocks[k..][0] == blocks[k];
      MovesIff(blocks, k);
      hide Moves, Movable;
      if IsDivider(blocks[k]) {
        forall i: nat | i >= k ensures !MovesIn(blocks)(i) { StopsAtDivider(blocks, k, i); }
        ChosenNone(blocks, MovesIn(blocks), k);
      } else {
        MovedFrom(blocks, k + 1);
      }
    }
  }

  // A resolved entry above the divider that something hangs on.
  ghost predicate HeldBack(blocks: seq<Block>, i: nat) {
    && i < |blocks| && blocks[i].EntryBlock? && blocks[i].entry.head.resolved.Some?
    && AboveDivider(blocks, i) && !NothingHangs(blocks, i)
  }

  ghost function HeldIn(blocks: seq<Block>): nat -> bool {
    (i: nat) => HeldBack(blocks, i)
  }

  lemma {:induction false} SkippedFrom(blocks: seq<Block>, k: nat)
    requires k <= |blocks| && NoneBefore(blocks, k)
    ensures Skipped(blocks[k..]) == Chosen(blocks, HeldIn(blocks), k)
    decreases |blocks| - k
  {
    if k < |blocks| {
      assert blocks[k..][1..] == blocks[k + 1..] && blocks[k..][0] == blocks[k];
      SafeIff(blocks, k);
      hide SafeAfter, NothingHangs;
      if IsDivider(blocks[k]) {
        assert forall i: nat :: i >= k ==> !HeldBack(blocks, i);
        ChosenNone(blocks, HeldIn(blocks), k);
      } else {
        SkippedFrom(blocks, k + 1);
      }
    }
  }

  // What is reported as skipped are the entries held back, in file order.
  lemma {:induction false} SkippedLists(blocks: seq<Block>)
    ensures Picks(blocks, HeldIn(blocks), Skipped(blocks))
  {
    assert blocks[0..] == blocks;
    SkippedFrom(blocks, 0);
    ChosenPicks(blocks, HeldIn(blocks));
  }

  lemma {:induction false} TrailsStep(blocks: seq<Block>, k: nat)
    requires k < |blocks|
    ensures Trails(blocks, k + 1) <==> Moves(blocks, k) || (BlankLines(blocks[k]) && Trails(blocks, k))
  {
    hide Moves, BlankLines;
    if Trails(blocks, k + 1) && !Moves(blocks, k) {
      var m: nat :| m < k + 1 && Moves(blocks, m) && BlankBetween(blocks, m + 1, k + 1);
      assert m < k && BlankBetween(blocks, m + 1, k);
    }
    if Moves(blocks, k) { assert BlankBetween(blocks, k + 1, k + 1); }
    if BlankLines(blocks[k]) && Trails(blocks, k) {
      var m: nat :| m < k && Moves(blocks, m) && BlankBetween(blocks, m + 1, k);
      assert BlankBetween(blocks, m + 1, k + 1);
    }
  }

  // The divider and everything below it stays.
  lemma {:induction false} StaysBelow(blocks: seq<Block>, d: nat, i: nat)
    requires d < |blocks| && IsDivider(blocks[d]) && d <= i < |blocks|
    ensures Stays(blocks, i)
  {
    StopsAtDivider(blocks, d, i);
    BlankSame(blocks[d]);
    hide BlankLines, Moves;
    forall m: nat | Moves(blocks, m) ensures m < d {
      if d <= m { StopsAtDivider(blocks, d, m); }
    }
    forall m: nat | m < i && Moves(blocks, m) && d < i ensures !BlankBetween(blocks, m + 1, i) {
      assert m < d < i;
    }
  }

  lemma {:induction false} BlankNotMoving(rest: seq<Block>)
    requires rest != [] && BlankProse(rest[0])
    ensures !Movable(rest)
  {
  }

  lemma {:induction false} KeptFrom(blocks: seq<Block>, k: nat)
    requires k <= |blocks| && NoneBefore(blocks, k)
    ensures Kept(blocks[k..], Trails(blocks, k)) == Chosen(blocks, StaysIn(blocks), k)
    decreases |blocks| - k
  {
    if k < |blocks| {
      var rest := blocks[k..];
      assert rest[1..] == blocks[k + 1..] && rest[0] == blocks[k];
      if IsDivider(blocks[k]) {
        forall i: nat | k <= i < |blocks| ensures StaysIn(blocks)(i) { StaysBelow(blocks, k, i); }
        ChosenAll(blocks, StaysIn(blocks), k);
      } else {
        MovesIff(blocks, k);
        TrailsStep(blocks, k);
        BlankSame(blocks[k]);
        hide Moves, Trails, BlankLines, BlankProse;
        KeptFrom(blocks, k + 1);
        hide Movable;
        if BlankProse(rest[0]) { BlankNotMoving(rest); }
      }
    }
  }

  // ---- where the moved entries arrive ---------------------------------------------------------

  ghost predicate DividerOf(front: seq<Block>, d: nat) {
    && d < |front| && front[d].Header? && front[d].divider
    && (forall k :: 0 <= k < d ==> !(front[k].Header? && front[k].divider))
    && (forall k :: d < k < |front| ==> !front[k].Header?)
  }

  // The divider is the file's first one, and no header stands after it.
  ghost predicate EndsInDivider(front: seq<Block>) {
    exists d: nat :: DividerOf(front, d)
  }

  // Each entry of the list behind a blank line.
  ghost predicate BlankThenEach(moved: seq<Block>, s: seq<Block>) {
    && |s| == 2 * |moved|
    && forall k: nat :: k < |moved| ==> s[2 * k] == Prose([""]) && s[2 * k + 1] == moved[k]
  }

  lemma {:induction false} SpacedEach(moved: seq<Block>)
    ensures BlankThenEach(moved, Spaced(moved))
  {
    if moved != [] {
      SpacedEach(moved[1..]);
      var s, t := Spaced(moved), Spaced(moved[1..]);
      assert s == [Prose([""]), moved[0]] + t;
      forall k: nat | k < |moved| ensures s[2 * k] == Prose([""]) && s[2 * k + 1] == moved[k] {
        if k > 0 {
          var j: nat := k - 1;
          assert t[2 * j] == Prose([""]) && t[2 * j + 1] == moved[1..][j];
          assert s[2 * k] == t[2 * j] && s[2 * k + 1] == t[2 * j + 1];
        }
      }
    }
  }

  // One more block in front of a split.
  lemma {:induction false} SplitCons(b: Block, s: seq<Block>, f: seq<Block>, extra: seq<Block>, back: seq<Block>)
    requires s == f + back
    ensures [b] + s == ([b] + f) + back
    ensures [b] + (f + extra + back) == ([b] + f) + extra + back
  {
  }

  lemma {:induction false} BeforeHeaderSplits(s: seq<Block>, extra: seq<Block>) returns (front: seq<Block>, back: seq<Block>)
    ensures s == front + back && InsertBeforeHeader(s, extra) == front + extra + back
    ensures forall k :: 0 <= k < |front| ==> !front[k].Header?
    ensures back == [] || back[0].Header?
  {
    if s == [] || s[0].Header? {
      front, back := [], s;
      if s == [] { assert front + extra + back == extra; }
    } else {
      var f, b := BeforeHeaderSplits(s[1..], extra);
      front, back := [s[0]] + f, b;
      assert s == [s[0]] + s[1..];
      SplitCons(s[0], s[1..], f, extra, b);
    }
  }

  lemma {:induction false} DividerBehind(b: Block, f: seq<Block>)
    requires !IsDivider(b) && EndsInDivider(f)
    ensures EndsInDivider([b] + f)
  {
    var d: nat :| DividerOf(f, d);
    assert DividerOf([b] + f, d + 1);
  }

  lemma {:induction false} BelowSplits(s: seq<Block>, extra: seq<Block>) returns (front: seq<Block>, back: seq<Block>)
    requires HasDivider(s)
    ensures s == front + back && InsertBelow(s, extra) == front + extra + back
    ensures EndsInDivider(front) && (back == [] || back[0].Header?)
  {
    assert s == [s[0]] + s[1..];
    if IsDivider(s[0]) {
      hide HasDivider;
      var f, b := BeforeHeaderSplits(s[1..], extra);
      front, back := [s[0]] + f, b;
      SplitCons(s[0], s[1..], f, extra, b);
      assert DividerOf(front, 0);
    } else {
      DividerLater(s);
      var f, b := BelowSplits(s[1..], extra);
      front, back := [s[0]] + f, b;
      SplitCons(s[0], s[1..], f, extra, b);
      DividerBehind(s[0], f);
    }
  }

  lemma {:induction false} BothFrom(blocks: seq<Block>)
    ensures Picks(blocks, MovesIn(blocks), Moved(blocks))
    ensures Picks(blocks, StaysIn(blocks), Kept(blocks, false))
  {
    hide Moves, Stays;
    assert blocks[0..] == blocks;
    MovedFrom(blocks, 0);
    KeptFrom(blocks, 0);
    ChosenPicks(blocks, MovesIn(blocks));
    ChosenPicks(blocks, StaysIn(blocks));
  }

  lemma {:induction false} AnyMoved(blocks: seq<Block>, moved: seq<Block>)
    requires Picks(blocks, MovesIn(blocks), moved)
    ensures moved == [] <==> !exists i: nat :: Moves(blocks, i)
  {
    var at: seq<nat> :| PicksAt(blocks, MovesIn(blocks), moved, at);
    if moved != [] { assert MovesIn(blocks)(at[0]); }
    if i: nat :| Moves(blocks, i) { assert MovesIn(blocks)(i); }
  }

  lemma {:induction false} MintedLast(kept: seq<Block>)
    requires !HasDivider(kept)
    ensures EndsInDivider(kept + MintedDivider())
  {
    var front := kept + MintedDivider();
    var d: nat := |front| - 1;
    forall k | 0 <= k < d ensures !(front[k].Header? && front[k].divider) {
      if k < |kept| { assert front[k] == kept[k] && kept[k] in kept; }
    }
    assert DividerOf(front, d);
  }

  // Normalizing changes nothing iff no entry moves. Otherwise the moved entries stand in file
  // order, each behind a blank line, at the end of the divider's section: in front of them
  // is the divider with no header after it, behind them a header or nothing. Everything else
  // keeps its order; a divider is minted at the end only where there was none.
  lemma {:induction false} NormalizePlaces(blocks: seq<Block>)
    returns (front: seq<Block>, moved: seq<Block>, spaced: seq<Block>, back: seq<Block>)
    ensures moved == [] <==> !exists i: nat :: Moves(blocks, i)
    ensures moved == [] ==> NormalBlocks(blocks) == blocks
    ensures Picks(blocks, MovesIn(blocks), moved) && BlankThenEach(moved, spaced)
    ensures moved != [] ==> NormalBlocks(blocks) == front + spaced + back && EndsInDivider(front)
    ensures moved != [] ==> back == [] || back[0].Header?
    ensures moved != [] && HasDivider(blocks) ==> Picks(blocks, StaysIn(blocks), front + back)
    ensures moved != [] && !HasDivider(blocks) ==>
      back == [] && |front| >= 2 && Picks(blocks, StaysIn(blocks), front[..|front| - 2])
      && front[|front| - 2..] == [Prose([""]), Header("## Resolved", true)]
  {
    BothFrom(blocks);
    moved, spaced := Moved(blocks), Spaced(Moved(blocks));
    SpacedEach(moved);
    var kept := Kept(blocks, false);
    DividerKept(blocks, false);
    hide Moved, Kept, Spaced, Moves, Stays, BlankThenEach, InsertBelow;
    AnyMoved(blocks, moved);
    front, back := kept, [];
    if moved != [] {
      if HasDivider(blocks) {
        front, back := BelowSplits(kept, spaced);
      } else {
        front := kept + MintedDivider();
        assert front[..|front| - 2] == kept;
        MintedLast(kept);
        assert front + spaced + [] == kept + MintedDivider() + spaced;
      }
    }
  }
}
