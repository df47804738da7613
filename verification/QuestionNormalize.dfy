// Normalizing: resolved entries that nothing hangs on move below the divider.
module QuestionNormalize {
  import opened Common
  import opened Text
  import opened Questions
  import opened QuestionEdits

  // ---- Which entries move ----------------------------------------------------------

  predicate AllBlank(lines: seq<string>) {
    forall k :: 0 <= k < |lines| ==> IsBlank(lines[k])
  }

  predicate BlankProse(b: Block) {
    b.Prose? && AllBlank(b.lines)
  }

  // Only blank prose stands before the next entry, header or the end.
  predicate SafeAfter(rest: seq<Block>) {
    if rest == [] then true
    else if BlankProse(rest[0]) then SafeAfter(rest[1..])
    else rest[0].EntryBlock? || rest[0].Header?
  }

  predicate Resolved(b: Block) {
    b.EntryBlock? && b.entry.head.resolved.Some?
  }

  // The first block of the list moves: a resolved entry, above the divider, prose-safe.
  predicate Movable(blocks: seq<Block>) {
    blocks != [] && Resolved(blocks[0]) && SafeAfter(blocks[1..])
  }

  // The entries that move, in file order.
  function Moved(blocks: seq<Block>): seq<Block> {
    if blocks == [] || IsDivider(blocks[0]) then []
    else (if Movable(blocks) then [blocks[0]] else []) + Moved(blocks[1..])
  }

  // The resolved entries above the divider that prose holds back.
  function Skipped(blocks: seq<Block>): seq<Block> {
    if blocks == [] || IsDivider(blocks[0]) then []
    else (if Resolved(blocks[0]) && !Movable(blocks) then [blocks[0]] else []) + Skipped(blocks[1..])
  }

  // What stays: `dropping` while the blanks that trailed a moved entry go with it.
  function Kept(blocks: seq<Block>, dropping: bool): seq<Block> {
    if blocks == [] then []
    else if IsDivider(blocks[0]) then blocks
    else if dropping && BlankProse(blocks[0]) then Kept(blocks[1..], true)
    else if Movable(blocks) then Kept(blocks[1..], true)
    else [blocks[0]] + Kept(blocks[1..], false)
  }

  // Each moved entry behind a blank line.
  function Spaced(moved: seq<Block>): seq<Block> {
    if moved == [] then [] else [Prose([""]), moved[0]] + Spaced(moved[1..])
  }

  // In front of the first header, or at the end.
  function InsertBeforeHeader(s: seq<Block>, extra: seq<Block>): seq<Block> {
    if s == [] then extra
    else if s[0].Header? then extra + s
    else [s[0]] + InsertBeforeHeader(s[1..], extra)
  }

  // At the end of the divider's own section.
  function InsertBelow(s: seq<Block>, extra: seq<Block>): seq<Block> {
    if s == [] then []
    else if IsDivider(s[0]) then [s[0]] + InsertBeforeHeader(s[1..], extra)
    else [s[0]] + InsertBelow(s[1..], extra)
  }

  function NormalBlocks(blocks: seq<Block>): seq<Block> {
    if Moved(blocks) == [] then blocks
    else if HasDivider(blocks) then InsertBelow(Kept(blocks, false), Spaced(Moved(blocks)))
    else Kept(blocks, false) + MintedDivider() + Spaced(Moved(blocks))
  }

  function Normalized(doc: Doc): Doc {
    doc.(blocks := NormalBlocks(doc.blocks))
  }

  // ---- Nothing is left to move ---------------------------------------------------------

  // A held-back entry is still held back among what stays.
  lemma {:induction false} UnsafeKept(rest: seq<Block>, more: seq<Block>)
    requires !SafeAfter(rest)
    ensures !SafeAfter(Kept(rest, false) + more)
  {
    var kept := Kept(rest, false);
    assert (kept + more)[0] == rest[0];
    if BlankProse(rest[0]) {
      UnsafeKept(rest[1..], more);
      assert (kept + more)[1..] == Kept(rest[1..], false) + more;
    }
  }

  lemma {:induction false} DividerLater(blocks: seq<Block>)
    requires blocks != [] && !IsDivider(blocks[0])
    ensures HasDivider(blocks) <==> HasDivider(blocks[1..])
  {
    assert blocks == [blocks[0]] + blocks[1..];
  }

  lemma {:induction false} KeptSettled(blocks: seq<Block>, dropping: bool, more: seq<Block>)
    requires HasDivider(blocks) || Moved(more) == []
    ensures Moved(Kept(blocks, dropping) + more) == []
  {
    var kept := Kept(blocks, dropping);
    if blocks == [] {
      assert kept + more == more;
    } else if IsDivider(blocks[0]) {
      assert (kept + more)[0] == blocks[0];
    } else {
      DividerLater(blocks);
      if (dropping && BlankProse(blocks[0])) || Movable(blocks) {
        KeptSettled(blocks[1..], true, more);
      } else {
        KeptSettled(blocks[1..], false, more);
        assert (kept + more)[1..] == Kept(blocks[1..], false) + more;
        if Resolved(blocks[0]) { UnsafeKept(blocks[1..], more); }
        hide SafeAfter, Kept;
      }
    }
  }

  lemma {:induction false} SafeAbove(s: seq<Block>, extra: seq<Block>)
    requires HasDivider(s)
    ensures SafeAfter(InsertBelow(s, extra)) <==> SafeAfter(s)
  {
    var r := InsertBelow(s, extra);
    assert r[0] == s[0];
    if !IsDivider(s[0]) {
      DividerLater(s);
      SafeAbove(s[1..], extra);
      assert r[1..] == InsertBelow(s[1..], extra);
    }
  }

  // Inserting below the divider leaves everything down to the divider alone.
  lemma {:induction false} MovedAbove(s: seq<Block>, extra: seq<Block>)
    requires HasDivider(s)
    ensures Moved(InsertBelow(s, extra)) == Moved(s)
  {
    var r := InsertBelow(s, extra);
    if !IsDivider(s[0]) {
      DividerLater(s);
      MovedAbove(s[1..], extra);
      SafeAbove(s[1..], extra);
      assert r[1..] == InsertBelow(s[1..], extra);
      hide SafeAfter, InsertBelow;
    }
  }

  lemma {:induction false} DividerKept(blocks: seq<Block>, dropping: bool)
    ensures HasDivider(Kept(blocks, dropping)) <==> HasDivider(blocks)
  {
    if blocks != [] && !IsDivider(blocks[0]) {
      DividerLater(blocks);
      hide SafeAfter;
      if (dropping && BlankProse(blocks[0])) || Movable(blocks) {
        DividerKept(blocks[1..], true);
      } else {
        DividerKept(blocks[1..], false);
        var kept := Kept(blocks, dropping);
        assert kept[1..] == Kept(blocks[1..], false);
        DividerLater(kept);
      }
    }
  }

  lemma {:induction false} MintedStops(extra: seq<Block>)
    ensures Moved(MintedDivider() + extra) == []
  {
    var all := MintedDivider() + extra;
    assert all[1..][0] == Header(DividerText(), true);
    assert Moved(all[1..]) == [];
  }

  // After normalizing, the only resolved entries above the divider are the prose-trailed
  // ones; so normalizing again changes nothing.
  lemma {:induction false} NormalizeSettles(blocks: seq<Block>)
    ensures Moved(NormalBlocks(blocks)) == []
    ensures NormalBlocks(NormalBlocks(blocks)) == NormalBlocks(blocks)
  {
    if Moved(blocks) != [] {
      var kept, extra := Kept(blocks, false), Spaced(Moved(blocks));
      hide Kept, Spaced, Moved, InsertBelow;
      if HasDivider(blocks) {
        KeptSettled(blocks, false, []);
        DividerKept(blocks, false);
        MovedAbove(kept, extra);
        assert kept + [] == kept;
      } else {
        MintedStops(extra);
        KeptSettled(blocks, false, MintedDivider() + extra);
        assert kept + MintedDivider() + extra == kept + (MintedDivider() + extra);
      }
    }
  }

  // ---- Nothing is lost -------------------------------------------------------------------

  predicate IsSolid(b: Block) {
    !b.EntryBlock? && !b.Header? && !BlankProse(b)
  }

  // Every non-blank prose, `###` or unparsable block, with the entry or header it follows.
  function Anchored(blocks: seq<Block>, anchor: Option<Block>): seq<(Option<Block>, Block)> {
    if blocks == [] then []
    else if blocks[0].EntryBlock? || blocks[0].Header? then Anchored(blocks[1..], Some(blocks[0]))
    else (if IsSolid(blocks[0]) then [(anchor, blocks[0])] else []) + Anchored(blocks[1..], anchor)
  }

  // Nothing hangs on what comes before blanks, an entry, a header or the end.
  lemma {:induction false} AnchorFree(rest: seq<Block>, a: Option<Block>, b: Option<Block>)
    requires SafeAfter(rest)
    ensures Anchored(rest, a) == Anchored(rest, b)
  {
    if rest != [] && BlankProse(rest[0]) { AnchorFree(rest[1..], a, b); }
  }

  lemma {:induction false} KeptAnchored(blocks: seq<Block>, dropping: bool, anchor: Option<Block>)
    ensures Anchored(Kept(blocks, dropping), anchor) == Anchored(blocks, anchor)
  {
    if blocks != [] && !IsDivider(blocks[0]) {
      if dropping && BlankProse(blocks[0]) {
        KeptAnchored(blocks[1..], true, anchor);
      } else if Movable(blocks) {
        KeptAnchored(blocks[1..], true, anchor);
        AnchorFree(blocks[1..], anchor, Some(blocks[0]));
      } else {
        var kept := Kept(blocks, dropping);
        assert kept == [blocks[0]] + Kept(blocks[1..], false) && kept[1..] == Kept(blocks[1..], false);
        hide Kept, SafeAfter;
        var next := if blocks[0].EntryBlock? || blocks[0].Header? then Some(blocks[0]) else anchor;
        KeptAnchored(blocks[1..], false, next);
      }
    }
  }

  lemma {:induction false} SpacedStep(e: Block, later: seq<Block>, anchor: Option<Block>)
    requires e.EntryBlock?
    ensures Anchored([Prose([""]), e] + later, anchor) == Anchored(later, Some(e))
  {
    var all := [Prose([""]), e] + later;
    assert all[1..] == [e] + later && all[1..][1..] == later;
    assert IsBlank("") && BlankProse(all[0]);
    hide BlankProse;
  }

  lemma {:induction false} SpacedAnchored(moved: seq<Block>, rest: seq<Block>, anchor: Option<Block>)
    requires forall b :: b in moved ==> b.EntryBlock?
    requires SafeAfter(rest)
    ensures Anchored(Spaced(moved) + rest, anchor) == Anchored(rest, anchor)
  {
    if moved == [] {
      assert Spaced(moved) + rest == rest;
    } else {
      assert moved[0] in moved && forall b :: b in moved[1..] ==> b in moved;
      var later := Spaced(moved[1..]) + rest;
      assert Spaced(moved) + rest == [Prose([""]), moved[0]] + later;
      hide Spaced, Anchored, SafeAfter;
      SpacedAnchored(moved[1..], rest, Some(moved[0]));
      AnchorFree(rest, anchor, Some(moved[0]));
      SpacedStep(moved[0], later, anchor);
    }
  }

  lemma {:induction false} InsertAnchored(s: seq<Block>, moved: seq<Block>, anchor: Option<Block>)
    requires forall b :: b in moved ==> b.EntryBlock?
    ensures Anchored(InsertBeforeHeader(s, Spaced(moved)), anchor) == Anchored(s, anchor)
  {
    if s == [] {
      SpacedAnchored(moved, [], anchor);
      assert Spaced(moved) + [] == Spaced(moved);
    } else if s[0].Header? {
      SpacedAnchored(moved, s, anchor);
    } else {
      var r := InsertBeforeHeader(s, Spaced(moved));
      assert r[1..] == InsertBeforeHeader(s[1..], Spaced(moved));
      hide InsertBeforeHeader, Spaced;
      InsertAnchored(s[1..], moved, if s[0].EntryBlock? then Some(s[0]) else anchor);
    }
  }

  lemma {:induction false} BelowAnchored(s: seq<Block>, moved: seq<Block>, anchor: Option<Block>)
    requires forall b :: b in moved ==> b.EntryBlock?
    ensures Anchored(InsertBelow(s, Spaced(moved)), anchor) == Anchored(s, anchor)
  {
    if s != [] {
      var r := InsertBelow(s, Spaced(moved));
      hide Spaced;
      var next := if s[0].EntryBlock? || s[0].Header? then Some(s[0]) else anchor;
      if IsDivider(s[0]) {
        InsertAnchored(s[1..], moved, next);
        assert r[1..] == InsertBeforeHeader(s[1..], Spaced(moved));
      } else {
        BelowAnchored(s[1..], moved, next);
        assert r[1..] == InsertBelow(s[1..], Spaced(moved));
      }
      hide InsertBelow, InsertBeforeHeader;
    }
  }

  lemma {:induction false} MovedEntries(blocks: seq<Block>)
    ensures forall b :: b in Moved(blocks) ==> Resolved(b) && b in blocks
  {
    if blocks != [] && !IsDivider(blocks[0]) {
      MovedEntries(blocks[1..]);
      assert blocks == [blocks[0]] + blocks[1..];
    }
  }

  // Behind blocks that go on with nothing solid, the anchors are those of the front.
  lemma {:induction false} AnchoredAppend(s: seq<Block>, more: seq<Block>, anchor: Option<Block>)
    requires forall a: Option<Block> :: Anchored(more, a) == []
    ensures Anchored(s + more, anchor) == Anchored(s, anchor)
  {
    if s == [] {
      assert s + more == more;
    } else {
      assert (s + more)[1..] == s[1..] + more;
      AnchoredAppend(s[1..], more, if s[0].EntryBlock? || s[0].Header? then Some(s[0]) else anchor);
    }
  }

  lemma {:induction false} MintedAnchored(moved: seq<Block>)
    requires forall b :: b in moved ==> b.EntryBlock?
    ensures forall a: Option<Block> :: Anchored(MintedDivider() + Spaced(moved), a) == []
  {
    var all := MintedDivider() + Spaced(moved);
    assert all[1..][0] == Header(DividerText(), true) && all[1..][1..] == Spaced(moved);
    assert IsBlank("") && BlankProse(all[0]);
    SpacedAnchored(moved, [], Some(all[1]));
    assert Spaced(moved) + [] == Spaced(moved);
    hide Spaced, BlankProse, DividerText;
  }

  // Every non-blank prose, `###` and unparsable block stays, in order, under the entry or
  // header it stood under.
  lemma {:induction false} NormalizeKeepsAnchors(blocks: seq<Block>)
    ensures Anchored(NormalBlocks(blocks), None) == Anchored(blocks, None)
  {
    MovedEntries(blocks);
    var moved, kept := Moved(blocks), Kept(blocks, false);
    KeptAnchored(blocks, false, None);
    hide Kept, Moved;
    BelowAnchored(kept, moved, None);
    MintedAnchored(moved);
    AnchoredAppend(kept, MintedDivider() + Spaced(moved), None);
    assert kept + MintedDivider() + Spaced(moved) == kept + (MintedDivider() + Spaced(moved));
    hide Spaced, InsertBelow, Anchored;
  }

  // ---- Counting blocks -----------------------------------------------------------------------

  function Count(p: Block -> bool, blocks: seq<Block>): nat {
    if blocks == [] then 0 else (if p(blocks[0]) then 1 else 0) + Count(p, blocks[1..])
  }

  lemma {:induction false} CountJoin(p: Block -> bool, a: seq<Block>, b: seq<Block>)
    ensures Count(p, a + b) == Count(p, a) + Count(p, b)
  {
    if a == [] {
      assert a + b == b;
    } else {
      CountJoin(p, a[1..], b);
      assert (a + b)[1..] == a[1..] + b;
    }
  }

  // The property counted is one that no blank prose has.
  ghost predicate OfSubstance(p: Block -> bool) {
    forall b :: BlankProse(b) ==> !p(b)
  }

  lemma {:induction false} BlankNotEntry(b: Block)
    requires BlankProse(b)
    ensures !Resolved(b)
  {
  }

  lemma {:induction false} KeptCounts(p: Block -> bool, blocks: seq<Block>, dropping: bool)
    requires OfSubstance(p)
    ensures Count(p, Kept(blocks, dropping)) + Count(p, Moved(blocks)) == Count(p, blocks)
  {
    hide BlankProse, SafeAfter;
    if blocks != [] && !IsDivider(blocks[0]) {
      var rest := blocks[1..];
      if dropping && BlankProse(blocks[0]) {
        KeptCounts(p, rest, true);
        BlankNotEntry(blocks[0]);
        assert Moved(blocks) == Moved(rest) && Kept(blocks, dropping) == Kept(rest, true);
        assert !p(blocks[0]) && Count(p, blocks) == Count(p, rest);
      } else if Movable(blocks) {
        KeptCounts(p, rest, true);
        CountJoin(p, [blocks[0]], Moved(rest));
        assert [blocks[0]][1..] == [];
      } else {
        KeptCounts(p, rest, false);
        assert Moved(blocks) == Moved(rest) && Kept(blocks, dropping) == [blocks[0]] + Kept(rest, false);
        CountJoin(p, [blocks[0]], Kept(rest, false));
        assert [blocks[0]][1..] == [];
      }
    }
  }

  lemma {:induction false} SpacedCounts(p: Block -> bool, moved: seq<Block>)
    requires OfSubstance(p)
    ensures Count(p, Spaced(moved)) == Count(p, moved)
  {
    if moved != [] {
      SpacedCounts(p, moved[1..]);
      assert IsBlank("") && BlankProse(Prose([""]));
      hide BlankProse;
      var all := Spaced(moved);
      assert all[1..][0] == moved[0] && all[1..][1..] == Spaced(moved[1..]);
    }
  }

  lemma {:induction false} InsertCounts(p: Block -> bool, s: seq<Block>, extra: seq<Block>)
    ensures Count(p, InsertBeforeHeader(s, extra)) == Count(p, s) + Count(p, extra)
  {
    if s != [] {
      if s[0].Header? {
        CountJoin(p, extra, s);
      } else {
        InsertCounts(p, s[1..], extra);
        assert InsertBeforeHeader(s, extra)[1..] == InsertBeforeHeader(s[1..], extra);
      }
    }
  }

  lemma {:induction false} BelowCounts(p: Block -> bool, s: seq<Block>, extra: seq<Block>)
    requires HasDivider(s)
    ensures Count(p, InsertBelow(s, extra)) == Count(p, s) + Count(p, extra)
  {
    if IsDivider(s[0]) {
      InsertCounts(p, s[1..], extra);
      assert InsertBelow(s, extra)[1..] == InsertBeforeHeader(s[1..], extra);
    } else {
      DividerLater(s);
      BelowCounts(p, s[1..], extra);
      assert InsertBelow(s, extra)[1..] == InsertBelow(s[1..], extra);
    }
    hide InsertBelow, InsertBeforeHeader;
  }

  predicate MintsDivider(blocks: seq<Block>) {
    Moved(blocks) != [] && !HasDivider(blocks)
  }

  lemma {:induction false} MintedCounts(p: Block -> bool)
    requires OfSubstance(p)
    ensures Count(p, MintedDivider()) == if p(Header(DividerText(), true)) then 1 else 0
  {
    var all := MintedDivider();
    assert IsBlank("") && BlankProse(all[0]);
    assert all[1..] == [Header(DividerText(), true)] && all[1..][1..] == [];
    hide BlankProse, DividerText;
  }

  // Normalizing loses and doubles no entry, no header and no non-blank block of any kind,
  // and adds at most one header.
  lemma {:induction false} NormalizeConserves(p: Block -> bool, blocks: seq<Block>)
    requires OfSubstance(p)
    ensures Count(p, NormalBlocks(blocks)) == Count(p, blocks)
      + if MintsDivider(blocks) && p(Header(DividerText(), true)) then 1 else 0
  {
    var kept, moved := Kept(blocks, false), Moved(blocks);
    KeptCounts(p, blocks, false);
    SpacedCounts(p, moved);
    DividerKept(blocks, false);
    hide Kept, Moved, Spaced, BlankProse, HasDivider;
    if moved != [] {
      if HasDivider(blocks) {
        BelowCounts(p, kept, Spaced(moved));
      } else {
        CountJoin(p, kept + MintedDivider(), Spaced(moved));
        CountJoin(p, kept, MintedDivider());
        MintedCounts(p);
      }
    }
    hide InsertBelow, MintedDivider;
  }

  // ---- The operation itself -------------------------------------------------------------------

  // All blocks from `a` to `k` are blank prose.
  ghost predicate BlankRange(blocks: seq<Block>, a: nat, k: nat) {
    k < |blocks| && forall m :: a <= m <= k ==> BlankProse(blocks[m])
  }

  // Looks past the blank prose behind block `i`.
  method LookAhead(blocks: seq<Block>, i: nat) returns (safe: bool, trailing: set<nat>)
    requires i < |blocks|
    ensures safe == SafeAfter(blocks[i + 1..])
    ensures forall k :: k in trailing <==> i < k < |blocks| && BlankRange(blocks, i + 1, k)
  {
    trailing := {};
    safe := true;
    var j := i + 1;
    while j < |blocks|
      invariant i < j <= |blocks| && safe
      invariant SafeAfter(blocks[i + 1..]) == SafeAfter(blocks[j..])
      invariant forall k :: k in trailing <==> i < k < j
      invariant forall k :: i < k < j ==> BlankProse(blocks[k])
    {
      var next := blocks[j];
      assert blocks[j..][1..] == blocks[j + 1..];
      if next.EntryBlock? || next.Header? {
        break;
      }
      if BlankProse(next) {
        trailing := trailing + {j};
        j := j + 1;
      } else {
        safe := false;
        break;
      }
    }
    hide SafeAfter;
    assert j < |blocks| ==> !BlankProse(blocks[j]);
    forall k ensures k in trailing <==> i < k < |blocks| && BlankRange(blocks, i + 1, k) {
      if k in trailing { assert BlankRange(blocks, i + 1, k); }
    }
  }

  // The blocks whose index is not to be removed.
  function Filtered(blocks: seq<Block>, remove: set<nat>): seq<Block> {
    if blocks == [] then []
    else
      var n := |blocks| - 1;
      Filtered(blocks[..n], remove) + if n in remove then [] else [blocks[n]]
  }

  lemma {:induction false} FilteredSame(blocks: seq<Block>, a: set<nat>, b: set<nat>)
    requires forall k :: 0 <= k < |blocks| ==> (k in a <==> k in b)
    ensures Filtered(blocks, a) == Filtered(blocks, b)
  {
    if blocks != [] { FilteredSame(blocks[..|blocks| - 1], a, b); }
  }

  lemma {:induction false} FilteredSnoc(blocks: seq<Block>, i: nat, remove: set<nat>)
    requires i < |blocks|
    ensures Filtered(blocks[..i + 1], remove)
         == Filtered(blocks[..i], remove) + if i in remove then [] else [blocks[i]]
  {
    assert blocks[..i + 1][..i] == blocks[..i];
  }

  ghost predicate LooksAhead(blocks: seq<Block>, i: nat, dropping: bool, remove: set<nat>) {
    forall k :: i <= k < |blocks| ==> (k in remove <==> dropping && BlankRange(blocks, i, k))
  }

  // After looking at the blocks below `i`: `passed` the divider or not, `dropping` blanks
  // or not.
  ghost predicate Scanned(blocks: seq<Block>, i: nat, passed: bool, dropping: bool,
                          moved: seq<Block>, skipped: seq<Block>, remove: set<nat>) {
    && i <= |blocks|
    && (passed ==> !dropping)
    && moved + (if passed then [] else Moved(blocks[i..])) == Moved(blocks)
    && skipped + (if passed then [] else Skipped(blocks[i..])) == Skipped(blocks)
    && Filtered(blocks[..i], remove) + (if passed then blocks[i..] else Kept(blocks[i..], dropping)) == Kept(blocks, false)
    && LooksAhead(blocks, i, dropping, remove)
  }

  lemma {:induction false} ScanStarts(blocks: seq<Block>)
    ensures Scanned(blocks, 0, false, false, [], [], {})
  {
    assert blocks[0..] == blocks && blocks[..0] == [];
    assert [] + Moved(blocks) == Moved(blocks) && [] + Skipped(blocks) == Skipped(blocks);
    assert [] + Kept(blocks, false) == Kept(blocks, false);
    hide Moved, Skipped, Kept;
  }

  // One block at a time: what is left to move, to skip and to keep.
  lemma {:induction false} StayStep(s: seq<Block>)
    requires s != [] && !IsDivider(s[0]) && !Movable(s)
    ensures Moved(s) == Moved(s[1..])
    ensures Skipped(s) == (if Resolved(s[0]) then [s[0]] else []) + Skipped(s[1..])
    ensures Kept(s, false) == [s[0]] + Kept(s[1..], false)
    ensures Kept(s, true) == if BlankProse(s[0]) then Kept(s[1..], true) else [s[0]] + Kept(s[1..], false)
  {
    hide BlankProse, SafeAfter;
  }

  lemma {:induction false} DividerStep(s: seq<Block>, dropping: bool)
    requires s != [] && IsDivider(s[0])
    ensures Moved(s) == [] && Skipped(s) == [] && Kept(s, dropping) == s && !BlankProse(s[0])
  {
  }

  // Moving the border between what is done and what is left.
  lemma {:induction false} StayGlue(front: seq<Block>, moved: seq<Block>, skipped: seq<Block>, b: Block, rest: seq<Block>)
    ensures front + [b] + rest == front + ([b] + rest)
    ensures front + [b] + Kept(rest, false) == front + ([b] + Kept(rest, false))
    ensures front + [] == front && moved + [] == moved && skipped + [] == skipped
    ensures skipped + [b] + Skipped(rest) == skipped + ([b] + Skipped(rest))
    ensures [] + Skipped(rest) == Skipped(rest) && skipped + [b] + [] == skipped + [b]
  {
    hide Kept, Skipped;
  }

  lemma {:induction false} BlankStays(b: Block)
    ensures BlankProse(b) ==> !Resolved(b) && !IsDivider(b)
  {
  }

  lemma {:induction false} RemovedHere(blocks: seq<Block>, i: nat, dropping: bool, remove: set<nat>)
    requires i < |blocks| && LooksAhead(blocks, i, dropping, remove)
    ensures i in remove <==> dropping && BlankProse(blocks[i])
  {
    hide BlankProse;
    assert BlankRange(blocks, i, i) <==> BlankProse(blocks[i]);
  }

  lemma {:induction false} StaysAhead(blocks: seq<Block>, i: nat, dropping: bool, remove: set<nat>)
    requires i < |blocks| && LooksAhead(blocks, i, dropping, remove)
    ensures LooksAhead(blocks, i + 1, dropping && BlankProse(blocks[i]), remove)
  {
    hide BlankProse;
    forall k | i + 1 <= k < |blocks|
      ensures k in remove <==> dropping && BlankProse(blocks[i]) && BlankRange(blocks, i + 1, k)
    {
      assert BlankRange(blocks, i, k) <==> BlankProse(blocks[i]) && BlankRange(blocks, i + 1, k);
    }
  }

  // Blank or not, below the divider or not: a block that does not move.
  lemma {:induction false} ScanStays(blocks: seq<Block>, i: nat, passed: bool, dropping: bool,
                                     moved: seq<Block>, skipped: seq<Block>, remove: set<nat>)
    requires Scanned(blocks, i, passed, dropping, moved, skipped, remove) && i < |blocks|
    requires passed || IsDivider(blocks[i]) || !Movable(blocks[i..])
    ensures var late := passed || IsDivider(blocks[i]);
      Scanned(blocks, i + 1, late, dropping && BlankProse(blocks[i]), moved,
              if !late && Resolved(blocks[i]) then skipped + [blocks[i]] else skipped, remove)
  {
    hide BlankProse, Filtered, LooksAhead, SafeAfter, Moved, Kept, Skipped, IsDivider, Resolved, Movable;
    var b, rest := blocks[i], blocks[i + 1..];
    assert blocks[i..] == [b] + rest && blocks[i..][1..] == rest;
    if !passed { if IsDivider(b) { DividerStep(blocks[i..], dropping); } else { StayStep(blocks[i..]); } }
    BlankStays(b);
    FilteredSnoc(blocks, i, remove);
    RemovedHere(blocks, i, dropping, remove);
    StaysAhead(blocks, i, dropping, remove);
    StayGlue(Filtered(blocks[..i], remove), moved, skipped, b, rest);
  }

  lemma {:induction false} NotBlankRange(blocks: seq<Block>, i: nat, k: nat)
    requires i < |blocks| && i <= k && !BlankProse(blocks[i])
    ensures !BlankRange(blocks, i, k)
  {
  }

  lemma {:induction false} MovesAhead(blocks: seq<Block>, i: nat, dropping: bool, remove: set<nat>, trailing: set<nat>)
    requires i < |blocks| && !BlankProse(blocks[i]) && LooksAhead(blocks, i, dropping, remove)
    requires forall k :: k in trailing <==> i < k < |blocks| && BlankRange(blocks, i + 1, k)
    ensures LooksAhead(blocks, i + 1, true, remove + {i} + trailing)
  {
    hide BlankProse;
    forall k: nat | i < k < |blocks| ensures !BlankRange(blocks, i, k) { NotBlankRange(blocks, i, k); }
  }

  lemma {:induction false} MoveStep(s: seq<Block>)
    requires s != [] && !IsDivider(s[0]) && Movable(s)
    ensures Moved(s) == [s[0]] + Moved(s[1..])
    ensures Skipped(s) == Skipped(s[1..])
    ensures forall dropping: bool :: Kept(s, dropping) == Kept(s[1..], true)
    ensures !BlankProse(s[0])
  {
    hide SafeAfter;
  }

  // An entry that moves, with the blanks behind it.
  lemma {:induction false} ScanMoves(blocks: seq<Block>, i: nat, dropping: bool, moved: seq<Block>,
                                     skipped: seq<Block>, remove: set<nat>, trailing: set<nat>)
    requires Scanned(blocks, i, false, dropping, moved, skipped, remove) && i < |blocks|
    requires !IsDivider(blocks[i]) && Movable(blocks[i..])
    requires forall k :: k in trailing <==> i < k < |blocks| && BlankRange(blocks, i + 1, k)
    ensures Scanned(blocks, i + 1, false, true, moved + [blocks[i]], skipped, remove + {i} + trailing)
  {
    hide BlankProse, Filtered, LooksAhead, SafeAfter, BlankRange, Moved, Skipped, Kept, Movable, IsDivider;
    var b, rest := blocks[i], blocks[i + 1..];
    var more := remove + {i} + trailing;
    assert blocks[i..] == [b] + rest && blocks[i..][1..] == rest;
    MoveStep(blocks[i..]);
    MovesAhead(blocks, i, dropping, remove, trailing);
    FilteredSnoc(blocks, i, more);
    FilteredSame(blocks[..i], remove, more);
    assert moved + ([b] + Moved(rest)) == moved + [b] + Moved(rest);
    assert Filtered(blocks[..i], remove) + [] == Filtered(blocks[..i], remove);
  }

  lemma {:induction false} ScanEnds(blocks: seq<Block>, passed: bool, dropping: bool, moved: seq<Block>,
                                    skipped: seq<Block>, remove: set<nat>)
    requires Scanned(blocks, |blocks|, passed, dropping, moved, skipped, remove)
    ensures moved == Moved(blocks) && skipped == Skipped(blocks) && Filtered(blocks, remove) == Kept(blocks, false)
  {
    assert blocks[|blocks|..] == [] && blocks[..|blocks|] == blocks;
    assert moved + [] == moved && skipped + [] == skipped;
    assert Filtered(blocks, remove) + [] == Filtered(blocks, remove);
    hide Filtered;
  }

  lemma {:induction false} DividerSnoc(blocks: seq<Block>, i: nat)
    requires i < |blocks|
    ensures HasDivider(blocks[..i + 1]) <==> HasDivider(blocks[..i]) || IsDivider(blocks[i])
  {
    assert blocks[..i + 1] == blocks[..i] + [blocks[i]];
  }

  lemma NoDivider()
    ensures !HasDivider([])
  {
  }

  lemma {:induction false} BelowStep(kept: seq<Block>, d: nat, extra: seq<Block>)
    requires d < |kept| && !IsDivider(kept[d]) && HasDivider(kept[d..])
    ensures kept[..d] + InsertBelow(kept[d..], extra) == kept[..d + 1] + InsertBelow(kept[d + 1..], extra)
    ensures HasDivider(kept[d + 1..])
  {
    assert kept[d..][1..] == kept[d + 1..];
    DividerLater(kept[d..]);
    hide HasDivider, IsDivider;
    assert kept[..d + 1] == kept[..d] + [kept[d]];
    assert InsertBelow(kept[d..], extra) == [kept[d]] + InsertBelow(kept[d + 1..], extra);
    hide InsertBelow;
  }

  lemma {:induction false} DividerHere(kept: seq<Block>, d: nat, extra: seq<Block>)
    requires d <= |kept| && HasDivider(kept[d..]) && (d < |kept| ==> IsDivider(kept[d]))
    ensures d < |kept|
    ensures kept[..d] + InsertBelow(kept[d..], extra) == kept[..d + 1] + InsertBeforeHeader(kept[d + 1..], extra)
  {
    assert kept[d..] != [];
    hide InsertBeforeHeader, HasDivider, IsDivider;
    assert kept[d..][1..] == kept[d + 1..];
    assert InsertBelow(kept[d..], extra) == [kept[d]] + InsertBeforeHeader(kept[d + 1..], extra);
    hide InsertBelow;
    assert kept[..d + 1] == kept[..d] + [kept[d]];
  }

  lemma {:induction false} BeforeStep(kept: seq<Block>, at: nat, extra: seq<Block>)
    requires at < |kept| && !kept[at].Header?
    ensures kept[..at] + InsertBeforeHeader(kept[at..], extra) == kept[..at + 1] + InsertBeforeHeader(kept[at + 1..], extra)
  {
    assert kept[at..][1..] == kept[at + 1..];
    assert kept[..at + 1] == kept[..at] + [kept[at]];
  }

  lemma {:induction false} InsertHere(kept: seq<Block>, at: nat, extra: seq<Block>)
    requires at <= |kept| && (at < |kept| ==> kept[at].Header?)
    ensures kept[..at] + InsertBeforeHeader(kept[at..], extra) == kept[..at] + extra + kept[at..]
  {
    assert extra + [] == extra;
    assert kept[..at] + (extra + kept[at..]) == kept[..at] + extra + kept[at..];
  }

  // The end of the divider's own section: the next header, or the end of the list.
  method InsertPosition(kept: seq<Block>, ghost extra: seq<Block>) returns (at: nat)
    requires HasDivider(kept)
    ensures at <= |kept| && kept[..at] + extra + kept[at..] == InsertBelow(kept, extra)
  {
    hide InsertBelow, InsertBeforeHeader;
    var d := 0;
    assert kept[0..] == kept && kept[..0] + InsertBelow(kept, extra) == InsertBelow(kept, extra);
    while d < |kept| && !IsDivider(kept[d])
      invariant d <= |kept| && HasDivider(kept[d..])
      invariant InsertBelow(kept, extra) == kept[..d] + InsertBelow(kept[d..], extra)
    {
      BelowStep(kept, d, extra);
      d := d + 1;
    }
    DividerHere(kept, d, extra);
    at := d + 1;
    while at < |kept| && !kept[at].Header?
      invariant d < at <= |kept|
      invariant InsertBelow(kept, extra) == kept[..at] + InsertBeforeHeader(kept[at..], extra)
    {
      BeforeStep(kept, at, extra);
      at := at + 1;
    }
    InsertHere(kept, at, extra);
  }

  // Puts the moved entries where they belong.
  method Rebuild(doc: Doc, divided: bool, moved: seq<Block>, remove: set<nat>) returns (file: Doc)
    requires divided <==> HasDivider(doc.blocks)
    requires moved == Moved(doc.blocks) && Filtered(doc.blocks, remove) == Kept(doc.blocks, false)
    ensures file == Normalized(doc)
  {
    if moved == [] {
      return doc;
    }
    var kept := Filtered(doc.blocks, remove);
    if !divided {
      file := doc.(blocks := kept + [Prose([""]), Header(DividerText(), true)] + Spaced(moved));
    } else {
      DividerKept(doc.blocks, false);
      var at := InsertPosition(kept, Spaced(moved));
      file := doc.(blocks := kept[..at] + Spaced(moved) + kept[at..]);
    }
  }

  method Normalize(doc: Doc) returns (file: Doc, relocated: seq<Block>, skipped: seq<Block>)
    ensures file == Normalized(doc)
    ensures relocated == Moved(doc.blocks) && skipped == Skipped(doc.blocks)
  {
    var blocks := doc.blocks;
    var remove: set<nat> := {};
    var passed := false;
    ghost var dropping := false;
    relocated, skipped := [], [];
    ScanStarts(blocks);
    hide Scanned, SafeAfter, IsDivider, HasDivider, BlankProse, BlankRange, Resolved, Normalized, Filtered, Kept, Moved, Skipped;
    NoDivider();
    var i := 0;
    while i < |blocks|
      invariant i <= |blocks|
      invariant Scanned(blocks, i, passed, dropping, relocated, skipped, remove)
      invariant passed <==> HasDivider(blocks[..i])
    {
      DividerSnoc(blocks, i);
      var b := blocks[i];
      assert blocks[i..][0] == b && blocks[i..][1..] == blocks[i + 1..];
      if IsDivider(b) || passed || !Resolved(b) {
        ScanStays(blocks, i, passed, dropping, relocated, skipped, remove);
        passed := passed || IsDivider(b);
        dropping := dropping && BlankProse(b);
      } else {
        var safe, trailing := LookAhead(blocks, i);
        if safe {
          ScanMoves(blocks, i, dropping, relocated, skipped, remove, trailing);
          relocated := relocated + [b];
          remove := remove + {i} + trailing;
          dropping := true;
        } else {
          ScanStays(blocks, i, passed, dropping, relocated, skipped, remove);
          skipped := skipped + [b];
          dropping := dropping && BlankProse(b);
        }
      }
      i := i + 1;
    }
    ScanEnds(blocks, passed, dropping, relocated, skipped, remove);
    assert blocks[..i] == blocks;
    file := Rebuild(doc, passed, relocated, remove);
  }
}
