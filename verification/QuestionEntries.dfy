// Which entries a migration rewrites and where an appended one stands, by position.
module QuestionEntries {
  import opened Decimal
  import opened Text
  import opened QuestionLines
  import opened Questions
  import opened QuestionOps
  import opened QuestionEdits
  import opened QuestionMigrate
  import opened QuestionHistory

  // ---- migrating ---------------------------------------------------------------------------

  // The legacy entries in front of block `k`.
  function LegacyBefore(blocks: seq<Block>, k: nat): set<nat> {
    set j: nat | j < k && j < |blocks| && blocks[j].EntryBlock? && blocks[j].entry.head.id.Legacy?
  }

  lemma {:induction false} LegacyStep(blocks: seq<Block>, k: nat)
    requires k < |blocks|
    ensures |LegacyBefore(blocks, k + 1)|
      == |LegacyBefore(blocks, k)| + (if blocks[k].EntryBlock? && blocks[k].entry.head.id.Legacy? then 1 else 0)
  {
    var here: set<nat> := if blocks[k].EntryBlock? && blocks[k].entry.head.id.Legacy? then {k} else {};
    assert LegacyBefore(blocks, k + 1) == LegacyBefore(blocks, k) + here;
  }

  lemma {:induction false} MintedFrom(blocks: seq<Block>, first: nat, i: nat, k: nat)
    requires i <= k < |blocks|
    ensures Minted(blocks[i..], first + |LegacyBefore(blocks, i)|)[k - i]
      == MintBlock(blocks[k], first + |LegacyBefore(blocks, k)|)
    decreases k - i
  {
    var rest := blocks[i..];
    assert rest[0] == blocks[i] && rest[1..] == blocks[i + 1..];
    LegacyStep(blocks, i);
    hide MintBlock, LegacyBefore;
    if i < k {
      MintedFrom(blocks, first, i + 1, k);
    }
  }

  lemma {:induction false} NoneBefore(blocks: seq<Block>)
    ensures LegacyBefore(blocks, 0) == {}
  {
  }

  lemma {:induction false} Logged(body: string, stamp: string)
    ensures LoggedBody(body, stamp) == (if body == "" then "" else body + " ") + ("(logged " + stamp + ")")
  {
    var logged := "(logged " + stamp + ")";
    assert "" + logged == logged;
    assert body + (" " + logged) == body + " " + logged;
  }

  // The entry a legacy one becomes under a number: its stamp is logged behind its body.
  function Numbering(e: Entry, n: nat): Entry
    requires e.head.id.Legacy?
  {
    var h := e.head;
    Entry(Head(Numbered(n, "Q" + Numeral(n)), (if h.body == "" then "" else h.body + " ") + ("(logged " + h.id.stamp + ")"), h.resolved),
          e.continuation)
  }

  lemma {:induction false} MintIs(b: Block, n: nat)
    ensures !(b.EntryBlock? && b.entry.head.id.Legacy?) ==> MintBlock(b, n) == b
    ensures b.EntryBlock? && b.entry.head.id.Legacy? ==> MintBlock(b, n) == EntryBlock(Numbering(b.entry, n))
  {
    if b.EntryBlock? && b.entry.head.id.Legacy? { Logged(b.entry.head.body, b.entry.head.id.stamp); }
    hide LoggedBody, Numeral;
  }

  // Migrating leaves every other block alone. The legacy entry at `k` gets the highest number
  // plus one for itself and each legacy entry before it; resolution and continuation stay.
  lemma {:induction false} MigratedAt(doc: Doc, k: nat)
    requires k < |doc.blocks|
    ensures |Migrated(doc).blocks| == |doc.blocks| && Migrated(doc).header == doc.header
    ensures var b, r := doc.blocks[k], Migrated(doc).blocks[k];
      && (!(b.EntryBlock? && b.entry.head.id.Legacy?) ==> r == b)
      && (b.EntryBlock? && b.entry.head.id.Legacy? ==>
            r == EntryBlock(Numbering(b.entry, MaxNum(BlockHeads(doc.blocks)) + 1 + |LegacyBefore(doc.blocks, k)|)))
  {
    hide Minted, MaxNum, BlockHeads, LegacyBefore, Numbering, MintBlock;
    var first := MaxNum(BlockHeads(doc.blocks)) + 1;
    MintedFrom(doc.blocks, first, 0, k);
    assert doc.blocks[0..] == doc.blocks;
    NoneBefore(doc.blocks);
    MintIs(doc.blocks[k], first + |LegacyBefore(doc.blocks, k)|);
  }

  // ---- appending -----------------------------------------------------------------------------

  // One past the first line that starts with a hash and a blank; line two without one.
  ghost predicate BelowTitle(lines: seq<string>, start: nat) {
    || (start == 1 && forall i :: 0 <= i < |lines| ==> !(|lines[i]| >= 2 && lines[i][..2] == "# "))
    || (0 < start <= |lines| && |lines[start - 1]| >= 2 && lines[start - 1][..2] == "# "
        && forall i :: 0 <= i < start - 1 ==> !(|lines[i]| >= 2 && lines[i][..2] == "# "))
  }

  predicate BlankOrComment(l: string) {
    IsBlank(l) || (|l| >= 4 && l[..4] == "<!--")
  }

  // The new entry stands right below the file's title, or below line one, and the blanks and
  // comments there; every other line stays where it was.
  lemma {:induction false} InsertedExactly(lines: seq<string>, entry: seq<string>) returns (start: nat, k: nat)
    requires lines != []
    ensures start <= k <= |lines| && BelowTitle(lines, start)
    ensures forall i :: start <= i < k ==> BlankOrComment(lines[i])
    ensures k < |lines| ==> !BlankOrComment(lines[k])
    ensures Inserted(lines, entry) == lines[..k] + entry + lines[k..]
  {
    var first := RunLength(IsNotFileHeader, lines);
    start := if first < |lines| then first + 1 else 1;
    k := InsertIndex(lines);
    forall i | 0 <= i < |lines| ensures IsFileHeader(lines[i]) <==> |lines[i]| >= 2 && lines[i][..2] == "# " {}
    assert first < |lines| ==> IsFileHeader(lines[first]);
    forall i | start <= i <= k && i < |lines| ensures Skippable(lines[i]) <==> i < k {
      assert lines[start..][i - start] == lines[i];
    }
    forall l: string ensures Skippable(l) <==> BlankOrComment(l) {}
    hide IsBlank, IsFileHeader;
  }

  // A composed entry: the id in brackets and the body in its first line, the rest unchanged.
  lemma {:induction false} ComposedExactly(n: nat, body: seq<string>)
    requires body != []
    ensures ComposeEntry(n, body) == ["- [Q" + Numeral(n) + "] " + body[0]] + body[1..]
  {
    hide Numeral;
    assert "- " + ("[" + ("Q" + Numeral(n)) + "] " + body[0]) == "- [Q" + Numeral(n) + "] " + body[0];
  }
}
