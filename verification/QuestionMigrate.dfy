// Minting a Q number for every legacy entry, in place. The entries keep their order and
// their bodies, with the stamp logged; the numbers ascend from the highest one present.
module QuestionMigrate {
  import opened Common
  import opened Decimal
  import opened Text
  import opened QuestionLines
  import opened Questions
  import opened QuestionOps
  import opened QuestionEdits

  // The highest number any entry carries, resolved ones included; 0 without one.
  function MaxNum(heads: seq<Head>): (m: nat)
    ensures forall h :: h in heads && h.id.Numbered? ==> h.id.num <= m
    ensures m > 0 ==> exists h :: h in heads && h.id.Numbered? && h.id.num == m
  {
    if heads == [] then 0
    else
      var rest := MaxNum(heads[1..]);
      assert heads == [heads[0]] + heads[1..];
      if heads[0].id.Numbered? then Max(heads[0].id.num, rest) else rest
  }

  function LoggedBody(body: string, stamp: string): string {
    var logged := "(logged " + stamp + ")";
    if body == [] then logged else body + (" " + logged)
  }

  function MintHead(h: Head, n: nat): Head {
    if h.id.Legacy? then Head(Numbered(n, "Q" + Numeral(n)), LoggedBody(h.body, h.id.stamp), h.resolved) else h
  }

  predicate IsLegacyBlock(b: Block) {
    b.EntryBlock? && b.entry.head.id.Legacy?
  }

  function MintBlock(b: Block, n: nat): Block {
    if IsLegacyBlock(b) then EntryBlock(b.entry.(head := MintHead(b.entry.head, n))) else b
  }

  // The blocks with the legacy entries numbered from `next` on, in file order.
  function Minted(blocks: seq<Block>, next: nat): (r: seq<Block>)
    ensures |r| == |blocks|
  {
    if blocks == [] then []
    else [MintBlock(blocks[0], next)] + Minted(blocks[1..], if IsLegacyBlock(blocks[0]) then next + 1 else next)
  }

  function LegacyCount(blocks: seq<Block>): nat {
    if blocks == [] then 0 else (if IsLegacyBlock(blocks[0]) then 1 else 0) + LegacyCount(blocks[1..])
  }

  function Migrated(doc: Doc): Doc {
    doc.(blocks := Minted(doc.blocks, MaxNum(BlockHeads(doc.blocks)) + 1))
  }

  // Every minted number has a canonical id.
  predicate Mintable(doc: Doc) {
    LegacyCount(doc.blocks) > 0 ==> InIdRange(MaxNum(BlockHeads(doc.blocks)) + LegacyCount(doc.blocks))
  }

  // Half-way: what is minted, and what is still to mint.
  ghost predicate Minting(doc: Doc, first: nat, next: nat, done: seq<Block>, rest: seq<Block>) {
    && 0 < first <= next
    && Minted(doc.blocks, first) == done + Minted(rest, next)
    && LegacyCount(doc.blocks) == next - first + LegacyCount(rest)
    && (next > first ==> InIdRange(next - 1))
  }

  lemma {:induction false} MintStep(doc: Doc, first: nat, next: nat, done: seq<Block>, rest: seq<Block>)
    requires Minting(doc, first, next, done, rest) && rest != []
    requires IsLegacyBlock(rest[0]) ==> InIdRange(next)
    ensures Minting(doc, first, if IsLegacyBlock(rest[0]) then next + 1 else next,
                    done + [MintBlock(rest[0], next)], rest[1..])
  {
    hide InIdRange, IsLegacyBlock, MintBlock;
  }

  lemma {:induction false} MintEnds(doc: Doc, first: nat, next: nat, done: seq<Block>)
    requires Minting(doc, first, next, done, [])
    ensures done == Minted(doc.blocks, first)
    ensures LegacyCount(doc.blocks) > 0 ==> InIdRange(first + LegacyCount(doc.blocks) - 1)
  {
    assert done + [] == done;
    assert LegacyCount([]) == 0 && Minted([], next) == [];
    hide InIdRange;
  }

  // Raises, leaving the file alone, when a minted number is too long for an id.
  method Migrate(doc: Doc) returns (file: Option<Doc>)
    ensures file.Some? <==> Mintable(doc)
    ensures file.Some? ==> file.value == Migrated(doc)
  {
    var first: nat := MaxNum(BlockHeads(doc.blocks)) + 1;
    var next: nat, blocks: seq<Block> := first, [];
    var i := 0;
    ghost var rest := doc.blocks;
    assert [] + Minted(rest, first) == Minted(rest, first);
    hide Minted, IsLegacyBlock, MaxNum, BlockHeads, Pow10;
    while i < |doc.blocks|
      invariant i <= |doc.blocks| && rest == doc.blocks[i..]
      invariant Minting(doc, first, next, blocks, rest)
    {
      var b := doc.blocks[i];
      assert b == rest[0];
      if IsLegacyBlock(b) && !InIdRange(next) {
        assert LegacyCount(rest) >= 1;
        return None;
      }
      hide Minting;
      MintStep(doc, first, next, blocks, rest);
      blocks := blocks + [MintBlock(b, next)];
      next := if IsLegacyBlock(b) then next + 1 else next;
      i := i + 1;
      rest := rest[1..];
    }
    assert rest == [];
    MintEnds(doc, first, next, blocks);
    file := Some(doc.(blocks := blocks));
  }

  // ---- What it does to the numbers -------------------------------------------------------

  lemma {:induction false} CountNumJoin(a: seq<Head>, b: seq<Head>, n: nat)
    ensures CountNum(a + b, n) == CountNum(a, n) + CountNum(b, n)
  {
    if a == [] {
      assert a + b == b;
    } else {
      CountNumJoin(a[1..], b, n);
      assert (a + b)[1..] == a[1..] + b;
    }
  }

  lemma {:induction false} CountOne(b: Block, n: nat)
    ensures CountNum(BlockHead(b), n) == if b.EntryBlock? && HasNum(b.entry.head, n) then 1 else 0
  {
    assert BlockHead(b) != [] ==> BlockHead(b)[1..] == [];
  }

  // Every number keeps its entries, and each number of the minted range gains one.
  lemma {:induction false} MintedNumbers(blocks: seq<Block>, next: nat, n: nat)
    ensures CountNum(BlockHeads(Minted(blocks, next)), n)
         == CountNum(BlockHeads(blocks), n) + if next <= n < next + LegacyCount(blocks) then 1 else 0
  {
    if blocks != [] {
      var b := blocks[0];
      var m := if IsLegacyBlock(b) then next + 1 else next;
      MintedNumbers(blocks[1..], m, n);
      CountNumJoin(BlockHead(b), BlockHeads(blocks[1..]), n);
      CountNumJoin(BlockHead(MintBlock(b, next)), BlockHeads(Minted(blocks[1..], m)), n);
      CountOne(b, n);
      CountOne(MintBlock(b, next), n);
      hide CountNum;
    }
  }

  lemma {:induction false} CountBeyond(heads: seq<Head>, n: nat)
    requires n > MaxNum(heads)
    ensures CountNum(heads, n) == 0
  {
    if heads != [] {
      assert heads[0] in heads;
      CountBeyond(heads[1..], n);
    }
  }

  // Migration numbers the legacy entries with exactly the numbers after the highest one.
  lemma {:induction false} MigrateNumbers(doc: Doc, n: nat)
    ensures var before, after := BlockHeads(doc.blocks), BlockHeads(Migrated(doc).blocks);
      CountNum(after, n) == if MaxNum(before) < n <= MaxNum(before) + LegacyCount(doc.blocks) then 1 else CountNum(before, n)
  {
    var heads := BlockHeads(doc.blocks);
    MintedNumbers(doc.blocks, MaxNum(heads) + 1, n);
    if n > MaxNum(heads) { CountBeyond(heads, n); }
    hide Minted, CountNum, BlockHeads;
  }

  lemma {:induction false} MintedNoLegacy(blocks: seq<Block>, next: nat)
    ensures LegacyCount(Minted(blocks, next)) == 0
  {
    if blocks != [] {
      var m := if IsLegacyBlock(blocks[0]) then next + 1 else next;
      MintedNoLegacy(blocks[1..], m);
      assert Minted(blocks, next)[1..] == Minted(blocks[1..], m);
    }
  }

  lemma {:induction false} MintNothing(blocks: seq<Block>, next: nat)
    requires LegacyCount(blocks) == 0
    ensures Minted(blocks, next) == blocks
  {
    if blocks != [] {
      MintNothing(blocks[1..], next);
    }
  }

  // A migrated file has no legacy entry left, and migrating it again changes nothing.
  lemma {:induction false} MigrateTwice(doc: Doc)
    ensures Mintable(Migrated(doc)) && Migrated(Migrated(doc)) == Migrated(doc)
  {
    MintedNoLegacy(doc.blocks, MaxNum(BlockHeads(doc.blocks)) + 1);
    hide Minted, MaxNum;
    MintNothing(Migrated(doc).blocks, MaxNum(BlockHeads(Migrated(doc).blocks)) + 1);
  }

  // ---- Well-formedness ------------------------------------------------------------------------

  lemma {:induction false} LoggedBodyTrimmed(body: string, stamp: string)
    requires LStrip(body) == body
    ensures LStrip(LoggedBody(body, stamp)) == LoggedBody(body, stamp)
  {
    assert LoggedBody(body, stamp)[0] == if body == [] then '(' else body[0];
  }

  lemma {:induction false} MintGood(b: Block, n: nat)
    requires GoodBlock(b) && (IsLegacyBlock(b) ==> InIdRange(n))
    ensures GoodBlock(MintBlock(b, n))
  {
    if IsLegacyBlock(b) {
      var h := b.entry.head;
      LoggedBodyTrimmed(h.body, h.id.stamp);
      QuestionIdRoundTrip(n);
      assert GoodId(Numbered(n, "Q" + Numeral(n))) by { hide QuestionNumber, IsLegacyId, Numeral; }
      hide GoodId, LoggedBody, Numeral, GoodRef, AllContinuations, LStrip;
      assert GoodHead(MintHead(h, n));
    }
  }

  // All numbers to mint have canonical ids.
  predicate RangeFits(next: nat, count: nat) {
    next > 0 && (count > 0 ==> InIdRange(next + count - 1))
  }

  lemma {:induction false} RangeStep(next: nat, count: nat)
    requires RangeFits(next, count) && count > 0
    ensures InIdRange(next) && RangeFits(next + 1, count - 1)
  {
    hide Pow10;
  }

  lemma {:induction false} MintSeparate(a: Block, b: Block, m: nat, n: nat)
    requires Separate(a, b)
    ensures Separate(MintBlock(a, m), MintBlock(b, n))
  {
  }

  lemma {:induction false} MintedWellFormed(blocks: seq<Block>, next: nat)
    requires WellFormed(blocks) && RangeFits(next, LegacyCount(blocks))
    ensures WellFormed(Minted(blocks, next))
    ensures blocks != [] ==> Minted(blocks, next)[0] == MintBlock(blocks[0], next)
  {
    if blocks != [] {
      hide RangeFits, GoodBlock, Separate, MintBlock, IsLegacyBlock, InIdRange;
      var b := blocks[0];
      var m := if IsLegacyBlock(b) then next + 1 else next;
      if IsLegacyBlock(b) { RangeStep(next, LegacyCount(blocks)); }
      WellFormedTail(blocks);
      assert GoodBlock(b);
      assert blocks[1..] != [] ==> Separate(b, blocks[1]);
      hide WellFormed;
      MintedWellFormed(blocks[1..], m);
      MintGood(b, next);
      if blocks[1..] != [] { MintSeparate(b, blocks[1], next, m); }
      WellFormedCons(MintBlock(b, next), Minted(blocks[1..], m));
    }
  }

  lemma {:induction false} MigrateWellFormed(doc: Doc)
    requires WellFormed(doc.blocks) && Mintable(doc)
    ensures WellFormed(Migrated(doc).blocks)
  {
    hide WellFormed, Minted, InIdRange, LegacyCount, MaxNum;
    MintedWellFormed(doc.blocks, MaxNum(BlockHeads(doc.blocks)) + 1);
  }
}
