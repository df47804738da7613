// Whole histories of open-questions.md, and what becomes of question numbers.
module QuestionHistory {
  // A history is any sequence of appends, resolutions, normalizations and migrations.
  import opened Common
  import opened Decimal
  import opened Identifiers
  import opened Text
  import opened QuestionLines
  import opened Questions
  import opened QuestionOps
  import opened QuestionEdits
  import opened QuestionMigrate
  import opened QuestionNormalize
  import opened QuestionReparse

  // ---- Appending -----------------------------------------------------------------------

  function AllocatedNumber(lines: seq<string>): nat {
    MaxNum(BlockHeads(Parsed(lines).blocks)) + 1
  }

  function ComposeLine(n: nat, body: string): string {
    "- " + Bracketed("Q" + Numeral(n), body)
  }

  // The lines of a new entry. A question is taken as it is given, so the lines after its
  // first one follow unchanged.
  function ComposeEntry(n: nat, body: seq<string>): seq<string>
    requires body != []
  {
    [ComposeLine(n, body[0])] + body[1..]
  }

  predicate IsFileHeader(l: string) {
    StartsWith(l, "# ")
  }

  predicate IsNotFileHeader(l: string) {
    !IsFileHeader(l)
  }

  predicate Skippable(l: string) {
    IsBlank(l) || StartsWith(l, "<!--")
  }

  // One past the first `# ` line, or line two, and then past blanks and comments.
  function InsertIndex(lines: seq<string>): (k: nat)
    requires lines != []
    ensures 1 <= k <= |lines|
  {
    var first := RunLength(IsNotFileHeader, lines);
    var start := if first < |lines| then first + 1 else 1;
    start + RunLength(Skippable, lines[start..])
  }

  function Inserted(lines: seq<string>, entry: seq<string>): seq<string>
    requires lines != []
  {
    lines[..InsertIndex(lines)] + entry + lines[InsertIndex(lines)..]
  }

  lemma {:induction false} RunStep(p: string -> bool, lines: seq<string>, i: nat)
    requires i < |lines| && p(lines[i])
    ensures RunLength(p, lines[i..]) == 1 + RunLength(p, lines[i + 1..])
  {
    assert lines[i..][1..] == lines[i + 1..];
  }

  lemma RunStops(p: string -> bool, lines: seq<string>, i: nat)
    requires i <= |lines| && (i < |lines| ==> !p(lines[i]))
    ensures RunLength(p, lines[i..]) == 0
  {
  }

  method InsertEntry(lines: seq<string>, entry: seq<string>) returns (out: seq<string>)
    requires lines != []
    ensures out == Inserted(lines, entry)
  {
    hide IsFileHeader, Skippable, RunLength;
    var at := 1;
    var i := 0;
    assert lines[0..] == lines;
    while i < |lines| && !IsFileHeader(lines[i])
      invariant i <= |lines|
      invariant RunLength(IsNotFileHeader, lines) == i + RunLength(IsNotFileHeader, lines[i..])
    {
      RunStep(IsNotFileHeader, lines, i);
      i := i + 1;
    }
    RunStops(IsNotFileHeader, lines, i);
    if i < |lines| {
      at := i + 1;
    }
    ghost var start := at;
    while at < |lines| && Skippable(lines[at])
      invariant start <= at <= |lines|
      invariant RunLength(Skippable, lines[start..]) == at - start + RunLength(Skippable, lines[at..])
    {
      RunStep(Skippable, lines, at);
      at := at + 1;
    }
    RunStops(Skippable, lines, at);
    assert at == InsertIndex(lines);
    out := lines[..at] + entry + lines[at..];
  }

  lemma {:induction false} ComposedHead(n: nat, body: string)
    requires InIdRange(n)
    ensures ParseHead(ComposeLine(n, body)) == Some(Head(Numbered(n, "Q" + Numeral(n)), LStrip(body), None))
  {
    var id := "Q" + Numeral(n);
    QuestionIdRoundTrip(n);
    NumeralLacks(n, ']');
    LacksJoin("Q", Numeral(n), ']');
    StartsNot(id, ResolvedToken());
    hide Numeral, LStrip, ParseHead, QuestionNumber, InIdRange, StartsWith;
    ReadHead(id, body);
  }

  // ---- Edits ------------------------------------------------------------------------------

  datatype Edit =
    | Append(body: seq<string>)
    | Resolving(ids: seq<string>, ref: Ref)
    | Normalizing
    | Migrating

  // The file a resolution leaves behind.
  function ResolvedFile(doc: Doc, ids: seq<string>, ref: Ref): Doc {
    var requested := Deduped(CanonReferences(ids));
    if ids == [] || Select(requested, BlockHeads(doc.blocks), Ambiguous) != [] then doc
    else ResolvedDoc(doc, requested, ref)
  }

  // Edits that run through; the others raise and leave the file alone.
  predicate Applies(lines: seq<string>, e: Edit) {
    match e
    case Append(body) => body != [] && lines != [] && InIdRange(AllocatedNumber(lines))
    case Resolving(_, ref) => GoodRef(ref)
    case Normalizing => true
    case Migrating => Mintable(Parsed(lines))
  }

  function Apply(lines: seq<string>, e: Edit): seq<string>
    requires Applies(lines, e)
  {
    match e
    case Append(body) => Inserted(lines, ComposeEntry(AllocatedNumber(lines), body))
    case Resolving(ids, ref) => Formatted(ResolvedFile(Parsed(lines), ids, ref))
    case Normalizing => Formatted(Normalized(Parsed(lines)))
    case Migrating => Formatted(Migrated(Parsed(lines)))
  }

  // How many numbers an edit mints.
  function MintCount(lines: seq<string>, e: Edit): nat {
    match e
    case Append(_) => 1
    case Resolving(_, _) => 0
    case Normalizing => 0
    case Migrating => LegacyCount(Parsed(lines).blocks)
  }

  function Highest(lines: seq<string>): nat {
    MaxNum(Heads(lines))
  }

  function Carriers(lines: seq<string>, n: nat): nat {
    CountNum(Heads(lines), n)
  }

  predicate IsMinted(lines: seq<string>, e: Edit, n: nat) {
    Highest(lines) < n <= Highest(lines) + MintCount(lines, e)
  }

  // ---- One edit -------------------------------------------------------------------------------

  lemma {:induction false} PrintedHeads(lines: seq<string>, blocks: seq<Block>)
    requires WellFormed(blocks)
    ensures Heads(Formatted(Doc(HeaderText(lines), blocks))) == BlockHeads(blocks)
  {
    HeaderTextPlain(lines);
    hide IsPlain, WellFormed, Formatted, HeaderText, Heads;
    HeadsOfFormatted(Doc(HeaderText(lines), blocks));
  }

  lemma {:induction false} FlipCounts(heads: seq<Head>, requested: seq<string>, ref: Ref, n: nat)
    ensures CountNum(FlipHeads(heads, requested, ref), n) == CountNum(heads, n)
  {
    if heads != [] {
      FlipCounts(heads[1..], requested, ref, n);
      assert FlipHeads(heads, requested, ref)[1..] == FlipHeads(heads[1..], requested, ref);
      hide EntryId;
    }
  }

  predicate CarriesNum(b: Block, n: nat) {
    b.EntryBlock? && HasNum(b.entry.head, n)
  }

  lemma {:induction false} CountNumIsCount(blocks: seq<Block>, n: nat)
    ensures CountNum(BlockHeads(blocks), n) == Count((b: Block) => CarriesNum(b, n), blocks)
  {
    if blocks != [] {
      CountNumIsCount(blocks[1..], n);
      CountNumJoin(BlockHead(blocks[0]), BlockHeads(blocks[1..]), n);
      CountOne(blocks[0], n);
      hide CountNum;
    }
  }

  lemma {:induction false} NormalizeKeepsNumbers(blocks: seq<Block>, n: nat)
    ensures CountNum(BlockHeads(NormalBlocks(blocks)), n) == CountNum(BlockHeads(blocks), n)
  {
    var p := (b: Block) => CarriesNum(b, n);
    assert OfSubstance(p);
    hide NormalBlocks, HasNum, BlankProse;
    NormalizeConserves(p, blocks);
    CountNumIsCount(blocks, n);
    CountNumIsCount(NormalBlocks(blocks), n);
    hide CountNum, MintsDivider;
  }

  // The lines of an entry add their heads.
  lemma {:induction false} InsertedCount(lines: seq<string>, entry: seq<string>, n: nat)
    requires lines != []
    ensures CountNum(Heads(Inserted(lines, entry)), n) == CountNum(Heads(lines), n) + CountNum(Heads(entry), n)
  {
    var a, b := lines[..InsertIndex(lines)], lines[InsertIndex(lines)..];
    assert lines == a + b;
    hide HeadAt, CountNum, InsertIndex, Heads;
    HeadsJoin(a, b);
    HeadsJoin(a + entry, b);
    HeadsJoin(a, entry);
    CountNumJoin(Heads(a), Heads(b), n);
    CountNumJoin(Heads(a) + Heads(entry), Heads(b), n);
    CountNumJoin(Heads(a), Heads(entry), n);
  }

  lemma {:induction false} CarriersCount(lines: seq<string>, n: nat)
    ensures Carriers(lines, n) == CountNum(Heads(lines), n)
  {
  }

  lemma {:induction false} AllocatedNext(lines: seq<string>)
    ensures AllocatedNumber(lines) == Highest(lines) + 1
  {
    HeadsOfParsed(lines);
  }

  lemma {:induction false} OneHead(h: Head, n: nat)
    ensures CountNum([h], n) == if HasNum(h, n) then 1 else 0
  {
    assert [h][1..] == [];
  }

  // The heads a question brings with it: those of its lines after the first.
  function Brought(body: seq<string>): seq<Head>
    requires body != []
  {
    Heads(body[1..])
  }

  lemma {:induction false} ComposedCount(m: nat, body: seq<string>, n: nat)
    requires InIdRange(m) && body != []
    ensures CountNum(Heads(ComposeEntry(m, body)), n) == (if n == m then 1 else 0) + CountNum(Brought(body), n)
  {
    var l := ComposeLine(m, body[0]);
    ComposedHead(m, body[0]);
    HeadsJoin([l], body[1..]);
    HeadsOne(l);
    hide InIdRange, ComposeLine, ParseHead, Numeral, LStrip, CountNum, Heads;
    OneHead(ParseHead(l).value, n);
    CountNumJoin(HeadAt(l), Brought(body), n);
  }

  // An append gives the next number to one entry, and every number to those of the lines it
  // brings that carry it.
  lemma {:induction false} AppendNumbers(lines: seq<string>, body: seq<string>, n: nat)
    requires body != [] && lines != [] && InIdRange(AllocatedNumber(lines))
    ensures Carriers(Inserted(lines, ComposeEntry(AllocatedNumber(lines), body)), n)
         == Carriers(lines, n) + (if n == Highest(lines) + 1 then 1 else 0) + CountNum(Brought(body), n)
  {
    hide *;
    AllocatedNext(lines);
    ComposedCount(AllocatedNumber(lines), body, n);
    InsertedCount(lines, ComposeEntry(AllocatedNumber(lines), body), n);
    CarriersCount(lines, n);
    CarriersCount(Inserted(lines, ComposeEntry(AllocatedNumber(lines), body)), n);
  }

  lemma {:induction false} ResolvingNumbers(lines: seq<string>, ids: seq<string>, ref: Ref, n: nat)
    requires GoodRef(ref)
    ensures Carriers(Apply(lines, Resolving(ids, ref)), n) == Carriers(lines, n)
  {
    var doc, requested := Parsed(lines), Deduped(CanonReferences(ids));
    ParsedWellFormed(lines);
    HeadsOfParsed(lines);
    hide WellFormed, Formatted, Blocks, Heads, GoodRef, HeaderText, HeaderLines, BlockHeads, Deduped, Select;
    hide ResolvedBlocks, CountNum;
    var blocks := ResolvedFile(doc, ids, ref).blocks;
    ResolveWellFormed(doc.blocks, requested, ref);
    ResolveKeepsEntries(doc.blocks, requested, ref);
    FlipCounts(BlockHeads(doc.blocks), requested, ref, n);
    PrintedHeads(lines, blocks);
  }

  lemma {:induction false} NormalizingNumbers(lines: seq<string>, n: nat)
    ensures Carriers(Apply(lines, Normalizing), n) == Carriers(lines, n)
  {
    var doc := Parsed(lines);
    ParsedWellFormed(lines);
    HeadsOfParsed(lines);
    hide WellFormed, Formatted, Blocks, Heads, HeaderText, HeaderLines, BlockHeads, NormalBlocks, CountNum;
    NormalizeWellFormed(doc.blocks);
    NormalizeKeepsNumbers(doc.blocks, n);
    PrintedHeads(lines, NormalBlocks(doc.blocks));
  }

  lemma {:induction false} MigratingNumbers(lines: seq<string>, n: nat)
    requires Mintable(Parsed(lines))
    ensures Carriers(Apply(lines, Migrating), n)
         == if IsMinted(lines, Migrating, n) then 1 else Carriers(lines, n)
  {
    var doc := Parsed(lines);
    ParsedWellFormed(lines);
    HeadsOfParsed(lines);
    hide WellFormed, Formatted, Blocks, Heads, HeaderText, HeaderLines, BlockHeads, CountNum, Minted, Mintable, MaxNum;
    MigrateWellFormed(doc);
    MigrateNumbers(doc, n);
    PrintedHeads(lines, Migrated(doc).blocks);
  }

  // The heads an edit takes over from outside.
  function BroughtBy(e: Edit): seq<Head> {
    if e.Append? && e.body != [] then Brought(e.body) else []
  }

  // Every edit keeps every number on its entries and gives each number it mints to one
  // entry; what it mints is above everything there was. Only the lines a question brings
  // with it can add carriers of other numbers.
  lemma {:induction false} EditNumbers(lines: seq<string>, e: Edit, n: nat)
    requires Applies(lines, e)
    ensures Carriers(Apply(lines, e), n)
         == (if IsMinted(lines, e, n) then 1 else Carriers(lines, n)) + CountNum(BroughtBy(e), n)
    ensures IsMinted(lines, e, n) ==> Carriers(lines, n) == 0
  {
    if n > Highest(lines) { CountBeyond(Heads(lines), n); }
    assert CountNum([], n) == 0;
    hide Heads, CountNum, MaxNum, Inserted, Formatted, Parsed, ResolvedFile, Normalized, Migrated, InIdRange, Brought;
    match e
    case Append(body) => AppendNumbers(lines, body, n);
    case Resolving(ids, ref) => ResolvingNumbers(lines, ids, ref, n);
    case Normalizing => NormalizingNumbers(lines, n);
    case Migrating => MigratingNumbers(lines, n);
  }

  ghost predicate NumbersDistinct(lines: seq<string>) {
    forall n: nat :: Carriers(lines, n) <= 1
  }

  // What a caller can check before appending: the numbers that come with the question are
  // all different, none is in the file, and none is the one about to be given out.
  ghost predicate NoClash(lines: seq<string>, e: Edit) {
    forall h :: h in BroughtBy(e) && h.id.Numbered? ==>
      && CountNum(BroughtBy(e), h.id.num) == 1
      && Carriers(lines, h.id.num) == 0 && !IsMinted(lines, e, h.id.num)
  }

  lemma {:induction false} CountPositive(heads: seq<Head>, h: Head, n: nat)
    requires h in heads && HasNum(h, n)
    ensures CountNum(heads, n) > 0
  {
    if h != heads[0] { CountPositive(heads[1..], h, n); }
  }

  lemma {:induction false} CountFinds(heads: seq<Head>, n: nat) returns (h: Head)
    requires CountNum(heads, n) > 0
    ensures h in heads && HasNum(h, n)
  {
    if HasNum(heads[0], n) { h := heads[0]; } else { h := CountFinds(heads[1..], n); }
  }

  // Numbers are distinct after an edit exactly when they were before it and what it brings
  // does not clash.
  lemma {:induction false} EditKeepsDistinct(lines: seq<string>, e: Edit)
    requires Applies(lines, e)
    ensures NumbersDistinct(Apply(lines, e)) <==> NumbersDistinct(lines) && NoClash(lines, e)
  {
    hide Apply, Applies, Carriers, IsMinted, CountNum, BroughtBy;
    var brought := BroughtBy(e);
    if NumbersDistinct(Apply(lines, e)) {
      forall n: nat ensures Carriers(lines, n) <= 1 {
        EditNumbers(lines, e, n);
        assert Carriers(Apply(lines, e), n) <= 1;
      }
      forall h | h in brought && h.id.Numbered?
        ensures CountNum(brought, h.id.num) == 1 && Carriers(lines, h.id.num) == 0 && !IsMinted(lines, e, h.id.num)
      {
        CountPositive(brought, h, h.id.num);
        EditNumbers(lines, e, h.id.num);
        assert Carriers(Apply(lines, e), h.id.num) <= 1;
      }
    }
    if NumbersDistinct(lines) && NoClash(lines, e) {
      forall n: nat ensures Carriers(Apply(lines, e), n) <= 1 {
        EditNumbers(lines, e, n);
        assert Carriers(lines, n) <= 1;
        if CountNum(brought, n) > 0 { var h := CountFinds(brought, n); }
      }
    }
  }

  // ---- Histories -------------------------------------------------------------------------------

  datatype History = History(files: seq<seq<string>>, edits: seq<Edit>)

  ghost predicate StepAt(h: History, k: nat)
    requires |h.files| == |h.edits| + 1 && k < |h.edits|
  {
    Applies(h.files[k], h.edits[k]) && h.files[k + 1] == Apply(h.files[k], h.edits[k])
  }

  ghost predicate IsHistory(h: History) {
    |h.files| == |h.edits| + 1 && forall k :: 0 <= k < |h.edits| ==> StepAt(h, k)
  }

  lemma {:induction false} CarriedByHighest(lines: seq<string>)
    ensures Highest(lines) > 0 ==> Carriers(lines, Highest(lines)) > 0
  {
    var heads, m := Heads(lines), Highest(lines);
    if m > 0 {
      var h :| h in heads && h.id.Numbered? && h.id.num == m;
      CountPositive(heads, h, m);
    }
  }

  lemma {:induction false} HighestGrows(lines: seq<string>, e: Edit)
    requires Applies(lines, e)
    ensures Highest(lines) <= Highest(Apply(lines, e))
  {
    var m := Highest(lines);
    CarriedByHighest(lines);
    EditNumbers(lines, e, m);
    if m > Highest(Apply(lines, e)) { CountBeyond(Heads(Apply(lines, e)), m); }
    hide Apply, Applies, Heads, CountNum, MaxNum;
  }

  // How many entries with the number the questions appended in steps i to j brought along.
  function BroughtAlong(edits: seq<Edit>, i: nat, j: nat, n: nat): nat
    requires j <= |edits|
    decreases j
  {
    if j <= i then 0 else BroughtAlong(edits, i, j - 1, n) + CountNum(BroughtBy(edits[j - 1]), n)
  }

  // The numbers up to the highest are settled: each is carried for ever after by the same
  // entries, and by those that appended questions brought along. In particular none
  // disappears, and a number that no entry carries is never given out.
  lemma {:induction false} NumbersSettle(h: History, i: nat, j: nat, n: nat)
    requires IsHistory(h) && i <= j <= |h.edits|
    requires n <= Highest(h.files[i])
    ensures Carriers(h.files[j], n) == Carriers(h.files[i], n) + BroughtAlong(h.edits, i, j, n)
    ensures Highest(h.files[i]) <= Highest(h.files[j])
    decreases j
  {
    hide Apply, Applies, Heads, CountNum, MaxNum, BroughtBy;
    if i < j {
      NumbersSettle(h, i, j - 1, n);
      assert StepAt(h, j - 1);
      EditNumbers(h.files[j - 1], h.edits[j - 1], n);
      HighestGrows(h.files[j - 1], h.edits[j - 1]);
    }
  }

  // Over any history numbers are distinct at the end exactly when they were at the start
  // and no appended question brought a number that clashed when it was appended.
  lemma {:induction false} NumbersStayDistinct(h: History, k: nat)
    requires IsHistory(h) && k <= |h.edits|
    ensures NumbersDistinct(h.files[k])
      <==> NumbersDistinct(h.files[0]) && forall j :: 0 <= j < k ==> NoClash(h.files[j], h.edits[j])
  {
    hide Apply, Applies, NumbersDistinct, NoClash;
    if k > 0 {
      NumbersStayDistinct(h, k - 1);
      assert StepAt(h, k - 1);
      EditKeepsDistinct(h.files[k - 1], h.edits[k - 1]);
    }
  }

  // A number minted by an edit is above every number of every earlier file.
  lemma {:induction false} MintedAboveThePast(h: History, i: nat, k: nat, n: nat)
    requires IsHistory(h) && i <= k < |h.edits|
    requires IsMinted(h.files[k], h.edits[k], n)
    ensures n > Highest(h.files[i]) && Carriers(h.files[i], n) == 0
    ensures Carriers(h.files[k + 1], n) == 1 + CountNum(BroughtBy(h.edits[k]), n)
  {
    NumbersSettle(h, i, k, 0);
    assert StepAt(h, k);
    EditNumbers(h.files[k], h.edits[k], n);
    CountBeyond(Heads(h.files[i]), n);
    hide Apply, Applies, Heads, CountNum, MaxNum, BroughtBy;
  }

  // ---- Questions of one line -------------------------------------------------------------------

  predicate OneLine(e: Edit) {
    e.Append? ==> |e.body| == 1
  }

  lemma {:induction false} NothingBrought(e: Edit)
    requires OneLine(e)
    ensures BroughtBy(e) == []
  {
    assert e.Append? ==> e.body[1..] == [];
  }

  lemma {:induction false} NothingAlong(edits: seq<Edit>, i: nat, j: nat, n: nat)
    requires j <= |edits| && forall k :: 0 <= k < |edits| ==> OneLine(edits[k])
    ensures BroughtAlong(edits, i, j, n) == 0
  {
    hide BroughtBy;
    if i < j {
      NothingAlong(edits, i, j - 1, n);
      NothingBrought(edits[j - 1]);
    }
  }

  // When every appended question is one line, distinct numbers stay distinct, and a number
  // up to the highest is carried by the same entries for ever after.
  lemma {:induction false} OneLineHistory(h: History, i: nat, j: nat, n: nat)
    requires IsHistory(h) && i <= j <= |h.edits|
    requires forall k :: 0 <= k < |h.edits| ==> OneLine(h.edits[k])
    ensures NumbersDistinct(h.files[0]) ==> NumbersDistinct(h.files[j])
    ensures n <= Highest(h.files[i]) ==> Carriers(h.files[j], n) == Carriers(h.files[i], n)
  {
    assert |h.files| == |h.edits| + 1;
    hide IsHistory, NumbersDistinct, BroughtBy, Carriers, Highest, OneLine;
    forall k | 0 <= k < j ensures NoClash(h.files[k], h.edits[k]) { NothingBrought(h.edits[k]); }
    NumbersStayDistinct(h, j);
    NothingAlong(h.edits, i, j, n);
    if n <= Highest(h.files[i]) { NumbersSettle(h, i, j, n); }
  }

  // ---- Questions of several lines ----------------------------------------------------------------

  function Question(m: nat): seq<string> {
    ["x", ComposeLine(m, "y")]
  }

  lemma {:induction false} QuestionBrings(m: nat, n: nat)
    requires InIdRange(m)
    ensures CountNum(BroughtBy(Append(Question(m))), n) == if n == m then 1 else 0
  {
    ComposedHead(m, "y");
    var l := ComposeLine(m, "y");
    assert Question(m)[1..] == [l];
    HeadsOne(l);
    hide ComposeLine, InIdRange, ParseHead, Numeral, LStrip, CountNum, Heads;
    OneHead(ParseHead(l).value, n);
  }

  // A question whose second line reads as an entry head adds a carrier of a number up to the
  // highest: a second one of a number the file has, a first one of a number it skipped.
  lemma {:induction false} SecondLineAdds(lines: seq<string>, m: nat)
    requires Applies(lines, Append(Question(m))) && 1 <= m <= Highest(lines) && InIdRange(m)
    ensures Carriers(Apply(lines, Append(Question(m))), m) == Carriers(lines, m) + 1
  {
    hide Apply, Applies, Carriers, CountNum, Highest, InIdRange, BroughtBy, Question;
    QuestionBrings(m, m);
    EditNumbers(lines, Append(Question(m)), m);
  }

  function OneEntryFile(): seq<string> {
    [ComposeLine(1, "z")]
  }

  lemma {:induction false} OneEntryHeads(n: nat)
    ensures Carriers(OneEntryFile(), n) == (if n == 1 then 1 else 0) && Highest(OneEntryFile()) == 1
  {
    var l := ComposeLine(1, "z");
    ComposedHead(1, "z");
    HeadsOne(l);
    var h := ParseHead(l).value;
    OneHead(h, n);
    hide ComposeLine, ParseHead, Numeral, LStrip, CountNum, Heads;
    assert [h][1..] == [];
  }

  lemma {:induction false} LineText(body: string)
    ensures ComposeLine(1, body) == "- [Q1] " + body
  {
    assert Numeral(1) == "1" && "Q" + "1" == "Q1";
    hide Numeral;
    assert "[" + "Q1" + "] " + body == "[Q1] " + body && "- " + ("[Q1] " + body) == "- [Q1] " + body;
  }

  lemma {:induction false} QuestionText()
    ensures Question(1) == ["x", "- [Q1] y"] && OneEntryFile() == ["- [Q1] z"]
  {
    hide ComposeLine;
    LineText("y");
    LineText("z");
    assert "- [Q1] " + "y" == "- [Q1] y" && "- [Q1] " + "z" == "- [Q1] z";
  }

  lemma {:induction false} OneEntryApplies()
    ensures Applies(OneEntryFile(), Append(Question(1)))
  {
    OneEntryHeads(1);
    hide Highest, Carriers, ComposeLine, AllocatedNumber;
    AllocatedNext(OneEntryFile());
  }

  // Appending `x` with the second line `- [Q1] y` to a file that holds Q1 gives two entries
  // of that number.
  lemma {:induction false} RepeatedNumberExample()
    ensures var lines, e := ["- [Q1] z"], Append(["x", "- [Q1] y"]);
      Applies(lines, e) && NumbersDistinct(lines) && !NumbersDistinct(Apply(lines, e)) && Carriers(Apply(lines, e), 1) == 2
  {
    QuestionText();
    OneEntryApplies();
    OneEntryHeads(1);
    hide Apply, Applies, Carriers, Highest, InIdRange, Question, OneEntryFile, AllocatedNumber;
    forall n: nat ensures Carriers(OneEntryFile(), n) <= 1 { OneEntryHeads(n); }
    SecondLineAdds(OneEntryFile(), 1);
  }
}
