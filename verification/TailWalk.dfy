// Reading the newest active decisions without parsing the whole store.
module TailWalk {
  // The walk goes from the highest number down in batches, over a parse memo shared by all
  // calls; it is proved against the full scan.
  import opened Common
  import opened Sorting
  import opened Identifiers

  // What the listing needs of a decision; `rest` stands for the other fields of a row.
  datatype Decision = Decision(num: nat, title: string, active: bool, rest: string)

  datatype Fields = Fields(title: string, active: bool, rest: string)

  datatype Outcome = Parsed(decision: Decision) | Malformed(error: string)

  // The parser proper: file name and text to the fields, or None with the reason left out.
  type Parser = (string, string) -> Option<Fields>

  // A store at one moment: the stems it lists and the bodies it can read.
  datatype Store = Store(listed: seq<string>, bodies: map<string, string>)

  function ParseDecision(parser: Parser, stem: string, body: string): Option<Decision> {
    var file := DecisionFilename(stem);
    match parser(file, body)
    case None => None
    case Some(f) => Some(Decision(ExtractDecisionNumber(file).GetOr(0), f.title, f.active, f.rest))
  }

  // ---- What the reads mean ------------------------------------------------------

  function Unnumbered(stem: string): bool {
    ExtractDecisionNumber(stem).None?
  }

  function Number(stem: string): nat {
    ExtractDecisionNumber(stem).GetOr(0)
  }

  function Codes(s: string): seq<int> {
    seq(|s|, i requires 0 <= i < |s| => s[i] as int)
  }

  // Numbered stems first, by number and then by text.
  function StemKey(stem: string): seq<int> {
    if Unnumbered(stem) then [1, 0] + Codes(stem) else [0, Number(stem)] + Codes(stem)
  }

  function InOrder(store: Store): seq<string> {
    SortBy(StemKey, store.listed)
  }

  datatype Scanned = Scanned(stem: string, decision: Decision)

  function RecordAt(parser: Parser, store: Store, stem: string): seq<Scanned> {
    if stem !in store.bodies then []
    else
      var d := ParseDecision(parser, stem, store.bodies[stem]);
      if d.Some? then [Scanned(stem, d.value)] else []
  }

  function FailureAt(parser: Parser, store: Store, stem: string): seq<string> {
    if stem in store.bodies && ParseDecision(parser, stem, store.bodies[stem]).None? then [stem] else []
  }

  function ActiveAt(parser: Parser, store: Store, stem: string): seq<Decision> {
    if stem !in store.bodies then []
    else
      var d := ParseDecision(parser, stem, store.bodies[stem]);
      if d.Some? && d.value.active then [d.value] else []
  }

  function Records(parser: Parser, store: Store, stems: seq<string>): seq<Scanned> {
    FlatMap(stem => RecordAt(parser, store, stem), stems)
  }

  function Failures(parser: Parser, store: Store, stems: seq<string>): seq<string> {
    FlatMap(stem => FailureAt(parser, store, stem), stems)
  }

  function Actives(parser: Parser, store: Store, stems: seq<string>): seq<Decision> {
    FlatMap(stem => ActiveAt(parser, store, stem), stems)
  }

  // The active decisions a full scan returns.
  function FullScan(parser: Parser, store: Store): seq<Decision> {
    Actives(parser, store, InOrder(store))
  }

  lemma {:induction false} ScanSnoc(parser: Parser, store: Store, stems: seq<string>, i: nat)
    requires i < |stems|
    ensures Records(parser, store, stems[..i + 1])
         == Records(parser, store, stems[..i]) + RecordAt(parser, store, stems[i])
    ensures Failures(parser, store, stems[..i + 1])
         == Failures(parser, store, stems[..i]) + FailureAt(parser, store, stems[i])
  {
    FlatMapSnoc(stem => RecordAt(parser, store, stem), stems, i);
    FlatMapSnoc(stem => FailureAt(parser, store, stem), stems, i);
  }

  lemma {:induction false} ActivesAppend(parser: Parser, store: Store, a: seq<string>, b: seq<string>)
    ensures Actives(parser, store, a + b) == Actives(parser, store, a) + Actives(parser, store, b)
  {
    FlatMapAppend(stem => ActiveAt(parser, store, stem), a, b);
  }

  const TAIL_WALK_BATCH: nat := 32

  // A cut of the ordered stems that does not separate two carriers of one number.
  predicate Boundary(stems: seq<string>, start: nat)
    requires start <= |stems|
  {
    0 < start < |stems| ==> Number(stems[start - 1]) != Number(stems[start])
  }

  predicate AllNumbered(stems: seq<string>) {
    forall stem :: stem in stems ==> !Unnumbered(stem)
  }

  // 32 stems, and more rather than split a run of carriers of one number.
  predicate IsBatch(stems: seq<string>, start: nat, end: nat) {
    && start < end <= |stems| && Boundary(stems, start)
    && (start == 0 || end - start >= TAIL_WALK_BATCH)
    && (forall k :: start <= k <= end - TAIL_WALK_BATCH ==> Number(stems[k]) == Number(stems[start]))
  }

  // Only the batches that were needed were read: without the last one, which ended at
  // `last`, fewer than `count` were in hand.
  ghost predicate StoppedEarly(parser: Parser, store: Store, count: int, start: nat, last: nat) {
    var stems := InOrder(store);
    if stems == [] then start == 0
    else IsBatch(stems, start, last) && |Actives(parser, store, stems[last..])| < count
  }

  // The walk returned everything from a number boundary on, and stopped early only with
  // enough in hand.
  ghost predicate IsTail(parser: Parser, store: Store, count: int, start: nat, active: seq<Decision>) {
    && start <= |InOrder(store)|
    && Boundary(InOrder(store), start)
    && active == Actives(parser, store, InOrder(store)[start..])
    && (start == 0 || |active| >= count)
  }

  // ---- The listing -----------------------------------------------------------------

  function NewestFirst(d: Decision): seq<int> {
    var n: int := d.num;
    [-n]
  }

  // Sorting with `reverse=True` is stable, so equal numbers keep their order.
  function Rows(decisions: seq<Decision>, limit: int): seq<Decision> {
    var sorted := SortBy(NewestFirst, decisions);
    sorted[..Min(Max(limit, 0), |sorted|)]
  }

  // All decisions a full scan parses, active or not.
  function AllParsed(parser: Parser, store: Store): seq<Decision> {
    var records := Records(parser, store, InOrder(store));
    seq(|records|, i requires 0 <= i < |records| => records[i].decision)
  }

  predicate LexLess(a: seq<int>, b: seq<int>) {
    !LexLe(b, a)
  }

  lemma {:induction false} InsertAfter<T>(key: T -> seq<int>, x: T, before: seq<T>, s: seq<T>)
    requires forall y :: y in before ==> LexLess(key(y), key(x))
    ensures Insert(key, x, before + s) == before + Insert(key, x, s)
  {
    if before == [] {
      assert before + s == s;
    } else {
      assert before[0] in before;
      assert (before + s)[1..] == before[1..] + s;
      InsertAfter(key, x, before[1..], s);
    }
  }

  // When everything in `b` sorts before everything in `a`, sorting moves `b` in front.
  lemma {:induction false} SortBySwaps<T>(key: T -> seq<int>, a: seq<T>, b: seq<T>)
    requires forall x, y :: x in a && y in b ==> LexLess(key(y), key(x))
    ensures SortBy(key, a + b) == SortBy(key, b) + SortBy(key, a)
  {
    if a == [] {
      assert a + b == b && SortBy(key, b) + [] == SortBy(key, b);
    } else {
      assert (a + b)[1..] == a[1..] + b;
      SortBySwaps(key, a[1..], b);
      forall y | y in SortBy(key, b) ensures LexLess(key(y), key(a[0])) {
        SortByKeeps(key, b, y);
        assert a[0] in a && y in b;
      }
      InsertAfter(key, a[0], SortBy(key, b), SortBy(key, a[1..]));
    }
  }

  // The number read from an identifier that has lost its ".md".
  function BareNumber(s: string): Option<nat> {
    var low := Lower(s);
    var rest := if StartsWith(low, "decision-") then s[|"decision-"|..]
                else if StartsWith(low, "d") && |s| > 1 && Decimal.IsDigit(s[1]) then s[1..]
                else s;
    var leading := LeadingDigits(rest);
    if leading == [] then None else Some(Decimal.Value(leading))
  }

  lemma {:induction false} SuffixDot(s: string, p: string)
    requires |s| < |p| && StartsWith(s + ".md", p)
    ensures '.' in p
  {
    assert p[|s|] == (s + ".md")[..|p|][|s|] == '.';
  }

  lemma {:induction false} PrefixSuffix(s: string, p: string)
    requires '.' !in p
    ensures StartsWith(s + ".md", p) <==> StartsWith(s, p)
  {
    var long := s + ".md";
    assert StartsWith(s, p) ==> long[..|p|] == s[..|p|];
    if StartsWith(long, p) && |s| < |p| {
      SuffixDot(s, p);
      assert false;
    }
    assert StartsWith(long, p) && |p| <= |s| ==> s[..|p|] == long[..|p|];
  }

  lemma {:induction false} LeadingDigitsSuffix(s: string)
    ensures LeadingDigits(s + ".md") == LeadingDigits(s)
  {
    if s == [] {
      assert s + ".md" == ".md";
    } else {
      LeadingDigitsSuffix(s[1..]);
      assert (s + ".md")[1..] == s[1..] + ".md";
    }
  }

  lemma {:induction false} AfterSuffix(base: string)
    ensures BareNumber(base + ".md") == BareNumber(base)
  {
    var long := base + ".md";
    assert Lower(long) == Lower(base) + ".md";
    PrefixSuffix(Lower(base), "decision-");
    PrefixSuffix(Lower(base), "d");
    if StartsWith(Lower(base), "decision-") {
      assert long[9..] == base[9..] + ".md";
      LeadingDigitsSuffix(base[9..]);
    } else {
      LeadingDigitsSuffix(base);
      if |base| > 1 {
        assert long[1..] == base[1..] + ".md";
        LeadingDigitsSuffix(base[1..]);
      }
    }
  }

  // The listed stem and the file name read the same number, whatever the stem ends in.
  lemma {:induction false} SuffixIrrelevant(stem: string)
    ensures ExtractDecisionNumber(DecisionFilename(stem)) == ExtractDecisionNumber(stem)
  {
    assert RemoveSuffix(stem + ".md", ".md") == stem;
    var base := RemoveSuffix(stem, ".md");
    if base != stem {
      assert stem == base + ".md";
      AfterSuffix(base);
    }
  }

  // A parsed decision carries the number of its stem.
  lemma {:induction false} NumberOfStem(parser: Parser, stem: string, body: string)
    ensures var d := ParseDecision(parser, stem, body); d.Some? ==> d.value.num == Number(stem)
  {
    SuffixIrrelevant(stem);
  }

  lemma {:induction false} ActiveNumber(parser: Parser, store: Store, stems: seq<string>, d: Decision)
    returns (i: nat)
    requires d in Actives(parser, store, stems)
    ensures i < |stems| && d.num == Number(stems[i])
  {
    FlatMapIn(stem => ActiveAt(parser, store, stem), stems, d);
    i :| 0 <= i < |stems| && d in ActiveAt(parser, store, stems[i]);
    NumberOfStem(parser, stems[i], store.bodies[stems[i]]);
  }

  lemma {:induction false} LexSecond(k: int, a: int, s: seq<int>, b: int, t: seq<int>)
    requires LexLe([k, a] + s, [k, b] + t)
    ensures a <= b
  {
    var x, y := [k, a] + s, [k, b] + t;
    assert x[1..][0] == a && y[1..][0] == b;
    assert LexLe(x[1..], y[1..]);
  }

  lemma {:induction false} NumbersOrdered(stems: seq<string>, i: nat, j: nat)
    requires AllNumbered(stems) && SortedBy(StemKey, stems)
    requires i <= j < |stems|
    ensures Number(stems[i]) <= Number(stems[j])
  {
    hide Number, Unnumbered, Codes;
    assert stems[i] in stems && stems[j] in stems;
    if i < j {
      assert LexLe(StemKey(stems[i]), StemKey(stems[j]));
      LexSecond(0, Number(stems[i]), Codes(stems[i]), Number(stems[j]), Codes(stems[j]));
    }
  }

  // Numbered stems are in ascending number order, strictly across a boundary.
  lemma {:induction false} NumbersAscend(stems: seq<string>, start: nat, i: nat, j: nat)
    requires AllNumbered(stems) && SortedBy(StemKey, stems)
    requires start <= |stems| && Boundary(stems, start)
    requires i < start <= j < |stems|
    ensures Number(stems[i]) < Number(stems[j])
  {
    hide StemKey, Number, Unnumbered, SortedBy, AllNumbered;
    NumbersOrdered(stems, i, start - 1);
    NumbersOrdered(stems, start - 1, start);
    NumbersOrdered(stems, start, j);
  }

  lemma {:induction false} ScanSplits(parser: Parser, store: Store, count: int, start: nat, active: seq<Decision>)
    requires IsTail(parser, store, count, start, active)
    ensures FullScan(parser, store) == Actives(parser, store, InOrder(store)[..start]) + active
    ensures start == 0 ==> FullScan(parser, store) == active
  {
    hide InOrder, Boundary;
    var stems := InOrder(store);
    assert stems == stems[..start] + stems[start..];
    ActivesAppend(parser, store, stems[..start], stems[start..]);
    assert start == 0 ==> stems[start..] == stems;
  }

  // Every earlier decision sorts after every decision of the walk.
  ghost predicate AllBelow(earlier: seq<Decision>, later: seq<Decision>) {
    forall x, y :: x in earlier && y in later ==> x.num < y.num
  }

  lemma {:induction false} TailNumbers(parser: Parser, store: Store, stems: seq<string>, start: nat,
                                       x: Decision, y: Decision)
    requires AllNumbered(stems) && SortedBy(StemKey, stems)
    requires start <= |stems| && Boundary(stems, start)
    requires x in Actives(parser, store, stems[..start]) && y in Actives(parser, store, stems[start..])
    ensures x.num < y.num
  {
    hide *;
    var i := ActiveNumber(parser, store, stems[..start], x);
    var j := ActiveNumber(parser, store, stems[start..], y);
    assert stems[start..][j] == stems[start + j] && stems[..start][i] == stems[i];
    NumbersAscend(stems, start, i, start + j);
  }

  lemma {:induction false} EarlierBelow(parser: Parser, store: Store, start: nat,
                                        earlier: seq<Decision>, active: seq<Decision>)
    requires AllNumbered(InOrder(store)) && start <= |InOrder(store)| && Boundary(InOrder(store), start)
    requires earlier == Actives(parser, store, InOrder(store)[..start])
    requires active == Actives(parser, store, InOrder(store)[start..])
    ensures AllBelow(earlier, active)
  {
    SortBySorts(StemKey, store.listed);
    forall x, y | x in earlier && y in active ensures x.num < y.num {
      hide StemKey, SortedBy, Actives, Boundary, AllNumbered;
      TailNumbers(parser, store, InOrder(store), start, x, y);
    }
  }

  lemma {:induction false} RowsOfFront(front: seq<Decision>, back: seq<Decision>, limit: int)
    requires 0 < limit <= |front| && AllBelow(back, front)
    ensures Rows(back + front, limit) == Rows(front, limit)
  {
    forall x, y | x in back && y in front ensures LexLess(NewestFirst(y), NewestFirst(x)) {
      assert x.num < y.num;
    }
    SortBySwaps(NewestFirst, back, front);
    SortByKeeps(NewestFirst, front, front[0]);
    SortByKeeps(NewestFirst, back + front, front[0]);
    var a, b := SortBy(NewestFirst, front), SortBy(NewestFirst, back);
    assert (a + b)[..limit] == a[..limit];
  }

  // The walk gives the same rows as the full scan.
  lemma {:induction false} TailRowsSame(parser: Parser, store: Store, limit: int, start: nat, active: seq<Decision>)
    requires !AllNumbered(InOrder(store)) ==> active == FullScan(parser, store)
    requires AllNumbered(InOrder(store)) && limit <= 0 ==> active == []
    requires AllNumbered(InOrder(store)) && limit > 0 ==> IsTail(parser, store, limit, start, active)
    ensures Rows(active, limit) == Rows(FullScan(parser, store), limit)
  {
    if AllNumbered(InOrder(store)) && limit > 0 {
      hide InOrder, AllNumbered, Actives, Rows, FullScan;
      ScanSplits(parser, store, limit, start, active);
      if start > 0 {
        var earlier := Actives(parser, store, InOrder(store)[..start]);
        EarlierBelow(parser, store, start, earlier, active);
        RowsOfFront(active, earlier, limit);
      }
    }
  }

  // The last `k` decisions of the full scan are the last `k` of the walk, for every k it
  // was asked for: what a context payload keeps is unchanged.
  lemma {:induction false} TailProjection(parser: Parser, store: Store, count: nat, start: nat, active: seq<Decision>, k: nat)
    requires IsTail(parser, store, count, start, active) && k <= count
    ensures var full := FullScan(parser, store);
      |active| >= Min(k, |full|) && active[|active| - Min(k, |full|)..] == full[|full| - Min(k, |full|)..]
  {
    hide InOrder, Actives, Boundary;
    ScanSplits(parser, store, count, start, active);
    var earlier := Actives(parser, store, InOrder(store)[..start]);
    var m := Min(k, |earlier + active|);
    assert start > 0 ==> m <= |active|;
    assert m <= |active| ==> (earlier + active)[|earlier + active| - m..] == active[|active| - m..];
  }

  // ---- The readers ------------------------------------------------------------------

  lemma {:induction false} Batched(stems: seq<string>, from: nat, end: nat)
    requires from <= end <= |stems|
    ensures stems[from..] == stems[from..end] + stems[end..]
    ensures forall stem :: stem in stems[from..end] ==> stem in stems
  {
  }

  method CheckNumbered(stems: seq<string>) returns (numbered: bool)
    ensures numbered <==> AllNumbered(stems)
  {
    var i := 0;
    while i < |stems|
      invariant i <= |stems| && forall k :: 0 <= k < i ==> !Unnumbered(stems[k])
    {
      if Unnumbered(stems[i]) {
        assert stems[i] in stems;
        return false;
      }
      i := i + 1;
    }
    return true;
  }

  function KeepActive(records: seq<Scanned>): seq<Decision> {
    if records == [] then []
    else
      var last := records[|records| - 1].decision;
      KeepActive(records[..|records| - 1]) + if last.active then [last] else []
  }

  lemma {:induction false} KeepActiveJoin(before: seq<Scanned>, last: seq<Scanned>)
    requires |last| <= 1
    ensures KeepActive(before + last) == KeepActive(before) + KeepActive(last)
    ensures |last| == 1 ==> KeepActive(last) == if last[0].decision.active then [last[0].decision] else []
  {
    if last == [] { assert before + last == before; } else { assert (before + last)[..|before|] == before; }
  }

  lemma {:induction false} KeepActiveOfRecords(parser: Parser, store: Store, stems: seq<string>)
    ensures KeepActive(Records(parser, store, stems)) == Actives(parser, store, stems)
  {
    if stems != [] {
      var n := |stems| - 1;
      KeepActiveOfRecords(parser, store, stems[..n]);
      KeepActiveJoin(Records(parser, store, stems[..n]), RecordAt(parser, store, stems[n]));
      hide KeepActive, ParseDecision;
    }
  }

  method ActiveOnly(parser: Parser, ghost store: Store, ghost stems: seq<string>, records: seq<Scanned>)
    returns (active: seq<Decision>)
    requires records == Records(parser, store, stems)
    ensures active == Actives(parser, store, stems)
  {
    active := [];
    var i := 0;
    while i < |records|
      invariant i <= |records| && active == KeepActive(records[..i])
    {
      assert records[..i + 1][..i] == records[..i];
      if records[i].decision.active {
        active := active + [records[i].decision];
      }
      i := i + 1;
    }
    assert records[..i] == records;
    KeepActiveOfRecords(parser, store, stems);
  }

  class Reader {
    const parser: Parser
    var memo: map<string, (string, Decision)>

    constructor (parser: Parser)
      ensures this.parser == parser && Valid() && memo == map[]
    {
      this.parser := parser;
      this.memo := map[];
    }

    // The memo holds what parsing the remembered text gives, of whatever store and moment.
    ghost predicate Valid()
      reads this
    {
      forall stem :: stem in memo ==> ParseDecision(parser, stem, memo[stem].0) == Some(memo[stem].1)
    }

    method ParseMemoized(stem: string, body: string) returns (decision: Option<Decision>)
      requires Valid()
      modifies this`memo
      ensures Valid() && decision == ParseDecision(parser, stem, body)
      ensures old(memo).Keys <= memo.Keys <= old(memo).Keys + {stem}
      ensures decision.None? ==> memo == old(memo)
    {
      if stem in memo && memo[stem].0 == body {
        return Some(memo[stem].1);
      }
      decision := ParseDecision(parser, stem, body);
      if decision.Some? {
        memo := memo[stem := (body, decision.value)];
      }
    }

    method ParseStems(store: Store, stems: seq<string>) returns (records: seq<Scanned>, failures: seq<string>)
      requires Valid()
      modifies this`memo
      ensures Valid()
      ensures records == Records(parser, store, stems) && failures == Failures(parser, store, stems)
      ensures memo.Keys <= old(memo).Keys + (set stem | stem in stems)
    {
      records, failures := [], [];
      var i := 0;
      while i < |stems|
        invariant i <= |stems| && Valid()
        invariant records == Records(parser, store, stems[..i])
        invariant failures == Failures(parser, store, stems[..i])
        invariant memo.Keys <= old(memo).Keys + (set stem | stem in stems)
      {
        hide Records, Failures, ParseDecision;
        var stem := stems[i];
        ScanSnoc(parser, store, stems, i);
        if stem in store.bodies {
          var decision := ParseMemoized(stem, store.bodies[stem]);
          if decision.Some? {
            records := records + [Scanned(stem, decision.value)];
          } else {
            failures := failures + [stem];
          }
        }
        i := i + 1;
      }
      assert stems[..i] == stems;
    }

    method ForgetUnlisted(stems: seq<string>)
      requires Valid()
      modifies this`memo
      ensures Valid() && memo.Keys == old(memo).Keys * (set stem | stem in stems)
      ensures forall stem :: stem in memo ==> memo[stem] == old(memo)[stem]
    {
      memo := map stem | stem in memo && stem in stems :: memo[stem];
    }

    method ScanDecisionRecords(store: Store)
      returns (records: seq<Scanned>, failures: seq<string>, stems: seq<string>)
      requires Valid()
      modifies this`memo
      ensures Valid() && stems == InOrder(store)
      ensures records == Records(parser, store, stems) && failures == Failures(parser, store, stems)
      ensures memo.Keys <= set stem | stem in stems
    {
      stems := InOrder(store);
      records, failures := ParseStems(store, stems);
      ForgetUnlisted(stems);
    }

    // The start of the batch that ends at `end`.
    static method BatchStart(stems: seq<string>, end: nat) returns (start: nat)
      requires 0 < end <= |stems|
      ensures IsBatch(stems, start, end)
    {
      start := Max(end - TAIL_WALK_BATCH, 0);
      var boundary := Number(stems[start]);
      while start > 0 && Number(stems[start - 1]) == boundary
        invariant start < end && Number(stems[start]) == boundary
        invariant start == 0 || end - start >= TAIL_WALK_BATCH
        invariant forall k :: start <= k <= end - TAIL_WALK_BATCH ==> Number(stems[k]) == boundary
      {
        start := start - 1;
      }
    }

    // Without an unnumbered stem the walk returns a tail of the full scan, and stops as soon
    // as enough are in hand; else all of it.
    method ParseRecentActive(store: Store, count: int)
      returns (active: seq<Decision>, ghost start: nat, ghost last: nat)
      requires Valid()
      modifies this`memo
      ensures Valid()
      ensures memo.Keys <= set stem | stem in InOrder(store)
      ensures !AllNumbered(InOrder(store)) ==> active == FullScan(parser, store)
      ensures AllNumbered(InOrder(store)) && count <= 0 ==> active == []
      ensures AllNumbered(InOrder(store)) && count > 0 ==>
        IsTail(parser, store, count, start, active) && StoppedEarly(parser, store, count, start, last)
    {
      var stems := InOrder(store);
      start, last := 0, 0;
      var numbered := CheckNumbered(stems);
      if !numbered {
        var records, _, _ := ScanDecisionRecords(store);
        active := ActiveOnly(parser, store, stems, records);
        return;
      }
      ForgetUnlisted(stems);
      active := [];
      if count <= 0 {
        return;
      }
      start := |stems|;
      var end := |stems|;
      while end > 0
        invariant end == start <= |stems| && Valid() && Boundary(stems, end)
        invariant active == Actives(parser, store, stems[end..])
        invariant end < |stems| ==> IsBatch(stems, end, last) && |Actives(parser, store, stems[last..])| < count
        invariant |active| < count
        invariant memo.Keys <= set stem | stem in stems
      {
        hide InOrder, AllNumbered;
        var from := BatchStart(stems, end);
        active := ReadBatch(store, stems, from, end, active);
        last := end;
        end := from;
        start := from;
        if |active| >= count {
          break;
        }
      }
    }

    // Reads the stems from `from` to `end` and puts their active decisions in front.
    method ReadBatch(store: Store, stems: seq<string>, from: nat, end: nat, later: seq<Decision>)
      returns (active: seq<Decision>)
      requires Valid() && from <= end <= |stems|
      requires later == Actives(parser, store, stems[end..])
      modifies this`memo
      ensures Valid() && active == Actives(parser, store, stems[from..])
      ensures memo.Keys <= old(memo).Keys + (set stem | stem in stems)
    {
      var batch := stems[from..end];
      var records, _ := ParseStems(store, batch);
      hide Records, Actives, Failures;
      var newest := ActiveOnly(parser, store, batch, records);
      Batched(stems, from, end);
      ActivesAppend(parser, store, batch, stems[end..]);
      active := newest + later;
    }

    // The newest `limit` rows, by number descending, of the active or of all decisions.
    method ListDecisions(store: Store, limit: int, includeSuperseded: bool) returns (rows: seq<Decision>)
      requires Valid()
      modifies this`memo
      ensures Valid()
      ensures rows == Rows(if includeSuperseded then AllParsed(parser, store) else FullScan(parser, store), limit)
    {
      var decisions;
      if includeSuperseded {
        var records, _, _ := ScanDecisionRecords(store);
        decisions := seq(|records|, i requires 0 <= i < |records| => records[i].decision);
      } else {
        ghost var start, last;
        decisions, start, last := ParseRecentActive(store, Max(limit, 0));
        TailRowsSame(parser, store, limit, start, decisions);
      }
      rows := Rows(decisions, limit);
    }
  }
}
