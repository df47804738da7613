// What the reads of the store return, element by element.
module TailScan {
  import opened Common
  import opened Sorting
  import opened Picking
  import opened Identifiers
  import opened TailWalk

  // ---- records and failures -------------------------------------------------------------

  ghost predicate AreImages<A, B>(f: A -> seq<B>, from: seq<A>, images: seq<B>) {
    |from| == |images| && forall k :: 0 <= k < |from| ==> f(from[k]) == [images[k]]
  }

  lemma {:induction false} OneMore<A, B>(f: A -> seq<B>, from: seq<A>, images: seq<B>, x: A)
    requires AreImages(f, from, images) && |f(x)| <= 1
    ensures AreImages(f, if |f(x)| == 1 then from + [x] else from, images + f(x))
  {
    if |f(x)| == 1 {
      var y := f(x)[0];
      assert f(x) == [y];
      assert images + f(x) == images + [y];
    } else {
      assert images + f(x) == images;
    }
  }

  // When each element has one image at most, the images are those of the elements that have
  // one, in order.
  lemma {:induction false} ImagesPick<A, B>(f: A -> seq<B>, chosen: nat -> bool, s: seq<A>) returns (from: seq<A>)
    requires forall i: nat :: i < |s| ==> |f(s[i])| == if chosen(i) then 1 else 0
    ensures Picks(s, chosen, from) && AreImages(f, from, FlatMap(f, s))
  {
    if s == [] {
      from := [];
      PicksNone<A>(chosen);
    } else {
      var n: nat := |s| - 1;
      var front, x := s[..n], s[n];
      from := ImagesPick(f, chosen, front);
      assert s == front + [x] && FlatMap(f, s) == FlatMap(f, front) + f(x);
      hide Picks, AreImages, FlatMap;
      PicksSnoc(front, x, chosen, from);
      OneMore(f, from, FlatMap(f, front), x);
      from := if chosen(n) then from + [x] else from;
    }
  }

  // The text of the file is there and the parser accepts it under the file's name.
  predicate Parses(parser: Parser, store: Store, stem: string) {
    stem in store.bodies && parser(stem + ".md", store.bodies[stem]).Some?
  }

  predicate Fails(parser: Parser, store: Store, stem: string) {
    stem in store.bodies && parser(stem + ".md", store.bodies[stem]).None?
  }

  // The decision a parsed file gives: the fields of its text, under the number of its stem.
  predicate Gives(parser: Parser, store: Store, stem: string, d: Decision) {
    && Parses(parser, store, stem)
    && (var f := parser(stem + ".md", store.bodies[stem]).value;
        d == Decision(ExtractDecisionNumber(stem).GetOr(0), f.title, f.active, f.rest))
  }

  ghost function Parsing(parser: Parser, store: Store, stems: seq<string>): nat -> bool {
    (i: nat) => i < |stems| && Parses(parser, store, stems[i])
  }

  ghost function Failing(parser: Parser, store: Store, stems: seq<string>): nat -> bool {
    (i: nat) => i < |stems| && Fails(parser, store, stems[i])
  }

  ghost function Standing(records: seq<Scanned>): nat -> bool {
    (i: nat) => i < |records| && records[i].decision.active
  }

  lemma {:induction false} RecordIs(parser: Parser, store: Store, stem: string)
    ensures |RecordAt(parser, store, stem)| == if Parses(parser, store, stem) then 1 else 0
    ensures Parses(parser, store, stem) ==>
      RecordAt(parser, store, stem)[0].stem == stem && Gives(parser, store, stem, RecordAt(parser, store, stem)[0].decision)
    ensures FailureAt(parser, store, stem) == if Fails(parser, store, stem) then [stem] else []
  {
    SuffixIrrelevant(stem);
    hide ExtractDecisionNumber;
  }

  // Every readable file of the list gives one record, in order: its stem and the decision
  // its text parses to.
  lemma {:induction false} RecordsExactly(parser: Parser, store: Store, stems: seq<string>)
    ensures var r := Records(parser, store, stems);
      && Picks(stems, Parsing(parser, store, stems), seq(|r|, k requires 0 <= k < |r| => r[k].stem))
      && forall k :: 0 <= k < |r| ==> Gives(parser, store, r[k].stem, r[k].decision)
  {
    var f := stem => RecordAt(parser, store, stem);
    var r := Records(parser, store, stems);
    forall i: nat | i < |stems| ensures |f(stems[i])| == if Parsing(parser, store, stems)(i) then 1 else 0 {
      RecordIs(parser, store, stems[i]);
    }
    hide RecordAt, Parses, Gives, Picks, FlatMap;
    var from := ImagesPick(f, Parsing(parser, store, stems), stems);
    forall k | 0 <= k < |r| ensures from[k] == r[k].stem && Gives(parser, store, r[k].stem, r[k].decision) {
      RecordIs(parser, store, from[k]);
      assert f(from[k]) == [r[k]];
    }
    assert from == seq(|r|, k requires 0 <= k < |r| => r[k].stem);
  }

  // The failures are the files that are there and do not parse, in order.
  lemma {:induction false} FailuresExactly(parser: Parser, store: Store, stems: seq<string>)
    ensures Picks(stems, Failing(parser, store, stems), Failures(parser, store, stems))
  {
    var f := stem => FailureAt(parser, store, stem);
    forall stem ensures f(stem) == if Fails(parser, store, stem) then [stem] else [] { RecordIs(parser, store, stem); }
    hide FailureAt, Fails, Picks, FlatMap;
    var from := ImagesPick(f, Failing(parser, store, stems), stems);
    forall k | 0 <= k < |from| ensures from[k] == Failures(parser, store, stems)[k] {
      assert f(from[k]) == [Failures(parser, store, stems)[k]];
    }
    assert from == Failures(parser, store, stems);
  }

  lemma {:induction false} KeepIsFlatMap(records: seq<Scanned>)
    ensures KeepActive(records) == FlatMap((r: Scanned) => if r.decision.active then [r.decision] else [], records)
  {
    if records != [] { KeepIsFlatMap(records[..|records| - 1]); }
  }

  lemma {:induction false} KeptRecords(records: seq<Scanned>) returns (from: seq<Scanned>)
    ensures Picks(records, Standing(records), from)
    ensures KeepActive(records) == seq(|from|, k requires 0 <= k < |from| => from[k].decision)
  {
    var f := (r: Scanned) => if r.decision.active then [r.decision] else [];
    KeepIsFlatMap(records);
    from := ImagesPick(f, Standing(records), records);
    hide KeepActive, Picks, FlatMap;
    forall k | 0 <= k < |from| ensures from[k].decision == KeepActive(records)[k] {
      assert f(from[k]) == [KeepActive(records)[k]];
    }
    assert KeepActive(records) == seq(|from|, k requires 0 <= k < |from| => from[k].decision);
  }

  // The active decisions are those of the active records, in order.
  lemma {:induction false} ActivesExactly(parser: Parser, store: Store, stems: seq<string>) returns (from: seq<Scanned>)
    ensures var r, active := Records(parser, store, stems), Actives(parser, store, stems);
      Picks(r, Standing(r), from) && active == seq(|from|, k requires 0 <= k < |from| => from[k].decision)
  {
    KeepActiveOfRecords(parser, store, stems);
    hide *;
    from := KeptRecords(Records(parser, store, stems));
  }

  // The full listing gives the decision of every record, active or not, in order.
  lemma {:induction false} AllParsedExactly(parser: Parser, store: Store)
    ensures var r := Records(parser, store, InOrder(store));
      && |AllParsed(parser, store)| == |r|
      && forall k :: 0 <= k < |r| ==> AllParsed(parser, store)[k] == r[k].decision
  {
    hide Records, InOrder;
  }

  // The walk is taken iff every stem carries a number.
  lemma {:induction false} NumberedIff(stems: seq<string>)
    ensures AllNumbered(stems) <==> forall i :: 0 <= i < |stems| ==> ExtractDecisionNumber(stems[i]).Some?
  {
    hide ExtractDecisionNumber;
    forall i | 0 <= i < |stems| && AllNumbered(stems) ensures ExtractDecisionNumber(stems[i]).Some? { assert stems[i] in stems; }
  }

  // ---- the order of the stems ---------------------------------------------------------------

  // The texts agree up to a place where the first ends or has the smaller character.
  ghost predicate TextLe(a: string, b: string) {
    a <= b || exists k :: 0 <= k < |a| && k < |b| && a[..k] == b[..k] && a[k] < b[k]
  }

  // Numbered stems first, by number and then by text; the others by text.
  ghost predicate Precedes(a: string, b: string) {
    var m, n := ExtractDecisionNumber(a), ExtractDecisionNumber(b);
    || (m.Some? && n.None?)
    || (m.Some? && n.Some? && (m.value < n.value || (m == n && TextLe(a, b))))
    || (m.None? && n.None? && TextLe(a, b))
  }

  lemma {:induction false} CodesLe(a: string, b: string)
    ensures LexLe(Codes(a), Codes(b)) <==> TextLe(a, b)
  {
    LexLeIff(Codes(a), Codes(b));
    forall k | 0 <= k <= |a| && k <= |b| ensures Codes(a)[..k] == Codes(b)[..k] <==> a[..k] == b[..k] {
      if Codes(a)[..k] == Codes(b)[..k] {
        forall i | 0 <= i < k ensures a[i] == b[i] { assert Codes(a)[..k][i] == Codes(b)[..k][i]; }
      }
      if a[..k] == b[..k] {
        forall i | 0 <= i < k ensures Codes(a)[i] == Codes(b)[i] { assert a[..k][i] == b[..k][i]; }
      }
    }
    assert Codes(a)[..|a|] == Codes(a) && a[..|a|] == a;
    if Codes(a) <= Codes(b) { assert Codes(b)[..|a|] == Codes(a) && b[..|a|] == a; }
    if a <= b { assert b[..|a|] == a && Codes(b)[..|a|] == Codes(a); }
  }

  lemma {:induction false} LexTwice(i: int, m: int, x: seq<int>, j: int, n: int, y: seq<int>)
    ensures LexLe([i, m] + x, [j, n] + y) <==> i < j || (i == j && (m < n || (m == n && LexLe(x, y))))
  {
    hide LexLe;
    LexCons(i, [m] + x, j, [n] + y);
    LexCons(m, x, n, y);
    assert [i, m] + x == [i] + ([m] + x) && [j, n] + y == [j] + ([n] + y);
  }

  lemma {:induction false} KeyOrder(a: string, b: string)
    ensures LexLe(StemKey(a), StemKey(b)) <==> Precedes(a, b)
  {
    hide ExtractDecisionNumber, TextLe, LexLe, Codes;
    CodesLe(a, b);
    var i: int, j: int := if Unnumbered(a) then 1 else 0, if Unnumbered(b) then 1 else 0;
    var m: int, n: int := if Unnumbered(a) then 0 else Number(a), if Unnumbered(b) then 0 else Number(b);
    LexTwice(i, m, Codes(a), j, n, Codes(b));
    assert StemKey(a) == [i, m] + Codes(a) && StemKey(b) == [j, n] + Codes(b);
  }

  // The stems read are the listed ones, each as often as it is listed, in that order.
  lemma {:induction false} InOrderExactly(store: Store)
    ensures multiset(InOrder(store)) == multiset(store.listed)
    ensures forall i, j :: 0 <= i < j < |InOrder(store)| ==> Precedes(InOrder(store)[i], InOrder(store)[j])
  {
    SortBySorts(StemKey, store.listed);
    hide StemKey, Precedes, SortBy;
    forall i, j | 0 <= i < j < |InOrder(store)| ensures Precedes(InOrder(store)[i], InOrder(store)[j]) {
      KeyOrder(InOrder(store)[i], InOrder(store)[j]);
    }
  }

  // ---- the rows ---------------------------------------------------------------------------------

  function Numbered(s: seq<Decision>, n: nat): seq<Decision> {
    if s == [] then [] else (if s[0].num == n then [s[0]] else []) + Numbered(s[1..], n)
  }

  lemma {:induction false} NumberedIs(s: seq<Decision>, n: nat)
    ensures Numbered(s, n) == WithKey(NewestFirst, s, [-(n as int)])
  {
    if s != [] { NumberedIs(s[1..], n); }
  }

  // The rows are the first ones, as many as asked for and there, of the decisions by
  // falling number, where those of one number keep their order.
  lemma {:induction false} RowsExactly(decisions: seq<Decision>, limit: int) returns (all: seq<Decision>)
    ensures multiset(all) == multiset(decisions)
    ensures forall i, j :: 0 <= i < j < |all| ==> all[i].num >= all[j].num
    ensures forall n :: Numbered(all, n) == Numbered(decisions, n)
    ensures Rows(decisions, limit) <= all
    ensures |Rows(decisions, limit)| == if limit <= 0 then 0 else if limit <= |decisions| then limit else |decisions|
  {
    all := SortBy(NewestFirst, decisions);
    SortBySorts(NewestFirst, decisions);
    assert |all| == |decisions| by { assert |multiset(all)| == |multiset(decisions)|; }
    forall i, j | 0 <= i < j < |all| ensures all[i].num >= all[j].num {
      assert LexLe(NewestFirst(all[i]), NewestFirst(all[j]));
    }
    forall n ensures Numbered(all, n) == Numbered(decisions, n) {
      NumberedIs(all, n);
      NumberedIs(decisions, n);
      SortByStable(NewestFirst, decisions, [-(n as int)]);
    }
  }
}
