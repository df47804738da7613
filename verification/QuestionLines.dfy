// The lines of open-questions.md: entry heads and their identifiers, section headers,
// blanks, and the rendering of a head. Text is ASCII; a line holds no newline. A head is a
// dash, an optional resolution in brackets (a decision and a date), an identifier in brackets
// (a question number or a legacy time stamp), and a body. Rendering and reading are inverse
// to each other: a head that was read prints to a line that reads back as that head, and the
// heads that can be read are exactly those that the renderer prints faithfully.
module QuestionLines {
  import opened Common
  import opened Decimal
  import opened Identifiers
  import opened Text

  // ---- Searching ----------------------------------------------------------------

  predicate Lacks(s: string, c: char) {
    forall i :: 0 <= i < |s| ==> s[i] != c
  }

  // The first position of `c`, or -1.
  function Find(s: string, c: char): (i: int)
    ensures -1 <= i < |s|
  {
    if s == [] then -1
    else if s[0] == c then 0
    else
      var k := Find(s[1..], c);
      if k < 0 then -1 else k + 1
  }

  lemma {:induction false} FindAfter(a: string, c: char, b: string)
    requires Lacks(a, c)
    ensures Find(a + [c] + b, c) == |a|
  {
    var s := a + [c] + b;
    if a != [] {
      FindAfter(a[1..], c, b);
      assert s[1..] == a[1..] + [c] + b;
      assert s[0] == a[0];
    }
  }

  // The first position of the string `p`, or -1.
  function FindText(s: string, p: string): (i: int)
    ensures -1 <= i <= |s| && (i >= 0 ==> i + |p| <= |s|)
  {
    if StartsWith(s, p) then 0
    else if s == [] then -1
    else
      var k := FindText(s[1..], p);
      if k < 0 then -1 else k + 1
  }

  // ---- Dates ----------------------------------------------------------------------

  predicate DigitsAt(s: string, from: nat, to: nat) {
    to <= |s| && forall i :: from <= i < to ==> IsDigit(s[i])
  }

  function DigitAt(s: string, i: nat): nat {
    if i < |s| && IsDigit(s[i]) then DigitOf(s[i]) else 0
  }

  function NumberAt(s: string, from: nat, to: nat): nat {
    if to <= from then 0 else NumberAt(s, from, to - 1) * 10 + DigitAt(s, to - 1)
  }

  function DaysIn(year: nat, month: nat): nat {
    if month == 2 then (if year % 4 == 0 && (year % 100 != 0 || year % 400 == 0) then 29 else 28)
    else if month == 4 || month == 6 || month == 9 || month == 11 then 30
    else 31
  }

  predicate OnCalendar(year: nat, month: nat, day: nat) {
    1 <= year && 1 <= month <= 12 && 1 <= day <= DaysIn(year, month)
  }

  // `YYYY-MM-DD` at the start of the text, on the calendar.
  predicate DateAtStart(s: string) {
    && |s| >= 10 && s[4] == '-' && s[7] == '-'
    && DigitsAt(s, 0, 4) && DigitsAt(s, 5, 7) && DigitsAt(s, 8, 10)
    && OnCalendar(NumberAt(s, 0, 4), NumberAt(s, 5, 7), NumberAt(s, 8, 10))
  }

  // The only form dates are written in.
  predicate IsIsoDate(s: string) {
    |s| == 10 && DateAtStart(s)
  }

  // `YYYY-MM-DD HH:MM UTC`; a year below 1000 does not print back to four digits.
  predicate IsLegacyId(s: string) {
    && |s| == 20 && DateAtStart(s) && NumberAt(s, 0, 4) >= 1000
    && s[10] == ' ' && s[13] == ':' && s[16] == ' ' && s[17] == 'U' && s[18] == 'T' && s[19] == 'C'
    && DigitsAt(s, 11, 13) && DigitsAt(s, 14, 16)
    && NumberAt(s, 11, 13) <= 23 && NumberAt(s, 14, 16) <= 59
  }

  // ---- Entry heads -------------------------------------------------------------------

  // A Q number with the text it was written with, or a legacy timestamp.
  datatype Id = Numbered(num: nat, source: string) | Legacy(stamp: string)

  datatype Ref = Ref(decision: nat, date: string)

  datatype Head = Head(id: Id, body: string, resolved: Option<Ref>)

  function ResolvedToken(): (s: string)
    ensures |s| == 13 && s[0] == 'R'
  {
    "Resolved by D"
  }

  function ResolvedSep(): (s: string)
    ensures |s| == 4 && s[0] == ' '
  {
    " on "
  }

  function ParseId(s: string): Option<Id> {
    if QuestionNumber(s).Some? then Some(Numbered(QuestionNumber(s).value, s))
    else if IsLegacyId(s) then Some(Legacy(s))
    else None
  }

  // `Resolved by Dnn on YYYY-MM-DD`.
  function ParseResolvedPrefix(text: string): Option<Ref> {
    if !StartsWith(text, ResolvedToken()) then None
    else
      var rest := text[|ResolvedToken()|..];
      var sep := FindText(rest, ResolvedSep());
      if sep < 1 || !IsAsciiDecimal(rest[..sep]) then None
      else
        var date := Strip(rest[sep + |ResolvedSep()|..]);
        if Value(rest[..sep]) < 1 || !IsIsoDate(date) then None
        else Some(Ref(Value(rest[..sep]), date))
  }

  function HeadMark(): (s: string)
    ensures |s| == 3
  {
    "- ["
  }

  function WithId(id: Option<Id>, body: string, ref: Option<Ref>): Option<Head> {
    if id.None? then None else Some(Head(id.value, body, ref))
  }

  // What follows a resolved prefix must be the bracketed id.
  function ResolvedHead(ref: Option<Ref>, after: string): Option<Head> {
    if ref.None? || !StartsWith(after, "[") then None
    else
      var close := Find(after, ']');
      if close < 1 then None
      else WithId(ParseId(after[1..close]), LStrip(after[close + 1..]), ref)
  }

  // A `- [` line read as an entry head, or None when it does not parse.
  function ParseHead(line: string): Option<Head> {
    if !StartsWith(line, HeadMark()) then None
    else
      var rest := line[2..];
      var close := Find(rest, ']');
      if close < 1 then None
      else
        var inside := rest[1..close];
        var after := LStrip(rest[close + 1..]);
        if StartsWith(inside, ResolvedToken()) then ResolvedHead(ParseResolvedPrefix(inside), after)
        else WithId(ParseId(inside), after, None)
  }

  function RenderId(id: Id): string {
    if id.Numbered? then id.source else id.stamp
  }

  // `Resolved by Dnn on YYYY-MM-DD`, after the token.
  function RefTail(ref: Ref): string {
    Numeral(ref.decision) + (ResolvedSep() + ref.date)
  }

  function RenderRef(ref: Ref): string {
    ResolvedToken() + RefTail(ref)
  }

  // One bracketed part and what follows it.
  function Bracketed(inside: string, body: string): string {
    "[" + inside + "] " + body
  }

  function RenderHead(h: Head): string {
    var own := Bracketed(RenderId(h.id), h.body);
    "- " + if h.resolved.Some? then Bracketed(RenderRef(h.resolved.value), own) else own
  }

  // ---- What a parsed head looks like ----------------------------------------------------

  predicate GoodId(id: Id) {
    ParseId(RenderId(id)) == Some(id)
  }

  predicate GoodRef(ref: Ref) {
    ref.decision >= 1 && IsIsoDate(ref.date)
  }

  predicate GoodHead(h: Head) {
    GoodId(h.id) && LStrip(h.body) == h.body && (h.resolved.Some? ==> GoodRef(h.resolved.value))
  }

  lemma {:induction false} LStripTwice(s: string)
    ensures LStrip(LStrip(s)) == LStrip(s)
  {
  }

  lemma {:induction false} ParseIdGood(s: string)
    ensures ParseId(s).Some? ==> RenderId(ParseId(s).value) == s && GoodId(ParseId(s).value)
  {
  }

  lemma {:induction false} RefGood(text: string)
    ensures ParseResolvedPrefix(text).Some? ==> GoodRef(ParseResolvedPrefix(text).value)
  {
  }

  lemma {:induction false} WithIdGood(id: string, body: string, ref: Option<Ref>)
    requires ref.Some? ==> GoodRef(ref.value)
    ensures var h := WithId(ParseId(id), LStrip(body), ref); h.Some? ==> GoodHead(h.value)
  {
    hide GoodRef, LStrip, ParseId, GoodId;
    LStripTwice(body);
    ParseIdGood(id);
  }

  lemma {:induction false} ResolvedHeadGood(ref: Option<Ref>, after: string)
    requires ref.Some? ==> GoodRef(ref.value)
    ensures ResolvedHead(ref, after).Some? ==> GoodHead(ResolvedHead(ref, after).value)
  {
    var second := Find(after, ']');
    if second >= 1 {
      WithIdGood(after[1..second], after[second + 1..], ref);
      hide ParseId, GoodRef, LStrip, GoodHead, WithId, Find, StartsWith;
    }
  }

  lemma {:induction false} ParseHeadGood(line: string)
    ensures ParseHead(line).Some? ==> GoodHead(ParseHead(line).value)
  {
    hide ParseId, GoodHead, WithId, LStrip, Find, ResolvedHead, ParseResolvedPrefix;
    if StartsWith(line, HeadMark()) {
      var rest := line[2..];
      var close := Find(rest, ']');
      if close >= 1 {
        var after := LStrip(rest[close + 1..]);
        WithIdGood(rest[1..close], rest[close + 1..], None);
        RefGood(rest[1..close]);
        ResolvedHeadGood(ParseResolvedPrefix(rest[1..close]), after);
      }
    }
  }

  // ---- Reading a rendered head back -----------------------------------------------------

  lemma {:induction false} StartsNot(s: string, p: string)
    requires p != [] && s != [] && s[0] != p[0]
    ensures !StartsWith(s, p)
  {
    if |p| <= |s| { assert s[..|p|][0] == s[0]; }
  }

  lemma {:induction false} FindTextAfter(a: string, p: string, b: string)
    requires p != [] && Lacks(a, p[0])
    ensures FindText(a + p + b, p) == |a|
  {
    var s := a + p + b;
    if a == [] {
      assert s[..|p|] == p;
    } else {
      assert s[1..] == a[1..] + p + b;
      FindTextAfter(a[1..], p, b);
      StartsNot(s, p);
    }
  }

  lemma {:induction false} LacksJoin(a: string, b: string, c: char)
    requires Lacks(a, c) && Lacks(b, c)
    ensures Lacks(a + b, c)
  {
  }

  lemma {:induction false} IsoDateLacks(s: string)
    requires IsIsoDate(s)
    ensures Lacks(s, ']') && Strip(s) == s
  {
    assert forall i :: 0 <= i < 10 && i != 4 && i != 7 ==> IsDigit(s[i]);
    assert IsDigit(s[0]) && IsDigit(s[9]);
  }

  // An identifier is not empty, holds no bracket, and is not mistaken for a resolution.
  predicate PlainInside(s: string) {
    s != [] && Lacks(s, ']') && s[0] != 'R'
  }

  lemma {:induction false} LegacyLacks(s: string)
    requires IsLegacyId(s)
    ensures PlainInside(s)
  {
    hide NumberAt, OnCalendar;
    assert IsDigit(s[0]);
  }

  lemma {:induction false} QFormLacks(s: string)
    requires QuestionNumber(s).Some?
    ensures PlainInside(s)
  {
    hide Value, StripZeros;
    forall i | 1 <= i < |s| ensures s[i] != ']' { assert s[1..][i - 1] == s[i]; }
  }

  lemma {:induction false} IdLacks(id: Id)
    requires GoodId(id)
    ensures PlainInside(RenderId(id))
  {
    hide IsLegacyId, QuestionNumber, PlainInside;
    if QuestionNumber(RenderId(id)).Some? { QFormLacks(RenderId(id)); } else { LegacyLacks(RenderId(id)); }
  }

  lemma {:induction false} ConstantsLack()
    ensures Lacks(ResolvedToken(), ']') && Lacks(ResolvedSep(), ']')
  {
  }

  lemma {:induction false} NumeralLacks(n: nat, c: char)
    requires !IsDigit(c)
    ensures Lacks(Numeral(n), c) && Numeral(n) != []
  {
  }

  lemma {:induction false} TailLacks(ref: Ref)
    requires GoodRef(ref)
    ensures Lacks(RefTail(ref), ']')
  {
    hide IsIsoDate, Numeral, Strip, Lacks, ResolvedToken, ResolvedSep, IsAsciiDecimal;
    ConstantsLack();
    IsoDateLacks(ref.date);
    NumeralLacks(ref.decision, ']');
    LacksJoin(ResolvedSep(), ref.date, ']');
    LacksJoin(Numeral(ref.decision), ResolvedSep() + ref.date, ']');
  }

  lemma {:induction false} RefLacks(ref: Ref)
    requires GoodRef(ref)
    ensures Lacks(RenderRef(ref), ']')
  {
    ConstantsLack();
    TailLacks(ref);
    hide GoodRef, RefTail, Lacks, ResolvedToken, ResolvedSep;
    LacksJoin(ResolvedToken(), RefTail(ref), ']');
  }

  lemma {:induction false} Prefixed(p: string, s: string)
    ensures StartsWith(p + s, p) && (p + s)[|p|..] == s && (p + s)[..|p|] == p
  {
  }

  lemma {:induction false} TokenSplit(ref: Ref)
    ensures StartsWith(RenderRef(ref), ResolvedToken())
    ensures RenderRef(ref)[|ResolvedToken()|..] == RefTail(ref)
  {
    hide RefTail;
    Prefixed(ResolvedToken(), RefTail(ref));
  }

  lemma {:induction false} TailSplit(ref: Ref)
    ensures FindText(RefTail(ref), ResolvedSep()) == |Numeral(ref.decision)|
    ensures RefTail(ref)[..|Numeral(ref.decision)|] == Numeral(ref.decision)
    ensures RefTail(ref)[|Numeral(ref.decision)| + |ResolvedSep()|..] == ref.date
  {
    hide Numeral, FindText;
    NumeralLacks(ref.decision, ' ');
    FindTextAfter(Numeral(ref.decision), ResolvedSep(), ref.date);
    assert RefTail(ref) == Numeral(ref.decision) + ResolvedSep() + ref.date;
  }

  // What the resolution parser does once it has found the separator.
  lemma {:induction false} ParsedTail(text: string, sep: nat)
    requires StartsWith(text, ResolvedToken())
    requires FindText(text[|ResolvedToken()|..], ResolvedSep()) == sep >= 1
    ensures var rest := text[|ResolvedToken()|..];
      ParseResolvedPrefix(text) ==
      if !IsAsciiDecimal(rest[..sep]) then None
      else
        var date := Strip(rest[sep + |ResolvedSep()|..]);
        if Value(rest[..sep]) < 1 || !IsIsoDate(date) then None else Some(Ref(Value(rest[..sep]), date))
  {
    hide FindText, StartsWith, Strip, Value, IsIsoDate, IsAsciiDecimal;
  }

  lemma {:induction false} RefRoundTrip(ref: Ref)
    requires GoodRef(ref)
    ensures ParseResolvedPrefix(RenderRef(ref)) == Some(ref)
  {
    hide Numeral, IsIsoDate, Value, Strip, FindText, RenderRef, StartsWith, RefTail, Lacks;
    hide ResolvedToken, ResolvedSep, IsAsciiDecimal, ParseResolvedPrefix, AllDigits;
    NumeralLacks(ref.decision, ' ');
    IsoDateLacks(ref.date);
    TokenSplit(ref);
    TailSplit(ref);
    ValueOfNumeral(ref.decision);
    ParsedTail(RenderRef(ref), |Numeral(ref.decision)|);
  }

  lemma {:induction false} BracketFound(inside: string, body: string)
    requires Lacks(inside, ']')
    ensures Find(Bracketed(inside, body), ']') == |inside| + 1
  {
    assert Bracketed(inside, body) == ("[" + inside) + [']'] + (" " + body);
    FindAfter("[" + inside, ']', " " + body);
    hide Find;
  }

  lemma {:induction false} BracketSplit(inside: string, body: string)
    ensures |Bracketed(inside, body)| == |inside| + |body| + 3
    ensures Bracketed(inside, body)[0] == '['
    ensures Bracketed(inside, body)[1..|inside| + 1] == inside
    ensures Bracketed(inside, body)[|inside| + 2..] == " " + body
  {
  }

  lemma {:induction false} SpaceStripped(body: string)
    ensures LStrip(" " + body) == LStrip(body)
  {
    assert (" " + body)[1..] == body;
  }

  lemma {:induction false} MarkStarts(s: string)
    requires s != [] && s[0] == '['
    ensures StartsWith("- " + s, HeadMark())
  {
    assert ("- " + s)[..3] == HeadMark();
  }

  // What a line with one bracketed part in front is read as.
  lemma {:induction false} ReadHead(inside: string, body: string)
    requires Lacks(inside, ']') && inside != []
    ensures ParseHead("- " + Bracketed(inside, body)) ==
      if StartsWith(inside, ResolvedToken()) then ResolvedHead(ParseResolvedPrefix(inside), LStrip(body))
      else WithId(ParseId(inside), LStrip(body), None)
  {
    BracketFound(inside, body);
    BracketSplit(inside, body);
    SpaceStripped(body);
    Prefixed("- ", Bracketed(inside, body));
    MarkStarts(Bracketed(inside, body));
    hide Bracketed, Find, LStrip, ParseId, ResolvedHead, ParseResolvedPrefix, WithId, StartsWith, Lacks;
  }

  lemma {:induction false} BracketStarts(s: string)
    requires s != [] && s[0] == '['
    ensures StartsWith(s, "[") && LStrip(s) == s
  {
    assert s[..1] == "[";
  }

  lemma {:induction false} ReadSecond(inside: string, body: string, ref: Ref)
    requires Lacks(inside, ']') && inside != []
    ensures ResolvedHead(Some(ref), Bracketed(inside, body)) == WithId(ParseId(inside), LStrip(body), Some(ref))
    ensures LStrip(Bracketed(inside, body)) == Bracketed(inside, body)
  {
    BracketFound(inside, body);
    BracketSplit(inside, body);
    SpaceStripped(body);
    BracketStarts(Bracketed(inside, body));
    hide Bracketed, Find, ParseId, WithId, StartsWith, Lacks, LStrip;
  }

  lemma {:induction false} OpenRoundTrip(h: Head)
    requires GoodHead(h) && h.resolved.None? && PlainInside(RenderId(h.id))
    ensures ParseHead(RenderHead(h)) == Some(h)
  {
    var id := RenderId(h.id);
    ReadHead(id, h.body);
    StartsNot(id, ResolvedToken());
    hide ParseHead, Bracketed, ParseId, LStrip, StartsWith;
  }

  lemma {:induction false} ResolvedRoundTrip(h: Head)
    requires GoodHead(h) && h.resolved.Some? && PlainInside(RenderId(h.id))
    ensures ParseHead(RenderHead(h)) == Some(h)
  {
    var id, ref := RenderId(h.id), h.resolved.value;
    RefRoundTrip(ref);
    RefLacks(ref);
    TokenSplit(ref);
    ReadSecond(id, h.body, ref);
    hide StartsWith, ParseResolvedPrefix, RenderRef, Lacks, LStrip, ResolvedHead, ParseId, ParseHead;
    ReadHead(RenderRef(ref), Bracketed(id, h.body));
    hide Bracketed;
  }

  // An entry head reads back from its rendering unchanged.
  lemma {:induction false} HeadRoundTrip(h: Head)
    requires GoodHead(h)
    ensures ParseHead(RenderHead(h)) == Some(h)
  {
    IdLacks(h.id);
    if h.resolved.None? { OpenRoundTrip(h); } else { ResolvedRoundTrip(h); }
    hide ParseHead, RenderHead;
  }
}
