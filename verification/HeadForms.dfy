// Which lines read as entry heads, which texts as dates and stamps.
module HeadForms {
  import opened Common
  import opened Decimal
  import opened Identifiers
  import opened Text
  import opened QuestionLines

  // ---- numbers of a fixed width ---------------------------------------------------------------

  lemma {:induction false} FixedOfValue(t: string)
    requires AllDigits(t)
    ensures Value(t) < Pow10(|t|) && Fixed(Value(t), |t|) == t
  {
    if t != [] {
      var n := |t| - 1;
      FixedOfValue(t[..n]);
      var d := DigitOf(t[n]);
      assert (Value(t[..n]) * 10 + d) / 10 == Value(t[..n]) && (Value(t[..n]) * 10 + d) % 10 == d;
      assert DigitChar(d) == t[n];
      assert t == t[..n] + [t[n]];
    }
  }

  lemma {:induction false} FixedStep(r: nat, k: nat)
    requires k > 0
    ensures Fixed(r, k) == Fixed(r / 10, k - 1) + [DigitChar(r % 10)]
  {
  }

  lemma {:induction false} ValueOfFixed(r: nat, k: nat)
    requires r < Pow10(k)
    ensures Value(Fixed(r, k)) == r
  {
    if k > 0 {
      ValueOfFixed(r / 10, k - 1);
      var front, last := Fixed(r / 10, k - 1), DigitChar(r % 10);
      hide Fixed;
      assert (front + [last])[..k - 1] == front;
      assert r == r / 10 * 10 + r % 10;
      FixedStep(r, k);
    }
  }

  lemma {:induction false} NumberIs(s: string, lo: nat, hi: nat)
    requires lo <= hi && DigitsAt(s, lo, hi)
    ensures AllDigits(s[lo..hi]) && NumberAt(s, lo, hi) == Value(s[lo..hi])
    decreases hi
  {
    if lo < hi {
      NumberIs(s, lo, hi - 1);
      assert s[lo..hi][..hi - 1 - lo] == s[lo..hi - 1];
      assert IsDigit(s[hi - 1]);
    }
  }

  // Digits at a place of the text are the number they denote, written with that width.
  lemma {:induction false} Spelled(s: string, lo: nat, hi: nat)
    requires lo <= hi && DigitsAt(s, lo, hi)
    ensures s[lo..hi] == Fixed(NumberAt(s, lo, hi), hi - lo) && NumberAt(s, lo, hi) < Pow10(hi - lo)
  {
    NumberIs(s, lo, hi);
    FixedOfValue(s[lo..hi]);
  }

  lemma {:induction false} ReadsBack(s: string, lo: nat, n: nat, k: nat)
    requires lo + k <= |s| && s[lo..lo + k] == Fixed(n, k) && n < Pow10(k)
    ensures DigitsAt(s, lo, lo + k) && NumberAt(s, lo, lo + k) == n
  {
    var f := Fixed(n, k);
    forall i | lo <= i < lo + k ensures IsDigit(s[i]) { assert s[lo..lo + k][i - lo] == s[i] == f[i - lo]; }
    NumberIs(s, lo, lo + k);
    ValueOfFixed(n, k);
  }

  lemma {:induction false} Powers()
    ensures Pow10(2) == 100 && Pow10(4) == 10000
  {
    assert Pow10(0) == 1 && Pow10(1) == 10 && Pow10(3) == 1000;
  }

  // ---- dates and stamps ---------------------------------------------------------------------------

  // A year has 366 days when it is a leap year and 365 otherwise, over months of the usual
  // lengths.
  lemma {:induction false} MonthLengths(year: nat)
    ensures forall m :: m in {1, 3, 5, 7, 8, 10, 12} ==> DaysIn(year, m) == 31
    ensures forall m :: m in {4, 6, 9, 11} ==> DaysIn(year, m) == 30
    ensures DaysIn(year, 2) == 29 <==> (year % 4 == 0 && year % 100 != 0) || year % 400 == 0
    ensures DaysIn(year, 2) in {28, 29}
  {
  }

  function DateText(y: nat, m: nat, d: nat): string {
    Fixed(y, 4) + "-" + Fixed(m, 2) + "-" + Fixed(d, 2)
  }

  // A year from 1 to 9999, a month and a day it has.
  predicate IsDay(y: nat, m: nat, d: nat) {
    1 <= y <= 9999 && 1 <= m <= 12 && 1 <= d <= DaysIn(y, m)
  }

  lemma {:induction false} DateReads(s: string, y: nat, m: nat, d: nat)
    requires |s| >= 10 && s[..10] == DateText(y, m, d) && IsDay(y, m, d)
    ensures DateAtStart(s) && NumberAt(s, 0, 4) == y
  {
    Powers();
    var t := DateText(y, m, d);
    assert forall i :: 0 <= i < 10 ==> s[i] == s[..10][i];
    assert s[0..4] == t[0..4] == Fixed(y, 4) && s[5..7] == t[5..7] == Fixed(m, 2) && s[8..10] == t[8..10] == Fixed(d, 2);
    ReadsBack(s, 0, y, 4);
    ReadsBack(s, 5, m, 2);
    ReadsBack(s, 8, d, 2);
    hide Fixed, NumberAt, DigitsAt, Pow10;
    assert t[4] == '-' && t[7] == '-';
  }

  lemma {:induction false} DateSpelled(s: string) returns (y: nat, m: nat, d: nat)
    requires DateAtStart(s)
    ensures s[..10] == DateText(y, m, d) && IsDay(y, m, d) && y == NumberAt(s, 0, 4)
  {
    Powers();
    y, m, d := NumberAt(s, 0, 4), NumberAt(s, 5, 7), NumberAt(s, 8, 10);
    Spelled(s, 0, 4);
    Spelled(s, 5, 7);
    Spelled(s, 8, 10);
    hide Fixed, NumberAt, DigitsAt, Pow10;
    assert s[..10] == s[0..4] + [s[4]] + s[5..7] + [s[7]] + s[8..10];
  }

  // A date is four digits, two and two, joined by dashes, that name a day of the calendar.
  lemma {:induction false} DateIff(s: string)
    ensures IsIsoDate(s) <==> exists y, m, d :: IsDay(y, m, d) && s == DateText(y, m, d)
  {
    if IsIsoDate(s) {
      var y, m, d := DateSpelled(s);
      assert s[..10] == s;
    }
    if y, m, d :| IsDay(y, m, d) && s == DateText(y, m, d) {
      assert |s| == 10 && s[..10] == s;
      DateReads(s, y, m, d);
    }
  }

  function StampText(y: nat, m: nat, d: nat, h: nat, min: nat): string {
    DateText(y, m, d) + " " + Fixed(h, 2) + ":" + Fixed(min, 2) + " UTC"
  }

  lemma {:induction false} StampSplits(y: nat, m: nat, d: nat, h: nat, min: nat)
    ensures var s := StampText(y, m, d, h, min);
      && |s| == 20 && s[..10] == DateText(y, m, d) && s[11..13] == Fixed(h, 2) && s[14..16] == Fixed(min, 2)
      && s[10] == ' ' && s[13] == ':' && s[16..] == " UTC"
  {
    hide Fixed;
  }

  predicate IsMoment(y: nat, m: nat, d: nat, h: nat, min: nat) {
    IsDay(y, m, d) && y >= 1000 && h <= 23 && min <= 59
  }

  lemma {:induction false} StampSpelled(s: string) returns (y: nat, m: nat, d: nat, h: nat, min: nat)
    requires IsLegacyId(s)
    ensures IsMoment(y, m, d, h, min) && s == StampText(y, m, d, h, min)
  {
    y, m, d := DateSpelled(s);
    h, min := NumberAt(s, 11, 13), NumberAt(s, 14, 16);
    Spelled(s, 11, 13);
    Spelled(s, 14, 16);
    hide Fixed, NumberAt, DigitsAt, DateAtStart, DaysIn, DateText;
    assert s == s[..10] + [s[10]] + s[11..13] + [s[13]] + s[14..16] + [s[16], s[17], s[18], s[19]];
  }

  lemma {:induction false} StampReads(s: string, y: nat, m: nat, d: nat, h: nat, min: nat)
    requires IsMoment(y, m, d, h, min) && s == StampText(y, m, d, h, min)
    ensures IsLegacyId(s)
  {
    Powers();
    StampSplits(y, m, d, h, min);
    hide StampText, Fixed, NumberAt, DigitsAt, DateAtStart, DaysIn, DateText, Pow10;
    DateReads(s, y, m, d);
    ReadsBack(s, 11, h, 2);
    ReadsBack(s, 14, min, 2);
    var t := s[16..];
    assert t[0] == s[16] && t[1] == s[17] && t[2] == s[18] && t[3] == s[19];
  }

  // A stamp is such a date from the year 1000 on, a time of day in hours and minutes, and UTC.
  lemma {:induction false} StampIff(s: string)
    ensures IsLegacyId(s) <==> exists y, m, d, h, min :: IsMoment(y, m, d, h, min) && s == StampText(y, m, d, h, min)
  {
    hide IsLegacyId, IsMoment, StampText;
    if IsLegacyId(s) {
      var y, m, d, h, min := StampSpelled(s);
    }
    if y: nat, m: nat, d: nat, h: nat, min: nat :| IsMoment(y, m, d, h, min) && s == StampText(y, m, d, h, min) {
      StampReads(s, y, m, d, h, min);
    }
  }

  // ---- heads ---------------------------------------------------------------------------------------

  // What a line is read as: its first bracketed part and what follows it.
  lemma {:induction false} FirstPart(inside: string, rest: string)
    requires Lacks(inside, ']')
    ensures ParseHead("- [" + inside + "]" + rest) ==
      if StartsWith(inside, "Resolved by D") then ResolvedHead(ParseResolvedPrefix(inside), LStrip(rest))
      else if ParseId(inside).None? then None else Some(Head(ParseId(inside).value, LStrip(rest), None))
  {
    var line := "- [" + inside + "]" + rest;
    var r := "[" + inside + "]" + rest;
    assert line[..3] == "- [" && line[2..] == r;
    assert r == ("[" + inside) + [']'] + rest;
    FindAfter("[" + inside, ']', rest);
    assert r[1..|inside| + 1] == inside && r[|inside| + 2..] == rest;
    hide ParseId, ResolvedHead, ParseResolvedPrefix, LStrip, Find;
  }

  lemma {:induction false} SecondPart(ref: Option<Ref>, gap: string, id: string, rest: string)
    requires IsBlank(gap) && Lacks(id, ']')
    ensures ResolvedHead(ref, LStrip(gap + ("[" + id + "]" + rest))) ==
      if ref.None? || ParseId(id).None? then None else Some(Head(ParseId(id).value, LStrip(rest), ref))
  {
    var after := "[" + id + "]" + rest;
    LStripOver(gap, after);
    assert after[..1] == "[";
    assert after == ("[" + id) + [']'] + rest;
    FindAfter("[" + id, ']', rest);
    assert after[1..|id| + 1] == id && after[|id| + 2..] == rest;
    hide ParseId, LStrip, Find;
  }

  // A line with an id in its first brackets is an open entry; one with a resolution there, and
  // the id in brackets behind it, is a resolved one.
  lemma {:induction false} HeadReads(inside: string, gap: string, id: string, rest: string)
    requires Lacks(inside, ']') && Lacks(id, ']') && IsBlank(gap)
    ensures !StartsWith(inside, "Resolved by D") ==>
      (ParseHead("- [" + inside + "]" + rest)
       == if ParseId(inside).None? then None else Some(Head(ParseId(inside).value, LStrip(rest), None)))
    ensures StartsWith(inside, "Resolved by D") ==>
      (ParseHead("- [" + inside + "]" + (gap + ("[" + id + "]" + rest)))
       == if ParseResolvedPrefix(inside).None? || ParseId(id).None? then None
          else Some(Head(ParseId(id).value, LStrip(rest), ParseResolvedPrefix(inside))))
  {
    FirstPart(inside, rest);
    FirstPart(inside, gap + ("[" + id + "]" + rest));
    SecondPart(ParseResolvedPrefix(inside), gap, id, rest);
    hide ParseHead, ParseId, ParseResolvedPrefix, LStrip, ResolvedHead;
  }

  lemma {:induction false} FindIs(s: string, c: char)
    ensures Find(s, c) >= 0 ==> s[Find(s, c)] == c && Lacks(s[..Find(s, c)], c)
    ensures Find(s, c) < 0 ==> Lacks(s, c)
  {
    if s != [] && s[0] != c {
      FindIs(s[1..], c);
      var k := Find(s[1..], c);
      if k >= 0 {
        assert s[..k + 1] == [s[0]] + s[1..][..k];
      } else {
        assert s == [s[0]] + s[1..];
      }
    }
  }

  // The text up to a closing bracket and behind it.
  lemma {:induction false} Closed(s: string, k: nat)
    requires 1 <= k < |s| && s[0] == '[' && s[k] == ']' && Lacks(s[..k], ']')
    ensures s == "[" + s[1..k] + "]" + s[k + 1..] && Lacks(s[1..k], ']')
  {
    assert s[..k] == "[" + s[1..k];
    forall i | 0 <= i < |s[1..k]| ensures s[1..k][i] != ']' { assert s[..k][i + 1] == s[1..k][i]; }
  }

  lemma {:induction false} Marked(line: string)
    requires StartsWith(line, HeadMark())
    ensures line == "- " + line[2..] && line[2..][0] == '['
  {
    assert line[..3] == "- [" && line[2] == line[..3][2];
  }

  lemma {:induction false} FirstForm(line: string) returns (inside: string, rest: string)
    requires ParseHead(line).Some?
    ensures Lacks(inside, ']') && line == "- [" + inside + "]" + rest
  {
    hide Find, ParseId, ParseResolvedPrefix, LStrip, ResolvedHead, Lacks;
    var r := line[2..];
    var close := Find(r, ']');
    FindIs(r, ']');
    Marked(line);
    hide ParseHead;
    Closed(r, close);
    inside, rest := r[1..close], r[close + 1..];
    assert "- " + ("[" + inside + "]" + rest) == "- [" + inside + "]" + rest;
  }

  lemma {:induction false} SecondForm(ref: Option<Ref>, tail: string) returns (gap: string, id: string, rest: string)
    requires ResolvedHead(ref, LStrip(tail)).Some?
    ensures Lacks(id, ']') && IsBlank(gap) && tail == gap + ("[" + id + "]" + rest)
  {
    var after := LStrip(tail);
    LStripSuffix(tail);
    LStripDrops(tail);
    gap := tail[..|tail| - |after|];
    FindIs(after, ']');
    var close := Find(after, ']');
    assert after[..1] == "[" && after[0] == after[..1][0];
    hide Find, LStrip, ParseId;
    Closed(after, close);
    id, rest := after[1..close], after[close + 1..];
    assert tail == gap + after;
  }

  // No other line reads as an entry.
  lemma {:induction false} HeadForm(line: string) returns (inside: string, gap: string, id: string, rest: string)
    requires ParseHead(line).Some?
    ensures Lacks(inside, ']') && Lacks(id, ']') && IsBlank(gap)
    ensures if StartsWith(inside, "Resolved by D") then line == "- [" + inside + "]" + (gap + ("[" + id + "]" + rest))
      else line == "- [" + inside + "]" + rest
  {
    inside, rest := FirstForm(line);
    gap, id := "", "";
    FirstPart(inside, rest);
    hide ParseHead, ParseId, ParseResolvedPrefix, LStrip, ResolvedHead, Find;
    if StartsWith(inside, "Resolved by D") {
      gap, id, rest := SecondForm(ParseResolvedPrefix(inside), rest);
    }
  }

  // ---- resolutions -------------------------------------------------------------------------------

  // A resolution is a decision number and, behind the separator, a date with blanks around it.
  lemma {:induction false} RefReads(num: string, tail: string)
    requires IsAsciiDecimal(num)
    ensures ParseResolvedPrefix("Resolved by D" + (num + " on " + tail)) ==
      if Value(num) < 1 || !IsIsoDate(Strip(tail)) then None else Some(Ref(Value(num), Strip(tail)))
  {
    var rest := num + " on " + tail;
    Prefixed("Resolved by D", rest);
    FindTextAfter(num, " on ", tail);
    assert rest[..|num|] == num && rest[|num| + 4..] == tail;
    hide Value, FindText, IsIsoDate, Strip;
    ParsedTail("Resolved by D" + rest, |num|);
  }

  lemma {:induction false} FindTextIs(s: string, p: string)
    requires FindText(s, p) >= 0
    ensures StartsWith(s[FindText(s, p)..], p)
  {
    if !StartsWith(s, p) {
      FindTextIs(s[1..], p);
      assert s[1..][FindText(s[1..], p)..] == s[FindText(s, p)..];
    } else {
      assert s[0..] == s;
    }
  }

  lemma {:induction false} Cut(rest: string, sep: nat)
    requires sep <= |rest| && StartsWith(rest[sep..], " on ")
    ensures rest == rest[..sep] + " on " + rest[sep + 4..]
  {
    assert rest[sep..][..4] == " on ";
  }

  // No other text reads as a resolution.
  lemma {:induction false} RefForm(text: string) returns (num: string, tail: string)
    requires ParseResolvedPrefix(text).Some?
    ensures IsAsciiDecimal(num) && text == "Resolved by D" + (num + " on " + tail)
  {
    var rest := text[13..];
    FindTextIs(rest, " on ");
    var sep := FindText(rest, " on ");
    assert text[..13] == "Resolved by D";
    hide Value, FindText, IsIsoDate, Strip;
    num, tail := rest[..sep], rest[sep + 4..];
    assert text == text[..13] + rest;
    assert num == rest[..sep] && IsAsciiDecimal(num);
    hide ParseResolvedPrefix, IsAsciiDecimal;
    Cut(rest, sep);
  }
}
