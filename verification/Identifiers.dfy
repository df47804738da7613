// Decision numbers in file names: reading them back and rendering them. Text is ASCII.
module Identifiers {
  import opened Common
  import opened Decimal

  function LowerChar(c: char): char {
    if 'A' <= c <= 'Z' then (c as int + 32) as char else c
  }

  function Lower(s: string): (r: string)
    ensures |r| == |s|
  {
    seq(|s|, i requires 0 <= i < |s| => LowerChar(s[i]))
  }

  predicate StartsWith(s: string, p: string) {
    |p| <= |s| && s[..|p|] == p
  }

  predicate EndsWith(s: string, p: string) {
    |p| <= |s| && s[|s| - |p|..] == p
  }

  function RemoveSuffix(s: string, p: string): string {
    if p != [] && EndsWith(s, p) then s[..|s| - |p|] else s
  }

  // The leading run of ASCII digits.
  function LeadingDigits(s: string): (r: string)
    ensures AllDigits(r)
  {
    if s != [] && IsDigit(s[0]) then [s[0]] + LeadingDigits(s[1..]) else []
  }

  // `042-title[.md]`, `decision-042`, `D42` or `42`.
  function ExtractDecisionNumber(identifier: string): Option<nat> {
    var s := RemoveSuffix(identifier, ".md");
    var low := Lower(s);
    var rest := if StartsWith(low, "decision-") then s[|"decision-"|..]
                else if StartsWith(low, "d") && |s| > 1 && IsDigit(s[1]) then s[1..]
                else s;
    var leading := LeadingDigits(rest);
    if leading == [] then None else Some(Value(leading))
  }

  // The `NNN-` stem prefix.
  function DecisionNumberPrefix(n: nat): string {
    ZeroPadded(n, 3) + "-"
  }

  function DecisionFilename(stem: string): string {
    stem + ".md"
  }

  function DecisionPath(stem: string): string {
    "decisions/" + DecisionFilename(stem)
  }

  lemma {:induction false} LeadingDigitsStop(d: string, rest: string)
    requires AllDigits(d) && (rest == [] || !IsDigit(rest[0]))
    ensures LeadingDigits(d + rest) == d
  {
    if d == [] {
      assert d + rest == rest;
    } else {
      LeadingDigitsStop(d[1..], rest);
      assert (d + rest)[1..] == d[1..] + rest;
    }
  }

  lemma {:induction false} SuffixRemoved(stem: string)
    ensures RemoveSuffix(stem + ".md", ".md") == stem
  {
  }

  lemma {:induction false} PaddedValue(n: nat)
    ensures Value(ZeroPadded(n, 3)) == n
  {
    hide Value, Numeral;
    ValueOfPadded(Max(3 - |Numeral(n)|, 0), Numeral(n));
    ValueOfNumeral(n);
  }

  // No prefix is skipped in front of a digit.
  lemma {:induction false} DigitFirst(s: string)
    requires s != [] && IsDigit(s[0])
    ensures !StartsWith(Lower(s), "decision-") && !StartsWith(Lower(s), "d")
  {
    assert Lower(s)[0] == s[0];
  }

  // The file name rendered for a number carries exactly that number, whatever the slug.
  lemma {:induction false} FilenameNumber(n: nat, slug: string)
    ensures ExtractDecisionNumber(DecisionFilename(DecisionNumberPrefix(n) + slug)) == Some(n)
  {
    var d := ZeroPadded(n, 3);
    var stem := d + "-" + slug;
    assert stem == DecisionNumberPrefix(n) + slug;
    SuffixRemoved(stem);
    assert stem == d + ("-" + slug);
    PaddedValue(n);
    hide ZeroPadded, Value, RemoveSuffix, LeadingDigits;
    LeadingDigitsStop(d, "-" + slug);
    DigitFirst(stem);
  }
}
