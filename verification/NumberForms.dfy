// Which identifiers carry a decision number.
module NumberForms {
  import opened Common
  import opened Decimal
  import opened Identifiers

  // The text without one `.md` at its end.
  function Bare(s: string): string {
    RemoveSuffix(s, ".md")
  }

  lemma {:induction false} BareIs(s: string)
    ensures |s| >= 3 && s[|s| - 3..] == ".md" ==> s == Bare(s) + ".md"
    ensures !(|s| >= 3 && s[|s| - 3..] == ".md") ==> Bare(s) == s
  {
  }

  // A prefix of any letter case: none, a single d, or the whole word.
  predicate IsPrefix(prefix: string) {
    Lower(prefix) in {"", "d", "decision-"}
  }

  lemma {:induction false} LowerJoin(a: string, b: string)
    ensures Lower(a + b) == Lower(a) + Lower(b)
  {
  }

  lemma {:induction false} PrefixRead(prefix: string, digits: string, rest: string)
    requires IsPrefix(prefix) && IsAsciiDecimal(digits)
    ensures var s := prefix + (digits + rest); var low := Lower(s);
      && (Lower(prefix) == "decision-" <==> StartsWith(low, "decision-"))
      && (Lower(prefix) == "d" ==> StartsWith(low, "d") && |s| > 1 && IsDigit(s[1]))
      && (prefix == "" ==> !StartsWith(low, "d"))
      && s[|prefix|..] == digits + rest
  {
    var s := prefix + (digits + rest);
    LowerJoin(prefix, digits + rest);
    var low := Lower(s);
    assert low[|prefix|] == LowerChar(digits[0]) == digits[0];
    if StartsWith(low, "decision-") {
      assert low[..9][0] == 'd' && low[..9][1] == 'e';
      assert |prefix| != 0 && |prefix| != 1;
    }
    assert low[..|prefix|] == Lower(prefix);
    assert prefix == "" ==> low[0] != 'd' && low[..1][0] == low[0];
  }

  // A number is read behind such a prefix: the run of digits there, whatever follows.
  lemma {:induction false} NumberRead(s: string, prefix: string, digits: string, rest: string)
    requires Bare(s) == prefix + (digits + rest)
    requires IsPrefix(prefix) && IsAsciiDecimal(digits) && (rest == "" || !IsDigit(rest[0]))
    ensures ExtractDecisionNumber(s) == Some(Value(digits))
  {
    PrefixRead(prefix, digits, rest);
    LeadingDigitsStop(digits, rest);
    hide Lower, RemoveSuffix, Value, LeadingDigits, StartsWith;
    assert |Lower(prefix)| == |prefix|;
  }

  lemma {:induction false} LeadingRun(s: string)
    ensures LeadingDigits(s) <= s
    ensures |LeadingDigits(s)| < |s| ==> !IsDigit(s[|LeadingDigits(s)|])
  {
    if s != [] && IsDigit(s[0]) {
      LeadingRun(s[1..]);
      assert s == [s[0]] + s[1..];
    }
  }

  lemma {:induction false} PrefixOf(s: string) returns (n: nat)
    requires ExtractDecisionNumber(s).Some?
    ensures var b := Bare(s); n <= |b| && IsPrefix(b[..n]) && LeadingDigits(b[n..]) != []
  {
    var b := Bare(s);
    var low := Lower(b);
    n := if StartsWith(low, "decision-") then 9 else if StartsWith(low, "d") && |b| > 1 && IsDigit(b[1]) then 1 else 0;
    assert b == b[..n] + b[n..];
    LowerJoin(b[..n], b[n..]);
    assert low[..n] == Lower(b[..n]);
    assert b[0..] == b;
    hide RemoveSuffix, LeadingDigits, Lower;
  }

  // Every identifier that carries a number has that form.
  lemma {:induction false} NumberForm(s: string) returns (prefix: string, digits: string, rest: string)
    requires ExtractDecisionNumber(s).Some?
    ensures Bare(s) == prefix + (digits + rest) && IsPrefix(prefix) && IsAsciiDecimal(digits)
    ensures rest == "" || !IsDigit(rest[0])
  {
    var n := PrefixOf(s);
    var b := Bare(s);
    var t := b[n..];
    LeadingRun(t);
    hide Bare, ExtractDecisionNumber, IsPrefix;
    prefix, digits, rest := b[..n], LeadingDigits(t), t[|LeadingDigits(t)|..];
    assert t == digits + rest && b == prefix + t;
    hide LeadingDigits;
  }

  // The prefix of a file name: three digits, or all of a longer number, and a dash.
  lemma {:induction false} PrefixExactly(n: nat)
    ensures n < 1000 ==> DecisionNumberPrefix(n) == Fixed(n, 3) + "-"
    ensures n >= 1000 ==> DecisionNumberPrefix(n) == Numeral(n) + "-"
  {
    assert Pow10(0) == 1 && Pow10(1) == 10 && Pow10(2) == 100 && Pow10(3) == 1000;
    if n < 1000 {
      ZeroPaddedIsFixed(n, 3);
    } else {
      NumeralLength(n, 3);
      hide Numeral;
    }
  }
}
