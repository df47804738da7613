// Decimal numerals and the bounded question-id codec.
module Decimal {
  // The codec converts numbers nine digits at a time.
  import opened Common

  predicate IsDigit(c: char) {
    '0' <= c <= '9'
  }

  // Non-empty and ASCII digits only.
  predicate IsAsciiDecimal(s: string) {
    s != [] && forall i :: 0 <= i < |s| ==> IsDigit(s[i])
  }

  function DigitOf(c: char): nat
    requires IsDigit(c)
  {
    c as int - '0' as int
  }

  function DigitChar(d: nat): char
    requires d < 10
    ensures IsDigit(DigitChar(d)) && DigitOf(DigitChar(d)) == d
  {
    ('0' as int + d) as char
  }

  predicate AllDigits(s: string) {
    forall i :: 0 <= i < |s| ==> IsDigit(s[i])
  }

  // The number a digit string denotes; leading zeros do not matter.
  function Value(s: string): nat
    requires AllDigits(s)
  {
    if s == [] then 0 else Value(s[..|s| - 1]) * 10 + DigitOf(s[|s| - 1])
  }

  // The ordinary decimal numeral.
  function Numeral(n: nat): (s: string)
    ensures IsAsciiDecimal(s)
  {
    if n < 10 then [DigitChar(n)] else Numeral(n / 10) + [DigitChar(n % 10)]
  }

  lemma {:induction false} ValueOfNumeral(n: nat)
    ensures Value(Numeral(n)) == n
  {
    if n < 10 {
      assert Numeral(n)[..0] == [];
    } else {
      ValueOfNumeral(n / 10);
      assert Numeral(n)[..|Numeral(n)| - 1] == Numeral(n / 10);
    }
  }

  lemma {:induction false} NumeralHead(n: nat)
    requires n > 0
    ensures Numeral(n)[0] != '0'
  {
    if n >= 10 { NumeralHead(n / 10); }
  }

  lemma {:induction false} ValuePositive(s: string)
    requires IsAsciiDecimal(s) && s[0] != '0'
    ensures Value(s) > 0
  {
    if |s| > 1 { ValuePositive(s[..|s| - 1]); }
  }

  // A digit string without a leading zero is the numeral of its value.
  lemma {:induction false} NumeralOfValue(s: string)
    requires IsAsciiDecimal(s) && s[0] != '0'
    ensures Numeral(Value(s)) == s
  {
    var m := |s| - 1;
    if m > 0 {
      NumeralOfValue(s[..m]);
      ValuePositive(s[..m]);
      assert s == s[..m] + [s[m]];
    }
  }

  function Pow10(k: nat): (p: nat)
    ensures p > 0
  {
    if k == 0 then 1 else 10 * Pow10(k - 1)
  }

  // Exactly `k` digits: the last `k` of the numeral, zero-padded.
  function Fixed(r: nat, k: nat): (s: string)
    ensures |s| == k && AllDigits(s)
  {
    if k == 0 then [] else Fixed(r / 10, k - 1) + [DigitChar(r % 10)]
  }

  lemma TimesTen(q: nat, p: nat)
    requires q > 0 && p > 0
    ensures q * (10 * p) == 10 * (q * p) && q * p >= 1
  {
  }

  lemma {:induction false} NumeralStep(x: nat, r: nat)
    requires x >= 1
    ensures Numeral(10 * x + r) == Numeral(x + r / 10) + [DigitChar(r % 10)]
  {
    var n := 10 * x + r;
    assert n / 10 == x + r / 10 && n % 10 == r % 10;
  }

  // Splitting a number at a power of ten splits its numeral.
  lemma {:induction false} NumeralSplit(q: nat, r: nat, k: nat)
    requires q > 0 && r < Pow10(k)
    ensures Numeral(q * Pow10(k) + r) == Numeral(q) + Fixed(r, k)
    decreases k
  {
    if k == 0 {
      assert q * Pow10(0) + r == q && Numeral(q) + [] == Numeral(q);
    } else {
      var x := q * Pow10(k - 1);
      TimesTen(q, Pow10(k - 1));
      NumeralSplit(q, r / 10, k - 1);
      NumeralStep(x, r);
      hide Numeral;
    }
  }

  function Zeros(n: nat): (s: string)
    ensures |s| == n && AllDigits(s)
  {
    seq(n, i => '0')
  }

  // Python's zero-padded formatting `{n:0kd}`.
  function ZeroPadded(n: nat, k: nat): (s: string)
    ensures IsAsciiDecimal(s)
  {
    Zeros(Max(k - |Numeral(n)|, 0)) + Numeral(n)
  }

  lemma {:induction false} FixedZero(k: nat)
    ensures Fixed(0, k) == Zeros(k)
  {
    if k > 0 {
      FixedZero(k - 1);
      assert Zeros(k - 1) + ['0'] == Zeros(k);
    }
  }

  lemma {:induction false} ZeroPaddedIsFixed(r: nat, k: nat)
    requires r < Pow10(k) && k > 0
    ensures ZeroPadded(r, k) == Fixed(r, k) && |Numeral(r)| <= k
    decreases k
  {
    if r < 10 {
      assert r / 10 == 0;
      FixedZero(k - 1);
    } else {
      ZeroPaddedIsFixed(r / 10, k - 1);
      assert Zeros(k - |Numeral(r)|) + (Numeral(r / 10) + [DigitChar(r % 10)])
          == (Zeros(k - |Numeral(r)|) + Numeral(r / 10)) + [DigitChar(r % 10)];
    }
  }

  lemma {:induction false} ValueOfZeros(z: nat)
    ensures Value(Zeros(z)) == 0
  {
    if z > 0 {
      ValueOfZeros(z - 1);
      assert Zeros(z)[..z - 1] == Zeros(z - 1);
    }
  }

  lemma {:induction false} ValueOfPadded(z: nat, s: string)
    requires AllDigits(s)
    ensures Value(Zeros(z) + s) == Value(s)
  {
    if s == [] {
      ValueOfZeros(z);
      assert Zeros(z) + s == Zeros(z);
    } else {
      var m := |s| - 1;
      ValueOfPadded(z, s[..m]);
      assert (Zeros(z) + s)[..z + m] == Zeros(z) + s[..m];
    }
  }

  const CHUNK: nat := 1_000_000_000

  // The tail chunks, most significant first, each as nine digits.
  function Tail(chunks: seq<nat>): string {
    if chunks == [] then [] else Tail(chunks[1..]) + ZeroPadded(chunks[0], 9)
  }

  lemma {:induction false} NinePow()
    ensures Pow10(9) == CHUNK
  {
    assert Pow10(4) == 10_000;
    assert Pow10(8) == 100_000_000;
  }

  lemma {:induction false} TailSnoc(chunks: seq<nat>, r: nat)
    ensures Tail(chunks + [r]) == ZeroPadded(r, 9) + Tail(chunks)
  {
    if chunks != [] {
      TailSnoc(chunks[1..], r);
      assert (chunks + [r])[1..] == chunks[1..] + [r];
    } else {
      assert Tail([r]) == Tail([]) + ZeroPadded(r, 9);
    }
  }

  // One `divmod` by the chunk size splits off nine digits.
  lemma {:induction false} Peel(n: nat)
    requires n / CHUNK > 0
    ensures Numeral(n) == Numeral(n / CHUNK) + ZeroPadded(n % CHUNK, 9)
  {
    NinePow();
    NumeralSplit(n / CHUNK, n % CHUNK, 9);
    ZeroPaddedIsFixed(n % CHUNK, 9);
  }

  // What is left to peel, followed by the chunks peeled so far, spells the number.
  ghost predicate Peeled(number: nat, n: nat, chunks: seq<nat>) {
    if n > 0 then Numeral(number) == Numeral(n) + Tail(chunks)
    else chunks != [] && Numeral(number) == Numeral(chunks[|chunks| - 1]) + Tail(chunks[..|chunks| - 1])
  }

  lemma {:induction false} PeelStep(number: nat, n: nat, chunks: seq<nat>)
    requires n > 0 && Peeled(number, n, chunks)
    ensures Peeled(number, n / CHUNK, chunks + [n % CHUNK])
  {
    hide Numeral, ZeroPadded;
    var q, r := n / CHUNK, n % CHUNK;
    assert (chunks + [r])[..|chunks + [r]| - 1] == chunks;
    if q > 0 {
      Peel(n);
      TailSnoc(chunks, r);
    } else {
      assert r == n;
    }
  }

  // Peels nine digits at a time; the result is the ordinary numeral.
  method FormatPositiveAsciiDecimal(number: nat) returns (s: string)
    requires number > 0
    ensures s == Numeral(number)
  {
    var n: nat := number;
    var chunks: seq<nat> := [];
    while n != 0
      invariant Peeled(number, n, chunks)
      decreases n
    {
      PeelStep(number, n, chunks);
      n, chunks := n / CHUNK, chunks + [n % CHUNK];
    }
    var head := Numeral(chunks[|chunks| - 1]);
    chunks := chunks[..|chunks| - 1];
    s := head;
    hide Numeral, ZeroPadded;
    var i := |chunks|;
    assert chunks[..i] == chunks;
    while i > 0
      invariant 0 <= i <= |chunks|
      invariant head + Tail(chunks) == s + Tail(chunks[..i])
    {
      i := i - 1;
      assert chunks[..i + 1] == chunks[..i] + [chunks[i]];
      TailSnoc(chunks[..i], chunks[i]);
      s := s + ZeroPadded(chunks[i], 9);
    }
  }

  // ---- question ids ------------------------------------------------------------

  const MAX_QUESTION_ID_DIGITS: nat := 18

  datatype IdError = NotPositiveInteger | TooManyDigits | NotQForm | NotCanonical

  datatype IdResult<T> = Ok(value: T) | Err(error: IdError)

  // At most eighteen digits.
  predicate InIdRange(n: nat) {
    0 < n < Pow10(MAX_QUESTION_ID_DIGITS)
  }

  method FormatQuestionId(number: int) returns (r: IdResult<string>)
    ensures r.Ok? <==> number > 0 && InIdRange(number)
    ensures r.Ok? ==> r.value == "Q" + Numeral(number)
  {
    if number < 1 { return Err(NotPositiveInteger); }
    if number >= Pow10(MAX_QUESTION_ID_DIGITS) { return Err(TooManyDigits); }
    var digits := FormatPositiveAsciiDecimal(number);
    r := Ok("Q" + digits);
  }

  function StripZeros(s: string): (r: string)
    ensures AllDigits(s) ==> AllDigits(r)
  {
    if s != [] && s[0] == '0' then StripZeros(s[1..]) else s
  }

  // The number a Q-form id names, as a value: what the parser accepts and returns.
  function QuestionNumber(s: string): Option<nat> {
    if |s| < 2 || s[0] != 'Q' || !IsAsciiDecimal(s[1..]) then None
    else if |StripZeros(s[1..])| > MAX_QUESTION_ID_DIGITS || Value(s[1..]) == 0 then None
    else Some(Value(s[1..]))
  }

  lemma {:induction false} StripZerosValue(s: string)
    requires AllDigits(s)
    ensures Value(StripZeros(s)) == Value(s)
    ensures StripZeros(s) == [] || StripZeros(s)[0] != '0'
  {
    if s != [] && s[0] == '0' {
      StripZerosValue(s[1..]);
      assert s == Zeros(1) + s[1..];
      ValueOfPadded(1, s[1..]);
    }
  }

  method ParseQuestionId(value: string) returns (r: IdResult<nat>)
    ensures r.Ok? <==> QuestionNumber(value).Some?
    ensures r.Ok? ==> QuestionNumber(value) == Some(r.value)
  {
    if |value| < 2 || value[0] != 'Q' { return Err(NotQForm); }
    var digits := value[1..];
    if !IsAsciiDecimal(digits) { return Err(NotQForm); }
    var significant := StripZeros(digits);
    StripZerosValue(digits);
    if |significant| > MAX_QUESTION_ID_DIGITS { return Err(TooManyDigits); }
    var number: nat := 0;
    for i := 0 to |significant|
      invariant number == Value(significant[..i])
    {
      assert significant[..i + 1][..i] == significant[..i];
      number := number * 10 + DigitOf(significant[i]);
    }
    assert significant[..|significant|] == significant;
    if number < 1 { return Err(NotQForm); }
    r := Ok(number);
  }

  // A numeral has at most `k` digits iff its number is below the `k`-th power of ten.
  lemma {:induction false} NumeralLength(n: nat, k: nat)
    requires k > 0
    ensures |Numeral(n)| <= k <==> n < Pow10(k)
    decreases k
  {
    if k == 1 {
      assert Pow10(1) == 10 * Pow10(0);
    } else if n >= 10 {
      NumeralLength(n / 10, k - 1);
      assert n < 10 * Pow10(k - 1) <==> n / 10 < Pow10(k - 1);
    }
  }

  lemma {:induction false} StripNothing(s: string)
    requires s == [] || s[0] != '0'
    ensures StripZeros(s) == s
  {}

  // Parsing a formatted id gives the number back, for every number within the bound.
  lemma {:induction false} QuestionIdRoundTrip(n: nat)
    requires InIdRange(n)
    ensures QuestionNumber("Q" + Numeral(n)) == Some(n)
  {
    var s := "Q" + Numeral(n);
    assert s[1..] == Numeral(n);
    NumeralHead(n);
    StripNothing(Numeral(n));
    NumeralLength(n, MAX_QUESTION_ID_DIGITS);
    ValueOfNumeral(n);
  }

  // Every accepted id names a number within the bound.
  lemma {:induction false} QuestionNumberInRange(s: string)
    requires QuestionNumber(s).Some?
    ensures InIdRange(QuestionNumber(s).value)
  {
    var t := StripZeros(s[1..]);
    StripZerosValue(s[1..]);
    NumeralOfValue(t);
    NumeralLength(Value(t), MAX_QUESTION_ID_DIGITS);
  }

  // The formatted form of some number within the bound.
  ghost predicate IsCanonicalId(s: string) {
    exists n: nat :: InIdRange(n) && s == "Q" + Numeral(n)
  }

  // An id is canonical exactly when formatting the number it parses to returns it.
  lemma {:induction false} CanonicalIff(s: string)
    ensures IsCanonicalId(s) <==> QuestionNumber(s).Some? && s == "Q" + Numeral(QuestionNumber(s).value)
  {
    if IsCanonicalId(s) {
      var n: nat :| InIdRange(n) && s == "Q" + Numeral(n);
      QuestionIdRoundTrip(n);
    }
    if QuestionNumber(s).Some? { QuestionNumberInRange(s); }
  }

  method ValidateQuestionId(value: string) returns (r: IdResult<string>)
    ensures r.Ok? <==> IsCanonicalId(value)
    ensures r.Ok? ==> r.value == value
  {
    var number := ParseQuestionId(value);
    CanonicalIff(value);
    if number.Err? { return Err(number.error); }
    QuestionNumberInRange(value);
    var canonical := FormatQuestionId(number.value);
    if value != canonical.value { return Err(NotCanonical); }
    r := Ok(value);
  }
}
