// What a title's file-name slug is.
module Slugs {
  // The words of letters and digits in the lower-cased title, with single dashes between
  // them, cut to the length limit at the last dash that leaves enough.
  import opened Identifiers
  import opened Text
  import opened Commit

  // What a slug keeps are the ASCII letters and digits.
  lemma {:induction false} AlnumIff(c: char)
    ensures IsAlnum(c) <==> c in LOWER || c in UPPER || c in "0123456789"
  {
    assert forall k :: 0 <= k < 26 ==> UPPER[k] as int == 65 + k && LOWER[k] as int == 97 + k;
    if 'a' <= c <= 'z' { assert LOWER[c as int - 97] == c; }
    if 'A' <= c <= 'Z' { assert UPPER[c as int - 65] == c; }
  }

  // Everything but letters and digits turned into spaces.
  function Blanked(s: string): (r: string)
    ensures |r| == |s|
  {
    seq(|s|, i requires 0 <= i < |s| => if IsAlnum(s[i]) then s[i] else ' ')
  }

  lemma {:induction false} BlankedCons(s: string)
    requires s != []
    ensures Blanked(s) == (if IsAlnum(s[0]) then [s[0]] else " ") + Blanked(s[1..])
  {
  }

  // The leading run of letters and digits.
  function Run(s: string): (r: string)
    ensures |r| <= |s|
    ensures s != [] && IsAlnum(s[0]) ==> r != []
  {
    if s != [] && IsAlnum(s[0]) then [s[0]] + Run(s[1..]) else []
  }

  lemma {:induction false} RunExactly(s: string)
    ensures s[..|Run(s)|] == Run(s) && (forall i :: 0 <= i < |Run(s)| ==> IsAlnum(s[i]))
    ensures |Run(s)| < |s| ==> !IsAlnum(s[|Run(s)|])
  {
    if s != [] && IsAlnum(s[0]) {
      RunExactly(s[1..]);
      var r := Run(s[1..]);
      assert s == [s[0]] + s[1..];
      forall i | 0 <= i < |Run(s)| ensures IsAlnum(s[i]) {
        if i > 0 { assert s[i] == s[1..][i - 1]; }
      }
    }
  }

  lemma {:induction false} BlankedRun(s: string)
    requires s != [] && IsAlnum(s[0])
    ensures FirstWord(Blanked(s)) == Run(s)
    ensures Words(Blanked(s)) == [Run(s)] + Words(Blanked(s[|Run(s)|..]))
  {
    RunExactly(s);
    var w, t := Run(s), Blanked(s);
    var rest := Blanked(s[|w|..]);
    assert t == w + rest;
    SolidFirst(w, rest);
    assert t[0] == s[0] && LStrip(t) == t;
    assert t[|w|..] == rest;
  }

  lemma {:induction false} BlankedGap(s: string)
    requires s != [] && !IsAlnum(s[0])
    ensures Words(Blanked(s)) == Words(Blanked(s[1..]))
  {
    BlankedCons(s);
    WordsOfSpaced(Blanked(s[1..]));
  }

  // The slug characters of a leading run are the run itself.
  lemma {:induction false} SlugRun(s: string)
    ensures SlugChars(s, false) == Run(s) + SlugChars(s[|Run(s)|..], false)
  {
    if s != [] && IsAlnum(s[0]) {
      SlugRun(s[1..]);
      assert s[1..][|Run(s[1..])|..] == s[|Run(s)|..];
    } else {
      assert s[0..] == s;
    }
  }

  lemma {:induction false} SlugAfterRun(s: string, prev: bool)
    requires s != [] && IsAlnum(s[0])
    ensures SlugChars(s, prev) == Run(s) + SlugChars(s[|Run(s)|..], false)
  {
    SlugRun(s);
  }

  // A dash at the end when the text goes on after its last word.
  function Tail(s: string): string {
    if s != [] && !IsAlnum(s[|s| - 1]) then "-" else ""
  }

  ghost predicate SlugIs(s: string) {
    var ws := Words(Blanked(s));
    if ws == [] then SlugChars(s, true) == "" else SlugChars(s, true) == Join("-", ws) + Tail(s)
  }

  lemma {:induction false} TailOf(s: string, n: nat)
    requires n < |s|
    ensures Tail(s[n..]) == Tail(s)
  {
  }

  lemma {:induction false} OneMoreWord(s: string, w: string, rest: string, ws: seq<string>)
    requires rest != [] && !IsAlnum(rest[0]) && Words(Blanked(s)) == [w] + ws && Tail(s) == Tail(rest)
    requires |rest| > 1 ==> Tail(rest) == Tail(rest[1..])
    requires SlugChars(s, true) == w + ("-" + SlugChars(rest[1..], true))
    requires if ws == [] then SlugChars(rest[1..], true) == "" else SlugChars(rest[1..], true) == Join("-", ws) + Tail(rest[1..])
    requires ws == [] ==> forall i :: 0 <= i < |rest[1..]| ==> !IsAlnum(rest[1..][i])
    requires |rest| == 1 ==> ws == []
    ensures SlugIs(s)
  {
    hide Words, SlugChars, Blanked, IsAlnum;
    assert ([w] + ws)[1..] == ws;
    if ws == [] {
      if |rest| > 1 { assert !IsAlnum(rest[1..][|rest| - 2]); }
      assert Join("-", [w]) == w;
    } else {
      assert Join("-", [w] + ws) == w + "-" + Join("-", ws);
      assert w + ("-" + (Join("-", ws) + Tail(s))) == w + "-" + Join("-", ws) + Tail(s);
    }
  }

  lemma {:induction false} NoneLeft(s: string)
    requires Words(Blanked(s)) == []
    ensures forall i :: 0 <= i < |s| ==> !IsAlnum(s[i])
  {
    NoWords(Blanked(s));
    forall i | 0 <= i < |s| ensures !IsAlnum(s[i]) { assert IsSpace(Blanked(s)[i]); }
  }

  lemma {:induction false} SlugSpelledRun(s: string)
    requires s != [] && IsAlnum(s[0])
    ensures SlugIs(s)
    decreases |s|, 0
  {
    var w := Run(s);
    RunExactly(s);
    BlankedRun(s);
    SlugAfterRun(s, true);
    var rest := s[|w|..];
    if rest == [] {
      assert Words(Blanked(rest)) == [];
      assert IsAlnum(s[|s| - 1]);
    } else {
      SlugSpelled(rest[1..]);
      BlankedGap(rest);
      TailOf(s, |w|);
      if |rest| > 1 { TailOf(rest, 1); }
      assert SlugChars(s, true) == w + ("-" + SlugChars(rest[1..], true));
      if Words(Blanked(rest[1..])) == [] { NoneLeft(rest[1..]); }
      hide Words, SlugChars, Blanked, Run;
      OneMoreWord(s, w, rest, Words(Blanked(rest[1..])));
    }
  }

  // After a dash or at the start, the characters are the words with dashes between them.
  lemma {:induction false} SlugSpelled(s: string)
    ensures SlugIs(s)
    decreases |s|
  {
    if s == [] {
      assert Words(Blanked(s)) == [];
    } else if !IsAlnum(s[0]) {
      SlugSpelled(s[1..]);
      BlankedGap(s);
      if |s| > 1 { TailOf(s, 1); } else { assert Words(Blanked(s[1..])) == []; }
    } else {
      SlugSpelledRun(s);
    }
  }

  ghost predicate AllAlnum(ws: seq<string>) {
    forall w :: w in ws ==> w != [] && forall i :: 0 <= i < |w| ==> IsAlnum(w[i])
  }

  lemma {:induction false} WordsAlnum(s: string)
    ensures AllAlnum(Words(Blanked(s)))
    decreases |s|
  {
    if s == [] {
      assert Words(Blanked(s)) == [];
    } else if !IsAlnum(s[0]) {
      BlankedGap(s);
      WordsAlnum(s[1..]);
    } else {
      BlankedRun(s);
      RunExactly(s);
      WordsAlnum(s[|Run(s)|..]);
      hide Words, Blanked;
      forall i | 0 <= i < |Run(s)| ensures IsAlnum(Run(s)[i]) { assert s[i] == s[..|Run(s)|][i]; }
    }
  }

  lemma {:induction false} JoinEnds(ws: seq<string>)
    requires AllAlnum(ws) && ws != []
    ensures var r := Join("-", ws); r != [] && r[0] != '-' && r[|r| - 1] != '-'
  {
    assert ws[0] in ws;
    if |ws| > 1 { JoinEnds(ws[1..]); }
  }

  lemma {:induction false} StripDashesOf(a: string, t: string, b: string)
    requires a in {"", "-"} && b in {"", "-"} && (t != [] ==> t[0] != '-' && t[|t| - 1] != '-')
    ensures StripDashes(a + t + b) == t
    decreases |a| + |b|
  {
    var s := a + t + b;
    if a == "-" {
      assert s[1..] == "" + t + b;
      StripDashesOf("", t, b);
    } else if b == "-" {
      assert s == t + "-" && s[..|s| - 1] == "" + t + "";
      if t == [] { assert s[1..] == "" + t + ""; }
      StripDashesOf("", t, "");
    } else {
      assert s == t;
    }
  }

  // The words of letters and digits, lower-cased, with single dashes between them.
  function WholeSlug(title: string): string {
    Join("-", Words(Blanked(Lower(title))))
  }

  lemma {:induction false} SlugLead(s: string) returns (lead: string)
    ensures lead in {"", "-"} && SlugChars(s, false) == lead + SlugChars(s, true)
  {
    lead := if s != [] && !IsAlnum(s[0]) then "-" else "";
  }

  lemma {:induction false} StripDashesAll(a: string, t: string, b: string)
    requires a in {"", "-"} && b in {"", "-"} && (t != [] ==> t[0] != '-' && t[|t| - 1] != '-')
    ensures StripDashes(a + (t + b)) == t
  {
    hide StripDashes;
    StripDashesOf(a, t, b);
    assert a + (t + b) == a + t + b;
  }

  lemma {:induction false} SlugBeforeCut(title: string)
    ensures StripDashes(SlugChars(Lower(title), false)) == WholeSlug(title)
  {
    var s := Lower(title);
    var ws := Words(Blanked(s));
    SlugSpelled(s);
    WordsAlnum(s);
    if ws != [] { JoinEnds(ws); }
    hide Words, Blanked, SlugChars, Lower, StripDashes, Join, IsAlnum;
    var lead := SlugLead(s);
    if ws == [] {
      assert SlugChars(s, true) == "" + "";
      StripDashesAll(lead, "", "");
    } else {
      StripDashesAll(lead, Join("-", ws), Tail(s));
    }
  }

  lemma {:induction false} DashCut(s: string)
    ensures '-' !in s ==> BeforeLastDash(s) == s
    ensures '-' in s ==> var k := |BeforeLastDash(s)|;
      k < |s| && s[k] == '-' && s[..k] == BeforeLastDash(s) && forall i :: k < i < |s| ==> s[i] != '-'
  {
    if '-' in s && s[|s| - 1] != '-' {
      var t := s[..|s| - 1];
      assert s == t + [s[|s| - 1]];
      DashCut(t);
    }
  }

  // The cut slug is a beginning of the whole one: all of it when that fits, else it ends at
  // the last dash within the limit, or at the limit when that would leave less than half.
  lemma {:induction false} SlugExactly(title: string)
    ensures var whole, r := WholeSlug(title), Slugify(title);
      && r <= whole && (|whole| <= 60 ==> r == whole) && |r| <= 60
      && (|whole| > 60 ==>
            || (|r| == 60 && forall k :: 30 <= k < 60 ==> whole[k] != '-')
            || (30 <= |r| < 60 && whole[|r|] == '-' && forall k :: |r| < k < 60 ==> whole[k] != '-'))
  {
    SlugBeforeCut(title);
    var whole := WholeSlug(title);
    hide WholeSlug, StripDashes, SlugChars, BeforeLastDash;
    if |whole| > 60 {
      var cut := whole[..60];
      DashCut(cut);
      assert forall i :: 0 <= i < 60 ==> cut[i] == whole[i];
    }
  }
}
