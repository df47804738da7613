// ASCII text: whitespace stripping, case folding, words, and newline splitting, with the
// title normal form that claims are compared by.
module Text {
  import opened Identifiers

  // Python's `str.isspace` on ASCII.
  predicate IsSpace(c: char) {
    c == ' ' || 9 <= c as int <= 13 || 28 <= c as int <= 31
  }

  predicate IsBlank(s: string) {
    forall i :: 0 <= i < |s| ==> IsSpace(s[i])
  }

  function LStrip(s: string): (r: string)
    ensures |r| <= |s|
    ensures r == [] || !IsSpace(r[0])
  {
    if s != [] && IsSpace(s[0]) then LStrip(s[1..]) else s
  }

  function RStrip(s: string): (r: string)
    ensures |r| <= |s|
    ensures r == [] || !IsSpace(r[|r| - 1])
  {
    if s != [] && IsSpace(s[|s| - 1]) then RStrip(s[..|s| - 1]) else s
  }

  function Strip(s: string): string {
    RStrip(LStrip(s))
  }

  lemma {:induction false} LStripSuffix(s: string)
    ensures s[|s| - |LStrip(s)|..] == LStrip(s)
  {
    if s != [] && IsSpace(s[0]) { LStripSuffix(s[1..]); }
  }

  lemma {:induction false} RStripPrefix(s: string)
    ensures s[..|RStrip(s)|] == RStrip(s)
  {
    if s != [] && IsSpace(s[|s| - 1]) { RStripPrefix(s[..|s| - 1]); }
  }

  lemma {:induction false} LStripOver(a: string, t: string)
    requires IsBlank(a) && (t == [] || !IsSpace(t[0]))
    ensures LStrip(a + t) == t
  {
    if a == [] {
      assert a + t == t;
    } else {
      LStripOver(a[1..], t);
      assert (a + t)[1..] == a[1..] + t;
    }
  }

  lemma {:induction false} RStripOver(t: string, b: string)
    requires IsBlank(b) && (t == [] || !IsSpace(t[|t| - 1]))
    ensures RStrip(t + b) == t
  {
    if b == [] {
      assert t + b == t;
    } else {
      RStripOver(t, b[..|b| - 1]);
      assert (t + b)[..|t + b| - 1] == t + b[..|b| - 1];
    }
  }

  // Stripping takes blanks off both ends and nothing else.
  lemma {:induction false} StripExactly(s: string, a: string, t: string, b: string)
    requires s == a + t + b && IsBlank(a) && IsBlank(b)
    requires t != [] ==> !IsSpace(t[0]) && !IsSpace(t[|t| - 1])
    requires t == [] ==> b == []
    ensures Strip(s) == t
  {
    assert s == a + (t + b);
    LStripOver(a, t + b);
    RStripOver(t, b);
  }

  lemma {:induction false} LStripDrops(s: string)
    ensures IsBlank(s[..|s| - |LStrip(s)|])
  {
    if s != [] && IsSpace(s[0]) {
      LStripDrops(s[1..]);
      assert s[..|s| - |LStrip(s)|] == [s[0]] + s[1..][..|s| - 1 - |LStrip(s)|];
    }
  }

  lemma {:induction false} RStripDrops(s: string)
    ensures IsBlank(s[|RStrip(s)|..])
  {
    if s != [] && IsSpace(s[|s| - 1]) {
      RStripDrops(s[..|s| - 1]);
      assert s[|RStrip(s)|..] == s[..|s| - 1][|RStrip(s)|..] + [s[|s| - 1]];
    }
  }

  // Every text is its stripped form between two blank ends.
  lemma {:induction false} StripSplits(s: string) returns (a: string, b: string)
    ensures s == a + Strip(s) + b && IsBlank(a) && IsBlank(b)
    ensures Strip(s) != [] ==> !IsSpace(Strip(s)[0]) && !IsSpace(Strip(s)[|Strip(s)| - 1])
  {
    var l, t := LStrip(s), Strip(s);
    LStripSuffix(s);
    LStripDrops(s);
    RStripPrefix(l);
    RStripDrops(l);
    a, b := s[..|s| - |l|], l[|t|..];
    assert l == t + b;
    assert s == a + l;
    if t != [] { assert t[0] == l[0]; }
  }

  function FirstWord(s: string): (w: string)
    ensures |w| <= |s| && s[..|w|] == w
    ensures s != [] && !IsSpace(s[0]) ==> w != []
    ensures forall i :: 0 <= i < |w| ==> !IsSpace(w[i])
    ensures |w| < |s| ==> IsSpace(s[|w|])
  {
    if s == [] || IsSpace(s[0]) then [] else [s[0]] + FirstWord(s[1..])
  }

  // Maximal runs of non-whitespace.
  function Words(s: string): seq<string>
    decreases |s|
  {
    var t := LStrip(s);
    if t == [] then [] else [FirstWord(t)] + Words(t[|FirstWord(t)|..])
  }

  function Join(sep: string, parts: seq<string>): string {
    if parts == [] then []
    else if |parts| == 1 then parts[0]
    else parts[0] + sep + Join(sep, parts[1..])
  }

  // Collapse whitespace and fold case.
  function NormalizeTitle(title: string): string {
    Join(" ", Words(Lower(title)))
  }

  // ---- normalizing twice changes nothing -------------------------------------------

  ghost predicate IsWord(w: string) {
    w != [] && forall i :: 0 <= i < |w| ==> !IsSpace(w[i]) && LowerChar(w[i]) == w[i]
  }

  lemma {:induction false} FirstWordOf(w: string, rest: string)
    requires IsWord(w) && (rest == [] || IsSpace(rest[0]))
    ensures FirstWord(w + rest) == w
  {
    if |w| == 1 {
      assert (w + rest)[1..] == rest;
      assert w + rest == [w[0]] + rest;
      assert FirstWord(rest) == [];
    } else {
      FirstWordOf(w[1..], rest);
      assert (w + rest)[1..] == w[1..] + rest;
    }
  }

  // A word followed by nothing or by a space is split off whole.
  lemma {:induction false} WordsCons(w: string, rest: string)
    requires IsWord(w) && (rest == [] || IsSpace(rest[0]))
    ensures Words(w + rest) == [w] + Words(rest)
  {
    FirstWordOf(w, rest);
    hide FirstWord;
    assert LStrip(w + rest) == w + rest;
    assert (w + rest)[|w|..] == rest;
  }

  lemma {:induction false} WordsOfSpaced(s: string)
    ensures Words(" " + s) == Words(s)
  {
    hide FirstWord;
    assert (" " + s)[1..] == s;
    assert LStrip(" " + s) == LStrip(s);
  }

  ghost predicate AllWords(ws: seq<string>) {
    forall w :: w in ws ==> IsWord(w)
  }

  lemma {:induction false} WordsOfNothing()
    ensures Words("") == []
  {}

  // The first joined word comes back first.
  lemma {:induction false} JoinStep(ws: seq<string>)
    requires ws != [] && AllWords(ws)
    ensures Words(Join(" ", ws)) == [ws[0]] + Words(Join(" ", ws[1..]))
  {
    hide Words, IsWord;
    assert ws[0] in ws;
    if |ws| == 1 {
      WordsCons(ws[0], "");
      assert ws[0] + "" == ws[0];
    } else {
      var tail := Join(" ", ws[1..]);
      WordsCons(ws[0], " " + tail);
      WordsOfSpaced(tail);
      assert ws[0] + " " + tail == ws[0] + (" " + tail);
    }
  }

  lemma {:induction false} WordsOfJoin(ws: seq<string>)
    requires AllWords(ws)
    ensures Words(Join(" ", ws)) == ws
  {
    hide Words, IsWord;
    if ws == [] {
      WordsOfNothing();
    } else {
      JoinStep(ws);
      WordsOfJoin(ws[1..]);
      assert ws == [ws[0]] + ws[1..];
    }
  }

  ghost predicate Folded(s: string) {
    forall i :: 0 <= i < |s| ==> LowerChar(s[i]) == s[i]
  }

  lemma {:induction false} LowerFolds(s: string)
    ensures Folded(Lower(s))
    ensures Folded(s) ==> Lower(s) == s
  {}

  lemma {:induction false} JoinFolded(ws: seq<string>)
    requires AllWords(ws)
    ensures Folded(Join(" ", ws))
  {
    assert ws != [] ==> ws[0] in ws;
    if |ws| > 1 { JoinFolded(ws[1..]); }
  }

  lemma {:induction false} FoldedSuffix(s: string, n: nat)
    requires Folded(s) && n <= |s|
    ensures Folded(s[n..])
  {}

  lemma {:induction false} FirstIsWord(t: string)
    requires Folded(t) && t != [] && !IsSpace(t[0])
    ensures IsWord(FirstWord(t)) && Folded(t[|FirstWord(t)|..])
  {
    var w := FirstWord(t);
    forall i | 0 <= i < |w| ensures LowerChar(w[i]) == w[i] { assert w[i] == t[i]; }
  }

  lemma {:induction false} WordsAreWords(s: string)
    requires Folded(s)
    ensures AllWords(Words(s))
    decreases |s|
  {
    hide IsWord;
    var t := LStrip(s);
    LStripSuffix(s);
    if t != [] {
      FoldedSuffix(s, |s| - |t|);
      FirstIsWord(t);
      WordsAreWords(t[|FirstWord(t)|..]);
      hide Folded;
    }
  }

  // A normalized title is its own normal form.
  lemma {:induction false} NormalizeTwice(title: string)
    ensures NormalizeTitle(NormalizeTitle(title)) == NormalizeTitle(title)
  {
    LowerFolds(title);
    var ws := Words(Lower(title));
    WordsAreWords(Lower(title));
    WordsOfJoin(ws);
    JoinFolded(ws);
    LowerFolds(Join(" ", ws));
  }

  // ---- what equal normal forms mean ------------------------------------------------

  const UPPER := "ABCDEFGHIJKLMNOPQRSTUVWXYZ"

  const LOWER := "abcdefghijklmnopqrstuvwxyz"

  // Folding takes each capital to its small letter and leaves everything else alone.
  lemma {:induction false} LowerLetters(s: string, i: nat)
    requires i < |s|
    ensures |Lower(s)| == |s|
    ensures s[i] !in UPPER ==> Lower(s)[i] == s[i]
    ensures forall k :: 0 <= k < 26 && s[i] == UPPER[k] ==> Lower(s)[i] == LOWER[k]
  {
    assert forall k :: 0 <= k < 26 ==> UPPER[k] as int == 65 + k && LOWER[k] as int == 97 + k;
    if 'A' <= s[i] <= 'Z' {
      var k := s[i] as int - 65;
      assert UPPER[k] == s[i];
    }
  }

  ghost predicate SpellsFrom(s: string, words: seq<string>, n: nat)
    requires words != []
    decreases |words|, 0
  {
    var m := n + |words[0]|;
    && m <= |s| && IsBlank(s[..n]) && s[n..m] == words[0] && (m < |s| ==> IsSpace(s[m]))
    && Spells(s[m..], words[1..])
  }

  // The text is the words with blanks between them and around them.
  ghost predicate Spells(s: string, words: seq<string>)
    decreases |words|
  {
    if words == [] then IsBlank(s)
    else exists n: nat :: SpellsFrom(s, words, n)
  }

  ghost predicate Solid(w: string) {
    w != [] && forall i :: 0 <= i < |w| ==> !IsSpace(w[i])
  }

  lemma {:induction false} NoWords(s: string)
    ensures Words(s) == [] <==> IsBlank(s)
  {
    LStripSuffix(s);
    LStripDrops(s);
    var t := LStrip(s);
    if t == [] {
      assert s[..|s|] == s;
    } else {
      assert s[|s| - |t|] == t[0];
    }
  }

  lemma {:induction false} WordsSpell(s: string)
    ensures Spells(s, Words(s)) && forall w :: w in Words(s) ==> Solid(w)
    decreases |s|
  {
    var t := LStrip(s);
    LStripSuffix(s);
    LStripDrops(s);
    NoWords(s);
    if t != [] {
      var w := FirstWord(t);
      WordsSpell(t[|w|..]);
      var n: nat := |s| - |t|;
      assert s[n..n + |w|] == w && s[n + |w|..] == t[|w|..];
      hide Words;
      assert SpellsFrom(s, [w] + Words(t[|w|..]), n) by {
        assert ([w] + Words(t[|w|..]))[1..] == Words(t[|w|..]);
      }
    }
  }

  lemma {:induction false} SolidFirst(w: string, rest: string)
    requires Solid(w) && (rest == [] || IsSpace(rest[0]))
    ensures FirstWord(w + rest) == w
  {
    var v, t := FirstWord(w + rest), w + rest;
    assert forall i :: 0 <= i < |v| ==> v[i] == t[i];
    assert forall i :: 0 <= i < |w| ==> t[i] == w[i] && !IsSpace(t[i]);
    assert |w| < |t| ==> t[|w|] == rest[0];
    assert |v| < |t| ==> IsSpace(t[|v|]);
    assert |v| == |w|;
    assert v == (w + rest)[..|w|] == w;
  }

  lemma {:induction false} FirstSpelled(s: string, words: seq<string>, n: nat)
    requires words != [] && SpellsFrom(s, words, n) && Solid(words[0])
    ensures Words(s) == [words[0]] + Words(s[n + |words[0]|..])
  {
    var w := words[0];
    var rest := s[n + |w|..];
    assert s == s[..n] + (w + rest);
    LStripOver(s[..n], w + rest);
    SolidFirst(w, rest);
    assert (w + rest)[|w|..] == rest;
  }

  lemma {:induction false} SpelledFrom(s: string, words: seq<string>) returns (n: nat)
    requires words != [] && Spells(s, words)
    ensures SpellsFrom(s, words, n)
  {
    n :| SpellsFrom(s, words, n);
  }

  // The words of a text are the one list of blank-free words it spells.
  lemma {:induction false} WordsIff(s: string, words: seq<string>)
    ensures words == Words(s) <==> Spells(s, words) && forall w :: w in words ==> Solid(w)
    decreases |words|
  {
    WordsSpell(s);
    if Spells(s, words) && forall w :: w in words ==> Solid(w) {
      hide Solid;
      if words == [] {
        NoWords(s);
      } else {
        var n := SpelledFrom(s, words);
        assert words[0] in words;
        FirstSpelled(s, words, n);
        WordsIff(s[n + |words[0]|..], words[1..]);
        assert words == [words[0]] + words[1..];
      }
    }
  }

  // Two titles have one normal form iff their lower-cased words are the same.
  lemma {:induction false} NormalTitlesEqualIff(a: string, b: string)
    ensures NormalizeTitle(a) == NormalizeTitle(b) <==> Words(Lower(a)) == Words(Lower(b))
  {
    LowerFolds(a);
    LowerFolds(b);
    WordsAreWords(Lower(a));
    WordsAreWords(Lower(b));
    WordsOfJoin(Words(Lower(a)));
    WordsOfJoin(Words(Lower(b)));
  }

  // Every blank is a single space with a letter on both sides.
  ghost predicate SingleSpaced(s: string) {
    && (forall i :: 0 <= i < |s| && IsSpace(s[i]) ==> s[i] == ' ' && 0 < i < |s| - 1)
    && (forall i :: 0 <= i < |s| - 1 && IsSpace(s[i]) ==> !IsSpace(s[i + 1]))
  }

  lemma {:induction false} JoinSpaced(ws: seq<string>)
    requires AllWords(ws)
    ensures SingleSpaced(Join(" ", ws))
    ensures ws != [] ==> Join(" ", ws) != [] && !IsSpace(Join(" ", ws)[0])
  {
    if ws != [] {
      assert ws[0] in ws;
      if |ws| > 1 {
        JoinSpaced(ws[1..]);
        var w, t := ws[0], Join(" ", ws[1..]);
        var r := w + " " + t;
        forall i | 0 <= i < |r| ensures r[i] == if i < |w| then w[i] else if i == |w| then ' ' else t[i - |w| - 1] {}
        hide Join;
        assert t != [] && !IsSpace(t[0]);
      }
    }
  }

  // A normal form is its words with single spaces between them.
  lemma {:induction false} NormalShape(title: string)
    ensures SingleSpaced(NormalizeTitle(title))
    ensures Words(NormalizeTitle(title)) == Words(Lower(title))
  {
    LowerFolds(title);
    WordsAreWords(Lower(title));
    WordsOfJoin(Words(Lower(title)));
    JoinSpaced(Words(Lower(title)));
  }
}
