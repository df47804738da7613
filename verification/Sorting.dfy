// Stable sorting by an integer-sequence key.
module Sorting {
  // Keys are compared lexicographically (what Python's `sorted(..., key=...)` does with tuple
  // keys); with order-preserving flat mapping.
  import opened Common

  predicate LexLe(a: seq<int>, b: seq<int>) {
    a == [] || (b != [] && (a[0] < b[0] || (a[0] == b[0] && LexLe(a[1..], b[1..]))))
  }

  lemma {:induction false} LexTotal(a: seq<int>, b: seq<int>)
    ensures LexLe(a, b) || LexLe(b, a)
  {
    if a != [] && b != [] { LexTotal(a[1..], b[1..]); }
  }

  lemma {:induction false} LexTrans(a: seq<int>, b: seq<int>, c: seq<int>)
    requires LexLe(a, b) && LexLe(b, c)
    ensures LexLe(a, c)
  {
    if a != [] && a[0] == b[0] && b[0] == c[0] { LexTrans(a[1..], b[1..], c[1..]); }
  }

  // One key comes before another iff it is a prefix of it or smaller where they first differ.
  lemma {:induction false} LexLeIff(a: seq<int>, b: seq<int>)
    ensures LexLe(a, b) <==> a <= b || exists k :: 0 <= k < |a| && k < |b| && a[..k] == b[..k] && a[k] < b[k]
  {
    if a != [] && b != [] {
      var s, t := a[1..], b[1..];
      assert a == [a[0]] + s && b == [b[0]] + t;
      if a[0] == b[0] {
        LexLeIff(s, t);
        if k :| 0 <= k < |s| && k < |t| && s[..k] == t[..k] && s[k] < t[k] {
          assert a[..k + 1] == [a[0]] + s[..k] && b[..k + 1] == [b[0]] + t[..k];
          assert a[k + 1] < b[k + 1];
        }
        if k :| 0 <= k < |a| && k < |b| && a[..k] == b[..k] && a[k] < b[k] {
          assert k > 0 && a[..k][1..] == s[..k - 1] && b[..k][1..] == t[..k - 1];
          assert s[k - 1] < t[k - 1];
        }
      } else {
        assert a[..0] == b[..0];
        assert forall k :: 0 < k <= |a| && k <= |b| ==> a[..k][0] != b[..k][0];
      }
    } else if a == [] {
      assert a <= b;
    }
  }

  lemma {:induction false} LexCons(x: int, a: seq<int>, y: int, b: seq<int>)
    ensures LexLe([x] + a, [y] + b) <==> x < y || (x == y && LexLe(a, b))
  {
    assert ([x] + a)[1..] == a && ([y] + b)[1..] == b;
  }

  function Insert<T>(key: T -> seq<int>, x: T, s: seq<T>): seq<T> {
    if s == [] then [x]
    else if LexLe(key(x), key(s[0])) then [x] + s
    else [s[0]] + Insert(key, x, s[1..])
  }

  // Stable: an element goes before the later elements whose keys are not smaller.
  function SortBy<T>(key: T -> seq<int>, s: seq<T>): seq<T> {
    if s == [] then [] else Insert(key, s[0], SortBy(key, s[1..]))
  }

  ghost predicate SortedBy<T>(key: T -> seq<int>, s: seq<T>) {
    forall i, j :: 0 <= i < j < |s| ==> LexLe(key(s[i]), key(s[j]))
  }

  lemma {:induction false} InsertSorts<T>(key: T -> seq<int>, x: T, s: seq<T>)
    requires SortedBy(key, s)
    ensures SortedBy(key, Insert(key, x, s))
    ensures multiset(Insert(key, x, s)) == multiset(s) + multiset{x}
  {
    if s == [] {
    } else if LexLe(key(x), key(s[0])) {
      forall j | 0 <= j < |s| ensures LexLe(key(x), key(s[j])) {
        if j > 0 { LexTrans(key(x), key(s[0]), key(s[j])); }
      }
    } else {
      InsertSorts(key, x, s[1..]);
      assert s == [s[0]] + s[1..];
      LexTotal(key(x), key(s[0]));
      var r := Insert(key, x, s[1..]);
      forall j | 0 <= j < |r| ensures LexLe(key(s[0]), key(r[j])) {
        assert r[j] in multiset(r);
        assert r[j] == x || r[j] in s[1..];
      }
    }
  }

  // Sorting orders the list and loses or repeats nothing.
  lemma {:induction false} SortBySorts<T>(key: T -> seq<int>, s: seq<T>)
    ensures SortedBy(key, SortBy(key, s))
    ensures multiset(SortBy(key, s)) == multiset(s)
  {
    if s != [] {
      SortBySorts(key, s[1..]);
      InsertSorts(key, s[0], SortBy(key, s[1..]));
      assert s == [s[0]] + s[1..];
    }
  }

  function WithKey<T>(key: T -> seq<int>, s: seq<T>, k: seq<int>): seq<T> {
    if s == [] then []
    else (if key(s[0]) == k then [s[0]] else []) + WithKey(key, s[1..], k)
  }

  lemma {:induction false} WithKeyCons<T>(key: T -> seq<int>, x: T, s: seq<T>, k: seq<int>)
    ensures WithKey(key, [x] + s, k) == (if key(x) == k then [x] else []) + WithKey(key, s, k)
  {
    assert ([x] + s)[1..] == s;
  }

  lemma {:induction false} EmptyMoves<T>(a: seq<T>, b: seq<T>, w: seq<T>)
    requires a == [] || b == []
    ensures b + (a + w) == a + (b + w)
  {
  }

  lemma {:induction false} InsertStable<T>(key: T -> seq<int>, x: T, s: seq<T>, k: seq<int>)
    ensures WithKey(key, Insert(key, x, s), k) == (if key(x) == k then [x] else []) + WithKey(key, s, k)
  {
    if s == [] || LexLe(key(x), key(s[0])) {
      assert Insert(key, x, s) == [x] + s;
      WithKeyCons(key, x, s, k);
    } else {
      InsertStable(key, x, s[1..], k);
      WithKeyCons(key, s[0], Insert(key, x, s[1..]), k);
      LexTotal(k, k);
      assert key(x) == k ==> key(s[0]) != k;
      var w := WithKey(key, s[1..], k);
      assert WithKey(key, s, k) == (if key(s[0]) == k then [s[0]] else []) + w;
      hide WithKey, LexLe;
      EmptyMoves(if key(x) == k then [x] else [], if key(s[0]) == k then [s[0]] else [], w);
    }
  }

  // The elements of one key keep their order.
  lemma {:induction false} SortByStable<T>(key: T -> seq<int>, s: seq<T>, k: seq<int>)
    ensures WithKey(key, SortBy(key, s), k) == WithKey(key, s, k)
  {
    if s != [] {
      SortByStable(key, s[1..], k);
      InsertStable(key, s[0], SortBy(key, s[1..]), k);
    }
  }

  lemma {:induction false} SortByKeeps<T>(key: T -> seq<int>, s: seq<T>, x: T)
    ensures x in SortBy(key, s) <==> x in s
    ensures |SortBy(key, s)| == |s|
  {
    SortBySorts(key, s);
    var r := SortBy(key, s);
    assert x in multiset(r) <==> x in multiset(s);
    assert |multiset(r)| == |r| && |multiset(s)| == |s|;
  }

  lemma {:induction false} CountOnce<T>(s: seq<T>, x: T)
    requires Distinct(s) && x in s
    ensures multiset(s)[x] == 1
  {
    var i :| 0 <= i < |s| && s[i] == x;
    assert s == s[..i] + [x] + s[i + 1..];
    assert x !in s[..i] && x !in s[i + 1..];
  }

  lemma {:induction false} CountTwice<T>(s: seq<T>, i: nat, j: nat)
    requires i < j < |s|
    ensures s[i] == s[j] ==> multiset(s)[s[i]] >= 2
  {
    assert s == s[..i] + [s[i]] + s[i + 1..j] + [s[j]] + s[j + 1..];
  }

  // A rearrangement of a list without repetition has none.
  lemma {:induction false} SortedDistinct<T>(s: seq<T>, t: seq<T>)
    requires Distinct(s) && multiset(s) == multiset(t)
    ensures Distinct(t)
  {
    forall x | x in s ensures multiset(s)[x] == 1 { CountOnce(s, x); }
    forall i, j | 0 <= i < j < |t| ensures t[i] != t[j] {
      CountTwice(t, i, j);
      assert t[i] in multiset(t);
      assert multiset(t)[t[i]] == multiset(s)[t[i]];
    }
  }

  function FlatMap<A, B>(f: A -> seq<B>, s: seq<A>): seq<B> {
    if s == [] then [] else FlatMap(f, s[..|s| - 1]) + f(s[|s| - 1])
  }

  lemma {:induction false} FlatMapSnoc<A, B>(f: A -> seq<B>, s: seq<A>, i: nat)
    requires i < |s|
    ensures FlatMap(f, s[..i + 1]) == FlatMap(f, s[..i]) + f(s[i])
  {
    assert s[..i + 1][..i] == s[..i];
  }

  lemma {:induction false} FlatMapAppend<A, B>(f: A -> seq<B>, s: seq<A>, t: seq<A>)
    ensures FlatMap(f, s + t) == FlatMap(f, s) + FlatMap(f, t)
  {
    if t == [] {
      assert s + t == s;
    } else {
      FlatMapAppend(f, s, t[..|t| - 1]);
      assert (s + t)[..|s + t| - 1] == s + t[..|t| - 1];
    }
  }

  // Equal images at every position give equal flat maps.
  lemma {:induction false} FlatMapSame<A, B>(f: A -> seq<B>, g: A -> seq<B>, s: seq<A>, t: seq<A>)
    requires |s| == |t| && forall i :: 0 <= i < |s| ==> f(s[i]) == g(t[i])
    ensures FlatMap(f, s) == FlatMap(g, t)
  {
    if s != [] { FlatMapSame(f, g, s[..|s| - 1], t[..|t| - 1]); }
  }

  lemma {:induction false} FlatMapIn<A, B>(f: A -> seq<B>, s: seq<A>, b: B)
    ensures b in FlatMap(f, s) <==> exists i :: 0 <= i < |s| && b in f(s[i])
  {
    if s != [] {
      var n := |s| - 1;
      FlatMapIn(f, s[..n], b);
      if b in f(s[n]) {
      } else if b in FlatMap(f, s) {
        var i :| 0 <= i < n && b in f(s[..n][i]);
        assert b in f(s[i]);
      } else if i :| 0 <= i < |s| && b in f(s[i]) {
        assert i < n && b in f(s[..n][i]);
      }
    }
  }

  function Holding<A, B(==)>(f: A -> seq<B>, s: seq<A>, b: B): set<nat> {
    set i: nat | i < |s| && b in f(s[i])
  }

  lemma {:induction false} HoldingSnoc<A, B>(f: A -> seq<B>, s: seq<A>, b: B)
    requires s != []
    ensures |Holding(f, s, b)| == |Holding(f, s[..|s| - 1], b)| + (if b in f(s[|s| - 1]) then 1 else 0)
  {
    var n: nat := |s| - 1;
    var before := Holding(f, s[..n], b);
    var here: set<nat> := if b in f(s[n]) then {n} else {};
    forall i: nat ensures i in Holding(f, s, b) <==> i in before + here {}
    assert Holding(f, s, b) == before + here;
  }

  lemma {:induction false} CountedOnce<B>(r: seq<B>, b: B)
    requires multiset(r)[b] <= 1
    ensures multiset(r)[b] == if b in r then 1 else 0
  {
    assert b in r <==> b in multiset(r);
  }

  lemma {:induction false} HoldingNone<A, B>(f: A -> seq<B>, b: B)
    ensures Holding(f, [], b) == {}
  {
  }

  // When no image repeats an element, each occurrence comes from its own position.
  lemma {:induction false} FlatMapCount<A, B>(f: A -> seq<B>, s: seq<A>, b: B)
    requires forall i :: 0 <= i < |s| ==> multiset(f(s[i]))[b] <= 1
    ensures multiset(FlatMap(f, s))[b] == |Holding(f, s, b)|
  {
    hide Holding;
    if s != [] {
      var n := |s| - 1;
      FlatMapCount(f, s[..n], b);
      HoldingSnoc(f, s, b);
      CountedOnce(f(s[n]), b);
    } else {
      assert s == [];
      HoldingNone(f, b);
    }
  }
}
