// Sublists by position.
module Picking {
  import opened Common

  ghost predicate PicksAt<T>(s: seq<T>, chosen: nat -> bool, r: seq<T>, at: seq<nat>) {
    && |at| == |r|
    && (forall j, k :: 0 <= j < k < |at| ==> at[j] < at[k])
    && (forall k :: 0 <= k < |at| ==> at[k] < |s| && chosen(at[k]) && r[k] == s[at[k]])
    && (forall i: nat :: i < |s| && chosen(i) ==> i in at)
  }

  // The list holds the elements at the chosen positions, in order.
  ghost predicate Picks<T>(s: seq<T>, chosen: nat -> bool, r: seq<T>) {
    exists at: seq<nat> :: PicksAt(s, chosen, r, at)
  }

  lemma {:induction false} PicksNone<T>(chosen: nat -> bool)
    ensures Picks<T>([], chosen, [])
  {
    assert PicksAt<T>([], chosen, [], []);
  }

  lemma {:induction false} AtSkip<T>(s: seq<T>, x: T, chosen: nat -> bool, r: seq<T>, at: seq<nat>)
    requires PicksAt(s, chosen, r, at) && !chosen(|s|)
    ensures PicksAt(s + [x], chosen, r, at)
  {
    var t := s + [x];
    forall k | 0 <= k < |at| ensures at[k] < |t| && t[at[k]] == r[k] { assert at[k] < |s|; }
  }

  lemma {:induction false} AtSnoc<T>(s: seq<T>, x: T, chosen: nat -> bool, r: seq<T>, at: seq<nat>)
    requires PicksAt(s, chosen, r, at) && chosen(|s|)
    ensures PicksAt(s + [x], chosen, r + [x], at + [|s|])
  {
    var t, more, q := s + [x], at + [|s|], r + [x];
    forall k | 0 <= k < |more| ensures more[k] < |t| && chosen(more[k]) && q[k] == t[more[k]] {
      if k < |at| { assert more[k] == at[k] < |s|; }
    }
    forall i: nat | i < |t| && chosen(i) ensures i in more {
      if i < |s| { assert i in at; }
    }
  }

  // One more element at the end.
  lemma {:induction false} PicksSnoc<T>(s: seq<T>, x: T, chosen: nat -> bool, r: seq<T>)
    requires Picks(s, chosen, r)
    ensures Picks(s + [x], chosen, if chosen(|s|) then r + [x] else r)
  {
    var at: seq<nat> :| PicksAt(s, chosen, r, at);
    hide PicksAt;
    if chosen(|s|) { AtSnoc(s, x, chosen, r, at); } else { AtSkip(s, x, chosen, r, at); }
  }

  // Two ways of choosing that agree on the list pick the same.
  lemma {:induction false} PicksSame<T>(s: seq<T>, chosen: nat -> bool, other: nat -> bool, r: seq<T>)
    requires Picks(s, chosen, r) && forall i: nat :: i < |s| ==> (chosen(i) <==> other(i))
    ensures Picks(s, other, r)
  {
    var at: seq<nat> :| PicksAt(s, chosen, r, at);
    assert PicksAt(s, other, r, at);
  }

  lemma {:induction false} PicksFrom<T>(s: seq<T>, chosen: nat -> bool, r: seq<T>, x: T)
    requires Picks(s, chosen, r)
    ensures x in r <==> exists i: nat :: i < |s| && chosen(i) && s[i] == x
  {
    var at: seq<nat> :| PicksAt(s, chosen, r, at);
    if x in r {
      var k :| 0 <= k < |r| && r[k] == x;
      assert at[k] < |s| && chosen(at[k]) && s[at[k]] == x;
    }
    if i: nat :| i < |s| && chosen(i) && s[i] == x {
      assert i in at;
      var k :| 0 <= k < |at| && at[k] == i;
      assert r[k] == x;
    }
  }

  lemma {:induction false} PicksDistinct<T>(s: seq<T>, chosen: nat -> bool, r: seq<T>)
    requires Picks(s, chosen, r) && Distinct(s)
    ensures Distinct(r)
  {
    var at: seq<nat> :| PicksAt(s, chosen, r, at);
    forall j, k | 0 <= j < k < |r| ensures r[j] != r[k] {
      assert at[j] < at[k] < |s| && r[j] == s[at[j]] && r[k] == s[at[k]];
    }
  }

  ghost function Chosen<T>(s: seq<T>, chosen: nat -> bool, k: nat): seq<T>
    decreases |s| - k
  {
    if k >= |s| then []
    else (if chosen(k) then [s[k]] else []) + Chosen(s, chosen, k + 1)
  }

  ghost function Positions<T>(s: seq<T>, chosen: nat -> bool, k: nat): seq<nat>
    decreases |s| - k
  {
    if k >= |s| then []
    else (if chosen(k) then [k] else []) + Positions(s, chosen, k + 1)
  }

  lemma {:induction false} PositionsFrom<T>(s: seq<T>, chosen: nat -> bool, k: nat)
    ensures forall i: nat :: i in Positions(s, chosen, k) <==> k <= i < |s| && chosen(i)
    ensures |Positions(s, chosen, k)| == |Chosen(s, chosen, k)|
    decreases |s| - k
  {
    if k < |s| { PositionsFrom(s, chosen, k + 1); }
  }

  lemma {:induction false} PositionsAscend<T>(s: seq<T>, chosen: nat -> bool, k: nat)
    ensures var at, r := Positions(s, chosen, k), Chosen(s, chosen, k);
      && |at| == |r|
      && (forall i, j :: 0 <= i < j < |at| ==> at[i] < at[j])
      && (forall i :: 0 <= i < |at| ==> at[i] < |s| && chosen(at[i]) && r[i] == s[at[i]])
    decreases |s| - k
  {
    PositionsFrom(s, chosen, k);
    if k < |s| {
      PositionsAscend(s, chosen, k + 1);
      PositionsFrom(s, chosen, k + 1);
      var at := Positions(s, chosen, k + 1);
      forall i | 0 <= i < |at| ensures k < at[i] { assert at[i] in at; }
    }
  }

  lemma {:induction false} ChosenPicks<T>(s: seq<T>, chosen: nat -> bool)
    ensures Picks(s, chosen, Chosen(s, chosen, 0))
  {
    PositionsFrom(s, chosen, 0);
    PositionsAscend(s, chosen, 0);
    hide Chosen, Positions;
    assert PicksAt(s, chosen, Chosen(s, chosen, 0), Positions(s, chosen, 0));
  }

  lemma {:induction false} ChosenNone<T>(s: seq<T>, chosen: nat -> bool, k: nat)
    requires forall i: nat :: i >= k ==> !chosen(i)
    ensures Chosen(s, chosen, k) == []
    decreases |s| - k
  {
    if k < |s| { ChosenNone(s, chosen, k + 1); }
  }

  lemma {:induction false} ChosenAll<T>(s: seq<T>, chosen: nat -> bool, k: nat)
    requires k <= |s| && forall i: nat :: k <= i < |s| ==> chosen(i)
    ensures Chosen(s, chosen, k) == s[k..]
    decreases |s| - k
  {
    if k < |s| { ChosenAll(s, chosen, k + 1); }
  }
}
