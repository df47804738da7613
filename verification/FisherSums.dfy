// What is added up.
module FisherSums {
  import opened Picking
  import opened Fisher

  ghost function Light(cols: seq<nat>, limit: nat, ts: seq<Table>): nat -> bool {
    (i: nat) => i < |ts| && Weight(cols, ts[i]) <= limit
  }

  function Weights(cols: seq<nat>, ts: seq<Table>): seq<nat> {
    seq(|ts|, k requires 0 <= k < |ts| => Weight(cols, ts[k]))
  }

  lemma {:induction false} SumSnoc(s: seq<nat>, x: nat)
    ensures Sum(s + [x]) == Sum(s) + x
  {
    if s == [] {
      assert s + [x] == [x] && [x][1..] == [];
    } else {
      assert (s + [x])[1..] == s[1..] + [x];
      SumSnoc(s[1..], x);
    }
  }

  lemma {:induction false} WithinStep(cols: seq<nat>, limit: nat, ts: seq<Table>)
    requires ts != []
    ensures var n := |ts| - 1; var w := Weight(cols, ts[n]);
      WeightWithin(cols, limit, ts) == WeightWithin(cols, limit, ts[..n]) + (if w <= limit then w else 0)
  {
  }

  lemma {:induction false} WeightsSnoc(cols: seq<nat>, ts: seq<Table>, t: Table)
    ensures Sum(Weights(cols, ts + [t])) == Sum(Weights(cols, ts)) + Weight(cols, t)
  {
    hide Weight, Sum;
    assert Weights(cols, ts + [t]) == Weights(cols, ts) + [Weight(cols, t)];
    SumSnoc(Weights(cols, ts), Weight(cols, t));
  }

  // The sum runs over exactly the tables whose weight is within the limit, in order.
  lemma {:induction false} WithinExactly(cols: seq<nat>, limit: nat, ts: seq<Table>) returns (light: seq<Table>)
    ensures Picks(ts, Light(cols, limit, ts), light)
    ensures WeightWithin(cols, limit, ts) == Sum(Weights(cols, light))
  {
    if ts == [] {
      light := [];
      PicksNone<Table>(Light(cols, limit, ts));
    } else {
      var n: nat := |ts| - 1;
      var front, t := ts[..n], ts[n];
      light := WithinExactly(cols, limit, front);
      WithinStep(cols, limit, ts);
      assert ts == front + [t];
      hide Picks, Weight, WeightWithin, Sum, Weights;
      PicksSame(front, Light(cols, limit, front), Light(cols, limit, ts), light);
      PicksSnoc(front, t, Light(cols, limit, ts), light);
      WeightsSnoc(cols, light, t);
      light := if Weight(cols, t) <= limit then light + [t] else light;
    }
  }

  lemma {:induction false} TotalExactly(cols: seq<nat>, ts: seq<Table>)
    ensures TotalWeight(cols, ts) == Sum(Weights(cols, ts))
  {
    if ts != [] {
      var n: nat := |ts| - 1;
      TotalExactly(cols, ts[..n]);
      assert ts == ts[..n] + [ts[n]];
      WeightsSnoc(cols, ts[..n], ts[n]);
      hide Weight, Sum, Weights;
    }
  }
}
