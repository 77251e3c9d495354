/** Weighted sums over a sequence: how much each thread of a pool contributes to a count or to a
    termination measure. */
module Sums {
  function Sum<T>(weight: T -> nat, xs: seq<T>): nat {
    if xs == [] then 0 else weight(xs[0]) + Sum(weight, xs[1..])
  }

  lemma {:induction false} SumUpdate<T>(weight: T -> nat, xs: seq<T>, i: nat, x: T)
    requires i < |xs|
    ensures Sum(weight, xs[i := x]) + weight(xs[i]) == Sum(weight, xs) + weight(x)
  {
    if i == 0 {
      assert xs[0 := x][1..] == xs[1..];
    } else {
      assert xs[i := x][1..] == xs[1..][i - 1 := x];
      SumUpdate(weight, xs[1..], i - 1, x);
    }
  }

  /** If no element gains more than `gain`, the sum gains at most `gain` for each. */
  lemma {:induction false} SumGain<T>(weight: T -> nat, xs: seq<T>, ys: seq<T>, gain: nat)
    requires |xs| == |ys|
    requires forall i :: 0 <= i < |xs| ==> weight(ys[i]) <= weight(xs[i]) + gain
    ensures Sum(weight, ys) <= Sum(weight, xs) + gain * |xs|
  {
    if xs != [] {
      SumGain(weight, xs[1..], ys[1..], gain);
      assert gain * |xs| == gain * |xs[1..]| + gain;
    }
  }

  lemma {:induction false} SumZero<T>(weight: T -> nat, xs: seq<T>)
    requires forall i :: 0 <= i < |xs| ==> weight(xs[i]) == 0
    ensures Sum(weight, xs) == 0
  {
    if xs != [] {
      SumZero(weight, xs[1..]);
    }
  }

  lemma {:induction false} SumPositive<T>(weight: T -> nat, xs: seq<T>) returns (i: nat)
    requires Sum(weight, xs) > 0
    ensures i < |xs| && weight(xs[i]) > 0
  {
    if weight(xs[0]) > 0 {
      i := 0;
    } else {
      var j := SumPositive(weight, xs[1..]);
      i := j + 1;
    }
  }
}
