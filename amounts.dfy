/** Money is modelled with exact reals in place of Python floats and SQL decimals.
    `Sum` adds a column of values the way SQL's SUM does over a non-empty column. */
module Amounts {

  function Sum(xs: seq<real>): real
  {
    if xs == [] then 0.0 else xs[0] + Sum(xs[1..])
  }

  lemma {:induction false} SumAppend(xs: seq<real>, ys: seq<real>)
    ensures Sum(xs + ys) == Sum(xs) + Sum(ys)
  {
    if xs == [] {
      assert xs + ys == ys;
    } else {
      assert (xs + ys)[1..] == xs[1..] + ys;
      SumAppend(xs[1..], ys);
    }
  }

  /** A column that is the element-wise sum of two others sums to their sums. */
  lemma {:induction false} SumPointwise(xs: seq<real>, ys: seq<real>, zs: seq<real>)
    requires |xs| == |ys| == |zs|
    requires forall i :: 0 <= i < |zs| ==> zs[i] == xs[i] + ys[i]
    ensures Sum(zs) == Sum(xs) + Sum(ys)
  {
    if zs != [] {
      SumPointwise(xs[1..], ys[1..], zs[1..]);
    }
  }

  /** Replacing one value changes the sum by the difference. */
  lemma {:induction false} SumUpdate(xs: seq<real>, j: nat, v: real)
    requires j < |xs|
    ensures Sum(xs[j := v]) == Sum(xs) - xs[j] + v
  {
    if j == 0 {
      assert xs[j := v][1..] == xs[1..];
    } else {
      assert xs[j := v][1..] == xs[1..][j - 1 := v];
      SumUpdate(xs[1..], j - 1, v);
    }
  }

  /** n copies of c sum to n * c. */
  lemma {:induction false} SumConstant(xs: seq<real>, c: real)
    requires forall i :: 0 <= i < |xs| ==> xs[i] == c
    ensures Sum(xs) == |xs| as real * c
  {
    if xs != [] {
      SumConstant(xs[1..], c);
    }
  }

  /** A column bounded element-wise by another has a bounded sum. */
  lemma {:induction false} SumMonotone(xs: seq<real>, ys: seq<real>)
    requires |xs| == |ys|
    requires forall i :: 0 <= i < |xs| ==> xs[i] <= ys[i]
    ensures Sum(xs) <= Sum(ys)
  {
    if xs != [] {
      SumMonotone(xs[1..], ys[1..]);
    }
  }
}
