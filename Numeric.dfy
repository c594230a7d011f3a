/** Sums of real sequences, shared by the scoring, histogram and evaluation code. */
module Numeric {

  /** The sum of `xs`, accumulated from the front as the program's loops do. */
  function Sum(xs: seq<real>): real
  {
    if xs == [] then 0.0 else Sum(xs[..|xs| - 1]) + xs[|xs| - 1]
  }

  lemma {:induction false} SumAppend(xs: seq<real>, ys: seq<real>)
    ensures Sum(xs + ys) == Sum(xs) + Sum(ys)
    decreases |ys|
  {
    if ys == [] {
      assert xs + ys == xs;
    } else {
      var init := ys[..|ys| - 1];
      assert (xs + ys)[..|xs + ys| - 1] == xs + init;
      SumAppend(xs, init);
    }
  }

  /** Replacing one element changes the sum by the difference. */
  lemma SumUpdate(xs: seq<real>, i: nat, v: real)
    requires i < |xs|
    ensures Sum(xs[i := v]) == Sum(xs) - xs[i] + v
  {
    assert xs == xs[..i] + [xs[i]] + xs[i + 1..];
    assert xs[i := v] == xs[..i] + [v] + xs[i + 1..];
    SumAppend(xs[..i] + [xs[i]], xs[i + 1..]);
    SumAppend(xs[..i] + [v], xs[i + 1..]);
    SumAppend(xs[..i], [xs[i]]);
    SumAppend(xs[..i], [v]);
  }

  predicate NonNegative(xs: seq<real>)
  {
    forall i :: 0 <= i < |xs| ==> xs[i] >= 0.0
  }

  /** In a sequence without negative elements every element is at most the sum. */
  lemma {:induction false} ElementAtMostSum(xs: seq<real>, i: nat)
    requires NonNegative(xs) && i < |xs|
    ensures 0.0 <= xs[i] <= Sum(xs)
    decreases |xs|
  {
    var init := xs[..|xs| - 1];
    SumNonNegative(init);
    if i < |init| {
      ElementAtMostSum(init, i);
    }
  }

  lemma {:induction false} SumNonNegative(xs: seq<real>)
    requires NonNegative(xs)
    ensures Sum(xs) >= 0.0
    decreases |xs|
  {
    if xs != [] {
      SumNonNegative(xs[..|xs| - 1]);
    }
  }

  /** Every element divided by `t`. */
  function Scaled(xs: seq<real>, t: real): (ys: seq<real>)
    requires t != 0.0
    ensures |ys| == |xs| && forall i :: 0 <= i < |xs| ==> ys[i] == xs[i] / t
  {
    seq(|xs|, i requires 0 <= i < |xs| => xs[i] / t)
  }

  /** Dividing every element by `t` divides the sum by `t`. */
  lemma {:induction false} SumScaled(xs: seq<real>, t: real)
    requires t != 0.0
    ensures Sum(Scaled(xs, t)) == Sum(xs) / t
    decreases |xs|
  {
    if xs != [] {
      var init := xs[..|xs| - 1];
      assert Scaled(xs, t)[..|xs| - 1] == Scaled(init, t);
      SumScaled(init, t);
      assert Sum(init) / t + xs[|xs| - 1] / t == (Sum(init) + xs[|xs| - 1]) / t;
    }
  }

  /** The sum of an array's elements (OpenCV's `sum` of a one-channel matrix). */
  method ArraySum(a: array<real>) returns (s: real)
    ensures s == Sum(a[..])
  {
    s := 0.0;
    var i := 0;
    while i < a.Length
      invariant 0 <= i <= a.Length
      invariant s == Sum(a[..i])
    {
      assert a[..i + 1][..i] == a[..i];
      s := s + a[i];
      i := i + 1;
    }
    assert a[..i] == a[..];
  }

  /** Every element of the array divided by `t`, in place (OpenCV's `m /= t`). */
  method DivideInPlace(a: array<real>, t: real)
    requires t != 0.0
    modifies a
    ensures a[..] == Scaled(old(a[..]), t)
  {
    var b := 0;
    while b < a.Length
      invariant 0 <= b <= a.Length
      invariant a[..b] == Scaled(old(a[..]), t)[..b]
      invariant a[b..] == old(a[..])[b..]
    {
      a[b] := a[b] / t;
      b := b + 1;
    }
  }
}
