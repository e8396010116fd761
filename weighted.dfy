/** Weighted sums and weighted means, as `np.sum(w * x) / np.sum(w)` computes them. */
module Weighted {
  import opened Reals

  /** Sum of w[i] * x[i]. */
  function WSum(w: seq<real>, x: seq<real>): real
    requires |w| == |x|
  {
    if w == [] then 0.0 else WSum(w[..|w| - 1], x[..|x| - 1]) + w[|w| - 1] * x[|x| - 1]
  }

  lemma Scale(w: real, a: real, b: real)
    requires w >= 0.0 && a <= b
    ensures w * a <= w * b
  {
  }

  lemma {:induction false} WSumBelow(w: seq<real>, x: seq<real>, hi: real)
    requires |w| == |x|
    requires forall i :: 0 <= i < |w| ==> w[i] >= 0.0 && x[i] <= hi
    ensures WSum(w, x) <= Sum(w) * hi
  {
    if w != [] {
      var n := |w| - 1;
      WSumBelow(w[..n], x[..n], hi);
      Scale(w[n], x[n], hi);
    }
  }

  lemma {:induction false} WSumAbove(w: seq<real>, x: seq<real>, lo: real)
    requires |w| == |x|
    requires forall i :: 0 <= i < |w| ==> w[i] >= 0.0 && lo <= x[i]
    ensures Sum(w) * lo <= WSum(w, x)
  {
    if w != [] {
      var n := |w| - 1;
      WSumAbove(w[..n], x[..n], lo);
      Scale(w[n], lo, x[n]);
    }
  }

  /** `a / n`, with the one fact about it the proofs use. */
  function Quotient(a: real, n: real): (q: real)
    requires n != 0.0
    ensures q * n == a
  {
    a / n
  }

  /** A mean with non-negative weights of positive sum, of values within [lo, hi], is within [lo, hi]. */
  lemma WeightedMeanBounds(w: seq<real>, x: seq<real>, lo: real, hi: real)
    requires |w| == |x|
    requires forall i :: 0 <= i < |w| ==> w[i] >= 0.0 && lo <= x[i] <= hi
    requires Sum(w) > 0.0
    ensures lo <= Quotient(WSum(w, x), Sum(w)) <= hi
  {
    ScaledMeanBounds(w, x, lo, hi, Quotient(WSum(w, x), Sum(w)));
  }

  lemma MulBounds(m: real, t: real, ws: real, lo: real, hi: real)
    requires t > 0.0 && m * t == ws && t * lo <= ws && ws <= t * hi
    ensures lo <= m <= hi
  {
  }

  /** The same bound, for a value m with m * Sum(w) == WSum(w, x). */
  lemma ScaledMeanBounds(w: seq<real>, x: seq<real>, lo: real, hi: real, m: real)
    requires |w| == |x|
    requires forall i :: 0 <= i < |w| ==> w[i] >= 0.0 && lo <= x[i] <= hi
    requires Sum(w) > 0.0 && m * Sum(w) == WSum(w, x)
    ensures lo <= m <= hi
  {
    WSumBounds(w, x, lo, hi);
    MulBounds(m, Sum(w), WSum(w, x), lo, hi);
  }

  lemma WSumBounds(w: seq<real>, x: seq<real>, lo: real, hi: real)
    requires |w| == |x|
    requires forall i :: 0 <= i < |w| ==> w[i] >= 0.0 && lo <= x[i] <= hi
    ensures Sum(w) * lo <= WSum(w, x) && WSum(w, x) <= Sum(w) * hi
  {
    WSumBelow(w, x, hi);
    WSumAbove(w, x, lo);
  }
}
