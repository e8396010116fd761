/**
 * Numeric helpers over the mathematical reals, standing for the numpy
 * reductions the warping code uses: sums, minimum and maximum, sorting and
 * the median, round-half-to-even, and the first arg-max with NaN.
 */
module Reals {

  /** A float64 as the model sees it: a real number or NaN (no infinities, no rounding). */
  datatype Float = NaN | Num(v: real)

  /** `np.finfo(float).eps`, 2^-52. */
  const Eps: real := 1.0 / 4503599627370496.0

  function Sum(s: seq<real>): real
  {
    if s == [] then 0.0 else Sum(s[..|s| - 1]) + s[|s| - 1]
  }

  /** `np.amax` of a non-empty sequence. */
  function Max(s: seq<real>): (m: real)
    requires |s| >= 1
    ensures m in s
    ensures forall i :: 0 <= i < |s| ==> s[i] <= m
  {
    if |s| == 1 then s[0]
    else
      var rest := Max(s[..|s| - 1]);
      assert forall i :: 0 <= i < |s| - 1 ==> s[i] == s[..|s| - 1][i];
      if s[|s| - 1] > rest then s[|s| - 1] else rest
  }

  /** `np.mean`. */
  function Mean(s: seq<real>): real
    requires |s| >= 1
  {
    Sum(s) / (|s| as real)
  }

  lemma {:induction false} SumBelow(s: seq<real>, hi: real)
    requires forall i :: 0 <= i < |s| ==> s[i] <= hi
    ensures Sum(s) <= (|s| as real) * hi
  {
    if s != [] {
      var p := s[..|s| - 1];
      SumBelow(p, hi);
    }
  }

  lemma {:induction false} SumAbove(s: seq<real>, lo: real)
    requires forall i :: 0 <= i < |s| ==> lo <= s[i]
    ensures (|s| as real) * lo <= Sum(s)
  {
    if s != [] {
      var p := s[..|s| - 1];
      SumAbove(p, lo);
    }
  }

  /** Dividing the bounds n * lo <= a <= n * hi by a positive n. */
  lemma DivBounds(a: real, n: real, lo: real, hi: real)
    requires n > 0.0 && n * lo <= a && a <= n * hi
    ensures lo <= a / n && a / n <= hi
  {
  }

  /** Values all within [lo, hi] have their mean within [lo, hi]. */
  lemma MeanBounds(s: seq<real>, lo: real, hi: real)
    requires |s| >= 1
    requires forall i :: 0 <= i < |s| ==> lo <= s[i] <= hi
    ensures lo <= Mean(s) <= hi
  {
    SumBelow(s, hi);
    SumAbove(s, lo);
    DivBounds(Sum(s), |s| as real, lo, hi);
  }

  /** The mean of a sequence whose values are all c is c. */
  lemma {:induction false} SumConstant(s: seq<real>, c: real)
    requires forall i :: 0 <= i < |s| ==> s[i] == c
    ensures Sum(s) == (|s| as real) * c
  {
    if s != [] {
      SumConstant(s[..|s| - 1], c);
    }
  }

  predicate Sorted(s: seq<real>)
  {
    forall i, j :: 0 <= i < j < |s| ==> s[i] <= s[j]
  }

  /** x inserted before the first larger-or-equal element of a sorted sequence. */
  function Insert(x: real, s: seq<real>): (r: seq<real>)
    requires Sorted(s)
    ensures |r| == |s| + 1
    ensures multiset(r) == multiset(s) + multiset{x}
    ensures Sorted(r)
  {
    if s == [] then [x]
    else if x <= s[0] then [x] + s
    else
      var tail := Insert(x, s[1..]);
      assert s == [s[0]] + s[1..];
      InsertAbove(x, s[1..], tail, s[0]);
      [s[0]] + tail
  }

  /** A lower bound of x and of s is a lower bound of every element of a permutation of s + [x]. */
  lemma InsertAbove(x: real, s: seq<real>, r: seq<real>, lo: real)
    requires multiset(r) == multiset(s) + multiset{x}
    requires lo <= x && forall j :: 0 <= j < |s| ==> lo <= s[j]
    ensures forall k :: 0 <= k < |r| ==> lo <= r[k]
  {
    forall k | 0 <= k < |r| ensures lo <= r[k] {
      assert r[k] in multiset(r);
      if r[k] != x {
        assert r[k] in multiset(s);
      }
    }
  }

  /** `np.sort`: a sorted permutation. */
  function Sort(s: seq<real>): (r: seq<real>)
    ensures |r| == |s|
    ensures multiset(r) == multiset(s)
    ensures Sorted(r)
  {
    if s == [] then []
    else
      assert s == [s[0]] + s[1..];
      Insert(s[0], Sort(s[1..]))
  }

  /** Every element of the sorted sequence is an element of the input. */
  lemma SortedFromInput(s: seq<real>, k: int)
    requires 0 <= k < |s|
    ensures Sort(s)[k] in s
  {
    var r := Sort(s);
    assert r[k] in multiset(r);
  }

  /** Bounds on the values are bounds on the sorted values. */
  lemma SortedWithin(s: seq<real>, lo: real, hi: real, k: int)
    requires forall i :: 0 <= i < |s| ==> lo <= s[i] <= hi
    requires 0 <= k < |s|
    ensures lo <= Sort(s)[k] <= hi
  {
    SortedFromInput(s, k);
    var i :| 0 <= i < |s| && s[i] == Sort(s)[k];
  }

  /** `np.median`: the middle element of the sorted values, or the mean of the two middle ones. */
  function Median(s: seq<real>): real
    requires |s| >= 1
  {
    Middle(Sort(s))
  }

  /** The middle element, or the mean of the two middle elements. */
  function Middle(sx: seq<real>): real
    requires |sx| >= 1
  {
    var n := |sx|;
    if n % 2 == 1 then sx[n / 2] else (sx[n / 2 - 1] + sx[n / 2]) / 2.0
  }

  lemma MiddleBetween(sx: seq<real>)
    requires |sx| >= 1 && Sorted(sx)
    ensures sx[(|sx| - 1) / 2] <= Middle(sx) <= sx[|sx| / 2]
  {
    var n := |sx|;
    var h := n / 2;
    if n % 2 == 0 {
      assert (n - 1) / 2 == h - 1;
      HalfBetween(sx[h - 1], sx[h]);
    } else {
      assert (n - 1) / 2 == h;
    }
  }

  /** The median lies between the two middle order statistics. */
  lemma MedianBetween(s: seq<real>)
    requires |s| >= 1
    ensures Sort(s)[(|s| - 1) / 2] <= Median(s) <= Sort(s)[|s| / 2]
  {
    MiddleBetween(Sort(s));
  }

  lemma HalfBetween(a: real, b: real)
    requires a <= b
    ensures a <= (a + b) / 2.0 <= b
  {
  }

  /** Values all within [lo, hi] have their median within [lo, hi]. */
  lemma MedianBounds(s: seq<real>, lo: real, hi: real)
    requires |s| >= 1
    requires forall i :: 0 <= i < |s| ==> lo <= s[i] <= hi
    ensures lo <= Median(s) <= hi
  {
    MedianBetween(s);
    SortedWithin(s, lo, hi, (|s| - 1) / 2);
    SortedWithin(s, lo, hi, |s| / 2);
  }

  /** `np.round`: the nearest integer, ties to the even one. */
  function RoundHalfEven(x: real): (r: int)
    ensures x - 0.5 <= r as real <= x + 0.5
    ensures (r as real == x - 0.5 || r as real == x + 0.5) ==> r % 2 == 0
  {
    var f := x.Floor;
    var d := x - f as real;
    if d < 0.5 then f
    else if d > 0.5 then f + 1
    else if f % 2 == 0 then f
    else f + 1
  }

  /** Non-negative values have a non-negative sum. */
  lemma {:induction false} SumNonNegative(s: seq<real>)
    requires forall i :: 0 <= i < |s| ==> s[i] >= 0.0
    ensures Sum(s) >= 0.0
  {
    if s != [] {
      SumNonNegative(s[..|s| - 1]);
    }
  }

  /**
   * `np.argmax`: the first NaN when there is one, otherwise the first
   * position of the largest value.
   */
  function FirstArgMax(s: seq<Float>): (k: nat)
    requires |s| >= 1
    ensures k < |s|
    ensures (exists i :: 0 <= i < |s| && s[i].NaN?) ==> s[k].NaN? && forall i :: 0 <= i < k ==> s[i].Num?
    ensures (forall i :: 0 <= i < |s| ==> s[i].Num?) ==>
      && s[k].Num?
      && (forall i :: 0 <= i < |s| ==> s[i].v <= s[k].v)
      && (forall i :: 0 <= i < k ==> s[i].v < s[k].v)
  {
    if |s| == 1 then 0
    else
      var n := |s| - 1;
      var p := s[..n];
      assert forall i :: 0 <= i < n ==> s[i] == p[i];
      var k := FirstArgMax(p);
      if s[k].NaN? then k
      else if s[n].NaN? then n
      else if s[n].v > s[k].v then n
      else k
  }
}
