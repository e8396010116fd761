/**
 * `interp_coeff` (fpbiolib/twarp/cow.py): for every candidate length of a
 * signal segment, where the n points of a target segment fall on that
 * segment's grid 1..nprime, as a grid cell k and a fraction within it.
 */
module CowInterp {

  /** `np.arange(1, m + 1)`. */
  function Grid(m: nat): (pp: seq<int>)
    ensures |pp| == m && forall j :: 0 <= j < m ==> pp[j] == j + 1
  {
    seq(m, j => j + 1)
  }

  predicate Increasing(bins: seq<int>)
  {
    forall i, j :: 0 <= i < j < |bins| ==> bins[i] < bins[j]
  }

  /** `np.digitize(x, bins)`: the number of bins at or below x. */
  function Digitize(x: real, bins: seq<int>): (k: nat)
    ensures k <= |bins|
  {
    if bins == [] then 0
    else Digitize(x, bins[..|bins| - 1]) + (if bins[|bins| - 1] as real <= x then 1 else 0)
  }

  /** For increasing bins, x falls between bins[k - 1] and bins[k]. */
  lemma {:induction false} DigitizeBetween(x: real, bins: seq<int>)
    requires Increasing(bins)
    ensures var k := Digitize(x, bins);
      && (forall j :: 0 <= j < k ==> bins[j] as real <= x)
      && (forall j :: k <= j < |bins| ==> bins[j] as real > x)
  {
    if bins != [] {
      var p := bins[..|bins| - 1];
      DigitizeBetween(x, p);
      var kp := Digitize(x, p);
      if bins[|bins| - 1] as real <= x {
        // every earlier bin is smaller, so all of p is at or below x
        assert forall j :: 0 <= j < |p| ==> bins[j] < bins[|bins| - 1];
      }
    }
  }

  /** The sample point of column t: t * (nprime - 1) / q + 1. */
  function Point(t: int, q: int, m: int): real
    requires q > 0
  {
    (t * (m - 1)) as real / q as real + 1.0
  }

  /** The grid cell: `np.digitize` with points below 1 moved to cell 1 and points at or past m to cell m - 1. */
  function Cell(x: real, m: nat): (k: int)
    ensures m >= 2 ==> 1 <= k <= m - 1
  {
    GridIncreasing(m);
    DigitizeBetween(x, Grid(m));
    var k := Digitize(x, Grid(m));
    if x >= m as real then m - 1
    else if x < 1.0 then 1
    else
      assert m >= 2 ==> Grid(m)[0] as real <= x && Grid(m)[m - 1] as real > x;
      k
  }

  /** The fraction of the point within its cell: `p - pp[k - 1]`. */
  function Fraction(x: real, m: nat): real
    requires m >= 2
  {
    x - Grid(m)[Cell(x, m) - 1] as real
  }

  lemma GridIncreasing(m: nat)
    ensures Increasing(Grid(m))
  {
  }

  /**
   * A point x in [1, m] lies in cell k = floor(x) (k = m - 1 for the last
   * point), k is a valid lower grid index 1..m - 1, and x = k + fraction with
   * the fraction in [0, 1], equal to 1 only at x = m.
   */
  lemma CellOfPoint(x: real, m: nat)
    requires m >= 2 && 1.0 <= x <= m as real
    ensures 1 <= Cell(x, m) <= m - 1
    ensures x < m as real ==> Cell(x, m) == x.Floor
    ensures x == Cell(x, m) as real + Fraction(x, m)
    ensures 0.0 <= Fraction(x, m) <= 1.0
    ensures Fraction(x, m) == 1.0 <==> x == m as real
  {
    if x < m as real {
      var g := Grid(m);
      var k := Digitize(x, g);
      GridIncreasing(m);
      DigitizeBetween(x, g);
      var f := x.Floor;
      assert 1 <= f < m;
      assert g[f - 1] as real <= x;
      assert g[f] as real > x;
    }
  }

  lemma DivWithin(a: real, q: real, top: real)
    requires q > 0.0 && 0.0 <= a <= top * q
    ensures 0.0 <= a / q <= top
  {
  }

  lemma MulWithin(t: int, q: int, c: int, p: int)
    requires 0 <= t <= q && c >= 0 && p == t * c
    ensures 0 <= p <= q * c
  {
  }

  /** The points of columns 0..q run from 1 (column 0) to m (column q). */
  lemma PointRange(t: int, q: int, m: int)
    requires q > 0 && 0 <= t <= q && m >= 1
    ensures 1.0 <= Point(t, q, m) <= m as real
    ensures t == 0 ==> Point(t, q, m) == 1.0
    ensures t == q ==> Point(t, q, m) == m as real
  {
    MulWithin(t, q, m - 1, t * (m - 1));
    assert (q * (m - 1)) as real == (q as real) * ((m - 1) as real);
    DivWithin((t * (m - 1)) as real, q as real, (m - 1) as real);
    if t == q {
      assert (q * (m - 1)) as real / q as real == (m - 1) as real;
    }
  }

  /**
   * Coefficients for n target points and the candidate signal lengths nprime:
   * row i, column t holds the fraction of point t within its cell of the grid
   * 1..nprime[i], and the cell minus offs[i].
   */
  method InterpCoeff(n: int, nprime: seq<int>, offs: seq<int>) returns (coeff: array2<real>, index: array2<int>)
    requires n >= 2 && |offs| >= |nprime|
    requires forall i :: 0 <= i < |nprime| ==> nprime[i] >= 2
    ensures fresh(coeff) && fresh(index)
    ensures coeff.Length0 == |nprime| && coeff.Length1 == n
    ensures index.Length0 == |nprime| && index.Length1 == n
    ensures forall i, t :: 0 <= i < |nprime| && 0 <= t < n ==>
      && coeff[i, t] == Fraction(Point(t, n - 1, nprime[i]), nprime[i])
      && index[i, t] == Cell(Point(t, n - 1, nprime[i]), nprime[i]) - offs[i]
  {
    var q := n - 1;
    coeff := new real[|nprime|, n];
    index := new int[|nprime|, n];
    for i := 0 to |nprime|
      invariant forall r, t :: 0 <= r < i && 0 <= t < n ==>
        && coeff[r, t] == Fraction(Point(t, q, nprime[r]), nprime[r])
        && index[r, t] == Cell(Point(t, q, nprime[r]), nprime[r]) - offs[r]
    {
      var m := nprime[i];
      for t := 0 to n
        invariant forall r, c :: 0 <= r < i && 0 <= c < n ==>
          && coeff[r, c] == Fraction(Point(c, q, nprime[r]), nprime[r])
          && index[r, c] == Cell(Point(c, q, nprime[r]), nprime[r]) - offs[r]
        invariant forall c :: 0 <= c < t ==>
          && coeff[i, c] == Fraction(Point(c, q, m), m)
          && index[i, c] == Cell(Point(c, q, m), m) - offs[i]
      {
        var x := Point(t, q, m);
        coeff[i, t] := Fraction(x, m);
        index[i, t] := Cell(x, m) - offs[i];
      }
    }
  }

  /**
   * What the coefficients mean: every entry splits the sample point into a
   * cell 1..nprime - 1 plus a fraction in [0, 1]; the first column has
   * fraction 0 (the segment's first point) and the last fraction 1 (its last
   * point, in cell nprime - 1).
   */
  lemma CoefficientsMeaning(n: int, m: int, t: int)
    requires n >= 2 && m >= 2 && 0 <= t < n
    ensures var x := Point(t, n - 1, m);
      && 1 <= Cell(x, m) <= m - 1
      && x == Cell(x, m) as real + Fraction(x, m)
      && 0.0 <= Fraction(x, m) <= 1.0
      && (t == 0 ==> Cell(x, m) == 1 && Fraction(x, m) == 0.0)
      && (t == n - 1 ==> Cell(x, m) == m - 1 && Fraction(x, m) == 1.0)
      && (t < n - 1 ==> Fraction(x, m) < 1.0)
  {
    var x := Point(t, n - 1, m);
    PointRange(t, n - 1, m);
    CellOfPoint(x, m);
    if t < n - 1 {
      PointBelowEnd(t, n - 1, m);
    }
  }

  /** Columns before the last sample strictly inside the grid. */
  lemma PointBelowEnd(t: int, q: int, m: int)
    requires q > 0 && 0 <= t < q && m >= 2
    ensures Point(t, q, m) < m as real
  {
    MulBelow(t, q, m - 1);
    assert (q * (m - 1)) as real == (q as real) * ((m - 1) as real);
  }

  lemma MulBelow(t: int, q: int, c: int)
    requires 0 <= t < q && c >= 1
    ensures t * c < q * c
  {
  }
}
