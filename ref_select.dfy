/**
 * `ref_select` and `biwmean` (fpbiolib/twarp/ref_select.py): the reference
 * signal for warping, chosen from the signals y (one row per signal) as their
 * mean, median, bi-weighted mean or maximum column by column, or as the signal
 * whose squared correlations with the others have the largest product.
 */
module RefSelect {
  import opened Wrappers
  import opened Reals
  import opened Weighted

  // ---------------------------------------------------------------------------
  // Matrices of signals

  /** Every row has the given number of columns. */
  predicate Rect(y: seq<seq<Float>>, cols: nat)
  {
    forall i :: 0 <= i < |y| ==> |y[i]| == cols
  }

  /** `np.any(np.isnan(y))`. */
  predicate HasNaN(y: seq<seq<Float>>)
  {
    exists i, j :: 0 <= i < |y| && 0 <= j < |y[i]| && y[i][j].NaN?
  }

  /** The real values of a matrix without NaN. */
  function Values(y: seq<seq<Float>>, cols: nat): (v: seq<seq<real>>)
    requires Rect(y, cols) && !HasNaN(y)
    ensures |v| == |y|
    ensures forall i :: 0 <= i < |v| ==> |v[i]| == cols
    ensures forall i, j :: 0 <= i < |v| && 0 <= j < cols ==> y[i][j] == Num(v[i][j])
  {
    seq(|y|, i requires 0 <= i < |y| => seq(cols, j requires 0 <= j < cols => y[i][j].v))
  }

  predicate RealRect(v: seq<seq<real>>, cols: nat)
  {
    forall i :: 0 <= i < |v| ==> |v[i]| == cols
  }

  /** `y[:, j]`. */
  function Column(v: seq<seq<real>>, cols: nat, j: nat): (c: seq<real>)
    requires RealRect(v, cols) && j < cols
    ensures |c| == |v|
    ensures forall i :: 0 <= i < |v| ==> c[i] == v[i][j]
  {
    seq(|v|, i requires 0 <= i < |v| => v[i][j])
  }

  function Zeros(cols: nat): (z: seq<Float>)
    ensures |z| == cols && forall j :: 0 <= j < cols ==> z[j] == Num(0.0)
  {
    seq(cols, j => Num(0.0))
  }

  // ---------------------------------------------------------------------------
  // Criteria 1, 2 and 4: column-wise reductions

  /** `np.mean(y, axis=0)`; a column of no values has the NaN mean. */
  function MeanRef(v: seq<seq<real>>, cols: nat): (r: seq<Float>)
    requires RealRect(v, cols)
    ensures |r| == cols
    ensures forall j :: 0 <= j < cols ==> (r[j].NaN? <==> |v| == 0)
  {
    seq(cols, j requires 0 <= j < cols => if |v| == 0 then NaN else Num(Mean(Column(v, cols, j))))
  }

  /** `np.median(y, axis=0)`; a column of no values has the NaN median. */
  function MedianRef(v: seq<seq<real>>, cols: nat): (r: seq<Float>)
    requires RealRect(v, cols)
    ensures |r| == cols
    ensures forall j :: 0 <= j < cols ==> (r[j].NaN? <==> |v| == 0)
  {
    seq(cols, j requires 0 <= j < cols => if |v| == 0 then NaN else Num(Median(Column(v, cols, j))))
  }

  /** `np.amax(y, axis=0)`: no signal exceeds it, and some signal reaches it, in every column. */
  function MaxRef(v: seq<seq<real>>, cols: nat): (r: seq<Float>)
    requires RealRect(v, cols) && |v| >= 1
    ensures |r| == cols
    ensures forall j :: 0 <= j < cols ==> r[j].Num?
    ensures forall i, j :: 0 <= i < |v| && 0 <= j < cols ==> v[i][j] <= r[j].v
    ensures forall j :: 0 <= j < cols ==> r[j].v in Column(v, cols, j)
  {
    seq(cols, j requires 0 <= j < cols => Num(Max(Column(v, cols, j))))
  }

  /** Bounds shared by every signal in column j bound the mean and the median of that column. */
  lemma MeanMedianWithin(v: seq<seq<real>>, cols: nat, j: nat, lo: real, hi: real)
    requires RealRect(v, cols) && j < cols && |v| >= 1
    requires forall i :: 0 <= i < |v| ==> lo <= v[i][j] <= hi
    ensures MeanRef(v, cols)[j].Num? && lo <= MeanRef(v, cols)[j].v <= hi
    ensures MedianRef(v, cols)[j].Num? && lo <= MedianRef(v, cols)[j].v <= hi
  {
    var c := Column(v, cols, j);
    MeanBounds(c, lo, hi);
    MedianBounds(c, lo, hi);
  }

  // ---------------------------------------------------------------------------
  // Criterion 3: the bi-weighted mean

  /** `int(np.round(nx * 0.25))`. */
  function QuarterCount(nx: nat): (k: nat)
    requires nx >= 1
    ensures k < nx
  {
    var r := RoundHalfEven(nx as real * 0.25);
    assert r >= 0;
    r
  }

  /** `sx[nx - niqr - 1] - sx[niqr - 1]`, where index -1 is the last element. */
  function Spread(sx: seq<real>, niqr: nat): real
    requires niqr < |sx|
  {
    var n := |sx|;
    sx[n - niqr - 1] - (if niqr == 0 then sx[n - 1] else sx[niqr - 1])
  }

  /** The biweight of a scaled distance z: (1 - z^2)^2, and 0 when |z| > 1. */
  function BiWeight(z: real): (w: real)
    ensures w >= 0.0
  {
    if z > 1.0 || z < -1.0 then 0.0 else (1.0 - z * z) * (1.0 - z * z)
  }

  /** The weights of the values of x about the centre c, at scale 3 * iqr. */
  function Weights(x: seq<real>, c: real, iqr: real): (w: seq<real>)
    requires iqr != 0.0
    ensures |w| == |x|
    ensures forall i :: 0 <= i < |w| ==> w[i] >= 0.0
  {
    seq(|x|, i requires 0 <= i < |x| => BiWeight(Quotient(x[i] - c, 3.0 * iqr)))
  }

  /** `np.sum(biw * x) / np.sum(biw)`; a zero sum of weights gives NaN. */
  function WMean(x: seq<real>, c: real, iqr: real): Float
    requires iqr != 0.0
  {
    var w := Weights(x, c, iqr);
    if Sum(w) == 0.0 then NaN else Num(Quotient(WSum(w, x), Sum(w)))
  }

  /**
   * The loop test `(oldbiwm - biwm)**2 / oldbiwm**2 > 1e-8`, in its square-root
   * form |prev - next| > 1e-4 * |prev|; MovedSquared shows that the two agree,
   * and that with oldbiwm == 0 the test holds when the float quotient is
   * infinite (biwm != 0) and fails when it is NaN (biwm == 0).
   */
  predicate Moved(prev: real, next: real)
  {
    Magnitude(prev - next) > 0.0001 * Magnitude(prev)
  }

  function Magnitude(a: real): (m: real)
    ensures m >= 0.0 && (m == a || m == -a)
  {
    if a < 0.0 then -a else a
  }

  /** Moved is the squared test of the source, given the squares dd and pp. */
  lemma MovedSquared(prev: real, next: real, dd: real, pp: real)
    requires dd == (prev - next) * (prev - next) && pp == prev * prev
    ensures prev != 0.0 ==> (Moved(prev, next) <==> dd > 0.00000001 * pp)
    ensures prev == 0.0 ==> (Moved(prev, next) <==> next != 0.0)
  {
    var a, b := Magnitude(prev - next), 0.0001 * Magnitude(prev);
    assert a * a == dd by {
      if a != prev - next {
        assert a * a == (prev - next) * (prev - next);
      }
    }
    assert b * b == 0.00000001 * pp by {
      var m := Magnitude(prev);
      assert m * m == pp by {
        if m != prev {
          assert m * m == prev * prev;
        }
      }
      assert b * b == 0.00000001 * (m * m);
    }
    SquareMonotone(a, b, dd, 0.00000001 * pp);
  }

  /** For non-negative numbers, squaring keeps the order. */
  lemma SquareMonotone(a: real, b: real, sa: real, sb: real)
    requires a >= 0.0 && b >= 0.0 && sa == a * a && sb == b * b
    ensures a > b <==> sa > sb
  {
    if a > b {
      assert sa - sb == (a - b) * (a + b);
      MulPositive(a - b, a + b, sa - sb);
    } else {
      assert sb - sa == (b - a) * (b + a);
      MulNonNegative(b - a, b + a);
    }
  }

  /** The refinement loop from `iter` on: it stops on NaN, on convergence, or after iteration 101. */
  function Refine(x: seq<real>, iqr: real, prev: real, cur: Float, iter: nat): Float
    requires iqr != 0.0
    decreases 101 - iter
  {
    if cur.Num? && Moved(prev, cur.v) && iter <= 100 then
      Refine(x, iqr, cur.v, WMean(x, cur.v, iqr), iter + 1)
    else cur
  }

  /** `biwmean(x)` for a non-empty x. */
  function BiwmeanSpec(x: seq<real>): Float
    requires |x| >= 1
  {
    BiwmeanFrom(x, Spread(Sort(x), QuarterCount(|x|)), Median(x))
  }

  /** The result once the spread iqr and the median med are known. */
  function BiwmeanFrom(x: seq<real>, iqr: real, med: real): Float
  {
    if 2.0 * iqr < Eps then Num(med)
    else Refine(x, iqr, med + Eps, WMean(x, med, iqr), 0)
  }

  /** `biwmean`, with the refinement loop; it runs at most 101 refinements. */
  method Biwmean(x: seq<real>) returns (r: Float, ghost rounds: nat)
    requires |x| >= 1
    ensures r == BiwmeanSpec(x)
    ensures rounds <= 101
  {
    var nx := |x|;
    var niqr := QuarterCount(nx);
    var sx := Sort(x);
    var medianx := Median(x);
    var iqr := Spread(sx, niqr);
    assert BiwmeanSpec(x) == BiwmeanFrom(x, iqr, medianx);
    rounds := 0;
    if 2.0 * iqr < Eps {
      return Num(medianx), rounds;
    }
    r, rounds := Reweigh(x, iqr, medianx);
  }

  /** The refinement loop of `biwmean`, from the median on. */
  method Reweigh(x: seq<real>, iqr: real, medianx: real) returns (r: Float, ghost rounds: nat)
    requires 2.0 * iqr >= Eps
    ensures r == BiwmeanFrom(x, iqr, medianx)
    ensures rounds <= 101
  {
    var biwm := WMean(x, medianx, iqr);
    var oldbiwm := medianx + Eps;
    var iter := 0;
    rounds := 0;
    while biwm.Num? && Moved(oldbiwm, biwm.v) && iter <= 100
      invariant 0 <= iter <= 101 && rounds == iter
      invariant Refine(x, iqr, oldbiwm, biwm, iter) == BiwmeanFrom(x, iqr, medianx)
      decreases 101 - iter
    {
      iter := iter + 1;
      rounds := rounds + 1;
      oldbiwm := biwm.v;
      biwm := WMean(x, oldbiwm, iqr);
    }
    r := biwm;
  }

  /** With a spread below eps / 2 the median itself is returned. */
  lemma BiwmeanNarrow(x: seq<real>)
    requires |x| >= 1
    requires 2.0 * Spread(Sort(x), QuarterCount(|x|)) < Eps
    ensures BiwmeanSpec(x) == Num(Median(x))
  {
  }

  /** A weighted mean that is a number lies within any bounds of the values. */
  lemma WMeanWithin(x: seq<real>, c: real, iqr: real, lo: real, hi: real)
    requires iqr != 0.0
    requires forall i :: 0 <= i < |x| ==> lo <= x[i] <= hi
    ensures WMean(x, c, iqr).Num? ==> lo <= WMean(x, c, iqr).v <= hi
  {
    var w := Weights(x, c, iqr);
    if Sum(w) != 0.0 {
      SumNonNegative(w);
      WeightedMeanBounds(w, x, lo, hi);
    }
  }

  lemma {:induction false} RefineWithin(x: seq<real>, iqr: real, prev: real, cur: Float, iter: nat, lo: real, hi: real)
    requires iqr != 0.0
    requires forall i :: 0 <= i < |x| ==> lo <= x[i] <= hi
    requires cur.Num? ==> lo <= cur.v <= hi
    ensures Refine(x, iqr, prev, cur, iter).Num? ==> lo <= Refine(x, iqr, prev, cur, iter).v <= hi
    decreases 101 - iter
  {
    if cur.Num? && Moved(prev, cur.v) && iter <= 100 {
      WMeanWithin(x, cur.v, iqr, lo, hi);
      RefineWithin(x, iqr, cur.v, WMean(x, cur.v, iqr), iter + 1, lo, hi);
    }
  }

  lemma FromWithin(x: seq<real>, iqr: real, med: real, lo: real, hi: real)
    requires forall i :: 0 <= i < |x| ==> lo <= x[i] <= hi
    requires lo <= med <= hi
    ensures BiwmeanFrom(x, iqr, med).Num? ==> lo <= BiwmeanFrom(x, iqr, med).v <= hi
  {
    if 2.0 * iqr >= Eps {
      WMeanWithin(x, med, iqr, lo, hi);
      RefineWithin(x, iqr, med + Eps, WMean(x, med, iqr), 0, lo, hi);
    }
  }

  /** Every iterate, and so the result, is a weighted mean of x: it lies within any bounds of x. */
  lemma BiwmeanWithin(x: seq<real>, lo: real, hi: real)
    requires |x| >= 1
    requires forall i :: 0 <= i < |x| ==> lo <= x[i] <= hi
    ensures BiwmeanSpec(x).Num? ==> lo <= BiwmeanSpec(x).v <= hi
  {
    MedianBounds(x, lo, hi);
    FromWithin(x, Spread(Sort(x), QuarterCount(|x|)), Median(x), lo, hi);
  }

  /** A constant column has the constant as its bi-weighted mean. */
  lemma BiwmeanConstant(x: seq<real>, c: real)
    requires |x| >= 1
    requires forall i :: 0 <= i < |x| ==> x[i] == c
    ensures BiwmeanSpec(x) == Num(c)
  {
    var sx := Sort(x);
    var niqr := QuarterCount(|x|);
    forall k | 0 <= k < |x| ensures sx[k] == c {
      SortedWithin(x, c, c, k);
    }
    assert Spread(sx, niqr) == 0.0;
    MedianBounds(x, c, c);
  }

  /** `refs[2, a] = biwmean(y[:, a])` for every column a. */
  function BiwRef(v: seq<seq<real>>, cols: nat): (r: seq<Float>)
    requires RealRect(v, cols) && (|v| >= 1 || cols == 0)
    ensures |r| == cols
  {
    seq(cols, j requires 0 <= j < cols => BiwmeanSpec(Column(v, cols, j)))
  }

  /** The loop over the columns for criterion 3. */
  method BiwColumns(v: seq<seq<real>>, cols: nat) returns (row: seq<Float>)
    requires RealRect(v, cols) && (|v| >= 1 || cols == 0)
    ensures row == BiwRef(v, cols)
  {
    row := Zeros(cols);
    for a := 0 to cols
      invariant |row| == cols
      invariant forall j :: 0 <= j < a ==> row[j] == BiwRef(v, cols)[j]
    {
      var b, _ := Biwmean(Column(v, cols, a));
      row := row[a := b];
    }
  }

  // ---------------------------------------------------------------------------
  // Criterion 5: the product of squared correlation coefficients

  /** `u - np.sum(u) / len(u)`. */
  function Center(u: seq<real>): (c: seq<real>)
    ensures |c| == |u|
  {
    seq(|u|, i requires 0 <= i < |u| => u[i] - Quotient(Sum(u), |u| as real))
  }

  function Dot(a: seq<real>, b: seq<real>): real
    requires |a| == |b|
  {
    if a == [] then 0.0 else Dot(a[..|a| - 1], b[..|b| - 1]) + a[|a| - 1] * b[|b| - 1]
  }

  /**
   * `(np.dot(xx1, xx2) / (norm(xx1) * norm(xx2))) ** 2`, written without the
   * square roots as dot^2 / (|xx1|^2 |xx2|^2); a zero norm gives 0 / 0, NaN.
   */
  function Corr2(u: seq<real>, w: seq<real>): Float
    requires |u| == |w|
  {
    var cu, cw := Center(u), Center(w);
    Ratio(Dot(cu, cw), Dot(cu, cu), Dot(cw, cw))
  }

  /** d^2 / (su * sw), NaN when the denominator is 0. */
  function Ratio(d: real, su: real, sw: real): Float
  {
    if su * sw == 0.0 then NaN else Num(Quotient(d * d, su * sw))
  }

  /** `np.eye(yn)[p, q]`. */
  function Eye(p: int, q: int): Float
  {
    if p == q then Num(1.0) else Num(0.0)
  }

  /**
   * R after the two loops: the squared correlation of rows p and q, except on
   * the diagonal at the two ends, which the loops never reach and keep 1.
   */
  function REntry(v: seq<seq<real>>, cols: nat, p: nat, q: nat): Float
    requires RealRect(v, cols) && p < |v| && q < |v|
  {
    if p == q && (p == 0 || p == |v| - 1) then Num(1.0) else Corr2(v[p], v[q])
  }

  function RMatrix(v: seq<seq<real>>, cols: nat): (r: seq<seq<Float>>)
    requires RealRect(v, cols)
    ensures |r| == |v| && forall p :: 0 <= p < |v| ==> |r[p]| == |v|
  {
    seq(|v|, p requires 0 <= p < |v| => seq(|v|, q requires 0 <= q < |v| => REntry(v, cols, p, q)))
  }

  /** Entries (p, q) that the loops have written before row a, column b. */
  predicate Written(a: nat, b: nat, p: nat, q: nat)
  {
    || (p < a && q >= 1) || (q < a && p >= 1)
    || (p == a && 1 <= q < b) || (q == a && 1 <= p < b)
  }

  /** The state of R in the loops: written entries hold correlations, the others the identity. */
  predicate Filled(r: seq<seq<Float>>, v: seq<seq<real>>, cols: nat, a: nat, b: nat)
    requires RealRect(v, cols)
  {
    && |r| == |v|
    && (forall p :: 0 <= p < |v| ==> |r[p]| == |v|)
    && forall p, q :: 0 <= p < |v| && 0 <= q < |v| ==>
         r[p][q] == if Written(a, b, p, q) then Corr2(v[p], v[q]) else Eye(p, q)
  }

  /** One step of the inner loop: R[a, b] and R[b, a] become the squared correlation. */
  lemma FilledNext(r: seq<seq<Float>>, v: seq<seq<real>>, cols: nat, a: nat, b: nat)
    requires RealRect(v, cols) && a < |v| && 1 <= b < |v|
    requires Filled(r, v, cols, a, b)
    ensures var c := Corr2(v[a], v[b]);
      var r1 := r[a := r[a][b := c]];
      Filled(r1[b := r1[b][a := r1[a][b]]], v, cols, a, b + 1)
  {
    var c := Corr2(v[a], v[b]);
    Corr2Symmetric(v[a], v[b]);
    var r1 := r[a := r[a][b := c]];
    var r2 := r1[b := r1[b][a := r1[a][b]]];
    forall p, q | 0 <= p < |v| && 0 <= q < |v|
      ensures r2[p][q] == if Written(a, b + 1, p, q) then Corr2(v[p], v[q]) else Eye(p, q)
    {
      if (p, q) == (a, b) || (p, q) == (b, a) {
      } else {
        assert r2[p][q] == r[p][q];
      }
    }
  }

  /** The nested loops over a < yn - 1 and 1 <= b < yn that fill R. */
  method CorrMatrix(v: seq<seq<real>>, cols: nat) returns (r: seq<seq<Float>>)
    requires RealRect(v, cols)
    ensures r == RMatrix(v, cols)
  {
    var yn := |v|;
    r := seq(yn, p => seq(yn, q => Eye(p, q)));
    var last := if yn >= 1 then yn - 1 else 0;
    for a := 0 to last
      invariant Filled(r, v, cols, a, 1)
    {
      for b := 1 to yn
        invariant Filled(r, v, cols, a, b)
      {
        FilledNext(r, v, cols, a, b);
        var c := Corr2(v[a], v[b]);
        r := r[a := r[a][b := c]];
        r := r[b := r[b][a := r[a][b]]];
      }
      FilledRow(r, v, cols, a);
    }
    FilledAll(r, v, cols);
  }

  /** A finished row a: the entries written are those before row a + 1. */
  lemma FilledRow(r: seq<seq<Float>>, v: seq<seq<real>>, cols: nat, a: nat)
    requires RealRect(v, cols)
    requires Filled(r, v, cols, a, |v|)
    ensures Filled(r, v, cols, a + 1, 1)
  {
    forall p, q | 0 <= p < |v| && 0 <= q < |v|
      ensures Written(a, |v|, p, q) == Written(a + 1, 1, p, q)
    {
    }
  }

  lemma FilledAll(r: seq<seq<Float>>, v: seq<seq<real>>, cols: nat)
    requires RealRect(v, cols)
    requires Filled(r, v, cols, if |v| >= 1 then |v| - 1 else 0, 1)
    ensures r == RMatrix(v, cols)
  {
    var m := RMatrix(v, cols);
    forall p | 0 <= p < |v| ensures r[p] == m[p] {
      forall q | 0 <= q < |v| ensures r[p][q] == m[p][q] {
      }
    }
  }

  lemma {:induction false} DotSymmetric(a: seq<real>, b: seq<real>)
    requires |a| == |b|
    ensures Dot(a, b) == Dot(b, a)
  {
    if a != [] {
      DotSymmetric(a[..|a| - 1], b[..|b| - 1]);
    }
  }

  /** The squared correlation does not depend on the order of the two signals. */
  lemma Corr2Symmetric(u: seq<real>, w: seq<real>)
    requires |u| == |w|
    ensures Corr2(u, w) == Corr2(w, u)
  {
    DotSymmetric(Center(u), Center(w));
    RatioSymmetric(Dot(Center(u), Center(w)), Dot(Center(u), Center(u)), Dot(Center(w), Center(w)));
  }

  lemma RatioSymmetric(d: real, su: real, sw: real)
    ensures Ratio(d, su, sw) == Ratio(d, sw, su)
  {
    assert su * sw == sw * su;
  }

  /** `np.prod` of a row: NaN as soon as one factor is NaN. */
  function Prod(s: seq<Float>): Float
  {
    if s == [] then Num(1.0)
    else
      var p := Prod(s[..|s| - 1]);
      if p.NaN? || s[|s| - 1].NaN? then NaN else Num(p.v * s[|s| - 1].v)
  }

  /** `np.prod(R, 1)`. */
  function RowProducts(r: seq<seq<Float>>): (c: seq<Float>)
    ensures |c| == |r|
  {
    seq(|r|, i requires 0 <= i < |r| => Prod(r[i]))
  }

  lemma {:induction false} DotSelfNonNegative(a: seq<real>)
    ensures Dot(a, a) >= 0.0
  {
    if a != [] {
      DotSelfNonNegative(a[..|a| - 1]);
    }
  }

  /** The cross term of one Cauchy–Schwarz step: 2 D a b <= A b^2 + a^2 B. */
  lemma CrossTerm(dd: real, aa: real, bb: real, a: real, b: real)
    requires aa >= 0.0 && bb >= 0.0 && dd * dd <= aa * bb
    ensures 2.0 * dd * a * b <= aa * b * b + a * a * bb
  {
    SquareNonNegative(a, a * a);
    if aa == 0.0 {
      if dd != 0.0 {
        SquarePositive(dd, dd * dd);
      }
      MulNonNegative(a * a, bb);
    } else {
      var e := aa * b * b + a * a * bb - 2.0 * dd * a * b;
      assert aa * e == (aa * b - dd * a) * (aa * b - dd * a) + a * a * (aa * bb - dd * dd);
      SquareNonNegative(aa * b - dd * a, (aa * b - dd * a) * (aa * b - dd * a));
      MulNonNegative(a * a, aa * bb - dd * dd);
      NonNegativeFactor(aa, e);
    }
  }

  // The products below are passed as parameters (s == t * t): the solver then
  // reasons linearly about s and meets the product in one place only.

  lemma SquareNonNegative(t: real, s: real)
    requires s == t * t
    ensures s >= 0.0
  {
    if t != 0.0 {
      SquarePositive(t, s);
    }
  }

  lemma MulPositive(x: real, y: real, p: real)
    requires x > 0.0 && y > 0.0 && p == x * y
    ensures p > 0.0
  {
  }

  lemma SquarePositive(t: real, s: real)
    requires t != 0.0 && s == t * t
    ensures s > 0.0
  {
    if t > 0.0 {
      MulPositive(t, t, s);
    } else {
      assert (-t) * (-t) == t * t;
      MulPositive(-t, -t, s);
    }
  }

  /** A sum of a non-negative number and a square is zero exactly when both are. */
  lemma SumOfSquares(dp: real, z: real, s: real)
    requires dp >= 0.0 && s == z * z
    ensures dp + s == 0.0 <==> dp == 0.0 && z == 0.0
  {
    if z != 0.0 {
      SquarePositive(z, s);
    } else {
      assert s == 0.0;
    }
  }

  lemma NonNegativeFactor(f: real, e: real)
    requires f > 0.0 && f * e >= 0.0
    ensures e >= 0.0
  {
  }

  /** Cancelling a positive factor. */
  lemma Cancel(m: real, c: real, n: real)
    requires n > 0.0 && m * n == n * c
    ensures m == c
  {
    assert n * (m - c) == 0.0;
    NonNegativeFactor(n, m - c);
    assert n * (c - m) == 0.0;
    NonNegativeFactor(n, c - m);
  }

  lemma MulNonNegative(x: real, y: real)
    requires x >= 0.0 && y >= 0.0
    ensures x * y >= 0.0
  {
  }

  lemma CauchyStep(dd: real, aa: real, bb: real, a: real, b: real)
    requires aa >= 0.0 && bb >= 0.0 && dd * dd <= aa * bb
    ensures (dd + a * b) * (dd + a * b) <= (aa + a * a) * (bb + b * b)
  {
    CrossTerm(dd, aa, bb, a, b);
    assert (dd + a * b) * (dd + a * b) == dd * dd + 2.0 * dd * a * b + a * a * (b * b);
    assert (aa + a * a) * (bb + b * b) == aa * bb + aa * b * b + a * a * bb + a * a * (b * b);
  }

  /** Cauchy–Schwarz: dot(a, b)^2 <= |a|^2 |b|^2. */
  lemma {:induction false} CauchySchwarz(a: seq<real>, b: seq<real>)
    requires |a| == |b|
    ensures Dot(a, b) * Dot(a, b) <= Dot(a, a) * Dot(b, b)
  {
    if a != [] {
      var pa, pb := a[..|a| - 1], b[..|b| - 1];
      CauchySchwarz(pa, pb);
      DotSelfNonNegative(pa);
      DotSelfNonNegative(pb);
      CauchyStep(Dot(pa, pb), Dot(pa, pa), Dot(pb, pb), a[|a| - 1], b[|b| - 1]);
    }
  }

  lemma RatioWithin(d: real, su: real, sw: real)
    requires su >= 0.0 && sw >= 0.0 && d * d <= su * sw
    ensures Ratio(d, su, sw).Num? ==> 0.0 <= Ratio(d, su, sw).v <= 1.0
  {
    if su * sw != 0.0 {
      var q := Quotient(d * d, su * sw);
      assert su * sw > 0.0;
      assert q * (su * sw) == d * d;
    }
  }

  /** A squared correlation that is a number lies in [0, 1]. */
  lemma Corr2Within(u: seq<real>, w: seq<real>)
    requires |u| == |w|
    ensures Corr2(u, w).Num? ==> 0.0 <= Corr2(u, w).v <= 1.0
  {
    CenteredWithin(Center(u), Center(w));
  }

  lemma CenteredWithin(cu: seq<real>, cw: seq<real>)
    requires |cu| == |cw|
    ensures var r := Ratio(Dot(cu, cw), Dot(cu, cu), Dot(cw, cw)); r.Num? ==> 0.0 <= r.v <= 1.0
  {
    CauchySchwarz(cu, cw);
    DotSelfNonNegative(cu);
    DotSelfNonNegative(cw);
    RatioWithin(Dot(cu, cw), Dot(cu, cu), Dot(cw, cw));
  }

  /** All values are equal. */
  predicate Constant(u: seq<real>)
  {
    forall i, j :: 0 <= i < |u| && 0 <= j < |u| ==> u[i] == u[j]
  }

  /** A vector has a zero squared norm exactly when all its entries are zero. */
  lemma {:induction false} DotSelfZero(a: seq<real>)
    ensures Dot(a, a) == 0.0 <==> forall i :: 0 <= i < |a| ==> a[i] == 0.0
  {
    if a != [] {
      var p := a[..|a| - 1];
      var z := a[|a| - 1];
      DotSelfZero(p);
      DotSelfNonNegative(p);
      SumOfSquares(Dot(p, p), z, z * z);
      assert forall i :: 0 <= i < |p| ==> p[i] == a[i];
    }
  }

  /** The centred signal is zero exactly when the signal is constant. */
  lemma CenterZero(u: seq<real>)
    ensures (forall i :: 0 <= i < |u| ==> Center(u)[i] == 0.0) <==> Constant(u)
  {
    if |u| >= 1 {
      var n := |u| as real;
      var m := Quotient(Sum(u), n);
      assert forall i :: 0 <= i < |u| ==> Center(u)[i] == u[i] - m;
      if Constant(u) {
        ConstantMean(u);
      }
    }
  }

  lemma ConstantMean(u: seq<real>)
    requires |u| >= 1 && forall i :: 0 <= i < |u| ==> u[i] == u[0]
    ensures Quotient(Sum(u), |u| as real) == u[0]
  {
    var n := |u| as real;
    SumConstant(u, u[0]);
    Cancel(Quotient(Sum(u), n), u[0], n);
  }

  /** One signal or the other is constant exactly when their squared correlation is NaN (0 / 0). */
  lemma Corr2NaN(u: seq<real>, w: seq<real>)
    requires |u| == |w|
    ensures Corr2(u, w).NaN? <==> Constant(u) || Constant(w)
  {
    var cu, cw := Center(u), Center(w);
    DotSelfZero(cu);
    DotSelfZero(cw);
    CenterZero(u);
    CenterZero(w);
    DotSelfNonNegative(cu);
    DotSelfNonNegative(cw);
    var su, sw := Dot(cu, cu), Dot(cw, cw);
    if su != 0.0 && sw != 0.0 {
      assert su * sw > 0.0;
    }
  }

  /** A signal that is not constant has squared correlation 1 with itself. */
  lemma Corr2Self(u: seq<real>)
    requires !Constant(u)
    ensures Corr2(u, u) == Num(1.0)
  {
    Corr2NaN(u, u);
    var s := Dot(Center(u), Center(u));
    var q := Quotient(s * s, s * s);
    assert q * (s * s) == 1.0 * (s * s);
  }

  /**
   * R is symmetric, its entries that are numbers lie in [0, 1], its diagonal
   * is 1 except for constant signals strictly inside, and an entry off the
   * diagonal is NaN exactly when one of its two signals is constant.
   */
  lemma RMatrixEntries(v: seq<seq<real>>, cols: nat, p: nat, q: nat)
    requires RealRect(v, cols) && p < |v| && q < |v|
    ensures RMatrix(v, cols)[p][q] == RMatrix(v, cols)[q][p]
    ensures RMatrix(v, cols)[p][q].Num? ==> 0.0 <= RMatrix(v, cols)[p][q].v <= 1.0
    ensures p == q && (!Constant(v[p]) || p == 0 || p == |v| - 1) ==> RMatrix(v, cols)[p][q] == Num(1.0)
    ensures p != q ==> (RMatrix(v, cols)[p][q].NaN? <==> Constant(v[p]) || Constant(v[q]))
  {
    Corr2Symmetric(v[p], v[q]);
    Corr2Within(v[p], v[q]);
    if p == q && !Constant(v[p]) {
      Corr2Self(v[p]);
    }
    if p != q {
      Corr2NaN(v[p], v[q]);
    }
  }

  // ---------------------------------------------------------------------------
  // ref_select

  datatype RefError =
    | LabelCountMismatch   // ym != len(x)
    | MissingValues        // NaN in y
    | EmptyReduction       // a numpy reduction over no signals raises
    | SelectionOutOfRange  // refs[options[0] - 1] outside the five rows
    | OptionIndex(k: nat)  // options[k] past the end of the list raises IndexError
    | NoOptions            // options[0] on the default None raises TypeError

  /** The three results: ref, refs (five rows) and N. */
  datatype Selection = Selection(ref: seq<Float>, refs: seq<seq<Float>>, n: nat)

  /** The number of labels once an absent or empty x has become 1..ym. */
  function LabelCount(labels: seq<real>, ym: nat): nat
  {
    if |labels| == 0 then ym else |labels|
  }

  /** Python's `refs[k]` on five rows: k in -5..4, negative k counting from the end. */
  function PyRow(k: int): (i: nat)
    requires -5 <= k < 5
    ensures i < 5
  {
    if k >= 0 then k else k + 5
  }

  /** The criteria computed: the selected one, or all five in interactive mode (0). */
  predicate Runs(mode: int, k: int)
  {
    mode == k || mode == 0
  }

  /** A numpy reduction over no signals that fails: biwmean, amax, argmax. */
  predicate Fails(mode: int, yn: nat, ym: nat)
  {
    || (Runs(mode, 3) && yn == 0 && ym > 0)
    || (Runs(mode, 4) && yn == 0)
    || (Runs(mode, 5) && yn == 0)
  }

  /**
   * `ref_select(y, x, options)` with options[0] = mode. In interactive mode (0)
   * choice stands for the first valid number the user types.
   */
  function RefSelectSpec(y: seq<seq<Float>>, ym: nat, labels: seq<real>, mode: int, choice: int): Result<Selection, RefError>
    requires Rect(y, ym)
    requires mode == 0 ==> 1 <= choice <= 5
  {
    if ym != LabelCount(labels, ym) then Failure(LabelCountMismatch)
    else if HasNaN(y) then Failure(MissingValues)
    else if Fails(mode, |y|, ym) then Failure(EmptyReduction)
    else
      var v := Values(y, ym);
      var n := CorrIndex(v, ym, mode);
      var refs := seq(5, k requires 0 <= k < 5 => Criterion(y, v, ym, mode, n, k));
      var sel := Chosen(mode, choice);
      if sel - 1 < -5 || sel - 1 >= 5 then Failure(SelectionOutOfRange)
      else Success(Selection(refs[PyRow(sel - 1)], refs, n))
  }

  /** `N`: the arg-max of the row products of R when criterion 5 runs, else 0. */
  function CorrIndex(v: seq<seq<real>>, ym: nat, mode: int): (n: nat)
    requires RealRect(v, ym) && (Runs(mode, 5) ==> |v| >= 1)
    ensures Runs(mode, 5) ==> n < |v|
  {
    if Runs(mode, 5) then FirstArgMax(RowProducts(RMatrix(v, ym))) else 0
  }

  /** Row k of refs: criterion k + 1 when it runs, zeros otherwise. */
  function Criterion(y: seq<seq<Float>>, v: seq<seq<real>>, ym: nat, mode: int, n: nat, k: nat): (row: seq<Float>)
    requires Rect(y, ym) && RealRect(v, ym) && |v| == |y|
    requires !Fails(mode, |y|, ym) && (Runs(mode, 5) ==> n < |y|) && k < 5
    ensures |row| == ym
    ensures !Runs(mode, k + 1) ==> row == Zeros(ym)
  {
    if !Runs(mode, k + 1) then Zeros(ym)
    else if k == 0 then MeanRef(v, ym)
    else if k == 1 then MedianRef(v, ym)
    else if k == 2 then BiwRef(v, ym)
    else if k == 3 then MaxRef(v, ym)
    else y[n]
  }

  /** `ref_select`, with the loops of criteria 3 and 5. */
  method RefSelectMethod(y: seq<seq<Float>>, ym: nat, labels: seq<real>, mode: int, choice: int)
    returns (r: Result<Selection, RefError>)
    requires Rect(y, ym)
    requires mode == 0 ==> 1 <= choice <= 5
    ensures r == RefSelectSpec(y, ym, labels, mode, choice)
  {
    if ym != LabelCount(labels, ym) {
      return Failure(LabelCountMismatch);
    }
    if HasNaN(y) {
      return Failure(MissingValues);
    }
    if Fails(mode, |y|, ym) {
      return Failure(EmptyReduction);
    }
    var v := Values(y, ym);
    var refs, n := ComputeRefs(y, v, ym, mode);
    var sel := Chosen(mode, choice);
    if sel - 1 < -5 || sel - 1 >= 5 {
      return Failure(SelectionOutOfRange);
    }
    r := Success(Selection(refs[PyRow(sel - 1)], refs, n));
  }

  /** The five criteria of `ref_select`, each computed when mode selects it. */
  method ComputeRefs(y: seq<seq<Float>>, v: seq<seq<real>>, ym: nat, mode: int) returns (refs: seq<seq<Float>>, n: nat)
    requires Rect(y, ym) && RealRect(v, ym) && |v| == |y|
    requires !Fails(mode, |y|, ym)
    ensures n == CorrIndex(v, ym, mode)
    ensures refs == seq(5, k requires 0 <= k < 5 => Criterion(y, v, ym, mode, n, k))
  {
    n := 0;
    var mean, median, biw, max, corr := Zeros(ym), Zeros(ym), Zeros(ym), Zeros(ym), Zeros(ym);
    if Runs(mode, 1) {
      mean := MeanRef(v, ym);
    }
    if Runs(mode, 2) {
      median := MedianRef(v, ym);
    }
    if Runs(mode, 3) {
      biw := BiwColumns(v, ym);
    }
    if Runs(mode, 4) {
      max := MaxRef(v, ym);
    }
    if Runs(mode, 5) {
      var rm := CorrMatrix(v, ym);
      n := FirstArgMax(RowProducts(rm));
      corr := y[n];
    }
    refs := [mean, median, biw, max, corr];
  }

  /** A number the interactive loop accepts: it asks again until the user types one of 1 to 5. */
  type Choice = c: int | 1 <= c <= 5 witness 1

  /** The criterion whose row is returned: options[0], or the user's choice in interactive mode. */
  function Chosen(mode: int, choice: int): int
  {
    if mode == 0 then choice else mode
  }

  /**
   * The errors, in the order the source raises them; with matching labels,
   * no NaN and at least one signal, modes 0 to 5 always succeed.
   */
  lemma RefSelectErrors(y: seq<seq<Float>>, ym: nat, labels: seq<real>, mode: int, choice: int)
    requires Rect(y, ym)
    requires mode == 0 ==> 1 <= choice <= 5
    ensures var r := RefSelectSpec(y, ym, labels, mode, choice);
      && (r == Failure(LabelCountMismatch) <==> ym != LabelCount(labels, ym))
      && (r == Failure(MissingValues) <==> ym == LabelCount(labels, ym) && HasNaN(y))
      && (ym == LabelCount(labels, ym) && !HasNaN(y) ==> (r == Failure(EmptyReduction) <==> Fails(mode, |y|, ym)))
      && (ym == LabelCount(labels, ym) && !HasNaN(y) && |y| == 0 && (mode == 0 || mode == 4 || mode == 5)
          ==> r == Failure(EmptyReduction))
      && (ym == LabelCount(labels, ym) && !HasNaN(y) && |y| == 0 && ym > 0 && mode == 3
          ==> r == Failure(EmptyReduction))
      && (ym == LabelCount(labels, ym) && !HasNaN(y) && |y| >= 1 && 0 <= mode <= 5 ==> r.Success?)
      && (ym == LabelCount(labels, ym) && !HasNaN(y) && (mode == 1 || mode == 2 || (mode == 3 && ym == 0) || -4 <= mode <= -1)
          ==> r.Success?)
      && (ym == LabelCount(labels, ym) && !HasNaN(y) && (mode < -4 || mode > 5) ==> r == Failure(SelectionOutOfRange))
  {
  }

  /**
   * `ref_select(y, x, options)` with options a list of integers: options[0]
   * is read at line 64, and options[1] after the first criterion that is
   * computed (or not at all when options[0] selects none).
   */
  function RefSelectList(y: seq<seq<Float>>, ym: nat, labels: seq<real>, options: seq<int>, choice: Choice): Result<Selection, RefError>
    requires Rect(y, ym)
  {
    if ym != LabelCount(labels, ym) then Failure(LabelCountMismatch)
    else if HasNaN(y) then Failure(MissingValues)
    else if |options| == 0 then Failure(OptionIndex(0))
    else if |options| == 1 && 0 <= options[0] <= 5 then
      // the first computed criterion either fails on no signals or reads options[1]
      if options[0] != 0 && Fails(options[0], |y|, ym) then Failure(EmptyReduction)
      else Failure(OptionIndex(1))
    else RefSelectSpec(y, ym, labels, options[0], choice)
  }

  /**
   * The errors of a list of options, after those of the labels and of NaN: an
   * empty list fails at options[0]; a one-entry list that selects a criterion
   * fails at options[1], unless that criterion first fails on no signals; a
   * list of two or more behaves as its first entry selects.
   */
  lemma RefSelectListErrors(y: seq<seq<Float>>, ym: nat, labels: seq<real>, options: seq<int>, choice: Choice)
    requires Rect(y, ym)
    ensures var r := RefSelectList(y, ym, labels, options, choice);
      var ok := ym == LabelCount(labels, ym) && !HasNaN(y);
      && (r == Failure(LabelCountMismatch) <==> ym != LabelCount(labels, ym))
      && (r == Failure(MissingValues) <==> ym == LabelCount(labels, ym) && HasNaN(y))
      && (ok && |options| == 0 ==> r == Failure(OptionIndex(0)))
      && (ok && |options| == 1 && 0 <= options[0] <= 2 ==> r == Failure(OptionIndex(1)))
      && (ok && |options| == 1 && 3 <= options[0] <= 5 ==>
            r == (if Fails(options[0], |y|, ym) then Failure(EmptyReduction) else Failure(OptionIndex(1))))
      && (|options| >= 2 || (|options| == 1 && (options[0] < 0 || options[0] > 5)) ==>
            r == RefSelectSpec(y, ym, labels, options[0], choice))
      && (r.Success? ==> |options| >= 2 || (|options| == 1 && -4 <= options[0] <= -1))
  {
    if |options| >= 1 {
      RefSelectErrors(y, ym, labels, options[0], choice);
    }
  }


  /** `ref_select(y, x)` without options: line 64 reads `options[0]` of None. */
  function RefSelectOmitted(y: seq<seq<Float>>, ym: nat, labels: seq<real>): Result<Selection, RefError>
    requires Rect(y, ym)
  {
    if ym != LabelCount(labels, ym) then Failure(LabelCountMismatch)
    else if HasNaN(y) then Failure(MissingValues)
    else Failure(NoOptions)
  }

  /** `ref_select(y, x, [0, 1])`: the default the docstring documents. */
  function RefSelectDefault(y: seq<seq<Float>>, ym: nat, labels: seq<real>, choice: Choice): Result<Selection, RefError>
    requires Rect(y, ym)
  {
    RefSelectList(y, ym, labels, [0, 1], choice)
  }

  /**
   * Without options every call fails: on the labels, on NaN, or else on
   * `options[0]`; with the documented default [0, 1] a call with matching
   * labels, no NaN and a signal succeeds.
   */
  lemma DefaultOptionsFail(y: seq<seq<Float>>, ym: nat, labels: seq<real>, choice: Choice)
    requires Rect(y, ym)
    ensures RefSelectOmitted(y, ym, labels).Failure?
    ensures RefSelectOmitted(y, ym, labels) == Failure(NoOptions) <==> ym == LabelCount(labels, ym) && !HasNaN(y)
    ensures ym == LabelCount(labels, ym) && !HasNaN(y) && |y| >= 1 ==> RefSelectDefault(y, ym, labels, choice).Success?
  {
    RefSelectErrors(y, ym, labels, 0, choice);
  }

  /**
   * The default [0, 1] is the interactive mode: it succeeds exactly when the
   * labels match, y has no NaN and there is a signal; ref is then row
   * choice - 1 of refs, all five criteria computed; without signals it fails
   * on the empty reduction.
   */
  lemma DefaultOptionsInteractive(y: seq<seq<Float>>, ym: nat, labels: seq<real>, choice: Choice)
    requires Rect(y, ym)
    ensures var r := RefSelectDefault(y, ym, labels, choice);
      && (r.Success? <==> ym == LabelCount(labels, ym) && !HasNaN(y) && |y| >= 1)
      && (r.Success? ==> |r.value.refs| == 5 && r.value.ref == r.value.refs[choice - 1])
      && (r.Success? ==> forall k :: 0 <= k < 5 ==> |r.value.refs[k]| == ym)
      && (ym == LabelCount(labels, ym) && !HasNaN(y) && |y| == 0 ==> r == Failure(EmptyReduction))
  {
    RefSelectErrors(y, ym, labels, 0, choice);
    RefSelectShape(y, ym, labels, 0, choice);
  }

  /**
   * A result has five rows of ym values; ref is row choice - 1 (Python indexing,
   * so -4 <= mode < 0 picks a row counted from the end); a criterion that was
   * not computed leaves its row at zero, and N stays 0 unless criterion 5 ran.
   */
  lemma RefSelectShape(y: seq<seq<Float>>, ym: nat, labels: seq<real>, mode: int, choice: int)
    requires Rect(y, ym)
    requires mode == 0 ==> 1 <= choice <= 5
    ensures var r := RefSelectSpec(y, ym, labels, mode, choice);
      r.Success? ==>
        && |r.value.refs| == 5
        && (forall k :: 0 <= k < 5 ==> |r.value.refs[k]| == ym)
        && -4 <= Chosen(mode, choice) <= 5
        && r.value.ref == r.value.refs[PyRow(Chosen(mode, choice) - 1)]
        && (forall k :: 0 <= k < 5 && !Runs(mode, k + 1) ==> r.value.refs[k] == Zeros(ym))
        && (!Runs(mode, 5) ==> r.value.n == 0)
  {
  }

  /**
   * Bounds shared by all signals in column j bound the mean, the median, the
   * bi-weighted mean and the maximum references in that column; the first two
   * and the maximum are numbers.
   */
  lemma RefSelectWithin(y: seq<seq<Float>>, ym: nat, labels: seq<real>, mode: int, choice: int,
                        j: nat, lo: real, hi: real)
    requires Rect(y, ym)
    requires mode == 0 ==> 1 <= choice <= 5
    requires j < ym && |y| >= 1
    requires forall i :: 0 <= i < |y| ==> y[i][j].Num? && lo <= y[i][j].v <= hi
    ensures var r := RefSelectSpec(y, ym, labels, mode, choice);
      r.Success? ==>
        var refs := r.value.refs;
        && (Runs(mode, 1) ==> refs[0][j].Num? && lo <= refs[0][j].v <= hi)
        && (Runs(mode, 2) ==> refs[1][j].Num? && lo <= refs[1][j].v <= hi)
        && (Runs(mode, 3) && refs[2][j].Num? ==> lo <= refs[2][j].v <= hi)
        && (Runs(mode, 4) ==> refs[3][j].Num? && lo <= refs[3][j].v <= hi)
  {
    var r := RefSelectSpec(y, ym, labels, mode, choice);
    if r.Success? {
      var v := Values(y, ym);
      assert forall i :: 0 <= i < |v| ==> lo <= v[i][j] <= hi;
      ColumnWithin(v, ym, j, lo, hi);
      var n := CorrIndex(v, ym, mode);
      assert forall k :: 0 <= k < 5 ==> r.value.refs[k] == Criterion(y, v, ym, mode, n, k);
    }
  }

  /** The four column-wise references within the bounds of column j. */
  lemma ColumnWithin(v: seq<seq<real>>, ym: nat, j: nat, lo: real, hi: real)
    requires RealRect(v, ym) && j < ym && |v| >= 1
    requires forall i :: 0 <= i < |v| ==> lo <= v[i][j] <= hi
    ensures MeanRef(v, ym)[j].Num? && lo <= MeanRef(v, ym)[j].v <= hi
    ensures MedianRef(v, ym)[j].Num? && lo <= MedianRef(v, ym)[j].v <= hi
    ensures BiwRef(v, ym)[j].Num? ==> lo <= BiwRef(v, ym)[j].v <= hi
    ensures MaxRef(v, ym)[j].Num? && lo <= MaxRef(v, ym)[j].v <= hi
  {
    var c := Column(v, ym, j);
    MeanMedianWithin(v, ym, j, lo, hi);
    BiwmeanWithin(c, lo, hi);
  }

  /**
   * Criterion 5 returns signal N: if a row product of R is NaN, N is the first
   * such row; otherwise N is the first row with the largest product.
   */
  lemma RefSelectCorrelation(y: seq<seq<Float>>, ym: nat, labels: seq<real>, mode: int, choice: int)
    requires Rect(y, ym)
    requires mode == 0 ==> 1 <= choice <= 5
    ensures var r := RefSelectSpec(y, ym, labels, mode, choice);
      r.Success? && Runs(mode, 5) ==>
        var n := r.value.n;
        var rin := RowProducts(RMatrix(Values(y, ym), ym));
        && n < |y|
        && r.value.refs[4] == y[n]
        && ((exists i :: 0 <= i < |y| && rin[i].NaN?) ==> rin[n].NaN? && forall i :: 0 <= i < n ==> rin[i].Num?)
        && ((forall i :: 0 <= i < |y| ==> rin[i].Num?) ==>
              (forall i :: 0 <= i < |y| ==> rin[i].v <= rin[n].v) && (forall i :: 0 <= i < n ==> rin[i].v < rin[n].v))
  {
  }
}
