/**
 * `optim_cow` and `optim_eval` (fpbiolib/twarp/optim_cow.py): the search for
 * the segment length and slack of `cow` that give the best warping effect.
 * Every evaluated pair becomes a column of OS (segment, slack, warping effect,
 * simplicity, peak factor). A coarse grid comes first; from each of at most
 * three seeds a discrete simplex search then reflects its worst point until
 * the reflections stop improving or a step cap is reached. The answer is the
 * pair of the first column with the largest warping effect.
 *
 * The simplicity (an SVD measure of the warped signals) and the peak factor
 * (from their norms) are functions of the pair given with the setting; the
 * checks `cow` makes before warping, and the segment lengths it reports, are
 * those of CowMain.Prepare.
 */
module OptimCow {
  import opened Wrappers
  import opened Reals
  import opened OptimGrid
  import opened OptimStep
  import CowSegments
  import CowMain
  import RefSelect

  /** A column of OS: segment, slack, warping effect, simplicity, peak factor. */
  datatype Column = Column(seg: int, slack: int, effect: real, simplicity: real, peak: real)

  function At(c: Column): Point
  {
    Point(c.seg, c.slack)
  }

  /**
   * What every evaluation works from: the outcome of the checks of the `cow`
   * call for a pair (CowCall below), and the two measures of the warped
   * signals for a pair.
   */
  datatype Setting = Setting(check: Point -> Result<CowMain.Plan, CowSegments.CowError>,
                             simplicity: Point -> real, peak: Point -> real)

  datatype OptimError =
    | BadKeyword                            // ref_select called with a keyword it does not take
    | ReferenceFailed(re: RefSelect.RefError) // the fallback ref_select raised
    | SpaceNotFour                          // optim_space not of length 4
    | SvdFailed                             // np.linalg.svd of y over its norm met a NaN
    | EmptySpace                            // an empty segment or slack range
    | CowFailed(ce: CowSegments.CowError)   // cow raised for a pair

  /** The column `optim_eval` returns and its exitflag: 0 computed, 1 copied, 2 infeasible. */
  datatype Evaluation = Evaluation(col: Column, flag: nat)

  /** The `Options` optim_eval gives cow: `[0, 1, 0, losange, 0, 1]`. */
  function EvalOptions(band: real): CowMain.Options
  {
    CowMain.Options(false, 1, false, band, false, true)
  }

  /** `index3[0]`: the first column of prev with the pair p. */
  function Earlier(prev: seq<Column>, p: Point): (k: Option<nat>)
    ensures k.Some? ==> k.value < |prev| && At(prev[k.value]) == p
    ensures k.Some? ==> forall j :: 0 <= j < k.value ==> At(prev[j]) != p
    ensures k.None? ==> forall j :: 0 <= j < |prev| ==> At(prev[j]) != p
  {
    if prev == [] then None
    else if At(prev[0]) == p then Some(0)
    else match Earlier(prev[1..], p)
      case None => None
      case Some(k) => Some(k + 1)
  }

  /** A segment longer than slack + 3 and a slack of at least 1. */
  predicate Feasible(p: Point)
  {
    !(p.seg <= p.slack + 3 || p.slack < 1)
  }

  /**
   * The checks `cow(ref, y, Seg=[seg], Slack=[slack], Options=[0, 1, 0, band, 0, 1])`
   * makes, for signals of cols points, and the plan they leave.
   */
  function Prep(p: Point, ref: seq<Float>, y: seq<seq<Float>>, cols: nat, band: real): Result<CowMain.Plan, CowSegments.CowError>
  {
    CowMain.Prepare(|ref|, cols, |y|, CowSegments.Nominal(p.seg), p.slack, EvalOptions(band), CowMain.Missing(ref, y))
  }

  /** Those checks for every pair. */
  function CowCall(ref: seq<Float>, y: seq<seq<Float>>, cols: nat, band: real): Point -> Result<CowMain.Plan, CowSegments.CowError>
  {
    p => Prep(p, ref, y, cols, band)
  }

  /** `diagnos["segment_length"][0, 0] + 1`: the points of the first reference segment. */
  function Reported(plan: CowMain.Plan): int
  {
    if |plan.segs.lenT| >= 1 then plan.segs.lenT[0] + 1 else 0
  }

  /**
   * `optim_eval` for the pair p, prev being the columns of OS before the
   * last: a pair met before copies the first such column's scores; an
   * infeasible pair scores zero; otherwise `cow` runs and the column holds
   * the segment length and slack it reports and the two measures with their sum.
   */
  function Evaluate(prev: seq<Column>, p: Point, st: Setting): (r: Result<Evaluation, OptimError>)
    ensures r.Failure? ==> r.error.CowFailed?
  {
    match Earlier(prev, p)
    case Some(k) =>
      Success(Evaluation(Column(p.seg, p.slack, prev[k].effect, prev[k].simplicity, prev[k].peak), 1))
    case None =>
      if !Feasible(p) then Success(Evaluation(Column(p.seg, p.slack, 0.0, 0.0, 0.0), 2))
      else
        var prep := st.check(p);
        if prep.Failure? then Failure(CowFailed(prep.error))
        else
          var s, f := st.simplicity(p), st.peak(p);
          Success(Evaluation(Column(Reported(prep.value), prep.value.slack, s + f, s, f), 0))
  }

  /**
   * What an evaluation means: a pair met before is copied without calling
   * `cow`, with exitflag 1; a new infeasible pair scores zero with exitflag 2;
   * a new feasible pair fails exactly when `cow` does, and otherwise has
   * exitflag 0, the slack asked for and a warping effect that is simplicity
   * plus peak factor.
   */
  lemma EvaluateMeaning(prev: seq<Column>, p: Point, st: Setting)
    ensures var r := Evaluate(prev, p, st);
      && (Earlier(prev, p).Some? ==>
            var c := prev[Earlier(prev, p).value];
            r == Success(Evaluation(Column(p.seg, p.slack, c.effect, c.simplicity, c.peak), 1)))
      && (Earlier(prev, p).None? && !Feasible(p) ==> r == Success(Evaluation(Column(p.seg, p.slack, 0.0, 0.0, 0.0), 2)))
      && (Earlier(prev, p).None? && Feasible(p) ==>
            && (r.Failure? <==> st.check(p).Failure?)
            && (r.Failure? ==> r.error == CowFailed(st.check(p).error)))
      && (r.Success? && r.value.flag == 0 ==>
            && Earlier(prev, p).None? && Feasible(p)
            && r.value.col.slack == st.check(p).value.slack
            && r.value.col.simplicity == st.simplicity(p) && r.value.col.peak == st.peak(p)
            && r.value.col.effect == r.value.col.simplicity + r.value.col.peak)
  {
  }

  /**
   * Under the checks of the `cow` call the slack recorded is the one asked
   * for, and so is the segment length unless the signals hold a single
   * segment, which then also absorbs the remainder.
   */
  lemma ReportedSegment(prev: seq<Column>, p: Point, ref: seq<Float>, y: seq<seq<Float>>, cols: nat, band: real,
                        simplicity: Point -> real, peak: Point -> real)
    requires var st := Setting(CowCall(ref, y, cols, band), simplicity, peak);
      Evaluate(prev, p, st).Success? && Evaluate(prev, p, st).value.flag == 0
    ensures var st := Setting(CowCall(ref, y, cols, band), simplicity, peak);
      var plan := Prep(p, ref, y, cols, band).value;
      var refM := |ref| + 200;
      var c := Evaluate(prev, p, st).value.col;
      && c.slack == p.slack
      && plan.segs.n == (refM - 1) / (p.seg - 1)
      && (plan.segs.n >= 2 ==> c.seg == p.seg)
      && (plan.segs.n == 1 ==> c.seg == refM)
  {
    var refM, ym := |ref| + 200, cols + 200;
    var st := Setting(CowCall(ref, y, cols, band), simplicity, peak);
    EvaluateMeaning(prev, p, st);
    assert st.check(p) == Prep(p, ref, y, cols, band);
    PrepNominal(p, ref, y, cols, band);
    CowSegments.DefaultSplitFirst(refM, ym, p.seg);
  }

  /** An accepted call of the search cuts the lengthened signals with the default split. */
  lemma PrepNominal(p: Point, ref: seq<Float>, y: seq<seq<Float>>, cols: nat, band: real)
    requires Prep(p, ref, y, cols, band).Success?
    ensures var refM, ym := |ref| + 200, cols + 200;
      && p.seg <= CowSegments.IntMin(ym, refM)
      && CowSegments.DefaultSplit(refM, ym, p.seg).Success?
      && Prep(p, ref, y, cols, band).value.segs == CowSegments.DefaultSplit(refM, ym, p.seg).value
      && Prep(p, ref, y, cols, band).value.slack == p.slack
  {
  }

  /**
   * For example a reference and signals of 10 points, lengthened to 210, cut
   * with segment length 150 and slack 1: one segment of 209 intervals, so the
   * column records the pair (210, 1) instead of (150, 1).
   */
  lemma OneSegmentExample(ref: seq<Float>, y: seq<seq<Float>>, simplicity: Point -> real, peak: Point -> real)
    requires |ref| == 10 && |y| >= 1 && !CowMain.Missing(ref, y)
    ensures var st := Setting(CowCall(ref, y, 10, 0.0), simplicity, peak);
      var r := Evaluate([], Point(150, 1), st);
      r.Success? && r.value.flag == 0 && At(r.value.col) == Point(210, 1)
  {
    var st := Setting(CowCall(ref, y, 10, 0.0), simplicity, peak);
    var s := CowSegments.DefaultSplit(210, 210, 150);
    assert (210 - 1) / (150 - 1) == 1 && (210 - 1) % (150 - 1) == 60;
    assert CowSegments.Fill(1, 149) == [149];
    assert CowSegments.AddLast([149], 60) == [209];
    assert s == Success(CowSegments.Segments(1, [209], [209]));
    assert Prep(Point(150, 1), ref, y, 10, 0.0).Success?;
    ReportedSegment([], Point(150, 1), ref, y, 10, 0.0, simplicity, peak);
  }

  // ---------------------------------------------------------------------------
  // OS as it grows

  /** Column c is what `optim_eval` gives for p after the columns prev. */
  predicate Gives(prev: seq<Column>, p: Point, st: Setting, c: Column)
  {
    Evaluate(prev, p, st).Success? && Evaluate(prev, p, st).value.col == c
  }

  /** Column k of os is the evaluation of the pair asked[k] after the columns before it. */
  predicate BuiltAt(os: seq<Column>, asked: seq<Point>, st: Setting, k: nat)
    requires k < |os| && k < |asked|
  {
    Gives(os[..k], asked[k], st, os[k])
  }

  /** Every column of os is the evaluation of the pair asked for it. */
  predicate Built(os: seq<Column>, asked: seq<Point>, st: Setting)
  {
    && |asked| == |os|
    && forall k: nat :: k < |os| ==> BuiltAt(os, asked, st, k)
  }

  /** `OS = np.hstack(...)`, `OS[:, N] = optim_eval(p, OS, ...)`: one evaluated column appended. */
  method Record(os: seq<Column>, ghost asked: seq<Point>, p: Point, st: Setting)
    returns (r: Result<seq<Column>, OptimError>, ghost asked': seq<Point>)
    requires Built(os, asked, st)
    ensures r.Failure? <==> Evaluate(os, p, st).Failure?
    ensures r.Failure? ==> r.error == Evaluate(os, p, st).error && r.error.CowFailed?
    ensures r.Success? ==>
      && |r.value| == |os| + 1 && r.value[..|os|] == os && asked' == asked + [p]
      && Gives(os, p, st, r.value[|os|]) && Built(r.value, asked', st)
  {
    var e := Evaluate(os, p, st);
    if e.Failure? {
      return Failure(e.error), asked;
    }
    var next := os + [e.value.col];
    asked' := asked + [p];
    assert next[..|os|] == os;
    forall k: nat | k < |next|
      ensures BuiltAt(next, asked', st, k)
    {
      if k < |os| {
        assert BuiltAt(os, asked, st, k);
        assert next[..k] == os[..k];
      }
    }
    r := Success(next);
  }

  // ---------------------------------------------------------------------------
  // The grid phase

  /** The pairs of segment a with every slack of bg. */
  function Row(a: int, bg: seq<int>): (r: seq<Point>)
    ensures |r| == |bg|
  {
    seq(|bg|, b requires 0 <= b < |bg| => Point(a, bg[b]))
  }

  /** The grid pairs in the order the two loops visit them, the segment outer. */
  function GridPoints(ag: seq<int>, bg: seq<int>): (g: seq<Point>)
    ensures |g| == |ag| * |bg|
  {
    if ag == [] then []
    else
      var n := |ag| - 1;
      GridPoints(ag[..n], bg) + Row(ag[n], bg)
  }

  lemma RowsBefore(a: nat, b: nat, n: nat, m: nat)
    requires a < n && b < m
    ensures a * m + b < n * m
    ensures a < n - 1 ==> a * m + b < (n - 1) * m
    ensures a == n - 1 ==> a * m + b - (n - 1) * m == b
  {
    assert (a + 1) * m <= n * m;
    if a < n - 1 {
      assert (a + 1) * m <= (n - 1) * m;
    }
  }

  /** Column a * |bg| + b of the grid holds segment ag[a] and slack bg[b]. */
  lemma {:induction false} GridOrder(ag: seq<int>, bg: seq<int>, a: nat, b: nat)
    requires a < |ag| && b < |bg|
    ensures a * |bg| + b < |GridPoints(ag, bg)|
    ensures GridPoints(ag, bg)[a * |bg| + b] == Point(ag[a], bg[b])
  {
    var n := |ag| - 1;
    RowsBefore(a, b, |ag|, |bg|);
    if a < n {
      GridOrder(ag[..n], bg, a, b);
    }
  }

  /** The grid loops: every pair of ag x bg evaluated in turn, segment outer, slack inner. */
  method GridPhase(ag: seq<int>, bg: seq<int>, st: Setting)
    returns (r: Result<seq<Column>, OptimError>, ghost asked: seq<Point>)
    ensures r.Failure? ==> r.error.CowFailed?
    ensures r.Success? ==> |r.value| == |ag| * |bg| && asked == GridPoints(ag, bg) && Built(r.value, asked, st)
  {
    var os: seq<Column> := [];
    asked := [];
    for a := 0 to |ag|
      invariant asked == GridPoints(ag[..a], bg) && Built(os, asked, st)
    {
      for b := 0 to |bg|
        invariant asked == GridPoints(ag[..a], bg) + Row(ag[a], bg[..b]) && Built(os, asked, st)
      {
        var next;
        next, asked := Record(os, asked, Point(ag[a], bg[b]), st);
        if next.Failure? {
          return Failure(next.error), asked;
        }
        os := next.value;
        assert Row(ag[a], bg[..b + 1]) == Row(ag[a], bg[..b]) + [Point(ag[a], bg[b])];
      }
      assert bg[..|bg|] == bg;
      assert ag[..a + 1][..a] == ag[..a];
    }
    assert ag[..|ag|] == ag;
    r := Success(os);
  }

  // ---------------------------------------------------------------------------
  // The local search

  /** The most steps a search can have begun with: the cap, and at least the two probes. */
  function Bound(cap: real): int
  {
    if cap.Floor > 2 then cap.Floor else 2
  }

  predicate InRange(os: seq<Column>, ps: seq<nat>)
  {
    forall i :: 0 <= i < |ps| ==> ps[i] < |os|
  }

  /** The warping effects `OS[2, ps]`. */
  function Scores(os: seq<Column>, ps: seq<nat>): (v: seq<real>)
    requires InRange(os, ps)
    ensures |v| == |ps|
  {
    seq(|ps|, i requires 0 <= i < |ps| => os[ps[i]].effect)
  }

  /** The pairs `OS[0:2, ps]`. */
  function Pts(os: seq<Column>, ps: seq<nat>): (q: seq<Point>)
    requires InRange(os, ps)
    ensures |q| == |ps|
  {
    seq(|ps|, i requires 0 <= i < |ps| => At(os[ps[i]]))
  }

  /** The candidate the table gives for reflecting point w of the simplex ps. */
  function Reflection(os: seq<Column>, ps: seq<nat>, w: nat): Point
    requires InRange(os, ps) && w < |ps|
  {
    var base := At(os[ps[w]]);
    Candidate(Position(Pts(os, ps), base), base)
  }

  /**
   * The search stopped on the simplex ps: the last two columns are the
   * reflections of its worst and of its second-worst point, and neither
   * scores above the point it reflects.
   */
  predicate Stalled(os: seq<Column>, asked: seq<Point>, ps: seq<nat>)
  {
    && |ps| == 3 && |os| >= 2 && |asked| == |os| && (forall i :: 0 <= i < 3 ==> ps[i] < |os| - 2)
    && var v := Scores(os, ps);
       var c := Order3(v);
       && asked[|os| - 2] == Reflection(os, ps, c[0]) && os[|os| - 2].effect <= v[c[0]]
       && asked[|os| - 1] == Reflection(os, ps, c[1]) && os[|os| - 1].effect <= v[c[1]]
  }

  /** Columns that only grew keep the scores and the pairs of a simplex. */
  lemma SimplexKept(os: seq<Column>, os': seq<Column>, ps: seq<nat>)
    requires |os| <= |os'| && os'[..|os|] == os && InRange(os, ps)
    ensures InRange(os', ps) && Scores(os', ps) == Scores(os, ps) && Pts(os', ps) == Pts(os, ps)
    ensures forall w :: 0 <= w < |ps| ==> At(os'[ps[w]]) == At(os[ps[w]])
  {
    assert forall i :: 0 <= i < |ps| ==> os'[ps[i]] == os[ps[i]] by {
      forall i | 0 <= i < |ps|
        ensures os'[ps[i]] == os[ps[i]]
      {
        assert os'[..|os|][ps[i]] == os'[ps[i]];
      }
    }
  }

  /** The two reflections appended to os, the second scoring no better than the point it reflects, make a stall. */
  lemma StalledIntro(os: seq<Column>, next: seq<Column>, asked': seq<Point>, ps: seq<nat>, cand: Point, cand2: Point)
    requires |ps| == 3 && InRange(os, ps) && |next| == |os| + 2 && next[..|os|] == os && |asked'| == |next|
    requires var v := Scores(os, ps); var c := Order3(v); var pts := Pts(os, ps);
      && cand == Candidate(Position(pts, At(os[ps[c[0]]])), At(os[ps[c[0]]]))
      && cand2 == Candidate(Position(pts, At(os[ps[c[1]]])), At(os[ps[c[1]]]))
      && asked'[|os|] == cand && asked'[|os| + 1] == cand2
      && next[|os|].effect <= v[c[0]] && next[|os| + 1].effect <= v[c[1]]
    ensures Stalled(next, asked', ps)
  {
    SimplexKept(os, next, ps);
  }

  /**
   * One pass of `while pt`: the worst point of the simplex ps is reflected;
   * when that scores no better than it, the second-worst point is reflected
   * too, and stalled says whether that scored no better either. The last new
   * column then takes the place of the point it reflects.
   */
  method Move(os: seq<Column>, ghost asked: seq<Point>, ps: seq<nat>, st: Setting)
    returns (r: Result<seq<Column>, OptimError>, ghost asked': seq<Point>, ps': seq<nat>, stalled: bool)
    requires |ps| == 3 && InRange(os, ps) && Built(os, asked, st)
    ensures r.Failure? ==> r.error.CowFailed?
    ensures r.Success? ==>
      && |os| + 1 <= |r.value| <= |os| + 2 && r.value[..|os|] == os
      && Built(r.value, asked', st) && asked'[..|os|] == asked
      && |ps'| == 3 && InRange(r.value, ps')
      && (stalled ==> |r.value| == |os| + 2 && Stalled(r.value, asked', ps))
  {
    var v := Scores(os, ps);
    var c := Order3(v);
    var pts := Pts(os, ps);
    stalled := false;
    ps' := ps;
    TableOK();
    var cand := Dispatch(Rules, Position(pts, At(os[ps[c[0]]])), At(os[ps[c[0]]]));
    var step;
    step, asked' := Record(os, asked, cand, st);
    if step.Failure? {
      return Failure(step.error), asked', ps', stalled;
    }
    var mid := step.value;
    SimplexKept(os, mid, ps);
    assert asked'[..|os|] == asked;
    if mid[|os|].effect > v[c[0]] {
      return Success(mid), asked', ps[c[0] := |os|], stalled;
    }
    var cand2 := Dispatch(Rules, Position(pts, At(os[ps[c[1]]])), At(os[ps[c[1]]]));
    ghost var asked1 := asked';
    step, asked' := Record(mid, asked', cand2, st);
    if step.Failure? {
      return Failure(step.error), asked', ps', stalled;
    }
    var next := step.value;
    SimplexKept(os, next, ps);
    assert next[|os|] == mid[|os|] by {
      assert next[..|mid|][|os|] == next[|os|];
    }
    assert next[..|os|] == os by {
      assert next[..|os|] == next[..|mid|][..|os|];
    }
    assert asked'[..|os|] == asked by {
      assert asked'[..|os|] == asked'[..|mid|][..|os|];
    }
    stalled := next[|os| + 1].effect <= v[c[1]];
    if stalled {
      StalledIntro(os, next, asked', ps, cand, cand2);
    }
    r, ps' := Success(next), ps[c[1] := |os| + 1];
  }

  /**
   * One search from the grid column seed: the probes one segment and one
   * slack beyond it, then reflections of the worst point of the simplex
   * until both reflections fail to improve or the step count `N - Na - 1`
   * reaches cap (`options[2]`).
   */
  method Descend(os0: seq<Column>, ghost asked0: seq<Point>, seed: nat, cap: real, st: Setting)
    returns (r: Result<seq<Column>, OptimError>, steps: nat, ghost asked: seq<Point>, ghost last: seq<nat>)
    requires seed < |os0| && Built(os0, asked0, st)
    ensures r.Failure? ==> r.error.CowFailed?
    ensures r.Success? ==>
      var os := r.value;
      var n0 := |os0|;
      && 3 <= steps <= Bound(cap) + 2
      && |os| == n0 + steps && os[..n0] == os0 && |asked| == |os| && asked[..n0] == asked0 && Built(os, asked, st)
      && asked[n0] == Shift(At(os0[seed]), Point(1, 0)) && asked[n0 + 1] == Shift(At(os0[seed]), Point(0, 1))
      && (steps as real >= cap || Stalled(os, asked, last))
  {
    var n0 := |os0|;
    var start := At(os0[seed]);
    var os := os0;
    asked := asked0;
    last := [];
    steps := 0;
    var step;
    step, asked := Record(os, asked, Shift(start, Point(1, 0)), st);
    if step.Failure? {
      return Failure(step.error), 0, asked, last;
    }
    os := step.value;
    step, asked := Record(os, asked, Shift(start, Point(0, 1)), st);
    if step.Failure? {
      return Failure(step.error), 0, asked, last;
    }
    os := step.value;
    assert os[..n0] == os0;
    var ps: seq<nat> := [seed, n0, n0 + 1];
    var pt := true;
    while pt
      invariant n0 + 2 <= |os| && os[..n0] == os0 && Built(os, asked, st) && asked[..n0] == asked0
      invariant asked[n0] == Shift(start, Point(1, 0)) && asked[n0 + 1] == Shift(start, Point(0, 1))
      invariant |ps| == 3 && InRange(os, ps)
      invariant pt ==> |os| - n0 <= Bound(cap)
      invariant |os| - n0 <= Bound(cap) + 2
      invariant !pt ==> |os| - n0 >= 3 && ((|os| - n0) as real >= cap || Stalled(os, asked, last))
      decreases (if pt then 1 else 0), Bound(cap) + 2 - (|os| - n0)
    {
      var next, asked', ps', stalled := Move(os, asked, ps, st);
      if next.Failure? {
        return Failure(next.error), 0, asked', last;
      }
      assert next.value[..n0] == os0 by {
        assert next.value[..n0] == next.value[..|os|][..n0];
      }
      assert asked'[..n0] == asked0 && asked'[n0] == asked[n0] && asked'[n0 + 1] == asked[n0 + 1] by {
        assert asked'[..n0] == asked'[..|os|][..n0];
        assert asked'[..|os|][n0] == asked'[n0] && asked'[..|os|][n0 + 1] == asked'[n0 + 1];
      }
      if stalled {
        pt := false;
        last := ps;
      }
      os, asked, ps := next.value, asked', ps';
      if (|os| - n0) as real >= cap {
        pt := false;
      }
    }
    steps := |os| - n0;
    r := Success(os);
  }

  // ---------------------------------------------------------------------------
  // The reference and optim_cow

  /**
   * The reference as the source obtains it: an empty ref makes optim_cow call
   * `ref_select(y=y, varlabels=None, options=[5, 0])`, a keyword ref_select
   * does not take, so the call raises.
   */
  function ReferenceAsWritten(ref: seq<Float>): (r: Result<seq<Float>, OptimError>)
  {
    if |ref| == 0 then Failure(BadKeyword) else Success(ref)
  }

  /**
   * The evidently intended fallback: `ref_select(y, options=[5, 0])`, the
   * signal whose squared correlations with the others have the largest product
   * (the interactive choice, here 1, is not read in mode 5).
   */
  function Reference(ref: seq<Float>, y: seq<seq<Float>>, cols: nat): (r: Result<seq<Float>, OptimError>)
    requires RefSelect.Rect(y, cols)
  {
    if |ref| != 0 then Success(ref)
    else
      match RefSelect.RefSelectList(y, cols, [], [5, 0], 1)
      case Failure(e) => Failure(ReferenceFailed(e))
      case Success(sel) => Success(sel.ref)
  }

  /**
   * Without a reference the source fails even for signals from which
   * ref_select would pick one.
   */
  lemma FallbackNeverRuns(y: seq<seq<Float>>, cols: nat)
    requires RefSelect.Rect(y, cols) && !RefSelect.HasNaN(y) && |y| >= 1
    ensures ReferenceAsWritten([]) == Failure(BadKeyword)
    ensures Reference([], y, cols).Success?
  {
    RefSelect.RefSelectListErrors(y, cols, [], [5, 0], 1);
    RefSelect.RefSelectCorrelation(y, cols, [], 5, 0);
  }

  /**
   * The fallback as intended gives the row chosen by the correlation
   * criterion, and fails only as ref_select does.
   */
  lemma FallbackAsIntended(y: seq<seq<Float>>, cols: nat)
    requires RefSelect.Rect(y, cols)
    ensures RefSelect.HasNaN(y) ==> Reference([], y, cols) == Failure(ReferenceFailed(RefSelect.MissingValues))
    ensures !RefSelect.HasNaN(y) && |y| == 0 ==> Reference([], y, cols) == Failure(ReferenceFailed(RefSelect.EmptyReduction))
    ensures !RefSelect.HasNaN(y) && |y| >= 1 ==>
      var n := RefSelect.CorrIndex(RefSelect.Values(y, cols), cols, 5);
      n < |y| && Reference([], y, cols) == Success(y[n]) && |y[n]| == cols
  {
    RefSelect.RefSelectListErrors(y, cols, [], [5, 0], 1);
    RefSelect.RefSelectErrors(y, cols, [], 5, 0);
    RefSelect.RefSelectCorrelation(y, cols, [], 5, 0);
  }

  /** A given reference is used as it is, by both. */
  lemma GivenReference(ref: seq<Float>, y: seq<seq<Float>>, cols: nat)
    requires RefSelect.Rect(y, cols) && |ref| >= 1
    ensures ReferenceAsWritten(ref) == Success(ref) == Reference(ref, y, cols)
  {
  }

  /** `OS[2, :]` as numbers. */
  function Effects(os: seq<Column>): (e: seq<Float>)
    ensures |e| == |os| && forall i :: 0 <= i < |os| ==> e[i] == Num(os[i].effect)
  {
    seq(|os|, i requires 0 <= i < |os| => Num(os[i].effect))
  }

  /** `np.argmax(OS[2, :])` */
  function Best(os: seq<Column>): nat
    requires |os| >= 1
  {
    FirstArgMax(Effects(os))
  }

  /** The optimum column has the largest warping effect, and every column before it a smaller one. */
  lemma BestIsFirstMax(os: seq<Column>)
    requires |os| >= 1
    ensures Best(os) < |os|
    ensures forall i :: 0 <= i < |os| ==> os[i].effect <= os[Best(os)].effect
    ensures forall i :: 0 <= i < Best(os) ==> os[i].effect < os[Best(os)].effect
  {
    var e := Effects(os);
    assert forall i :: 0 <= i < |e| ==> e[i].Num?;
  }

  /** The real scores `OS[2, :]`, as `np.unique` sees them. */
  function RealEffects(os: seq<Column>): (e: seq<real>)
    ensures |e| == |os| && forall i :: 0 <= i < |os| ==> e[i] == os[i].effect
  {
    seq(|os|, i requires 0 <= i < |os| => os[i].effect)
  }

  /** The setting optim_cow evaluates in: `losange = np.round(len(ref) * options[3])`. */
  function SettingOf(ref: seq<Float>, y: seq<seq<Float>>, cols: nat, fraction: real,
                     simplicity: Point -> real, peak: Point -> real): Setting
  {
    Setting(CowCall(ref, y, cols, RoundHalfEven(|ref| as real * fraction) as real), simplicity, peak)
  }

  /**
   * `A = y / np.sqrt((y.ravel("F") ** 2).sum())` holds a NaN, so that
   * `np.linalg.svd(A)` raises, when y holds a NaN or when y has values and
   * all of them are 0 (0 / 0).
   */
  predicate SvdFails(y: seq<seq<Float>>)
  {
    || RefSelect.HasNaN(y)
    || ((exists i :: 0 <= i < |y| && |y[i]| >= 1)
        && forall i, j :: 0 <= i < |y| && 0 <= j < |y[i]| ==> y[i][j] == Num(0.0))
  }

  /** A row of zeros stops the search before the grid, whatever its reference and ranges. */
  lemma ZeroSignalFails(n: nat)
    requires n >= 1
    ensures SvdFails([seq(n, _ => Num(0.0))])
    ensures n >= 2 ==> !SvdFails([seq(n, j => Num(j as real))])
  {
    var z := [seq(n, _ => Num(0.0))];
    assert |z[0]| >= 1;
    if n >= 2 {
      var y := [seq(n, j => Num(j as real))];
      assert y[0][1] != Num(0.0);
      assert forall j :: 0 <= j < |y[0]| ==> y[0][j].Num?;
    }
  }

  /**
   * `optim_cow(y, optim_space, options, ref)`. On success the result is the
   * pair of the optimum column and OS: its first columns are the grid in
   * loop order, every column is the evaluation of the pair asked for it, and
   * each of the at most three searches adds at most Bound(options[2]) + 2 columns.
   */
  method OptimCowSearch(y: seq<seq<Float>>, cols: nat, space: seq<int>, options: seq<real>, ref: seq<Float>,
                        simplicity: Point -> real, peak: Point -> real)
    returns (r: Result<(Point, seq<Column>), OptimError>, ghost asked: seq<Point>)
    requires RefSelect.Rect(y, cols)
    ensures Reference(ref, y, cols).Failure? ==> r == Failure(Reference(ref, y, cols).error)
    ensures Reference(ref, y, cols).Success? && |space| != 4 ==> r == Failure(SpaceNotFour)
    ensures Reference(ref, y, cols).Success? && |space| == 4 && SvdFails(y) ==> r == Failure(SvdFailed)
    ensures Reference(ref, y, cols).Success? && |space| == 4 && !SvdFails(y) && (space[1] < space[0] || space[3] < space[2]) ==>
      r == Failure(EmptySpace)
    ensures r.Failure? && Reference(ref, y, cols).Success? && |space| == 4 && !SvdFails(y) && space[0] <= space[1] && space[2] <= space[3] ==>
      r.error.CowFailed?
    ensures r.Success? ==>
      && Reference(ref, y, cols).Success? && |space| == 4 && !SvdFails(y)
      && var o := Effective(options);
         var st := SettingOf(Reference(ref, y, cols).value, y, cols, o.fraction, simplicity, peak);
         var ag, bg := Axis(space[0], space[1]), Axis(space[2], space[3]);
         var g := |ag| * |bg|;
         var os := r.value.1;
         && 1 <= g <= |os| <= g + 3 * (Bound(o.maxSteps) + 2)
         && Built(os, asked, st) && asked[..g] == GridPoints(ag, bg)
         && r.value.0 == At(os[Best(os)])
  {
    var rf := Reference(ref, y, cols);
    if rf.Failure? {
      return Failure(rf.error), [];
    }
    if |space| != 4 {
      return Failure(SpaceNotFour), [];
    }
    if SvdFails(y) {
      return Failure(SvdFailed), [];
    }
    if space[1] < space[0] || space[3] < space[2] {
      return Failure(EmptySpace), [];
    }
    var o := Effective(options);
    var st := SettingOf(rf.value, y, cols, o.fraction, simplicity, peak);
    AxisFacts(space[0], space[1]);
    AxisFacts(space[2], space[3]);
    r, asked := Optimise(Axis(space[0], space[1]), Axis(space[2], space[3]), o.maxSteps, st);
  }

  /**
   * The grid over ag x bg, the searches from the seeds with step cap cap,
   * and `np.argmax(OS[2, :])`.
   */
  method Optimise(ag: seq<int>, bg: seq<int>, cap: real, st: Setting)
    returns (r: Result<(Point, seq<Column>), OptimError>, ghost asked: seq<Point>)
    requires |ag| >= 1 && |bg| >= 1
    ensures r.Failure? ==> r.error.CowFailed?
    ensures r.Success? ==>
      var g := |ag| * |bg|;
      var os := r.value.1;
      && 1 <= g <= |os| <= g + 3 * (Bound(cap) + 2)
      && Built(os, asked, st) && asked[..g] == GridPoints(ag, bg)
      && r.value.0 == At(os[Best(os)])
  {
    ScaleLe(1, |ag|, |bg|);
    var grid;
    grid, asked := GridPhase(ag, bg, st);
    if grid.Failure? {
      return Failure(grid.error), asked;
    }
    var os := grid.value;
    var starts := Seeds(RealEffects(os));
    SeedsFacts(RealEffects(os));
    var searched;
    searched, asked := Searches(os, asked, starts, cap, st);
    if searched.Failure? {
      return Failure(searched.error), asked;
    }
    os := searched.value;
    ScaleLe(|starts|, 3, Bound(cap) + 2);
    r := Success((At(os[Best(os)]), os));
  }

  lemma MulStep(a: nat, m: int)
    ensures (a + 1) * m == a * m + m
  {
  }

  lemma ScaleLe(a: nat, b: nat, m: nat)
    requires a <= b
    ensures a * m <= b * m
  {
  }

  /**
   * One local search as the loop over the seeds sees it: it appends between
   * three and `Bound(cap) + 2` columns, each the column of the pair asked for.
   */
  method SearchFrom(os: seq<Column>, ghost asked: seq<Point>, seed: nat, cap: real, st: Setting)
    returns (r: Result<seq<Column>, OptimError>, ghost asked': seq<Point>)
    requires seed < |os| && Built(os, asked, st)
    ensures r.Failure? ==> r.error.CowFailed?
    ensures r.Success? ==>
      && |os| + 3 <= |r.value| <= |os| + Bound(cap) + 2
      && r.value[..|os|] == os && Built(r.value, asked', st) && asked'[..|os|] == asked
  {
    var steps;
    ghost var last;
    r, steps, asked', last := Descend(os, asked, seed, cap, st);
  }

  /** `for a in range(len(starts))`: a search from each seed in turn, on the growing OS. */
  method Searches(grid: seq<Column>, ghost gridAsked: seq<Point>, starts: seq<nat>, cap: real, st: Setting)
    returns (r: Result<seq<Column>, OptimError>, ghost asked: seq<Point>)
    requires Built(grid, gridAsked, st) && forall i :: 0 <= i < |starts| ==> starts[i] < |grid|
    ensures r.Failure? ==> r.error.CowFailed?
    ensures r.Success? ==>
      && |grid| <= |r.value| <= |grid| + |starts| * (Bound(cap) + 2)
      && r.value[..|grid|] == grid && Built(r.value, asked, st) && asked[..|grid|] == gridAsked
  {
    var os := grid;
    asked := gridAsked;
    var g := |grid|;
    var m := Bound(cap) + 2;
    ghost var room := 0;
    for a := 0 to |starts|
      invariant room == a * m
      invariant g <= |os| <= g + room
      invariant os[..g] == grid && Built(os, asked, st) && asked[..g] == gridAsked
    {
      var run, asked' := SearchFrom(os, asked, starts[a], cap, st);
      if run.Failure? {
        return Failure(run.error), asked';
      }
      assert asked'[..g] == asked'[..|os|][..g];
      assert run.value[..g] == run.value[..|os|][..g];
      MulStep(a, m);
      room := room + m;
      os, asked := run.value, asked';
    }
    r := Success(os);
  }
}
