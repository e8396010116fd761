/**
 * `cow` (fpbiolib/twarp/cow.py) as a whole: the checks in the order the
 * function makes them, the interpolation tables, the dynamic programme and
 * the backtracking for every signal, the reconstruction of the warped
 * signals and the diagnostics. The data enter through their lengths, their
 * missing values and two oracles: `cc` gives the correlation of target
 * segment i with the signal segment from position x to position p
 * (None when it is not finite), `ip` the resampled values of a signal segment.
 */
module CowMain {
  import opened Wrappers
  import opened Reals
  import opened CowSegments
  import opened CowInterp
  import opened CowTable
  import opened CowForward
  import opened CowOptimum
  import opened CowPaths
  import opened CowGeometry
  import opened CowBackward


  /**
   * `Options`: progress output (no effect here), correlation power, equal
   * segment lengths, band width (0 for none), save the table in Diagnos,
   * lengthen the traces by 200 points.
   */
  datatype Options = Options(plot: bool, power: int, equal: bool, band: real, saveTable: bool, extend: bool)

  /** The default `[0, 1, 0, 0, 0, 1]`. */
  const DefaultOptions := Options(false, 1, false, 0.0, false, true)

  /** What the checks leave: the lengths after lengthening, the segments, the slack and the 1-based boundaries. */
  datatype Plan = Plan(refM: int, ym: int, yn: nat, predefined: bool, segs: Segments, slack: int, bT: seq<int>, bP: seq<int>)

  datatype Diagnos = Diagnos(
    indexP: seq<int>, indexT: seq<int>, nSegments: nat, options: Options,
    rangeLo: seq<int>, rangeHi: seq<int>, lenT: seq<int>, lenP: seq<int>,
    slack: int, table: seq<seq<Entry>>)

  /** `Warping` (first slab the warped boundaries, second slab bT, per signal), `XWarped` and `Diagnos`. */
  datatype CowOutput = CowOutput(warping: seq<seq<int>>, target: seq<seq<int>>, warped: seq<seq<real>>, diag: Diagnos)

  predicate HasNaN(s: seq<Float>)
  {
    exists k :: 0 <= k < |s| && s[k].NaN?
  }

  /** `np.isnan(ref).any() or np.isnan(y).any()` */
  predicate Missing(ref: seq<Float>, y: seq<seq<Float>>)
  {
    HasNaN(ref) || exists s :: 0 <= s < |y| && HasNaN(y[s])
  }

  /** `extend_baseline` reads `y[-1]` of the target and `y[i, -1]` of every row, which fails on an empty one. */
  predicate Unextendable(refM0: int, ym0: int, yn: nat, o: Options)
  {
    o.extend && (refM0 == 0 || (yn >= 1 && ym0 == 0))
  }

  /** The length after the optional lengthening by 200 points. */
  function Extended(len: int, o: Options): int
  {
    if o.extend then len + 200 else len
  }

  /** The segments for a nominal length or for predefined boundaries. */
  function Segmentation(refM: int, ym: int, seg: SegSpec, equal: bool): (r: Result<Segments, CowError>)
    requires seg.Boundaries? ==> |seg.t| == |seg.p| >= 1
    ensures r.Success? ==> WellFormed(r.value)
  {
    match seg
    case Nominal(len) => Uniform(refM, ym, len, equal)
    case Boundaries(t, p) => Predefined(refM, ym, t, p)
  }

  lemma {:induction false} SumAtLeast(s: seq<int>, m: int)
    requires forall k :: 0 <= k < |s| ==> s[k] >= m
    ensures SumInt(s) >= |s| * m
  {
    if s != [] {
      SumAtLeast(s[..|s| - 1], m);
      assert s[..|s| - 1][..] == s[..|s| - 1];
    }
  }

  /** Accepted segments span ref_m - 1 and ym - 1 intervals, so both lengths are at least 1. */
  lemma SegmentationCovers(refM: int, ym: int, seg: SegSpec, equal: bool)
    requires seg.Boundaries? ==> |seg.t| == |seg.p| >= 1
    requires Segmentation(refM, ym, seg, equal).Success?
    ensures var s := Segmentation(refM, ym, seg, equal).value;
      SumInt(s.lenT) == refM - 1 && SumInt(s.lenP) == ym - 1 && refM >= 1 && ym >= 1
  {
    match seg
    case Nominal(len) =>
      UniformCovers(refM, ym, len, equal);
    case Boundaries(t, p) =>
      PredefinedCovers(refM, ym, t, p);
      var s := Segmentation(refM, ym, seg, equal).value;
      SumAtLeast(s.lenT, 2);
      SumAtLeast(s.lenP, 2);
  }

  /**
   * The checks of `cow`, in its order: the power, missing values, the
   * lengthening, the segmentation, the slack, the band, the size of the table and the
   * presence of a signal to read the table's positions from.
   */
  function Prepare(refM0: nat, ym0: nat, yn: nat, seg: SegSpec, slack: int, o: Options, missing: bool): (r: Result<Plan, CowError>)
    requires seg.Boundaries? ==> |seg.t| == |seg.p| >= 1
  {
    if o.power < 1 || o.power > 4 then Failure(BadPower)
    else if missing then Failure(MissingValues)
    else if Unextendable(refM0, ym0, yn, o) then Failure(EmptySignal)
    else
      var refM := Extended(refM0, o);
      var ym := Extended(ym0, o);
      var cut := Segmentation(refM, ym, seg, o.equal);
      if cut.Failure? then Failure(cut.error)
      else
        var s := cut.value;
        SegmentationCovers(refM, ym, seg, o.equal);
        if !SlackFits(s, slack) then Failure(SlackTooLarge)
        else
          var bT := Starts(s.lenT);
          var bP := Starts(s.lenP);
          if o.band != 0.0 && BandTooNarrow(refM, ym, o.band) then Failure(NarrowBand)
          else if o.band != 0.0 && (SignChanges(BandLower(Lower(bP, slack), bT, refM, ym, o.band))
                                    || SignChanges(BandUpper(Upper(bP, slack), bT, refM, ym, o.band))) then Failure(BandClash)
          else if slack < 0 && s.n >= 1 then Failure(NegativeTable)
          else if yn == 0 && s.n >= 1 then Failure(NoSignals)
          else Success(Plan(refM, ym, yn, seg.Boundaries?, s, slack, bT, bP))
  }

  /** What an accepted plan guarantees. */
  predicate PlanOK(p: Plan)
  {
    && WellFormed(p.segs) && SlackFits(p.segs, p.slack)
    && (p.segs.n >= 1 ==> p.slack >= 0 && p.yn >= 1)
    && Steps(p.bT, p.segs.lenT) && Steps(p.bP, p.segs.lenP)
    && p.bT[p.segs.n] == p.refM && p.bP[p.segs.n] == p.ym
    && p.refM >= 1 && p.ym >= 1
    && (!p.predefined ==> p.segs.n >= 1 && forall k :: 0 <= k < p.segs.n - 1 ==> p.segs.lenT[k] == p.segs.lenT[0] && p.segs.lenP[k] == p.segs.lenP[0])
  }

  /** Every segment but the last of a nominal cut has the lengths of the first. */
  lemma UniformShares(refM: int, ym: int, seg: int, equal: bool)
    requires Uniform(refM, ym, seg, equal).Success?
    ensures var s := Uniform(refM, ym, seg, equal).value;
      forall k :: 0 <= k < s.n - 1 ==> s.lenT[k] == s.lenT[0] && s.lenP[k] == s.lenP[0]
  {
  }

  /**
   * An accepted call has a plan with 1-based boundaries over segments that
   * span both signals, each segment at least Slack + 2 long, and, for a
   * nominal length, equal segments but the last; the errors are those of
   * the first failing check.
   */
  lemma PrepareMeaning(refM0: nat, ym0: nat, yn: nat, seg: SegSpec, slack: int, o: Options, missing: bool)
    requires seg.Boundaries? ==> |seg.t| == |seg.p| >= 1
    ensures var r := Prepare(refM0, ym0, yn, seg, slack, o, missing);
      && (r.Success? ==> PlanOK(r.value) && r.value.refM == Extended(refM0, o) && r.value.ym == Extended(ym0, o))
      && ((o.power < 1 || o.power > 4) ==> r == Failure(BadPower))
      && (1 <= o.power <= 4 && missing ==> r == Failure(MissingValues))
      && (1 <= o.power <= 4 && !missing && Unextendable(refM0, ym0, yn, o) ==> r == Failure(EmptySignal))
      && (r.Success? ==> !missing && 1 <= o.power <= 4 && (o.band != 0.0 ==> !BandTooNarrow(r.value.refM, r.value.ym, o.band)))
  {
    var r := Prepare(refM0, ym0, yn, seg, slack, o, missing);
    if r.Success? {
      var refM, ym := Extended(refM0, o), Extended(ym0, o);
      var s := Segmentation(refM, ym, seg, o.equal).value;
      assert r.value == Plan(refM, ym, yn, seg.Boundaries?, s, slack, Starts(s.lenT), Starts(s.lenP));
      SegmentationCovers(refM, ym, seg, o.equal);
      if seg.Nominal? {
        UniformShares(refM, ym, seg.len, o.equal);
      }
      PlanOfCut(refM, ym, yn, seg.Boundaries?, s, slack);
    }
  }

  /**
   * With the default options an empty target fails at the lengthening,
   * although 200 points would be enough for segments of 7 and a slack of 1.
   */
  lemma EmptyTargetFails()
    ensures Prepare(0, 0, 1, Nominal(7), 1, DefaultOptions, false) == Failure(EmptySignal)
    ensures Prepare(0, 0, 1, Nominal(7), 1, DefaultOptions.(extend := false), false).Failure?
  {
  }

  /** A plan over accepted segments that span both signals is well formed. */
  lemma PlanOfCut(refM: int, ym: int, yn: nat, predefined: bool, s: Segments, slack: int)
    requires WellFormed(s) && SlackFits(s, slack) && (s.n >= 1 ==> slack >= 0 && yn >= 1)
    requires SumInt(s.lenT) == refM - 1 && SumInt(s.lenP) == ym - 1 && refM >= 1 && ym >= 1
    requires !predefined ==> s.n >= 1 && forall k :: 0 <= k < s.n - 1 ==> s.lenT[k] == s.lenT[0] && s.lenP[k] == s.lenP[0]
    ensures PlanOK(Plan(refM, ym, yn, predefined, s, slack, Starts(s.lenT), Starts(s.lenP)))
  {
    StartsLast(s.lenT);
    StartsLast(s.lenP);
  }

  // ---------------------------------------------------------------------------
  // Interpolation tables

  /** `Slacks_vec`: -Slack .. Slack. */
  function Slacks(slack: nat): (v: seq<int>)
    ensures |v| == 2 * slack + 1
  {
    seq(2 * slack + 1, k => k - slack)
  }

  /** `LenSeg[1, i] + Slacks_vec + 1`: the number of points of the signal segment for each slack. */
  function NPrime(lenP: int, slack: nat): (v: seq<int>)
    ensures |v| == 2 * slack + 1
  {
    seq(2 * slack + 1, k => lenP + (k - slack) + 1)
  }

  /** The table `interp_coeff` builds for a target segment of n points and the signal lengths nprime. */
  predicate IsCoeffTable(coeff: array2<real>, index: array2<int>, n: int, nprime: seq<int>, offs: seq<int>)
    reads coeff, index
    requires n >= 2 && |offs| >= |nprime| && forall i :: 0 <= i < |nprime| ==> nprime[i] >= 2
  {
    && coeff.Length0 == |nprime| && coeff.Length1 == n
    && index.Length0 == |nprime| && index.Length1 == n
    && forall i, t :: 0 <= i < |nprime| && 0 <= t < n ==>
      && coeff[i, t] == Fraction(Point(t, n - 1, nprime[i]), nprime[i])
      && index[i, t] == Cell(Point(t, n - 1, nprime[i]), nprime[i]) - offs[i]
  }

  /** Segments at least Slack + 2 intervals long on both sides. */
  predicate Fits(lenT: seq<int>, lenP: seq<int>, slack: nat)
  {
    |lenT| == |lenP| && forall k :: 0 <= k < |lenT| ==> lenT[k] >= slack + 2 && lenP[k] >= slack + 2
  }

  /** Segment k's table: the coefficients and indices for its own target and signal lengths. */
  predicate TablesFor(coeffs: seq<array2<real>>, indices: seq<array2<int>>, lenT: seq<int>, lenP: seq<int>, slack: nat)
    reads set k | 0 <= k < |coeffs| :: coeffs[k], set k | 0 <= k < |indices| :: indices[k]
    requires Fits(lenT, lenP, slack)
  {
    && |coeffs| == |lenT| && |indices| == |lenT|
    && forall k :: 0 <= k < |lenT| ==>
      IsCoeffTable(coeffs[k], indices[k], lenT[k] + 1, NPrime(lenP[k], slack), Slacks(slack))
  }

  /**
   * `int_coeff` and `int_index` for a nominal length: one table for the
   * first segment, shared by all but the last, and one for the last. As all
   * segments but the last have the lengths of the first, every segment gets
   * the table of its own lengths.
   */
  method SharedTables(lenT: seq<int>, lenP: seq<int>, slack: nat) returns (coeffs: seq<array2<real>>, indices: seq<array2<int>>)
    requires Fits(lenT, lenP, slack) && |lenT| >= 1
    requires forall k :: 0 <= k < |lenT| - 1 ==> lenT[k] == lenT[0] && lenP[k] == lenP[0]
    ensures TablesFor(coeffs, indices, lenT, lenP, slack)
  {
    var n := |lenT|;
    var a, b := SegmentTable(lenT[0], lenP[0], slack);
    var la, lb := SegmentTable(lenT[n - 1], lenP[n - 1], slack);
    coeffs := seq(n - 1, _ => a) + [la];
    indices := seq(n - 1, _ => b) + [lb];
    forall k | 0 <= k < n
      ensures IsCoeffTable(coeffs[k], indices[k], lenT[k] + 1, NPrime(lenP[k], slack), Slacks(slack))
    {
      if k < n - 1 {
        assert coeffs[k] == a && indices[k] == b && lenT[k] == lenT[0] && lenP[k] == lenP[0];
      } else {
        assert coeffs[k] == la && indices[k] == lb;
      }
    }
  }

  /** `interp_coeff(LenSeg[0, i] + 1, LenSeg[1, i] + Slacks_vec + 1, Slacks_vec)` for one segment. */
  method SegmentTable(lenT: int, lenP: int, slack: nat) returns (coeff: array2<real>, index: array2<int>)
    requires lenT >= slack + 2 && lenP >= slack + 2
    ensures IsCoeffTable(coeff, index, lenT + 1, NPrime(lenP, slack), Slacks(slack))
  {
    coeff, index := InterpCoeff(lenT + 1, NPrime(lenP, slack), Slacks(slack));
  }

  /** `int_coeff` and `int_index` for predefined boundaries: one table per segment. */
  method OwnTables(lenT: seq<int>, lenP: seq<int>, slack: nat) returns (coeffs: seq<array2<real>>, indices: seq<array2<int>>)
    requires Fits(lenT, lenP, slack)
    ensures TablesFor(coeffs, indices, lenT, lenP, slack)
  {
    coeffs, indices := [], [];
    for k := 0 to |lenT|
      invariant |coeffs| == k && |indices| == k
      invariant forall j :: 0 <= j < k ==>
        IsCoeffTable(coeffs[j], indices[j], lenT[j] + 1, NPrime(lenP[j], slack), Slacks(slack))
    {
      var a, b := SegmentTable(lenT[k], lenP[k], slack);
      coeffs := coeffs + [a];
      indices := indices + [b];
    }
  }

  // ---------------------------------------------------------------------------
  // The dynamic programme for every signal

  /** The slope windows of the plan (the slack plays no part without segments). */
  function GeoOf(p: Plan): (g: Geo)
    requires PlanOK(p)
    ensures ValidGeo(g) && Segs(g) == p.segs.n
  {
    SlopeValid(p.segs.lenP, p.bP, IntMax(p.slack, 0));
    SlopeGeo(p.segs.lenP, p.bP, IntMax(p.slack, 0))
  }

  /** x to the power n. */
  function Pow(x: real, n: nat): real
  {
    if n == 0 then 1.0 else x * Pow(x, n - 1)
  }

  /** `CCs_Node[~np.isfinite(CCs_Node)] = 0` */
  function Finite(c: Option<real>): real
  {
    if c.None? then 0.0 else c.value
  }

  /** The gain of an arc for signal s: its correlation, 0 when not finite, to the power Options[1]. */
  function Gain(cc: (int, int, int, int) -> Option<real>, power: nat, s: int): (gain: (int, int, int) -> real)
  {
    (i, x, p) => Pow(Finite(cc(s, i, x, p)), power)
  }

  /** The boundaries the backward phase reads off the table of the forward phase for one signal. */
  function Warp(p: Plan, gain: (int, int, int) -> real): (w: seq<int>)
    requires PlanOK(p)
    ensures |w| == p.segs.n + 1
  {
    BestWalk(GeoOf(p), gain)
  }

  /** The slope windows of a plan reach every node, start at the single position 1 and end at the single position ym. */
  lemma PlanGeo(p: Plan)
    requires PlanOK(p)
    ensures var g := GeoOf(p); var n := p.segs.n;
      AllReach(g) && g.lo[0] == g.hi[0] == 1 && g.lo[n] == g.hi[n] == p.ym
  {
    SlopeValid(p.segs.lenP, p.bP, IntMax(p.slack, 0));
    SlopeReach(p.segs.lenP, p.bP, IntMax(p.slack, 0));
  }

  /**
   * For every signal the warped boundaries start at position 1 and end at
   * ym, move by segment lengths within Slack of bP's, and the path they form
   * has the largest summed gain of all such paths; its gain is the value
   * the table holds at the last node.
   */
  lemma CowOptimal(p: Plan, gain: (int, int, int) -> real)
    requires PlanOK(p)
    ensures var g := GeoOf(p); var w := Warp(p, gain); var n := p.segs.n;
      && w[0] == 1 && w[n] == p.ym
      && IsPath(g, w)
      && Fwd(g, gain, n)[Total(g) - 1].score == Fin(PathGain(gain, w, n))
      && forall q :: IsPath(g, q) && q[n] == p.ym ==> PathGain(gain, q, n) <= PathGain(gain, w, n)
  {
    PlanGeo(p);
    WalkOptimal(GeoOf(p), gain);
  }

  // ---------------------------------------------------------------------------
  // Reconstruction

  /** The last segment (below m) whose first target column 0-based, bT[i] - 1, is at most c. */
  function SegBelow(bT: seq<int>, c: int, m: int): (i: int)
    requires 1 <= m <= |bT|
    ensures 0 <= i < m
    ensures i == 0 || bT[i] - 1 <= c
    ensures forall j :: i < j < m ==> bT[j] - 1 > c
  {
    if m == 1 then 0 else if bT[m - 1] - 1 <= c then m - 1 else SegBelow(bT, c, m - 1)
  }

  /** Column c of signal s as segment i resamples it. */
  function Column(bT: seq<int>, lenT: seq<int>, w: seq<int>, ip: (int, int, int, int, int) -> real, s: int, i: int, c: int): real
    requires 0 <= i < |lenT| && |bT| == |lenT| + 1 && |w| == |lenT| + 1
  {
    ip(s, w[i], w[i + 1], lenT[i], c - (bT[i] - 1))
  }

  /** Column c of signal s of XWarped after the first m segments have been written; later segments overwrite shared columns. */
  function Written(bT: seq<int>, lenT: seq<int>, w: seq<int>, ip: (int, int, int, int, int) -> real, s: int, m: int, c: int): real
    requires 0 <= m <= |lenT| && |bT| == |lenT| + 1 && |w| == |lenT| + 1
  {
    if m == 0 || c > bT[m] - 1 then 0.0 else Column(bT, lenT, w, ip, s, SegBelow(bT, c, m), c)
  }

  /** Target boundaries rising from 1 by segments of at least one interval. */
  predicate Boundaries1(bT: seq<int>, lenT: seq<int>)
  {
    Steps(bT, lenT) && forall k :: 0 <= k < |lenT| ==> lenT[k] >= 1
  }

  /** Writing segment m over the columns bT[m] - 1 .. bT[m + 1] - 1 takes Written from m to m + 1. */
  lemma WrittenStep(bT: seq<int>, lenT: seq<int>, w: seq<int>, ip: (int, int, int, int, int) -> real, s: int, m: int, c: int)
    requires Boundaries1(bT, lenT) && |w| == |lenT| + 1 && 0 <= m < |lenT| && c >= 0
    ensures bT[m] - 1 <= c <= bT[m + 1] - 1 ==> Written(bT, lenT, w, ip, s, m + 1, c) == Column(bT, lenT, w, ip, s, m, c)
    ensures c < bT[m] - 1 || c > bT[m + 1] - 1 ==> Written(bT, lenT, w, ip, s, m + 1, c) == Written(bT, lenT, w, ip, s, m, c)
  {
    assert bT[m + 1] == bT[m] + lenT[m];
    if c < bT[m] - 1 && m > 0 {
      assert SegBelow(bT, c, m + 1) == SegBelow(bT, c, m);
    }
  }

  /** The target boundaries of an accepted plan rise by at least 1 per segment from 1 to ref_m. */
  lemma PlanBoundaries(p: Plan)
    requires PlanOK(p)
    ensures Boundaries1(p.bT, p.segs.lenT) && p.bT[p.segs.n] == p.refM
  {
    forall k | 0 <= k < p.segs.n
      ensures p.segs.lenT[k] >= 1
    {
      assert p.segs.lenT[k] >= p.slack + 2;
    }
  }

  /** Write the resampled values of segment m for signal s into XWarped. */
  method WriteSegment(x: array2<real>, bT: seq<int>, lenT: seq<int>, w: seq<int>, ip: (int, int, int, int, int) -> real, s: int, m: int)
    requires Boundaries1(bT, lenT) && |w| == |lenT| + 1 && 0 <= m < |lenT| && 0 <= s < x.Length0
    requires 1 <= bT[m] && bT[m + 1] <= x.Length1
    modifies x
    ensures forall r, c :: 0 <= r < x.Length0 && 0 <= c < x.Length1 ==>
      x[r, c] == if r == s && bT[m] - 1 <= c <= bT[m + 1] - 1 then Column(bT, lenT, w, ip, s, m, c) else old(x[r, c])
  {
    var a := bT[m] - 1;
    assert bT[m + 1] == bT[m] + lenT[m];
    for k := 0 to lenT[m] + 1
      invariant forall r, c :: 0 <= r < x.Length0 && 0 <= c < x.Length1 ==>
        x[r, c] == if r == s && a <= c < a + k then Column(bT, lenT, w, ip, s, m, c) else old(x[r, c])
    {
      x[s, a + k] := ip(s, w[m], w[m + 1], lenT[m], k);
    }
  }

  /**
   * The reconstruction loop: segment by segment, signal by signal, XWarped
   * gets the resampled signal segment over the columns of the target segment.
   */
  method Reconstruct(bT: seq<int>, lenT: seq<int>, refM: nat, warping: seq<seq<int>>, ip: (int, int, int, int, int) -> real) returns (x: array2<real>)
    requires Boundaries1(bT, lenT) && bT[|lenT|] == refM
    requires forall s :: 0 <= s < |warping| ==> |warping[s]| == |lenT| + 1
    ensures fresh(x) && x.Length0 == |warping| && x.Length1 == refM
    ensures forall s, c :: 0 <= s < |warping| && 0 <= c < refM ==> x[s, c] == Written(bT, lenT, warping[s], ip, s, |lenT|, c)
  {
    x := new real[|warping|, refM]((_, _) => 0.0);
    BoundsBelow(bT, lenT);
    for m := 0 to |lenT|
      invariant forall s, c :: 0 <= s < |warping| && 0 <= c < refM ==> x[s, c] == Written(bT, lenT, warping[s], ip, s, m, c)
    {
      for s := 0 to |warping|
        invariant forall r, c :: 0 <= r < |warping| && 0 <= c < refM ==>
          x[r, c] == Written(bT, lenT, warping[r], ip, r, if r < s then m + 1 else m, c)
      {
        WriteSegment(x, bT, lenT, warping[s], ip, s, m);
        forall c | 0 <= c < refM
          ensures x[s, c] == Written(bT, lenT, warping[s], ip, s, m + 1, c)
        {
          WrittenStep(bT, lenT, warping[s], ip, s, m, c);
        }
      }
    }
  }

  /** The boundaries rise from 1 to their last. */
  lemma {:induction false} BoundsBelow(bT: seq<int>, lenT: seq<int>)
    requires Boundaries1(bT, lenT)
    ensures forall k :: 0 <= k <= |lenT| ==> 1 <= bT[k] <= bT[|lenT|]
  {
    var n := |lenT|;
    forall k | 0 <= k <= n
      ensures 1 <= bT[k] <= bT[n]
    {
      BoundsRise(bT, lenT, k, n);
    }
  }

  lemma {:induction false} BoundsRise(bT: seq<int>, lenT: seq<int>, k: int, j: int)
    requires Boundaries1(bT, lenT) && 0 <= k <= j <= |lenT|
    ensures 1 <= bT[k] <= bT[j]
  {
    if j > k {
      BoundsRise(bT, lenT, k, j - 1);
      assert bT[j] == bT[j - 1] + lenT[j - 1];
    } else if k > 0 {
      BoundsRise(bT, lenT, k - 1, k);
      assert bT[k] == bT[k - 1] + lenT[k - 1];
    }
  }

  /**
   * Every column 0 .. ref_m - 1 is written, by the last segment whose target
   * columns bT[i] - 1 .. bT[i + 1] - 1 contain it.
   */
  lemma Coverage(bT: seq<int>, lenT: seq<int>, w: seq<int>, ip: (int, int, int, int, int) -> real, s: int, c: int)
    requires Boundaries1(bT, lenT) && |w| == |lenT| + 1 && |lenT| >= 1 && 0 <= c <= bT[|lenT|] - 1
    ensures var i := SegBelow(bT, c, |lenT|);
      && bT[i] - 1 <= c <= bT[i + 1] - 1
      && Written(bT, lenT, w, ip, s, |lenT|, c) == Column(bT, lenT, w, ip, s, i, c)
      && forall j :: i < j < |lenT| ==> c < bT[j] - 1
  {
    var n := |lenT|;
    var i := SegBelow(bT, c, n);
    if i + 1 < n {
      assert bT[i + 1] - 1 > c;
    }
  }

  /** The rows of XWarped, the last 200 columns dropped after lengthening. */
  method Trimmed(x: array2<real>, cols: nat) returns (rows: seq<seq<real>>)
    requires cols <= x.Length1
    ensures |rows| == x.Length0
    ensures forall s :: 0 <= s < x.Length0 ==> |rows[s]| == cols && forall c :: 0 <= c < cols ==> rows[s][c] == x[s, c]
  {
    rows := [];
    for s := 0 to x.Length0
      invariant |rows| == s
      invariant forall r :: 0 <= r < s ==> |rows[r]| == cols && forall c :: 0 <= c < cols ==> rows[r][c] == x[r, c]
    {
      var row := [];
      for c := 0 to cols
        invariant |row| == c && forall j :: 0 <= j < c ==> row[j] == x[s, j]
      {
        row := row + [x[s, c]];
      }
      rows := rows + [row];
    }
  }

  // ---------------------------------------------------------------------------
  // The whole function

  /** Diagnos: boundaries, segment count, options, windows, lengths, slack, and the tables when Options[4] asks. */
  function DiagOf(p: Plan, o: Options, tables: seq<seq<Entry>>): Diagnos
    requires PlanOK(p)
  {
    var g := GeoOf(p);
    Diagnos(p.bP, p.bT, p.segs.n, o, g.lo, g.hi, p.segs.lenT, p.segs.lenP, p.slack, if o.saveTable then tables else [])
  }

  /** The warped signal s: column c as Written, restricted to the first cols columns. */
  function WarpedRow(p: Plan, w: seq<int>, ip: (int, int, int, int, int) -> real, s: int, cols: nat): (row: seq<real>)
    requires PlanOK(p) && |w| == p.segs.n + 1
    ensures |row| == cols
  {
    seq(cols, c => Written(p.bT, p.segs.lenT, w, ip, s, p.segs.n, c))
  }

  /** The boundaries of the best warping of one signal and the table they are read from. */
  function Phases(g: Geo, gain: (int, int, int) -> real): (seq<int>, seq<Entry>)
    requires ValidGeo(g)
  {
    (BestWalk(g, gain), Fwd(g, gain, Segs(g)))
  }

  /** The forward and backward phases for yn signals whose gains are gains(0), .., gains(yn - 1). */
  method WarpEach(g: Geo, gains: int -> ((int, int, int) -> real), yn: nat, ym: int)
    returns (warping: seq<seq<int>>, tables: seq<seq<Entry>>)
    requires ValidGeo(g) && AllReach(g) && ym == g.hi[Segs(g)]
    ensures |warping| == yn && |tables| == yn
    ensures forall k :: 0 <= k < yn ==> (warping[k], tables[k]) == Phases(g, gains(k))
  {
    warping, tables := [], [];
    for s := 0 to yn
      invariant |warping| == s && |tables| == s
      invariant forall k :: 0 <= k < s ==> (warping[k], tables[k]) == Phases(g, gains(k))
    {
      var w, t := WarpSignal(g, gains(s), ym);
      warping := warping + [w];
      tables := tables + [t];
    }
  }

  /** The forward and backward phases for every signal of the plan. */
  method WarpAll(p: Plan, cc: (int, int, int, int) -> Option<real>, power: nat)
    returns (warping: seq<seq<int>>, tables: seq<seq<Entry>>)
    requires PlanOK(p)
    ensures |warping| == p.yn && |tables| == p.yn
    ensures forall k :: 0 <= k < p.yn ==> warping[k] == Warp(p, Gain(cc, power, k))
    ensures forall k :: 0 <= k < p.yn ==> tables[k] == Fwd(GeoOf(p), Gain(cc, power, k), p.segs.n)
  {
    PlanGeo(p);
    warping, tables := WarpEach(GeoOf(p), s => Gain(cc, power, s), p.yn, p.ym);
  }

  /** The interpolation tables of a plan with at least one segment: shared for a nominal length, per segment for given boundaries. */
  method PlanTables(p: Plan) returns (coeffs: seq<array2<real>>, indices: seq<array2<int>>)
    requires PlanOK(p) && p.segs.n >= 1
    ensures p.slack >= 0 && Fits(p.segs.lenT, p.segs.lenP, p.slack)
    ensures TablesFor(coeffs, indices, p.segs.lenT, p.segs.lenP, p.slack)
  {
    assert Fits(p.segs.lenT, p.segs.lenP, p.slack);
    if p.predefined {
      coeffs, indices := OwnTables(p.segs.lenT, p.segs.lenP, p.slack);
    } else {
      coeffs, indices := SharedTables(p.segs.lenT, p.segs.lenP, p.slack);
    }
  }

  /** Interpolation tables, warping and reconstruction for a valid plan. */
  method Planned(p: Plan, o: Options, cols: nat, cc: (int, int, int, int) -> Option<real>,
                 ip: (int, int, int, int, int) -> real)
    returns (out: CowOutput)
    requires PlanOK(p) && 1 <= o.power && cols <= p.refM
    ensures |out.warping| == p.yn && |out.target| == p.yn && |out.warped| == p.yn
    ensures forall s :: 0 <= s < p.yn ==>
      && out.warping[s] == Warp(p, Gain(cc, o.power, s))
      && out.target[s] == p.bT
      && out.warped[s] == WarpedRow(p, out.warping[s], ip, s, cols)
    ensures out.diag == DiagOf(p, o, seq(p.yn, s => Fwd(GeoOf(p), Gain(cc, o.power, s), p.segs.n)))
  {
    var power: nat := o.power;
    var warping, tables := WarpAll(p, cc, power);
    var target := seq(p.yn, _ => p.bT);
    PlanBoundaries(p);
    var x := Reconstruct(p.bT, p.segs.lenT, p.refM, warping, ip);
    var rows := Trimmed(x, cols);
    forall s | 0 <= s < p.yn
      ensures rows[s] == WarpedRow(p, warping[s], ip, s, cols)
    {
    }
    assert tables == seq(p.yn, s => Fwd(GeoOf(p), Gain(cc, o.power, s), p.segs.n));
    out := CowOutput(warping, target, rows, DiagOf(p, o, tables));
  }

  /**
   * `cow` on a target ref and signals y (rows of ym0 samples), for a band of
   * 0: an error exactly when the checks fail, else for every signal the
   * walked boundaries, bT, the warped signal of |ref| columns and Diagnos.
   */
  method Cow(ref: seq<Float>, y: seq<seq<Float>>, ym0: nat, seg: SegSpec, slack: int, o: Options,
             cc: (int, int, int, int) -> Option<real>, ip: (int, int, int, int, int) -> real)
    returns (r: Result<CowOutput, CowError>)
    requires forall s :: 0 <= s < |y| ==> |y[s]| == ym0
    requires seg.Boundaries? ==> |seg.t| == |seg.p| >= 1
    requires o.band == 0.0
    ensures var prep := Prepare(|ref|, ym0, |y|, seg, slack, o, Missing(ref, y));
      && (r.Failure? <==> prep.Failure?)
      && (r.Failure? ==> r.error == prep.error)
      && (r.Success? ==>
        var p := prep.value;
        && PlanOK(p) && 1 <= o.power <= 4
        && |r.value.warping| == |y| && |r.value.target| == |y| && |r.value.warped| == |y|
        && (forall s :: 0 <= s < |y| ==>
              && r.value.warping[s] == Warp(p, Gain(cc, o.power, s))
              && r.value.target[s] == p.bT
              && r.value.warped[s] == WarpedRow(p, r.value.warping[s], ip, s, |ref|))
        && r.value.diag == DiagOf(p, o, seq(|y|, s => Fwd(GeoOf(p), Gain(cc, o.power, s), p.segs.n))))
  {
    var prep := Prepare(|ref|, ym0, |y|, seg, slack, o, Missing(ref, y));
    if prep.Failure? {
      return Failure(prep.error);
    }
    PrepareMeaning(|ref|, ym0, |y|, seg, slack, o, Missing(ref, y));
    var out := Planned(prep.value, o, |ref|, cc, ip);
    r := Success(out);
  }
}
