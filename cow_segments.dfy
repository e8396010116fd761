/**
 * The set-up half of `cow` (fpbiolib/twarp/cow.py): the segment lengths of
 * the target and of the signals, the slack check, the 1-based boundary
 * tables bT and bP, and the slope-constrained search window of every
 * boundary, plus the band check, which narrows the windows.
 */
module CowSegments {
  import opened Wrappers

  /** `Seg`: one nominal segment length, or predefined boundaries (first row target, second row signal). */
  datatype SegSpec = Nominal(len: int) | Boundaries(t: seq<int>, p: seq<int>)

  datatype CowError =
    | BadPower              // Options[1] outside 1..4
    | MissingValues         // NaN in ref or y
    | EmptySignal           // lengthening an empty ref or an empty row reads its last value
    | BadEndPoints          // predefined boundaries with wrong end points
    | ShortSegment          // a predefined segment of fewer than two points
    | SegmentTooLong        // Seg > min(ym, ref_m)
    | NoSegments            // no segment fits: a division by zero or a negative segment count raises
    | SegmentCountMismatch  // target and signal split into different numbers of segments
    | SlackTooLarge         // a segment shorter than Slack + 2
    | NarrowBand            // Options[3] nonzero and |ref_m - ym| > Options[3]
    | BandClash             // the band makes a window edge change sign between boundaries
    | NegativeTable         // a negative slack gives the table a negative size
    | NoSignals             // y has no rows: the forward pass reads row 0 of the table

  /** The segment count and the lengths (in intervals) of target and signal segments: `LenSeg`. */
  datatype Segments = Segments(n: nat, lenT: seq<int>, lenP: seq<int>)

  predicate WellFormed(s: Segments)
  {
    |s.lenT| == s.n && |s.lenP| == s.n
  }

  function IntMin(a: int, b: int): int
  {
    if a <= b then a else b
  }

  function IntMax(a: int, b: int): int
  {
    if a >= b then a else b
  }

  function SumInt(s: seq<int>): int
  {
    if s == [] then 0 else SumInt(s[..|s| - 1]) + s[|s| - 1]
  }

  /** `np.empty(n).fill(v)`. */
  function Fill(n: nat, v: int): (s: seq<int>)
    ensures |s| == n && forall k :: 0 <= k < n ==> s[k] == v
  {
    seq(n, k => v)
  }

  /** `LenSeg[r, nSeg - 1] += temp`. */
  function AddLast(s: seq<int>, t: int): (r: seq<int>)
    requires |s| >= 1
    ensures |r| == |s| && r[|s| - 1] == s[|s| - 1] + t
    ensures forall k :: 0 <= k < |s| - 1 ==> r[k] == s[k]
  {
    s[..|s| - 1] + [s[|s| - 1] + t]
  }

  lemma {:induction false} SumFill(n: nat, v: int)
    ensures SumInt(Fill(n, v)) == n * v
  {
    if n > 0 {
      assert Fill(n, v)[..n - 1] == Fill(n - 1, v);
      SumFill(n - 1, v);
    }
  }

  lemma SumAddLast(s: seq<int>, t: int)
    requires |s| >= 1
    ensures SumInt(AddLast(s, t)) == SumInt(s) + t
  {
    assert AddLast(s, t)[..|s| - 1] == s[..|s| - 1];
  }

  // ---------------------------------------------------------------------------
  // Uniform segments

  /**
   * `LenSeg` for a nominal length Seg, as written. Without Options[2] both
   * sides get Seg - 1 intervals per segment; with it the target and the signal
   * are cut into nSeg = floor((ref_m - 1) / Seg) equal pieces. The remainder of
   * each side goes to its last segment, computed with `%`.
   */
  function UniformAsWritten(refM: int, ym: int, seg: int, equal: bool): Result<Segments, CowError>
  {
    if seg > IntMin(ym, refM) then Failure(SegmentTooLong)
    else if equal then
      if seg < 1 || (refM - 1) / seg < 1 then Failure(NoSegments)
      else
        QuotBounds(refM - 1, seg);
        var n := (refM - 1) / seg;
        QuotBounds(ym - 1, n);
        var l1 := (ym - 1) / n;
        // numpy's integer % by zero gives 0
        var tP := if l1 == 0 then 0 else (ym - 1) % l1;
        Success(Segments(n, EqualTarget(refM, n), AddLast(Fill(n, l1), tP)))
    else
      DefaultSplit(refM, ym, seg)
  }

  /** Quotients of a natural number by a positive one. */
  lemma QuotBounds(m: int, d: int)
    requires m >= 0 && d >= 1
    ensures 0 <= m / d <= m
    ensures d <= m ==> m / d >= 1
  {
    DivModSplit(m, d);
    MulMono(m / d, 1, d);
  }

  /** The target side of the equal-length cut: nSeg pieces of floor((ref_m - 1) / nSeg), the remainder last. */
  function EqualTarget(refM: int, n: int): (s: seq<int>)
    requires 1 <= n <= refM - 1
    ensures |s| == n
  {
    QuotBounds(refM - 1, n);
    var l0 := (refM - 1) / n;
    AddLast(Fill(n, l0), (refM - 1) % l0)
  }

  /** The cut without Options[2]: Seg - 1 intervals per segment on both sides. */
  function DefaultSplit(refM: int, ym: int, seg: int): (r: Result<Segments, CowError>)
    requires seg <= IntMin(ym, refM)
    ensures r.Success? ==> WellFormed(r.value) && r.value.n >= 1
  {
    if seg < 2 then Failure(NoSegments)
    else
      QuotBounds(refM - 1, seg - 1);
      var n := (refM - 1) / (seg - 1);
      if (ym - 1) / (seg - 1) != n then Failure(SegmentCountMismatch)
      else
        Success(Segments(n, AddLast(Fill(n, seg - 1), (refM - 1) % (seg - 1)),
                            AddLast(Fill(n, seg - 1), (ym - 1) % (seg - 1))))
  }

  /**
   * A default cut has (ref_m - 1) / (seg - 1) segments; the first target
   * segment is seg - 1 long when there are several, and spans the whole
   * target when there is one.
   */
  lemma DefaultSplitFirst(refM: int, ym: int, seg: int)
    requires seg <= IntMin(ym, refM) && DefaultSplit(refM, ym, seg).Success?
    ensures var s := DefaultSplit(refM, ym, seg).value;
      && s.n == (refM - 1) / (seg - 1)
      && (s.n >= 2 ==> s.lenT[0] == seg - 1)
      && (s.n == 1 ==> s.lenT[0] == refM - 1)
  {
    DivModSplit(refM - 1, seg - 1);
  }

  /**
   * The same with the signal remainder of the equal-length mode taken as what
   * is left over, (ym - 1) - nSeg * LenSeg[1, 0].
   */
  function Uniform(refM: int, ym: int, seg: int, equal: bool): (r: Result<Segments, CowError>)
    ensures r.Success? ==> WellFormed(r.value) && r.value.n >= 1
  {
    if seg > IntMin(ym, refM) then Failure(SegmentTooLong)
    else if equal then
      if seg < 1 || (refM - 1) / seg < 1 then Failure(NoSegments)
      else
        QuotBounds(refM - 1, seg);
        var n := (refM - 1) / seg;
        QuotBounds(ym - 1, n);
        var l1 := (ym - 1) / n;
        Success(Segments(n, EqualTarget(refM, n), AddLast(Fill(n, l1), (ym - 1) - n * l1)))
    else
      DefaultSplit(refM, ym, seg)
  }

  /** Both functions raise the same errors and cut the target alike; only the signal remainder differs. */
  lemma UniformAgrees(refM: int, ym: int, seg: int, equal: bool)
    ensures UniformAsWritten(refM, ym, seg, equal).Success? <==> Uniform(refM, ym, seg, equal).Success?
    ensures UniformAsWritten(refM, ym, seg, equal).Failure? ==>
      UniformAsWritten(refM, ym, seg, equal) == Uniform(refM, ym, seg, equal)
    ensures !equal ==> UniformAsWritten(refM, ym, seg, equal) == Uniform(refM, ym, seg, equal)
    ensures UniformAsWritten(refM, ym, seg, equal).Success? ==>
      UniformAsWritten(refM, ym, seg, equal).value.lenT == Uniform(refM, ym, seg, equal).value.lenT
  {
  }

  lemma DivModSplit(m: int, d: int)
    requires m >= 0 && d > 0
    ensures m == (m / d) * d + m % d && 0 <= m % d < d
  {
  }

  /**
   * The target and the signal are cut into the same number of segments whose
   * lengths add up to ref_m - 1 and ym - 1; without Options[2] every segment
   * but the last has Seg - 1 intervals on both sides, and the last one takes
   * the remainder.
   */
  lemma UniformCovers(refM: int, ym: int, seg: int, equal: bool)
    requires Uniform(refM, ym, seg, equal).Success?
    ensures var s := Uniform(refM, ym, seg, equal).value;
      && SumInt(s.lenT) == refM - 1
      && SumInt(s.lenP) == ym - 1
      && (!equal ==> forall k :: 0 <= k < s.n - 1 ==> s.lenT[k] == seg - 1 && s.lenP[k] == seg - 1)
      && (!equal ==> s.lenT[s.n - 1] == seg - 1 + (refM - 1) % (seg - 1))
      && (!equal ==> s.lenP[s.n - 1] == seg - 1 + (ym - 1) % (seg - 1))
  {
    if equal {
      var n := (refM - 1) / seg;
      QuotBounds(refM - 1, seg);
      QuotBounds(ym - 1, n);
      EqualTargetCovers(refM, n, seg);
      EqualSignalCovers(ym, n);
    } else {
      var n := (refM - 1) / (seg - 1);
      QuotBounds(refM - 1, seg - 1);
      DefaultCovers(refM, seg, n);
      DefaultCovers(ym, seg, n);
    }
  }

  lemma EqualSignalCovers(ym: int, n: int)
    requires n >= 1 && ym >= 1
    ensures SumInt(AddLast(Fill(n, (ym - 1) / n), (ym - 1) - n * ((ym - 1) / n))) == ym - 1
  {
    var l1 := (ym - 1) / n;
    SumFill(n, l1);
    SumAddLast(Fill(n, l1), (ym - 1) - n * l1);
  }

  lemma EqualTargetCovers(refM: int, n: int, seg: int)
    requires seg >= 1 && (refM - 1) / seg >= 1 && n == (refM - 1) / seg
    requires 1 <= n <= refM - 1
    ensures SumInt(EqualTarget(refM, n)) == refM - 1
  {
    var l0 := (refM - 1) / n;
    SumFill(n, l0);
    SumAddLast(Fill(n, l0), (refM - 1) % l0);
    TargetRemainder(refM - 1, seg);
  }

  /** n pieces of seg - 1 with the remainder of m - 1 added to the last span m - 1 when n = floor((m - 1) / (seg - 1)). */
  lemma DefaultCovers(m: int, seg: int, n: int)
    requires seg >= 2 && m - 1 >= 0 && n >= 1 && n == (m - 1) / (seg - 1)
    ensures SumInt(AddLast(Fill(n, seg - 1), (m - 1) % (seg - 1))) == m - 1
  {
    SumFill(n, seg - 1);
    SumAddLast(Fill(n, seg - 1), (m - 1) % (seg - 1));
    DivModSplit(m - 1, seg - 1);
  }

  /**
   * For the target, `% LenSeg[0, 0]` is the leftover of the equal cut: with
   * n = floor(m / seg) and l = floor(m / n), m - n * l is below l.
   */
  lemma TargetRemainder(m: int, seg: int)
    requires seg >= 1 && m / seg >= 1
    ensures var n := m / seg; var l := m / n; m % l == m - n * l
  {
    var n := m / seg;
    DivModSplit(m, seg);
    var l := m / n;
    DivModSplit(m, n);
    Leftover(m, seg, n, m % seg, l, m % n);
    MulComm(l, n);
    ModUnique(m, l, n, m % n);
  }

  /** With m = n * seg + s0 (s0 < seg) and m = l * n + r (r < n): seg <= l and r < l. */
  lemma Leftover(m: int, seg: int, n: int, s0: int, l: int, r: int)
    requires seg >= 1 && n >= 1
    requires m == n * seg + s0 && 0 <= s0 < seg
    requires m == l * n + r && 0 <= r < n
    ensures seg <= l && r < l
  {
    MulComm(seg, n);
    if l < seg {
      MulGap(seg, l, n);
    }
    MulMono(n, seg, l);
    MulComm(n, l);
  }

  lemma MulComm(a: int, b: int)
    ensures a * b == b * a
  {
  }

  lemma MulAddOne(a: int, b: int)
    ensures a * (b + 1) == a * b + a
  {
  }

  lemma MulGap(a: int, b: int, l: int)
    requires a >= b + 1 && l >= 0
    ensures a * l >= b * l + l
  {
    MulMono(l, b + 1, a);
    MulAddOne(l, b);
    MulComm(l, a);
    MulComm(l, b);
  }

  lemma MulMono(n: int, a: int, b: int)
    requires n >= 0 && a <= b
    ensures n * a <= n * b
  {
  }

  /** m = q * l + r with 0 <= r < l determines m % l. */
  lemma ModUnique(m: int, l: int, q: int, r: int)
    requires l > 0 && m >= 0 && m == q * l + r && 0 <= r < l
    ensures m % l == r
  {
    DivModSplit(m, l);
    var q2 := m / l;
    if q > q2 {
      MulGap(q, q2, l);
    } else if q < q2 {
      MulGap(q2, q, l);
    }
  }

  /**
   * With ref_m = 31, ym = 36, Seg = 3 and Options[2] set, nSeg = 10 and
   * LenSeg[1, 0] = 3, and the code gives the last signal segment 35 % 3 = 2
   * extra intervals: the signal segments span 32 intervals, not 35, so the
   * last boundary bP[nSeg] = 33 falls short of the signal's end at 36.
   */
  lemma EqualRemainderShort()
    ensures UniformAsWritten(31, 36, 3, true).Success?
    ensures SumInt(UniformAsWritten(31, 36, 3, true).value.lenP) == 32
    ensures SumInt(Uniform(31, 36, 3, true).value.lenP) == 35
  {
    var s := UniformAsWritten(31, 36, 3, true).value;
    assert s.n == 10;
    SumFill(10, 3);
    SumAddLast(Fill(10, 3), 2);
    UniformCovers(31, 36, 3, true);
  }

  // ---------------------------------------------------------------------------
  // Predefined boundaries

  /** `np.diff`. */
  function Diffs(s: seq<int>): (d: seq<int>)
    requires |s| >= 1
    ensures |d| == |s| - 1
    ensures forall k :: 0 <= k < |d| ==> d[k] == s[k + 1] - s[k]
  {
    seq(|s| - 1, k requires 0 <= k < |s| - 1 => s[k + 1] - s[k])
  }

  lemma {:induction false} SumDiffs(s: seq<int>)
    requires |s| >= 1
    ensures SumInt(Diffs(s)) == s[|s| - 1] - s[0]
  {
    if |s| > 1 {
      var p := s[..|s| - 1];
      assert Diffs(s)[..|s| - 2] == Diffs(p);
      SumDiffs(p);
    }
  }

  /** Segments of at least two points on both sides. */
  predicate LongEnough(t: seq<int>, p: seq<int>)
    requires |t| == |p| >= 1
  {
    forall k :: 0 <= k < |t| - 1 ==> t[k + 1] - t[k] >= 2 && p[k + 1] - p[k] >= 2
  }

  /**
   * The predefined-boundary check as written: it raises only when the first
   * column differs from (0, 0) and the last from (ref_m, ym) at the same time.
   */
  function PredefinedAsWritten(refM: int, ym: int, t: seq<int>, p: seq<int>): Result<Segments, CowError>
    requires |t| == |p| >= 1
  {
    var last := |t| - 1;
    if !(t[0] == 0 && p[0] == 0) && !(t[last] == refM && p[last] == ym) then Failure(BadEndPoints)
    else if !LongEnough(t, p) then Failure(ShortSegment)
    else Success(Segments(last, Diffs(t), Diffs(p)))
  }

  /**
   * The check the message asks for: the boundaries start at 1 (the first point)
   * and end at ref_m and ym, matching the 1-based tables bT and bP.
   */
  function Predefined(refM: int, ym: int, t: seq<int>, p: seq<int>): (r: Result<Segments, CowError>)
    requires |t| == |p| >= 1
    ensures r.Success? ==> WellFormed(r.value)
  {
    var last := |t| - 1;
    if !(t[0] == 1 && p[0] == 1 && t[last] == refM && p[last] == ym) then Failure(BadEndPoints)
    else if !LongEnough(t, p) then Failure(ShortSegment)
    else Success(Segments(last, Diffs(t), Diffs(p)))
  }

  /** Accepted boundaries give segments spanning ref_m - 1 and ym - 1 intervals. */
  lemma PredefinedCovers(refM: int, ym: int, t: seq<int>, p: seq<int>)
    requires |t| == |p| >= 1
    requires Predefined(refM, ym, t, p).Success?
    ensures SumInt(Predefined(refM, ym, t, p).value.lenT) == refM - 1
    ensures SumInt(Predefined(refM, ym, t, p).value.lenP) == ym - 1
  {
    SumDiffs(t);
    SumDiffs(p);
  }

  /** The first-segment anchor (0, 0) the check accepts makes the target segments span ref_m intervals. */
  lemma ZeroBasedOvershoots(refM: int, ym: int, t: seq<int>, p: seq<int>)
    requires |t| == |p| >= 2
    requires t[0] == 0 && p[0] == 0 && t[|t| - 1] == refM && p[|p| - 1] == ym
    requires LongEnough(t, p)
    ensures PredefinedAsWritten(refM, ym, t, p).Success?
    ensures Last(Starts(PredefinedAsWritten(refM, ym, t, p).value.lenT)) == refM + 1
    ensures Last(Starts(PredefinedAsWritten(refM, ym, t, p).value.lenP)) == ym + 1
  {
    SumDiffs(t);
    SumDiffs(p);
    StartsLast(Diffs(t));
    StartsLast(Diffs(p));
  }

  // ---------------------------------------------------------------------------
  // Boundary tables and windows

  /** b rises from 1 by the lengths lens, one boundary after each segment. */
  predicate Steps(b: seq<int>, lens: seq<int>)
  {
    && |b| == |lens| + 1 && b[0] == 1
    && forall k {:trigger lens[k]} :: 0 <= k < |lens| ==> b[k + 1] == b[k] + lens[k]
  }

  /** `np.cumsum(np.insert(1, 1, lens))`: 1-based boundary positions. */
  function Starts(lens: seq<int>): (b: seq<int>)
    ensures Steps(b, lens)
  {
    if lens == [] then [1]
    else
      var p := Starts(lens[..|lens| - 1]);
      assert forall k :: 0 <= k < |lens| - 1 ==> lens[..|lens| - 1][k] == lens[k];
      p + [p[|p| - 1] + lens[|lens| - 1]]
  }

  function Last(b: seq<int>): int
    requires |b| >= 1
  {
    b[|b| - 1]
  }

  lemma {:induction false} StartsLast(lens: seq<int>)
    ensures Last(Starts(lens)) == 1 + SumInt(lens)
  {
    if lens != [] {
      StartsLast(lens[..|lens| - 1]);
    }
  }

  /**
   * Slope constraint, as written: the larger of bP - Slack * i and
   * bP - Slack * (nSeg - i), and the smaller of bP + Slack * i and
   * bP + Slack * (nSeg - i).
   */
  function Lower(bP: seq<int>, slack: int): (lo: seq<int>)
    requires |bP| >= 1
    ensures |lo| == |bP|
  {
    var n := |bP| - 1;
    seq(|bP|, i requires 0 <= i < |bP| => IntMax(bP[i] - slack * i, bP[i] - slack * (n - i)))
  }

  function Upper(bP: seq<int>, slack: int): (hi: seq<int>)
    requires |bP| >= 1
    ensures |hi| == |bP|
  {
    var n := |bP| - 1;
    seq(|bP|, i requires 0 <= i < |bP| => IntMin(bP[i] + slack * i, bP[i] + slack * (n - i)))
  }

  lemma MulMin(s: int, a: int, b: int)
    requires s >= 0
    ensures s * IntMin(a, b) == IntMin(s * a, s * b)
  {
    if a <= b {
      MulMono(s, a, b);
    } else {
      MulMono(s, b, a);
    }
  }

  /**
   * The window of boundary i is bP[i] -/+ Slack * min(i, nSeg - i): it
   * contains bP[i], and it is the single point bP[i] at both ends.
   */
  lemma WindowShape(bP: seq<int>, slack: int, i: int)
    requires |bP| >= 1 && slack >= 0 && 0 <= i < |bP|
    ensures var n := |bP| - 1; var m := IntMin(i, n - i);
      && Lower(bP, slack)[i] == bP[i] - slack * m
      && Upper(bP, slack)[i] == bP[i] + slack * m
      && Lower(bP, slack)[i] <= bP[i] <= Upper(bP, slack)[i]
      && (i == 0 || i == n ==> Lower(bP, slack)[i] == bP[i] == Upper(bP, slack)[i])
  {
    var n := |bP| - 1;
    MulMin(slack, i, n - i);
    assert slack * IntMin(i, n - i) >= 0 by {
      MulMono(slack, 0, IntMin(i, n - i));
    }
  }

  /** The slack check: every segment on both sides has at least Slack + 2 intervals. */
  predicate SlackFits(s: Segments, slack: int)
    requires WellFormed(s)
  {
    forall k :: 0 <= k < s.n ==> s.lenT[k] >= slack + 2 && s.lenP[k] >= slack + 2
  }

  // ---------------------------------------------------------------------------
  // The band constraint (Options[3])

  function RealMin(a: real, b: real): real
  {
    if a <= b then a else b
  }

  function RealMax(a: real, b: real): real
  {
    if a >= b then a else b
  }

  /** `np.abs(ref_m - ym) > Options[3]`: the band cannot absorb the length difference. */
  predicate BandTooNarrow(refM: int, ym: int, band: real)
  {
    var d := (refM - ym) as real;
    (if d < 0.0 then -d else d) > band
  }

  /** The lower window edges after the band: max(lower, max(0, ym / ref_m * bT - band)). */
  function BandLower(lo: seq<int>, bT: seq<int>, refM: int, ym: int, band: real): (r: seq<real>)
    requires |lo| == |bT| && refM > 0
    ensures |r| == |lo|
    ensures forall i :: 0 <= i < |lo| ==> r[i] == BandEdgeLow(lo[i], bT[i], ym as real / refM as real, band)
  {
    seq(|lo|, i requires 0 <= i < |lo| => BandEdgeLow(lo[i], bT[i], ym as real / refM as real, band))
  }

  /** One lower edge: not below the slope window, not below 0, not below the diagonal minus the band. */
  function BandEdgeLow(lo: int, bT: int, scale: real, band: real): (e: real)
    ensures e >= lo as real && e >= 0.0 && e >= scale * (bT as real) - band
    ensures e == lo as real || e == 0.0 || e == scale * (bT as real) - band
  {
    RealMax(lo as real, RealMax(0.0, scale * (bT as real) - band))
  }

  /** One upper edge: not above the slope window, not above ym, not above the diagonal plus the band. */
  function BandEdgeHigh(hi: int, bT: int, ym: int, scale: real, band: real): (e: real)
    ensures e <= hi as real && e <= ym as real && e <= scale * (bT as real) + band
    ensures e == hi as real || e == ym as real || e == scale * (bT as real) + band
  {
    RealMin(hi as real, RealMin(ym as real, scale * (bT as real) + band))
  }

  /** The upper window edges after the band: min(upper, min(ym, ym / ref_m * bT + band)). */
  function BandUpper(hi: seq<int>, bT: seq<int>, refM: int, ym: int, band: real): (r: seq<real>)
    requires |hi| == |bT| && refM > 0
    ensures |r| == |hi|
    ensures forall i :: 0 <= i < |hi| ==> r[i] == BandEdgeHigh(hi[i], bT[i], ym, ym as real / refM as real, band)
  {
    seq(|hi|, i requires 0 <= i < |hi| => BandEdgeHigh(hi[i], bT[i], ym, ym as real / refM as real, band))
  }

  /** `np.any(np.diff(Bounds < 0))`: the sign of an edge changes between two neighbouring boundaries. */
  predicate SignChanges(e: seq<real>)
  {
    exists i :: 0 <= i < |e| - 1 && ((e[i] < 0.0) != (e[i + 1] < 0.0))
  }

  /** The band only narrows each window. */
  lemma BandNarrows(lo: seq<int>, hi: seq<int>, bT: seq<int>, refM: int, ym: int, band: real, i: int)
    requires |lo| == |hi| == |bT| && refM > 0 && 0 <= i < |lo|
    ensures BandLower(lo, bT, refM, ym, band)[i] >= lo[i] as real
    ensures BandUpper(hi, bT, refM, ym, band)[i] <= hi[i] as real
  {
  }

  /**
   * The second band check never fires: a band that passes the first check is
   * non-negative, the lower edges are at least 0, and with positive upper
   * edges, ym and bT, the upper edges stay positive.
   */
  lemma BandSignsSteady(lo: seq<int>, hi: seq<int>, bT: seq<int>, refM: int, ym: int, band: real)
    requires |lo| == |hi| == |bT| && refM > 0 && ym > 0
    requires forall i :: 0 <= i < |bT| ==> bT[i] >= 1 && hi[i] >= 1
    requires !BandTooNarrow(refM, ym, band)
    ensures !SignChanges(BandLower(lo, bT, refM, ym, band))
    ensures !SignChanges(BandUpper(hi, bT, refM, ym, band))
  {
    var r := ym as real / refM as real;
    DivPositiveReal(ym as real, refM as real, r);
    var ups := BandUpper(hi, bT, refM, ym, band);
    forall i | 0 <= i < |bT| ensures ups[i] > 0.0 {
      MulPositiveReal(r, bT[i] as real);
    }
  }

  lemma DivPositiveReal(a: real, b: real, q: real)
    requires a > 0.0 && b > 0.0 && q == a / b
    ensures q > 0.0
  {
    assert q * b == a;
  }

  lemma MulPositiveReal(a: real, b: real)
    requires a > 0.0 && b > 0.0
    ensures a * b > 0.0
  {
  }
}
