/**
 * The geometry `cow` (fpbiolib/twarp/cow.py) hands to its dynamic programme
 * when no band is given: the signal segment lengths, the slack and the
 * slope-constrained windows around bP. Under the slope constraint every node
 * after window 0 has an allowed predecessor, so Count never lags and the
 * table holds the values of the recurrence.
 */
module CowGeometry {
  import opened CowSegments
  import opened CowTable
  import opened CowForward
  import opened CowOptimum

  /** The windows `Bounds` of the slope constraint around the boundaries bP (bP = Starts(lenP) in `cow`). */
  function SlopeGeo(lenP: seq<int>, bP: seq<int>, slack: int): (g: Geo)
    requires |bP| == |lenP| + 1
    ensures g.lenP == lenP && g.slack == slack
    ensures |g.lo| == |lenP| + 1 && |g.hi| == |lenP| + 1
  {
    Geo(lenP, slack, Lower(bP, slack), Upper(bP, slack))
  }

  /**
   * The slope windows form a valid geometry whose first and last windows
   * are the single positions bP[0] and bP[nSeg].
   */
  lemma SlopeValid(lenP: seq<int>, bP: seq<int>, slack: int)
    requires |bP| == |lenP| + 1 && slack >= 0
    ensures ValidGeo(SlopeGeo(lenP, bP, slack))
    ensures SlopeGeo(lenP, bP, slack).lo[0] == bP[0] == SlopeGeo(lenP, bP, slack).hi[0]
    ensures var n := |lenP|; SlopeGeo(lenP, bP, slack).lo[n] == bP[n] == SlopeGeo(lenP, bP, slack).hi[n]
  {
    forall i | 0 <= i < |bP|
      ensures Lower(bP, slack)[i] <= Upper(bP, slack)[i]
    {
      WindowShape(bP, slack, i);
    }
    WindowShape(bP, slack, 0);
    WindowShape(bP, slack, |lenP|);
  }

  /** The slack choice for an offset d from bP: d itself, clamped to -Slack..Slack. */
  function Clamp(d: int, slack: int): (e: int)
    requires slack >= 0
    ensures -slack <= e <= slack
  {
    if d > slack then slack else if d < -slack then -slack else d
  }

  /** An offset within Slack * (m + 1) of bP, less its clamp, is within Slack * m. */
  lemma ClampWithin(d: int, slack: int, m: int, m1: int)
    requires slack >= 0 && 0 <= m && m1 <= m + 1
    requires -(slack * m1) <= d <= slack * m1
    ensures -(slack * m) <= d - Clamp(d, slack) <= slack * m
  {
    MulMono(slack, m1, m + 1);
    MulAddOne(slack, m);
    MulMono(slack, 0, m);
  }

  /**
   * Every position p of window i + 1 has an allowed arc: the slack choice
   * that moves p - lenP[i] towards bP[i] by at most Slack lands in window i.
   */
  lemma ArcInto(lenP: seq<int>, bP: seq<int>, slack: int, i: int, p: int)
    requires |bP| == |lenP| + 1 && slack >= 0 && 0 <= i < |lenP| && bP[i + 1] == bP[i] + lenP[i]
    requires SlopeGeo(lenP, bP, slack).lo[i + 1] <= p <= SlopeGeo(lenP, bP, slack).hi[i + 1]
    ensures ValidGeo(SlopeGeo(lenP, bP, slack)) && Reach(SlopeGeo(lenP, bP, slack), i, p)
  {
    SlopeValid(lenP, bP, slack);
    var g := SlopeGeo(lenP, bP, slack);
    var n := |lenP|;
    WindowShape(bP, slack, i);
    WindowShape(bP, slack, i + 1);
    var d := p - bP[i + 1];
    ClampWithin(d, slack, IntMin(i, n - i), IntMin(i + 1, n - (i + 1)));
    var s := Clamp(d, slack) + slack;
    assert Prec(g, i, p, s) == bP[i] + (d - Clamp(d, slack));
    assert Allowed(g, i, p, s);
  }

  /** So under the slope constraint around boundaries that rise by lenP every node after window 0 is reachable. */
  lemma SlopeReach(lenP: seq<int>, bP: seq<int>, slack: int)
    requires slack >= 0 && Steps(bP, lenP)
    ensures ValidGeo(SlopeGeo(lenP, bP, slack)) && AllReach(SlopeGeo(lenP, bP, slack))
  {
    SlopeValid(lenP, bP, slack);
    var g := SlopeGeo(lenP, bP, slack);
    forall i, p | 0 <= i < Segs(g) && g.lo[i + 1] <= p <= g.hi[i + 1]
      ensures Reach(g, i, p)
    {
      ArcInto(lenP, bP, slack, i, p);
    }
  }
}
