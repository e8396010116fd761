/**
 * The optimisation problem behind the dynamic programme of `cow`
 * (fpbiolib/twarp/cow.py), stated on chains of boundary positions: a warping
 * path starts at the first node of window 0 and moves from window i to
 * window i + 1 by a signal segment of lenP[i] - Slack .. lenP[i] + Slack
 * intervals; its gain is the sum of the gains of its arcs. No path gains
 * more than the value (`Value`) of the position it reaches.
 */
module CowPaths {
  import opened CowTable
  import opened CowForward
  import opened CowOptimum

  /** The arc from position x of window i to position p of window i + 1 is one the programme considers. */
  predicate ArcOK(g: Geo, i: int, x: int, p: int)
    requires ValidGeo(g) && 0 <= i < Segs(g)
  {
    g.lo[i] <= x <= g.hi[i] && -g.slack <= p - x - g.lenP[i] <= g.slack
  }

  /** The slack choice (index into `Slacks_vec`) of the arc from x to p. */
  function Choice(g: Geo, i: int, x: int, p: int): int
    requires ValidGeo(g) && 0 <= i < Segs(g)
  {
    p - x - g.lenP[i] + g.slack
  }

  /** Considered arcs and allowed slack choices are the same thing. */
  lemma ArcChoice(g: Geo, i: int, x: int, p: int)
    requires ValidGeo(g) && 0 <= i < Segs(g)
    ensures ArcOK(g, i, x, p) <==>
      (0 <= Choice(g, i, x, p) < 2 * g.slack + 1 && Allowed(g, i, p, Choice(g, i, x, p)))
    ensures Prec(g, i, p, Choice(g, i, x, p)) == x
  {
  }

  /** A warping path: one position per boundary, from the first node of window 0, along considered arcs. */
  predicate IsPath(g: Geo, q: seq<int>)
    requires ValidGeo(g)
  {
    && |q| == Segs(g) + 1 && q[0] == g.lo[0]
    && forall i :: 0 <= i < Segs(g) ==> ArcOK(g, i, q[i], q[i + 1])
  }

  /** The summed gain of the first j arcs of q. */
  function PathGain(gain: (int, int, int) -> real, q: seq<int>, j: nat): real
    requires j < |q|
  {
    if j == 0 then 0.0 else PathGain(gain, q, j - 1) + gain(j - 1, q[j - 1], q[j])
  }

  /** Adding the same gain keeps the order of two loss values. */
  lemma AddGainMono(a: Score, b: Score, x: real)
    requires AtMost(a, b)
    ensures AtMost(AddGain(a, x), AddGain(b, x))
  {
  }

  /** No warping path gains more up to boundary j than the value of the position it reaches there. */
  lemma {:induction false} PathBound(g: Geo, gain: (int, int, int) -> real, q: seq<int>, j: int)
    requires ValidGeo(g) && IsPath(g, q) && 0 <= j <= Segs(g)
    ensures AtMost(Fin(PathGain(gain, q, j)), Value(g, gain, j, q[j]))
  {
    if j > 0 {
      var i := j - 1;
      PathBound(g, gain, q, i);
      assert ArcOK(g, i, q[i], q[j]);
      ArcChoice(g, i, q[i], q[j]);
      var s := Choice(g, i, q[i], q[j]);
      BestOfIsMax(g, gain, i, q[j], 2 * g.slack + 1);
      AddGainMono(Fin(PathGain(gain, q, i)), Value(g, gain, i, q[i]), gain(i, q[i], q[j]));
      AtMostTrans(Fin(PathGain(gain, q, j)), Via(g, gain, i, q[j], s), Value(g, gain, j, q[j]));
    }
  }

  /**
   * When window 0 is the single first node and every node is reachable (as
   * under the slope constraint), every node of every window has a finite value.
   */
  lemma {:induction false} AllFinite(g: Geo, gain: (int, int, int) -> real, i: int, p: int)
    requires ValidGeo(g) && AllReach(g) && g.lo[0] == g.hi[0]
    requires 0 <= i <= Segs(g) && g.lo[i] <= p <= g.hi[i]
    ensures Value(g, gain, i, p).Fin?
  {
    if i > 0 {
      assert Reach(g, i - 1, p);
      var s :| 0 <= s < 2 * g.slack + 1 && Allowed(g, i - 1, p, s);
      AllFinite(g, gain, i - 1, Prec(g, i - 1, p, s));
      BestOfIsMax(g, gain, i - 1, p, 2 * g.slack + 1);
    }
  }
}
