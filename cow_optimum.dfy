/**
 * What the forward phase of `cow` (fpbiolib/twarp/cow.py) computes, stated
 * on boundary positions instead of table slots: the best loss value of a
 * chain of boundaries from the first node to position x of window i
 * (`Value`). When every node of every window has an allowed predecessor,
 * which the slope windows guarantee, the table holds exactly these values.
 */
module CowOptimum {
  import opened Wrappers
  import opened CowTable
  import opened CowForward

  /** The larger of two loss values, the first one on a tie. */
  function MaxScore(a: Score, b: Score): (m: Score)
    ensures AtMost(a, m) && AtMost(b, m)
    ensures m == a || m == b
  {
    if Below(a, b) then b else a
  }

  /**
   * The best loss value of position x of window m: 0 at the first node of
   * window 0 and minus infinity at the other nodes there; further on, the best
   * over the allowed arcs into x.
   */
  function Value(g: Geo, gain: (int, int, int) -> real, m: int, x: int): Score
    requires ValidGeo(g) && 0 <= m <= Segs(g)
    decreases m, 0, 0
  {
    if m == 0 then (if x == g.lo[0] then Fin(0.0) else NegInf)
    else BestOf(g, gain, m - 1, x, 2 * g.slack + 1)
  }

  /** The value of the arc from window i with slack choice s into position p. */
  function Via(g: Geo, gain: (int, int, int) -> real, i: int, p: int, s: int): Score
    requires ValidGeo(g) && 0 <= i < Segs(g)
    decreases i, 1, 0
  {
    AddGain(Value(g, gain, i, Prec(g, i, p, s)), gain(i, Prec(g, i, p, s), p))
  }

  /** The best of the arcs over the allowed slack choices among the first s; minus infinity when there is none. */
  function BestOf(g: Geo, gain: (int, int, int) -> real, i: int, p: int, s: int): Score
    requires ValidGeo(g) && 0 <= i < Segs(g) && 0 <= s
    decreases i, 2, s
  {
    if s == 0 then NegInf
    else if !Allowed(g, i, p, s - 1) then BestOf(g, gain, i, p, s - 1)
    else MaxScore(BestOf(g, gain, i, p, s - 1), Via(g, gain, i, p, s - 1))
  }

  /** Every allowed arc is at most the best, which is minus infinity when no arc is allowed. */
  lemma {:induction false} BestOfIsMax(g: Geo, gain: (int, int, int) -> real, i: int, p: int, s: int)
    requires ValidGeo(g) && 0 <= i < Segs(g) && 0 <= s
    ensures forall k :: 0 <= k < s && Allowed(g, i, p, k) ==> AtMost(Via(g, gain, i, p, k), BestOf(g, gain, i, p, s))
    ensures (forall k :: 0 <= k < s ==> !Allowed(g, i, p, k)) ==> BestOf(g, gain, i, p, s) == NegInf
  {
    if s > 0 {
      BestOfIsMax(g, gain, i, p, s - 1);
      if Allowed(g, i, p, s - 1) {
        var b := BestOf(g, gain, i, p, s - 1);
        var v := Via(g, gain, i, p, s - 1);
        forall k | 0 <= k < s - 1 && Allowed(g, i, p, k)
          ensures AtMost(Via(g, gain, i, p, k), MaxScore(b, v))
        {
          AtMostTrans(Via(g, gain, i, p, k), b, MaxScore(b, v));
        }
      }
    }
  }

  lemma AtMostTrans(a: Score, b: Score, c: Score)
    requires AtMost(a, b) && AtMost(b, c)
    ensures AtMost(a, c)
  {
  }

  /** The table's entries of window i hold the values of their positions. */
  predicate Agrees(g: Geo, gain: (int, int, int) -> real, t: seq<Entry>, i: int)
    requires ValidGeo(g) && 0 <= i <= Segs(g) && |t| == Total(g)
  {
    StartMono(g, i, Segs(g) + 1);
    forall j :: Start(g, i) <= j < Start(g, i) + Width(g, i) ==> t[j].score == Value(g, gain, i, g.lo[i] + (j - Start(g, i)))
  }

  /** On a table that agrees on window i, the cost of an allowed arc is its value. */
  lemma CostIsVia(g: Geo, t: seq<Entry>, gain: (int, int, int) -> real, i: int, p: int, s: int)
    requires ValidGeo(g) && 0 <= i < Segs(g) && |t| == Total(g) && Allowed(g, i, p, s)
    requires Agrees(g, gain, t, i)
    ensures Cost(g, t, gain, i, p, s) == Via(g, gain, i, p, s)
  {
    StartMono(g, i, Segs(g) + 1);
    var x := Prec(g, i, p, s);
    assert NodeOf(g, i, x) - 1 == Start(g, i) + (x - g.lo[i]);
  }

  /** On such a table, the pick among the first s choices has the best value, and there is none exactly when that is minus infinity for lack of arcs. */
  lemma {:induction false} PickIsBest(g: Geo, t: seq<Entry>, gain: (int, int, int) -> real, i: int, p: int, s: int)
    requires ValidGeo(g) && 0 <= i < Segs(g) && |t| == Total(g) && 0 <= s
    requires Agrees(g, gain, t, i)
    ensures Pick(g, t, gain, i, p, s).None? ==> BestOf(g, gain, i, p, s) == NegInf
    ensures Pick(g, t, gain, i, p, s).Some? ==> BestOf(g, gain, i, p, s) == Via(g, gain, i, p, Pick(g, t, gain, i, p, s).value)
  {
    if s > 0 {
      PickIsBest(g, t, gain, i, p, s - 1);
      var best := Pick(g, t, gain, i, p, s - 1);
      if Allowed(g, i, p, s - 1) {
        CostIsVia(g, t, gain, i, p, s - 1);
        if best.Some? {
          CostIsVia(g, t, gain, i, p, best.value);
        }
      }
    }
  }

  /** Position p of window i + 1 has at least one allowed arc. */
  predicate Reach(g: Geo, i: int, p: int)
    requires ValidGeo(g) && 0 <= i < Segs(g)
  {
    exists s :: 0 <= s < 2 * g.slack + 1 && Allowed(g, i, p, s)
  }

  /** Every node after window 0 has an allowed arc into it. */
  predicate AllReach(g: Geo)
    requires ValidGeo(g)
  {
    forall i, p :: 0 <= i < Segs(g) && g.lo[i + 1] <= p <= g.hi[i + 1] ==> Reach(g, i, p)
  }

  /** The pointer of entry e at position p of window i + 1 names the first best predecessor. */
  predicate BestArc(g: Geo, gain: (int, int, int) -> real, i: int, p: int, e: Entry)
    requires ValidGeo(g) && 0 <= i < Segs(g)
  {
    exists s :: 0 <= s < 2 * g.slack + 1 && Allowed(g, i, p, s)
      && e.ptr == NodeOf(g, i, Prec(g, i, p, s))
      && Value(g, gain, i + 1, p) == Via(g, gain, i, p, s)
      && forall k :: 0 <= k < s && Allowed(g, i, p, k) ==> Below(Via(g, gain, i, p, k), Value(g, gain, i + 1, p))
  }

  /** The pointers of window i + 1 all name first best predecessors. */
  predicate Pointed(g: Geo, gain: (int, int, int) -> real, t: seq<Entry>, i: int)
    requires ValidGeo(g) && 0 <= i < Segs(g) && |t| == Total(g)
  {
    StartMono(g, i + 1, Segs(g) + 1);
    forall j :: Start(g, i + 1) <= j < Start(g, i + 1) + Width(g, i + 1) ==>
      BestArc(g, gain, i, g.lo[i + 1] + (j - Start(g, i + 1)), t[j])
  }

  /** A node with an allowed arc gets an entry. */
  lemma NodeResultOne(g: Geo, t: seq<Entry>, gain: (int, int, int) -> real, i: int, p: int)
    requires ValidGeo(g) && 0 <= i < Segs(g) && |t| == Total(g) && Reach(g, i, p)
    ensures |NodeResult(g, t, gain, i, p)| == 1
  {
    PickIsFirstMax(g, t, gain, i, p, 2 * g.slack + 1);
  }

  /** Without Count lagging, the first j results of window i + 1 are those of its first j nodes, one each. */
  lemma {:induction false} ResultsFull(g: Geo, t: seq<Entry>, gain: (int, int, int) -> real, i: int, j: int)
    requires ValidGeo(g) && 0 <= i < Segs(g) && |t| == Total(g) && AllReach(g) && 0 <= j <= Width(g, i + 1)
    ensures |Results(g, t, gain, i, j)| == j
    ensures forall p :: g.lo[i + 1] <= p < g.lo[i + 1] + j ==> |NodeResult(g, t, gain, i, p)| == 1
    ensures forall k :: 0 <= k < j ==> Results(g, t, gain, i, j)[k] == NodeResult(g, t, gain, i, g.lo[i + 1] + k)[0]
  {
    if j > 0 {
      ResultsFull(g, t, gain, i, j - 1);
      NodeResultOne(g, t, gain, i, g.lo[i + 1] + j - 1);
      NodeFnAt(g, t, gain, i);
    }
  }

  /** So slot k of window i + 1 holds the result of its own node. */
  lemma BlockFull(g: Geo, t: seq<Entry>, gain: (int, int, int) -> real, i: int)
    requires ValidGeo(g) && 0 <= i < Segs(g) && |t| == Total(g) && AllReach(g)
    ensures forall p :: g.lo[i + 1] <= p <= g.hi[i + 1] ==> |NodeResult(g, t, gain, i, p)| == 1
    ensures forall k :: 0 <= k < Width(g, i + 1) ==> Block(g, t, gain, i)[k] == NodeResult(g, t, gain, i, g.lo[i + 1] + k)[0]
  {
    ResultsFull(g, t, gain, i, Width(g, i + 1));
    BlockOfFull(g, t, gain, i);
  }

  /** A full list of results is the block itself, with no padding. */
  lemma BlockOfFull(g: Geo, t: seq<Entry>, gain: (int, int, int) -> real, i: int)
    requires ValidGeo(g) && 0 <= i < Segs(g) && |t| == Total(g)
    requires |Results(g, t, gain, i, Width(g, i + 1))| == Width(g, i + 1)
    ensures Block(g, t, gain, i) == Results(g, t, gain, i, Width(g, i + 1))
  {
  }

  /** What a splice keeps and what it replaces. */
  lemma SpliceAt(t: seq<Entry>, at: nat, b: seq<Entry>)
    requires at + |b| <= |t|
    ensures forall j :: 0 <= j < at ==> Splice(t, at, b)[j] == t[j]
    ensures forall j :: at <= j < at + |b| ==> Splice(t, at, b)[j] == b[j - at]
    ensures forall j :: at + |b| <= j < |t| ==> Splice(t, at, b)[j] == t[j]
  {
  }

  /** Entry e at position p of window i + 1 holds its value and a first best pointer. */
  predicate GoodAt(g: Geo, gain: (int, int, int) -> real, i: int, p: int, e: Entry)
    requires ValidGeo(g) && 0 <= i < Segs(g)
  {
    e.score == Value(g, gain, i + 1, p) && BestArc(g, gain, i, p, e)
  }

  /** On a table agreeing on window i, a reachable node of window i + 1 gets its value and a first best pointer. */
  lemma NewEntry(g: Geo, t: seq<Entry>, gain: (int, int, int) -> real, i: int, p: int)
    requires ValidGeo(g) && 0 <= i < Segs(g) && |t| == Total(g) && Reach(g, i, p)
    requires Agrees(g, gain, t, i)
    ensures |NodeResult(g, t, gain, i, p)| == 1
    ensures GoodAt(g, gain, i, p, NodeResult(g, t, gain, i, p)[0])
  {
    var n := 2 * g.slack + 1;
    PickIsFirstMax(g, t, gain, i, p, n);
    PickIsBest(g, t, gain, i, p, n);
    var b := Pick(g, t, gain, i, p, n).value;
    CostIsVia(g, t, gain, i, p, b);
    forall k | 0 <= k < b && Allowed(g, i, p, k)
      ensures Below(Via(g, gain, i, p, k), Value(g, gain, i + 1, p))
    {
      CostIsVia(g, t, gain, i, p, k);
    }
  }

  /** One step of the forward phase leaves the windows before m + 1 alone. */
  lemma AdvanceKeeps(g: Geo, gain: (int, int, int) -> real, t: seq<Entry>, m: int)
    requires ValidGeo(g) && 0 <= m < Segs(g) && |t| == Total(g)
    ensures forall j :: 0 <= j < Start(g, m + 1) && j < |t| ==> Advance(g, t, gain, m)[j] == t[j]
  {
    StartMono(g, m + 1, Segs(g) + 1);
    SpliceAt(t, Start(g, m + 1), Block(g, t, gain, m));
  }

  /** It writes the local table into window m + 1. */
  lemma AdvanceWrites(g: Geo, gain: (int, int, int) -> real, t: seq<Entry>, m: int)
    requires ValidGeo(g) && 0 <= m < Segs(g) && |t| == Total(g)
    ensures forall j :: Start(g, m + 1) <= j < Start(g, m + 1) + Width(g, m + 1) && j < |t| ==> Advance(g, t, gain, m)[j] == Block(g, t, gain, m)[j - Start(g, m + 1)]
  {
    StartMono(g, m + 1, Segs(g) + 1);
    SpliceAt(t, Start(g, m + 1), Block(g, t, gain, m));
  }

  /** When every node is reachable, every slot of the local table is good for its own node. */
  lemma BlockGood(g: Geo, gain: (int, int, int) -> real, t: seq<Entry>, m: int)
    requires ValidGeo(g) && 0 <= m < Segs(g) && |t| == Total(g) && AllReach(g)
    requires Agrees(g, gain, t, m)
    ensures forall k :: 0 <= k < Width(g, m + 1) ==> GoodAt(g, gain, m, g.lo[m + 1] + k, Block(g, t, gain, m)[k])
  {
    BlockFull(g, t, gain, m);
    forall k | 0 <= k < Width(g, m + 1)
      ensures GoodAt(g, gain, m, g.lo[m + 1] + k, Block(g, t, gain, m)[k])
    {
      NewEntry(g, t, gain, m, g.lo[m + 1] + k);
    }
  }

  /** So the step solves window m + 1. */
  lemma AdvanceSolves(g: Geo, gain: (int, int, int) -> real, t: seq<Entry>, m: int)
    requires ValidGeo(g) && 0 <= m < Segs(g) && |t| == Total(g) && AllReach(g)
    requires Agrees(g, gain, t, m)
    ensures Agrees(g, gain, Advance(g, t, gain, m), m + 1)
    ensures Pointed(g, gain, Advance(g, t, gain, m), m)
  {
    AdvanceWrites(g, gain, t, m);
    BlockGood(g, gain, t, m);
    WindowSolved(g, gain, Advance(g, t, gain, m), m, Block(g, t, gain, m));
  }

  /** A table t2 whose window m + 1 holds good entries b solves that window. */
  lemma WindowSolved(g: Geo, gain: (int, int, int) -> real, t2: seq<Entry>, m: int, b: seq<Entry>)
    requires ValidGeo(g) && 0 <= m < Segs(g) && |t2| == Total(g) && |b| == Width(g, m + 1)
    requires forall k :: 0 <= k < Width(g, m + 1) ==> GoodAt(g, gain, m, g.lo[m + 1] + k, b[k])
    requires forall j :: Start(g, m + 1) <= j < Start(g, m + 1) + Width(g, m + 1) && j < |t2| ==> t2[j] == b[j - Start(g, m + 1)]
    ensures Agrees(g, gain, t2, m + 1)
    ensures Pointed(g, gain, t2, m)
  {
    StartMono(g, m + 1, Segs(g) + 1);
    var a := Start(g, m + 1);
    forall j | a <= j < a + Width(g, m + 1)
      ensures GoodAt(g, gain, m, g.lo[m + 1] + (j - a), t2[j])
    {
      assert GoodAt(g, gain, m, g.lo[m + 1] + (j - a), b[j - a]);
    }
  }

  /** Windows 0..m - 1 agreeing in t still agree in a table that equals t below window m. */
  lemma KeepAgrees(g: Geo, gain: (int, int, int) -> real, t: seq<Entry>, t2: seq<Entry>, m: int)
    requires ValidGeo(g) && 0 < m <= Segs(g) && |t| == Total(g) && |t2| == Total(g)
    requires forall j :: 0 <= j < Start(g, m) && j < |t| ==> t2[j] == t[j]
    requires forall i :: 0 <= i < m ==> Agrees(g, gain, t, i)
    ensures forall i :: 0 <= i < m ==> Agrees(g, gain, t2, i)
  {
    StartMono(g, m, Segs(g) + 1);
    forall i | 0 <= i < m
      ensures Agrees(g, gain, t2, i)
    {
      StartMono(g, i, m);
      assert Agrees(g, gain, t, i);
      forall j | Start(g, i) <= j < Start(g, i) + Width(g, i)
        ensures t2[j].score == Value(g, gain, i, g.lo[i] + (j - Start(g, i)))
      {
        assert t2[j] == t[j];
      }
    }
  }

  /** The same for the pointers of windows 1..m - 1. */
  lemma KeepPointed(g: Geo, gain: (int, int, int) -> real, t: seq<Entry>, t2: seq<Entry>, m: int)
    requires ValidGeo(g) && 0 < m <= Segs(g) && |t| == Total(g) && |t2| == Total(g)
    requires forall j :: 0 <= j < Start(g, m) && j < |t| ==> t2[j] == t[j]
    requires forall i :: 0 <= i < m - 1 ==> Pointed(g, gain, t, i)
    ensures forall i :: 0 <= i < m - 1 ==> Pointed(g, gain, t2, i)
  {
    StartMono(g, m, Segs(g) + 1);
    forall i | 0 <= i < m - 1
      ensures Pointed(g, gain, t2, i)
    {
      StartMono(g, i + 1, m);
      assert Pointed(g, gain, t, i);
      forall j | Start(g, i + 1) <= j < Start(g, i + 1) + Width(g, i + 1)
        ensures BestArc(g, gain, i, g.lo[i + 1] + (j - Start(g, i + 1)), t2[j])
      {
        assert t2[j] == t[j];
      }
    }
  }

  /** Windows 0..m agree with the values, and windows 1..m hold first best pointers. */
  predicate Solved(g: Geo, gain: (int, int, int) -> real, t: seq<Entry>, m: int)
    requires ValidGeo(g) && 0 <= m <= Segs(g) && |t| == Total(g)
  {
    && (forall i :: 0 <= i <= m ==> Agrees(g, gain, t, i))
    && (forall i :: 0 <= i < m ==> Pointed(g, gain, t, i))
  }

  /** A table t2 that keeps t below window m and solves window m extends the solved windows of t by one. */
  lemma StepSolves(g: Geo, gain: (int, int, int) -> real, t: seq<Entry>, t2: seq<Entry>, m: int)
    requires ValidGeo(g) && 0 < m <= Segs(g) && |t| == Total(g) && |t2| == Total(g)
    requires Solved(g, gain, t, m - 1)
    requires forall j :: 0 <= j < Start(g, m) && j < |t| ==> t2[j] == t[j]
    requires Agrees(g, gain, t2, m) && Pointed(g, gain, t2, m - 1)
    ensures Solved(g, gain, t2, m)
  {
    KeepAgrees(g, gain, t, t2, m);
    KeepPointed(g, gain, t, t2, m);
  }

  /** Segment m - 1 keeps the windows before m and, on a table agreeing on window m - 1, solves window m. */
  lemma AdvanceStep(g: Geo, gain: (int, int, int) -> real, t: seq<Entry>, t2: seq<Entry>, m: int)
    requires ValidGeo(g) && 0 < m <= Segs(g) && |t| == Total(g) && AllReach(g)
    requires Agrees(g, gain, t, m - 1) && t2 == Advance(g, t, gain, m - 1)
    ensures |t2| == Total(g)
    ensures forall j :: 0 <= j < Start(g, m) && j < |t| ==> t2[j] == t[j]
    ensures Agrees(g, gain, t2, m) && Pointed(g, gain, t2, m - 1)
  {
    AdvanceKeeps(g, gain, t, m - 1);
    AdvanceSolves(g, gain, t, m - 1);
  }

  /** The same for the forward phase: the table after m segments is the step applied to the table after m - 1. */
  lemma FwdStepFacts(g: Geo, gain: (int, int, int) -> real, t: seq<Entry>, t2: seq<Entry>, m: int)
    requires ValidGeo(g) && 0 < m <= Segs(g) && AllReach(g)
    requires t == Fwd(g, gain, m - 1) && t2 == Fwd(g, gain, m)
    requires Agrees(g, gain, t, m - 1)
    ensures |t| == Total(g) && |t2| == Total(g)
    ensures forall j :: 0 <= j < Start(g, m) && j < |t| ==> t2[j] == t[j]
    ensures Agrees(g, gain, t2, m) && Pointed(g, gain, t2, m - 1)
  {
    AdvanceStep(g, gain, t, t2, m);
  }

  /**
   * When every node is reachable, the table after m segments holds, in each
   * window up to m, the value of every position and a pointer to its first
   * best predecessor.
   */
  lemma {:induction false} FwdSolved(g: Geo, gain: (int, int, int) -> real, m: int)
    requires ValidGeo(g) && 0 <= m <= Segs(g) && AllReach(g)
    ensures Solved(g, gain, Fwd(g, gain, m), m)
  {
    if m == 0 {
      InitAgrees(g, gain);
    } else {
      FwdSolved(g, gain, m - 1);
      var t := Fwd(g, gain, m - 1);
      var t2 := Fwd(g, gain, m);
      assert Agrees(g, gain, t, m - 1);
      FwdStepFacts(g, gain, t, t2, m);
      StepSolves(g, gain, t, t2, m);
    }
  }

  /** The table as set up holds the values of window 0: 0 at its first node, minus infinity at the others. */
  lemma InitAgrees(g: Geo, gain: (int, int, int) -> real)
    requires ValidGeo(g)
    ensures Agrees(g, gain, InitEntries(Total(g)), 0)
  {
    StartMono(g, 0, Segs(g) + 1);
    var t := InitEntries(Total(g));
    forall j | 0 <= j < Width(g, 0)
      ensures t[j].score == Value(g, gain, 0, g.lo[0] + j)
    {
    }
  }

  /**
   * Without the slope constraint a node can lack any allowed arc, and then
   * Count lags: with one segment of 2 intervals, no slack, window 0 = {1} and
   * window 1 = {2, 3, 4}, only position 3 has a predecessor. Its result lands
   * in the slot of position 2, and the slots of positions 3 and 4 keep score 0
   * and pointer 0, although neither position is reachable.
   */
  lemma CountLagExample(gain: (int, int, int) -> real)
    ensures var g := Geo([2], 0, [1, 2], [1, 4]);
      && ValidGeo(g) && Total(g) == 4
      && Fwd(g, gain, 1)[1] == Entry(Fin(0.0 + gain(0, 1, 3)), 1)
      && Fwd(g, gain, 1)[2] == Entry(Fin(0.0), 0) && Fwd(g, gain, 1)[3] == Entry(Fin(0.0), 0)
      && Value(g, gain, 1, 2) == NegInf && Value(g, gain, 1, 4) == NegInf
  {
    var g := Geo([2], 0, [1, 2], [1, 4]);
    assert Start(g, 1) == 1 && Width(g, 1) == 3 && Total(g) == 4;
    var t := InitEntries(4);
    assert !Allowed(g, 0, 2, 0) && Allowed(g, 0, 3, 0) && !Allowed(g, 0, 4, 0);
    assert NodeResult(g, t, gain, 0, 2) == [];
    assert NodeResult(g, t, gain, 0, 3) == [Entry(Fin(0.0 + gain(0, 1, 3)), 1)];
    assert NodeResult(g, t, gain, 0, 4) == [];
    NodeFnAt(g, t, gain, 0);
    assert Results(g, t, gain, 0, 3) == [Entry(Fin(0.0 + gain(0, 1, 3)), 1)];
    assert Block(g, t, gain, 0) == [Entry(Fin(0.0 + gain(0, 1, 3)), 1), Entry(Fin(0.0), 0), Entry(Fin(0.0), 0)];
  }
}
