/**
 * The backward phase of `cow` (fpbiolib/twarp/cow.py) for one signal: from
 * the last node of the table, follow the stored pointers back window by
 * window and read off the boundary positions (`Warping`). On the table the
 * forward phase leaves when every node is reachable, the positions read off
 * form a best warping path.
 */
module CowBackward {
  import opened CowTable
  import opened CowForward
  import opened CowOptimum
  import opened CowPaths

  /** Python's index j into a list of length n, for -n <= j < n: negative indices count from the end. */
  function PyIndex(j: int, n: int): int
  {
    if j < 0 then j + n else j
  }

  /** Every pointer of t is a 1-based node number or 0, so `Table[.., Pointer - 1]` is an index of t. */
  predicate PtrsIn(t: seq<Entry>)
  {
    |t| >= 1 && forall k :: 0 <= k < |t| ==> 0 <= t[k].ptr <= |t|
  }

  /** `Pointer` after k steps of the backward loop, from `Table.shape[2]`. */
  function Chain(t: seq<Entry>, k: nat): (q: int)
    requires PtrsIn(t)
    ensures 0 <= q <= |t|
  {
    if k == 0 then |t| else t[PyIndex(Chain(t, k - 1) - 1, |t|)].ptr
  }

  /** The backward loop: Warping[nSeg] = ym, and boundary b gets the position of the node reached after nSeg - b steps. */
  method Backtrack(pos: array<int>, table: array<Entry>, nSeg: nat, ym: int) returns (w: array<int>)
    requires pos.Length == table.Length && PtrsIn(table[..])
    ensures fresh(w) && w.Length == nSeg + 1 && w[nSeg] == ym
    ensures forall b :: 0 <= b < nSeg ==> w[b] == pos[PyIndex(Chain(table[..], nSeg - b) - 1, table.Length)]
  {
    w := new int[nSeg + 1];
    var pointer := table.Length;
    w[nSeg] := ym;
    var b := nSeg;
    while b > 0
      invariant 0 <= b <= nSeg
      invariant pointer == Chain(table[..], nSeg - b)
      invariant w[nSeg] == ym
      invariant forall c :: b <= c < nSeg ==> w[c] == pos[PyIndex(Chain(table[..], nSeg - c) - 1, table.Length)]
    {
      b := b - 1;
      pointer := table[PyIndex(pointer - 1, table.Length)].ptr;
      w[b] := pos[PyIndex(pointer - 1, table.Length)];
    }
  }

  // ---------------------------------------------------------------------------
  // The forward phase only stores pointers to nodes of the table

  predicate PtrsAtMost(s: seq<Entry>, top: int)
  {
    forall k :: 0 <= k < |s| ==> 0 <= s[k].ptr <= top
  }

  /** Results that all point at most to top, put one after the other, still do. */
  lemma {:induction false} CompactedPtrs(f: int -> seq<Entry>, lo: int, j: int, top: int)
    requires 0 <= j && forall p :: PtrsAtMost(f(p), top)
    ensures PtrsAtMost(Compacted(f, lo, j), top)
  {
    if j > 0 {
      CompactedPtrs(f, lo, j - 1, top);
      assert PtrsAtMost(f(lo + j - 1), top);
    }
  }

  /** The pointer a node computes names a node of window i. */
  lemma NodePtrs(g: Geo, t: seq<Entry>, gain: (int, int, int) -> real, i: int)
    requires ValidGeo(g) && 0 <= i < Segs(g) && |t| == Total(g)
    ensures forall p :: PtrsAtMost(NodeFn(g, t, gain, i)(p), Total(g))
  {
    NodeFnAt(g, t, gain, i);
    StartMono(g, i + 1, Segs(g) + 1);
    forall p
      ensures PtrsAtMost(NodeFn(g, t, gain, i)(p), Total(g))
    {
      var r := NodeResult(g, t, gain, i, p);
      if |r| == 1 {
        var b := Pick(g, t, gain, i, p, 2 * g.slack + 1).value;
        assert r[0].ptr == NodeOf(g, i, Prec(g, i, p, b));
      }
    }
  }

  /** Padding and splicing keep pointers in range. */
  lemma SplicePtrs(t: seq<Entry>, at: nat, r: seq<Entry>, w: nat, top: int)
    requires |r| <= w && at + w <= |t| && top >= 0
    requires PtrsAtMost(t, top) && PtrsAtMost(r, top)
    ensures PtrsAtMost(Splice(t, at, Pad(r, w)), top)
  {
    var b := Pad(r, w);
    assert PtrsAtMost(b, top);
    SpliceAt(t, at, b);
  }

  /** A segment of the forward phase stores only pointers to nodes of the table. */
  lemma AdvancePtrs(g: Geo, t: seq<Entry>, gain: (int, int, int) -> real, i: int)
    requires ValidGeo(g) && 0 <= i < Segs(g) && |t| == Total(g) && PtrsAtMost(t, Total(g))
    ensures PtrsAtMost(Advance(g, t, gain, i), Total(g))
  {
    var w := Width(g, i + 1);
    ResultsCompacted(g, t, gain, i, w);
    NodePtrs(g, t, gain, i);
    CompactedPtrs(NodeFn(g, t, gain, i), g.lo[i + 1], w, Total(g));
    StartMono(g, i + 1, Segs(g) + 1);
    SplicePtrs(t, Start(g, i + 1), Results(g, t, gain, i, w), w, Total(g));
  }

  /** The tables of the forward phase hold pointers into themselves only. */
  lemma {:induction false} FwdPtrs(g: Geo, gain: (int, int, int) -> real, m: int)
    requires ValidGeo(g) && 0 <= m <= Segs(g)
    ensures PtrsIn(Fwd(g, gain, m))
  {
    FwdPtrsAtMost(g, gain, m);
    StartMono(g, 0, Segs(g) + 1);
  }

  lemma {:induction false} FwdPtrsAtMost(g: Geo, gain: (int, int, int) -> real, m: int)
    requires ValidGeo(g) && 0 <= m <= Segs(g)
    ensures PtrsAtMost(Fwd(g, gain, m), Total(g))
  {
    if m > 0 {
      FwdPtrsAtMost(g, gain, m - 1);
      var t := Fwd(g, gain, m - 1);
      AdvancePtrs(g, t, gain, m - 1);
      FwdNext(g, gain, m - 1, t, Advance(g, t, gain, m - 1));
    }
  }

  // ---------------------------------------------------------------------------
  // Where the walk goes

  /** The position of 1-based node q of window i. */
  function At(g: Geo, i: int, q: int): int
    requires ValidGeo(g) && 0 <= i <= Segs(g)
  {
    g.lo[i] + (q - 1 - Start(g, i))
  }

  /** 1-based node q belongs to window i. */
  predicate InWindow(g: Geo, i: int, q: int)
    requires ValidGeo(g) && 0 <= i <= Segs(g)
  {
    Start(g, i) + 1 <= q <= Start(g, i) + Width(g, i)
  }

  /** A best arc into p comes from a considered predecessor, carries p's value, and beats every higher predecessor. */
  lemma ArcOf(g: Geo, gain: (int, int, int) -> real, i: int, p: int, e: Entry)
    requires ValidGeo(g) && 0 <= i < Segs(g) && BestArc(g, gain, i, p, e)
    ensures InWindow(g, i, e.ptr)
    ensures ArcOK(g, i, At(g, i, e.ptr), p)
    ensures Value(g, gain, i + 1, p) == AddGain(Value(g, gain, i, At(g, i, e.ptr)), gain(i, At(g, i, e.ptr), p))
    ensures forall x :: At(g, i, e.ptr) < x <= g.hi[i] && ArcOK(g, i, x, p) ==>
      Below(AddGain(Value(g, gain, i, x), gain(i, x, p)), Value(g, gain, i + 1, p))
  {
    var s :| 0 <= s < 2 * g.slack + 1 && Allowed(g, i, p, s)
      && e.ptr == NodeOf(g, i, Prec(g, i, p, s))
      && Value(g, gain, i + 1, p) == Via(g, gain, i, p, s)
      && forall k :: 0 <= k < s && Allowed(g, i, p, k) ==> Below(Via(g, gain, i, p, k), Value(g, gain, i + 1, p));
    var x := Prec(g, i, p, s);
    assert At(g, i, e.ptr) == x;
    ArcChoice(g, i, x, p);
    forall y | x < y <= g.hi[i] && ArcOK(g, i, y, p)
      ensures Below(AddGain(Value(g, gain, i, y), gain(i, y, p)), Value(g, gain, i + 1, p))
    {
      ArcChoice(g, i, y, p);
      assert Via(g, gain, i, p, Choice(g, i, y, p)) == AddGain(Value(g, gain, i, y), gain(i, y, p));
    }
  }

  /** On a table that holds first best pointers for window i + 1, node q of that window has a best arc. */
  lemma PointedAt(g: Geo, gain: (int, int, int) -> real, t: seq<Entry>, i: int, q: int)
    requires ValidGeo(g) && 0 <= i < Segs(g) && |t| == Total(g) && Pointed(g, gain, t, i)
    requires InWindow(g, i + 1, q)
    ensures 1 <= q <= |t| && BestArc(g, gain, i, At(g, i + 1, q), t[q - 1])
  {
    StartMono(g, i + 1, Segs(g) + 1);
  }

  /** One step of the walk from node q of window i + 1 leads, through its best arc, to a node of window i. */
  lemma ChainStep(g: Geo, gain: (int, int, int) -> real, t: seq<Entry>, i: int, k: nat)
    requires ValidGeo(g) && |t| == Total(g) && PtrsIn(t) && 0 <= i < Segs(g) && Pointed(g, gain, t, i)
    requires k >= 1 && InWindow(g, i + 1, Chain(t, k - 1))
    ensures 1 <= Chain(t, k - 1) <= |t| && Chain(t, k) == t[Chain(t, k - 1) - 1].ptr
    ensures BestArc(g, gain, i, At(g, i + 1, Chain(t, k - 1)), t[Chain(t, k - 1) - 1])
  {
    PointedAt(g, gain, t, i, Chain(t, k - 1));
  }

  /** On a solved table, the walk steps from the last node of window nSeg to a node of each earlier window in turn. */
  lemma {:induction false} ChainInWindow(g: Geo, gain: (int, int, int) -> real, t: seq<Entry>, k: int)
    requires ValidGeo(g) && |t| == Total(g) && PtrsIn(t) && Solved(g, gain, t, Segs(g))
    requires 0 <= k <= Segs(g)
    ensures InWindow(g, Segs(g) - k, Chain(t, k))
  {
    var n := Segs(g);
    if k == 0 {
      assert Start(g, n + 1) == Start(g, n) + Width(g, n);
    } else {
      ChainInWindow(g, gain, t, k - 1);
      var i := n - k;
      assert Pointed(g, gain, t, i);
      ChainStep(g, gain, t, i, k);
      ArcOf(g, gain, i, At(g, i + 1, Chain(t, k - 1)), t[Chain(t, k - 1) - 1]);
    }
  }

  /** The positions the backward phase reads off: boundary b at the node reached after nSeg - b steps. */
  function Walked(g: Geo, t: seq<Entry>): (w: seq<int>)
    requires ValidGeo(g) && PtrsIn(t)
    ensures |w| == Segs(g) + 1
  {
    seq(Segs(g) + 1, b requires 0 <= b <= Segs(g) => At(g, b, Chain(t, Segs(g) - b)))
  }

  /** Each arc of the walk is a best arc into its end. */
  lemma WalkArc(g: Geo, gain: (int, int, int) -> real, t: seq<Entry>, i: int)
    requires ValidGeo(g) && |t| == Total(g) && PtrsIn(t) && Solved(g, gain, t, Segs(g)) && 0 <= i < Segs(g)
    ensures var w := Walked(g, t);
      && InWindow(g, i, Chain(t, Segs(g) - i))
      && ArcOK(g, i, w[i], w[i + 1])
      && Value(g, gain, i + 1, w[i + 1]) == AddGain(Value(g, gain, i, w[i]), gain(i, w[i], w[i + 1]))
      && forall x :: w[i] < x <= g.hi[i] && ArcOK(g, i, x, w[i + 1]) ==>
           Below(AddGain(Value(g, gain, i, x), gain(i, x, w[i + 1])), Value(g, gain, i + 1, w[i + 1]))
  {
    var n := Segs(g);
    var k := n - i;
    ChainInWindow(g, gain, t, k - 1);
    assert Pointed(g, gain, t, i);
    ChainStep(g, gain, t, i, k);
    ArcOf(g, gain, i, At(g, i + 1, Chain(t, k - 1)), t[Chain(t, k - 1) - 1]);
  }

  /**
   * Along a chain of arcs that carry the values of their ends, a finite value
   * at boundary j goes back to the first node (value 0), and it is the gain
   * of the chain up to j.
   */
  lemma {:induction false} WalkGain(g: Geo, gain: (int, int, int) -> real, w: seq<int>, j: int)
    requires ValidGeo(g) && |w| == Segs(g) + 1 && 0 <= j <= Segs(g)
    requires forall i :: 0 <= i < Segs(g) ==> Value(g, gain, i + 1, w[i + 1]) == AddGain(Value(g, gain, i, w[i]), gain(i, w[i], w[i + 1]))
    requires g.lo[0] <= w[0] <= g.hi[0] && Value(g, gain, j, w[j]).Fin?
    ensures w[0] == g.lo[0] && Value(g, gain, j, w[j]) == Fin(PathGain(gain, w, j))
  {
    if j > 0 {
      assert Value(g, gain, j, w[j]) == AddGain(Value(g, gain, j - 1, w[j - 1]), gain(j - 1, w[j - 1], w[j]));
      WalkGain(g, gain, w, j - 1);
    }
  }

  /**
   * On a solved table the walk is a chain of best arcs ending at the last
   * position of window nSeg, each arc carrying the value of its end and
   * beating every arc into that end from a higher predecessor. When the last
   * position has a finite value, the walk is a warping path whose gain is that
   * value, and no warping path to it gains more.
   */
  lemma BacktrackOptimal(g: Geo, gain: (int, int, int) -> real, t: seq<Entry>)
    requires ValidGeo(g) && |t| == Total(g) && PtrsIn(t) && Solved(g, gain, t, Segs(g))
    ensures var w := Walked(g, t); var n := Segs(g);
      && w[n] == g.hi[n]
      && g.lo[0] <= w[0] <= g.hi[0]
      && (forall i :: 0 <= i < n ==> ArcOK(g, i, w[i], w[i + 1]))
      && (forall i :: 0 <= i < n ==> Value(g, gain, i + 1, w[i + 1]) == AddGain(Value(g, gain, i, w[i]), gain(i, w[i], w[i + 1])))
      && (forall i, x :: 0 <= i < n && w[i] < x <= g.hi[i] && ArcOK(g, i, x, w[i + 1]) ==>
            Below(AddGain(Value(g, gain, i, x), gain(i, x, w[i + 1])), Value(g, gain, i + 1, w[i + 1])))
      && (Value(g, gain, n, g.hi[n]).Fin? ==>
            IsPath(g, w) && Value(g, gain, n, g.hi[n]) == Fin(PathGain(gain, w, n)))
      && (forall q :: IsPath(g, q) && q[n] == g.hi[n] ==> AtMost(Fin(PathGain(gain, q, n)), Value(g, gain, n, g.hi[n])))
  {
    var n := Segs(g);
    var w := Walked(g, t);
    assert w[n] == g.hi[n] by {
      assert w[n] == At(g, n, Chain(t, 0)) && Chain(t, 0) == |t|;
      assert Start(g, n + 1) == Start(g, n) + Width(g, n);
    }
    assert g.lo[0] <= w[0] <= g.hi[0] by {
      ChainInWindow(g, gain, t, n);
      assert w[0] == At(g, 0, Chain(t, n)) && Start(g, 0) == 0;
    }
    forall i | 0 <= i < n
      ensures ArcOK(g, i, w[i], w[i + 1])
      ensures Value(g, gain, i + 1, w[i + 1]) == AddGain(Value(g, gain, i, w[i]), gain(i, w[i], w[i + 1]))
      ensures forall x :: w[i] < x <= g.hi[i] && ArcOK(g, i, x, w[i + 1]) ==>
            Below(AddGain(Value(g, gain, i, x), gain(i, x, w[i + 1])), Value(g, gain, i + 1, w[i + 1]))
    {
      WalkArc(g, gain, t, i);
    }
    if Value(g, gain, n, g.hi[n]).Fin? {
      WalkGain(g, gain, w, n);
    }
    forall q | IsPath(g, q) && q[n] == g.hi[n]
      ensures AtMost(Fin(PathGain(gain, q, n)), Value(g, gain, n, g.hi[n]))
    {
      PathBound(g, gain, q, n);
    }
  }

  /** The boundaries Backtrack writes before the last are the positions of the walk, read from the layout of positions. */
  lemma BacktrackReads(g: Geo, t: seq<Entry>, pos: seq<int>, gain: (int, int, int) -> real, b: int)
    requires ValidGeo(g) && |t| == Total(g) && PtrsIn(t) && Solved(g, gain, t, Segs(g))
    requires pos == Layout(g, Segs(g) + 1) && 0 <= b < Segs(g)
    ensures 0 <= PyIndex(Chain(t, Segs(g) - b) - 1, |t|) < |pos|
    ensures pos[PyIndex(Chain(t, Segs(g) - b) - 1, |t|)] == Walked(g, t)[b]
  {
    var n := Segs(g);
    ChainInWindow(g, gain, t, n - b);
    LayoutWindow(g, n + 1, b, pos);
  }

  // ---------------------------------------------------------------------------
  // One signal

  /** The boundaries the backward phase reads off the table the forward phase leaves. */
  function BestWalk(g: Geo, gain: (int, int, int) -> real): (w: seq<int>)
    requires ValidGeo(g)
    ensures |w| == Segs(g) + 1
  {
    FwdPtrs(g, gain, Segs(g));
    Walked(g, Fwd(g, gain, Segs(g)))
  }

  /** Set up, fill and walk the table of one signal whose last boundary is ym. */
  method WarpSignal(g: Geo, gain: (int, int, int) -> real, ym: int) returns (w: seq<int>, t: seq<Entry>)
    requires ValidGeo(g) && AllReach(g) && ym == g.hi[Segs(g)]
    ensures w == BestWalk(g, gain) && t == Fwd(g, gain, Segs(g))
  {
    var pos, table := FilledTable(g, gain);
    t := table[..];
    SignalFacts(g, gain, t);
    w := WalkTable(g, gain, pos, table, ym);
  }

  /** The table the forward phase leaves is solved, points into itself, and its walk is BestWalk. */
  lemma SignalFacts(g: Geo, gain: (int, int, int) -> real, t: seq<Entry>)
    requires ValidGeo(g) && AllReach(g) && t == Fwd(g, gain, Segs(g))
    ensures |t| == Total(g) && PtrsIn(t) && Solved(g, gain, t, Segs(g)) && BestWalk(g, gain) == Walked(g, t)
  {
    FwdPtrs(g, gain, Segs(g));
    FwdSolved(g, gain, Segs(g));
  }

  /** The backward loop on a solved table walks it. */
  method WalkTable(g: Geo, gain: (int, int, int) -> real, pos: array<int>, table: array<Entry>, ym: int) returns (w: seq<int>)
    requires ValidGeo(g) && table.Length == Total(g) && PtrsIn(table[..]) && Solved(g, gain, table[..], Segs(g))
    requires pos[..] == Layout(g, Segs(g) + 1) && ym == g.hi[Segs(g)]
    ensures w == Walked(g, table[..])
  {
    var wa := Backtrack(pos, table, Segs(g), ym);
    w := wa[..];
    WalkRead(g, gain, table[..], pos[..], w);
  }

  /** The positions and the table after the forward phase. */
  method FilledTable(g: Geo, gain: (int, int, int) -> real) returns (pos: array<int>, table: array<Entry>)
    requires ValidGeo(g)
    ensures fresh(pos) && fresh(table)
    ensures pos[..] == Layout(g, Segs(g) + 1) && table[..] == Fwd(g, gain, Segs(g))
  {
    var ti := TableIndex(g);
    pos, table := SetUpTable(g, ti);
    Forward(g, gain, ti, pos, table);
  }

  /** What Backtrack writes, on a solved table, is the walk. */
  lemma WalkRead(g: Geo, gain: (int, int, int) -> real, t: seq<Entry>, pos: seq<int>, w: seq<int>)
    requires ValidGeo(g) && |t| == Total(g) && PtrsIn(t) && Solved(g, gain, t, Segs(g))
    requires pos == Layout(g, Segs(g) + 1)
    requires |w| == Segs(g) + 1 && w[Segs(g)] == g.hi[Segs(g)]
    requires forall b :: 0 <= b < Segs(g) ==> w[b] == pos[PyIndex(Chain(t, Segs(g) - b) - 1, |t|)]
    ensures w == Walked(g, t)
  {
    var n := Segs(g);
    assert Walked(g, t)[n] == g.hi[n] by {
      assert Walked(g, t)[n] == At(g, n, Chain(t, 0)) && Chain(t, 0) == |t|;
      assert Start(g, n + 1) == Start(g, n) + Width(g, n);
    }
    forall b | 0 <= b < n
      ensures w[b] == Walked(g, t)[b]
    {
      BacktrackReads(g, t, pos, gain, b);
    }
  }

  /**
   * When every node is reachable and window 0 is the single first node, the
   * walk is a warping path to the last position of window nSeg whose gain is
   * the value the table holds at its last node, and no warping path to that
   * position gains more.
   */
  lemma WalkOptimal(g: Geo, gain: (int, int, int) -> real)
    requires ValidGeo(g) && AllReach(g) && g.lo[0] == g.hi[0]
    ensures var w := BestWalk(g, gain); var n := Segs(g);
      && IsPath(g, w) && w[n] == g.hi[n]
      && Fwd(g, gain, n)[Total(g) - 1].score == Fin(PathGain(gain, w, n))
      && forall q :: IsPath(g, q) && q[n] == g.hi[n] ==> PathGain(gain, q, n) <= PathGain(gain, w, n)
  {
    var n := Segs(g);
    var t := Fwd(g, gain, n);
    FwdSolved(g, gain, n);
    FwdPtrs(g, gain, n);
    AllFinite(g, gain, n, g.hi[n]);
    BacktrackOptimal(g, gain, t);
    assert Agrees(g, gain, t, n);
    StartMono(g, n, n + 1);
    assert Start(g, n + 1) == Start(g, n) + Width(g, n);
    assert t[Total(g) - 1].score == Value(g, gain, n, g.hi[n]);
  }
}
