/**
 * The forward phase of `cow` (fpbiolib/twarp/cow.py) for one signal: window
 * after window, every node of the next window takes the best of its allowed
 * predecessors. The result of a node that has one is written to the next free
 * slot of `Bound_k_Table` (the counter `Count`), so a node without any allowed
 * predecessor shifts the results of the nodes after it one slot down, and the
 * slots left over keep score 0 and pointer 0.
 */
module CowForward {
  import opened Wrappers
  import opened CowTable

  /** `score + gain`, with minus infinity absorbing. */
  function AddGain(a: Score, x: real): (r: Score)
    ensures r.NegInf? <==> a.NegInf?
  {
    if a.NegInf? then NegInf else Fin(a.v + x)
  }

  /** a < b */
  predicate Below(a: Score, b: Score)
  {
    (a.NegInf? && b.Fin?) || (a.Fin? && b.Fin? && a.v < b.v)
  }

  /** a <= b */
  predicate AtMost(a: Score, b: Score)
  {
    !Below(b, a)
  }

  /** The predecessor position for slack choice s (0..2 Slack): `Table[0, 0, i_node - 1] - a[s]`. */
  function Prec(g: Geo, i: int, p: int, s: int): int
    requires ValidGeo(g) && 0 <= i < Segs(g)
  {
    p - (s - g.slack + g.lenP[i])
  }

  /** `Allowed_Arcs[s]`: slack choice s leads back into window i. */
  predicate Allowed(g: Geo, i: int, p: int, s: int)
    requires ValidGeo(g) && 0 <= i < Segs(g)
  {
    g.lo[i] <= Prec(g, i, p, s) <= g.hi[i]
  }

  /** `b + Prec`: the 1-based table node of position x in window i. */
  function NodeOf(g: Geo, i: int, x: int): int
    requires ValidGeo(g) && 0 <= i <= Segs(g)
  {
    Start(g, i) + 1 + x - g.lo[i]
  }

  /**
   * `Cost_Fun` for slack choice s: the loss value of the predecessor node
   * plus the gain of the arc from it to position p of window i + 1.
   */
  function Cost(g: Geo, t: seq<Entry>, gain: (int, int, int) -> real, i: int, p: int, s: int): Score
    requires ValidGeo(g) && 0 <= i < Segs(g) && |t| == Total(g) && Allowed(g, i, p, s)
  {
    StartMono(g, i, Segs(g) + 1);
    var x := Prec(g, i, p, s);
    AddGain(t[NodeOf(g, i, x) - 1].score, gain(i, x, p))
  }

  /**
   * `Cost_Fun.argmax()` over the allowed choices among the first s: a later
   * choice replaces the best so far only when strictly better; None when no
   * choice is allowed.
   */
  function Pick(g: Geo, t: seq<Entry>, gain: (int, int, int) -> real, i: int, p: int, s: int): (k: Option<nat>)
    requires ValidGeo(g) && 0 <= i < Segs(g) && |t| == Total(g) && 0 <= s
    ensures k.Some? ==> k.value < s && Allowed(g, i, p, k.value)
  {
    if s == 0 then None
    else
      var best := Pick(g, t, gain, i, p, s - 1);
      if !Allowed(g, i, p, s - 1) then best
      else if best.None? || Below(Cost(g, t, gain, i, p, best.value), Cost(g, t, gain, i, p, s - 1)) then Some(s - 1)
      else best
  }

  /**
   * Pick is the first position of the largest cost among the allowed choices,
   * and finds nothing exactly when no choice is allowed.
   */
  lemma {:induction false} PickIsFirstMax(g: Geo, t: seq<Entry>, gain: (int, int, int) -> real, i: int, p: int, s: int)
    requires ValidGeo(g) && 0 <= i < Segs(g) && |t| == Total(g) && 0 <= s
    ensures Pick(g, t, gain, i, p, s).None? <==> forall k :: 0 <= k < s ==> !Allowed(g, i, p, k)
    ensures Pick(g, t, gain, i, p, s).Some? ==>
      var b := Pick(g, t, gain, i, p, s).value;
      && (forall k :: 0 <= k < s && Allowed(g, i, p, k) ==> AtMost(Cost(g, t, gain, i, p, k), Cost(g, t, gain, i, p, b)))
      && (forall k :: 0 <= k < b && Allowed(g, i, p, k) ==> Below(Cost(g, t, gain, i, p, k), Cost(g, t, gain, i, p, b)))
  {
    if s > 0 {
      PickIsFirstMax(g, t, gain, i, p, s - 1);
    }
  }

  /**
   * The entry of the node at position p of window i + 1: none without an
   * allowed predecessor, else the best cost and the pointer to that predecessor.
   */
  function NodeResult(g: Geo, t: seq<Entry>, gain: (int, int, int) -> real, i: int, p: int): (r: seq<Entry>)
    requires ValidGeo(g) && 0 <= i < Segs(g) && |t| == Total(g)
    ensures |r| <= 1
  {
    match Pick(g, t, gain, i, p, 2 * g.slack + 1)
    case None => []
    case Some(b) => [Entry(Cost(g, t, gain, i, p, b), NodeOf(g, i, Prec(g, i, p, b)))]
  }

  /** NodeResult for every position of window i + 1. */
  function NodeFn(g: Geo, t: seq<Entry>, gain: (int, int, int) -> real, i: int): (f: int -> seq<Entry>)
    requires ValidGeo(g) && 0 <= i < Segs(g) && |t| == Total(g)
    ensures forall p :: |f(p)| <= 1
  {
    p => NodeResult(g, t, gain, i, p)
  }

  lemma NodeFnAt(g: Geo, t: seq<Entry>, gain: (int, int, int) -> real, i: int)
    requires ValidGeo(g) && 0 <= i < Segs(g) && |t| == Total(g)
    ensures forall p {:trigger NodeFn(g, t, gain, i)(p)} :: NodeFn(g, t, gain, i)(p) == NodeResult(g, t, gain, i, p)
  {
  }

  /** The results f(lo), ..., f(lo + j - 1) one after the other: the entries of the nodes that have one, in order. */
  function Compacted(f: int -> seq<Entry>, lo: int, j: int): (r: seq<Entry>)
    requires 0 <= j
  {
    if j == 0 then [] else Compacted(f, lo, j - 1) + f(lo + j - 1)
  }

  /** r followed by slots with score 0 and pointer 0 up to length w. */
  function Pad(r: seq<Entry>, w: nat): (b: seq<Entry>)
    requires |r| <= w
    ensures |b| == w
  {
    r + seq(w - |r|, k => Entry(Fin(0.0), 0))
  }

  /** The entries of the first j nodes of window i + 1 that have one, in order. */
  function Results(g: Geo, t: seq<Entry>, gain: (int, int, int) -> real, i: int, j: int): (r: seq<Entry>)
    requires ValidGeo(g) && 0 <= i < Segs(g) && |t| == Total(g) && 0 <= j
    ensures |r| <= j
  {
    if j == 0 then [] else Results(g, t, gain, i, j - 1) + NodeFn(g, t, gain, i)(g.lo[i + 1] + j - 1)
  }

  lemma {:induction false} ResultsCompacted(g: Geo, t: seq<Entry>, gain: (int, int, int) -> real, i: int, j: int)
    requires ValidGeo(g) && 0 <= i < Segs(g) && |t| == Total(g) && 0 <= j
    ensures Results(g, t, gain, i, j) == Compacted(NodeFn(g, t, gain, i), g.lo[i + 1], j)
  {
    if j > 0 {
      ResultsCompacted(g, t, gain, i, j - 1);
    }
  }

  /** `Bound_k_Table` after the loop over the nodes of window i + 1. */
  function Block(g: Geo, t: seq<Entry>, gain: (int, int, int) -> real, i: int): (b: seq<Entry>)
    requires ValidGeo(g) && 0 <= i < Segs(g) && |t| == Total(g)
    ensures |b| == Width(g, i + 1)
  {
    Pad(Results(g, t, gain, i, Width(g, i + 1)), Width(g, i + 1))
  }

  /** t with the entries from `at` on replaced by b. */
  function Splice(t: seq<Entry>, at: nat, b: seq<Entry>): (r: seq<Entry>)
    requires at + |b| <= |t|
    ensures |r| == |t|
  {
    t[..at] + b + t[at + |b|..]
  }

  /** Rows 1 and 2 after segment i: window i + 1's entries replaced by the local table. */
  function Advance(g: Geo, t: seq<Entry>, gain: (int, int, int) -> real, i: int): (r: seq<Entry>)
    requires ValidGeo(g) && 0 <= i < Segs(g) && |t| == Total(g)
    ensures |r| == Total(g)
  {
    StartMono(g, i + 1, Segs(g) + 1);
    Splice(t, Start(g, i + 1), Block(g, t, gain, i))
  }

  /** Rows 1 and 2 of the table after the first m segments. */
  function Fwd(g: Geo, gain: (int, int, int) -> real, m: int): (t: seq<Entry>)
    requires ValidGeo(g) && 0 <= m <= Segs(g)
    ensures |t| == Total(g)
  {
    if m == 0 then InitEntries(Total(g)) else Advance(g, Fwd(g, gain, m - 1), gain, m - 1)
  }

  /**
   * The loop over the nodes of window i + 1 at positions lo.., given the
   * result of each node (none, or its best entry): each node with a result
   * fills the next slot of the local table.
   */
  method FillBlock(f: int -> seq<Entry>, lo: int, nodeA: int, nodeZ: int, pos: array<int>) returns (kTable: array<Entry>)
    requires nodeA <= nodeZ + 1 && 1 <= nodeA && nodeZ <= pos.Length
    requires forall p :: |f(p)| <= 1
    requires forall j :: nodeA - 1 <= j < nodeZ ==> pos[j] == lo + (j - (nodeA - 1))
    ensures fresh(kTable)
    ensures |Compacted(f, lo, nodeZ - nodeA + 1)| <= nodeZ - nodeA + 1
    ensures kTable[..] == Pad(Compacted(f, lo, nodeZ - nodeA + 1), nodeZ - nodeA + 1)
  {
    var w := nodeZ - nodeA + 1;
    kTable := new Entry[w](k => Entry(Fin(0.0), 0));
    var count := 0;
    for node := nodeA to nodeZ + 1
      invariant count <= node - nodeA
      invariant kTable[..count] == Compacted(f, lo, node - nodeA)
      invariant forall k :: count <= k < w ==> kTable[k] == Entry(Fin(0.0), 0)
    {
      var r := f(pos[node - 1]);
      if r != [] {
        kTable[count] := r[0];
        count := count + 1;
      }
    }
    assert kTable[..] == kTable[..count] + kTable[count..];
  }

  /** `Table[:, 1:, Node_A - 1 : Node_Z] = Bound_k_Table`. */
  method CopyBlock(table: array<Entry>, at: nat, block: array<Entry>)
    requires at + block.Length <= table.Length
    modifies table
    ensures table[..] == Splice(old(table[..]), at, block[..])
  {
    forall k | 0 <= k < block.Length {
      table[at + k] := block[k];
    }
    assert table[..] == old(table[..])[..at] + block[..] + old(table[..])[at + block.Length..];
  }

  /**
   * The body of the loop over segments for segment i, given the result f(p)
   * of each node of window i + 1: the node loop, then the copy of the local
   * table into the window.
   */
  method FillWindow(g: Geo, f: int -> seq<Entry>, ti: array<nat>, pos: array<int>, table: array<Entry>, i: int)
    requires ValidGeo(g) && 0 <= i < Segs(g) && forall p :: |f(p)| <= 1
    requires ti.Length == Segs(g) + 2 && forall k :: 0 <= k < ti.Length ==> ti[k] == Start(g, k)
    requires pos[..] == Layout(g, Segs(g) + 1) && table.Length == Total(g)
    modifies table
    ensures |Compacted(f, g.lo[i + 1], Width(g, i + 1))| <= Width(g, i + 1)
    ensures Start(g, i + 1) + Width(g, i + 1) <= Total(g)
    ensures table[..] == Splice(old(table[..]), Start(g, i + 1), Pad(Compacted(f, g.lo[i + 1], Width(g, i + 1)), Width(g, i + 1)))
  {
    LayoutWindow(g, Segs(g) + 1, i + 1, pos[..]);
    var w := Width(g, i + 1);
    var nodeA, nodeZ := ti[i + 1] + 1, ti[i + 2];
    assert nodeA == Start(g, i + 1) + 1 && nodeZ - nodeA + 1 == w;
    var kTable := FillBlock(f, g.lo[i + 1], nodeA, nodeZ, pos);
    CopyBlock(table, ti[i + 1], kTable);
  }

  /** One segment of the forward phase. */
  method Step(g: Geo, gain: (int, int, int) -> real, ti: array<nat>, pos: array<int>, table: array<Entry>, i: int)
    requires ValidGeo(g) && 0 <= i < Segs(g)
    requires ti.Length == Segs(g) + 2 && forall k :: 0 <= k < ti.Length ==> ti[k] == Start(g, k)
    requires pos[..] == Layout(g, Segs(g) + 1) && table.Length == Total(g)
    modifies table
    ensures table[..] == Advance(g, old(table[..]), gain, i)
  {
    var t := table[..];
    var f := NodeFn(g, t, gain, i);
    FillWindow(g, f, ti, pos, table, i);
    AdvanceBy(g, t, gain, i, f, Width(g, i + 1), Pad(Compacted(f, g.lo[i + 1], Width(g, i + 1)), Width(g, i + 1)));
  }

  /** The local table the node loop fills makes the step Advance. */
  lemma AdvanceBy(g: Geo, t: seq<Entry>, gain: (int, int, int) -> real, i: int, f: int -> seq<Entry>, w: nat, kt: seq<Entry>)
    requires ValidGeo(g) && 0 <= i < Segs(g) && |t| == Total(g)
    requires f == NodeFn(g, t, gain, i) && w == Width(g, i + 1)
    requires |Compacted(f, g.lo[i + 1], w)| <= w && kt == Pad(Compacted(f, g.lo[i + 1], w), w)
    ensures Start(g, i + 1) + |kt| <= |t|
    ensures Splice(t, Start(g, i + 1), kt) == Advance(g, t, gain, i)
  {
    StartMono(g, i + 1, Segs(g) + 1);
    ResultsCompacted(g, t, gain, i, Width(g, i + 1));
  }

  lemma FwdNext(g: Geo, gain: (int, int, int) -> real, i: int, before: seq<Entry>, after: seq<Entry>)
    requires ValidGeo(g) && 0 <= i < Segs(g)
    requires before == Fwd(g, gain, i) && after == Advance(g, before, gain, i)
    ensures after == Fwd(g, gain, i + 1)
  {
  }

  /** Segment i of the forward phase takes the table from Fwd(i) to Fwd(i + 1). */
  method FwdStep(g: Geo, gain: (int, int, int) -> real, ti: array<nat>, pos: array<int>, table: array<Entry>, i: int)
    requires ValidGeo(g) && 0 <= i < Segs(g)
    requires ti.Length == Segs(g) + 2 && forall k :: 0 <= k < ti.Length ==> ti[k] == Start(g, k)
    requires pos[..] == Layout(g, Segs(g) + 1)
    requires table[..] == Fwd(g, gain, i)
    modifies table
    ensures table[..] == Fwd(g, gain, i + 1)
  {
    ghost var before := table[..];
    Step(g, gain, ti, pos, table, i);
    FwdNext(g, gain, i, before, table[..]);
  }

  /** The forward phase for one signal, from the table as set up. */
  method Forward(g: Geo, gain: (int, int, int) -> real, ti: array<nat>, pos: array<int>, table: array<Entry>)
    requires ValidGeo(g)
    requires ti.Length == Segs(g) + 2 && forall k :: 0 <= k < ti.Length ==> ti[k] == Start(g, k)
    requires pos[..] == Layout(g, Segs(g) + 1)
    requires table[..] == InitEntries(Total(g))
    modifies table
    ensures table[..] == Fwd(g, gain, Segs(g))
  {
    for i := 0 to Segs(g)
      invariant table[..] == Fwd(g, gain, i)
    {
      FwdStep(g, gain, ti, pos, table, i);
    }
  }
}
