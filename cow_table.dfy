/**
 * The node table of the dynamic programme in `cow` (fpbiolib/twarp/cow.py):
 * the search window of every segment boundary, `Table_Index` (where each
 * window's nodes start), and the table as first set up: node positions,
 * score 0 at node 0 and minus infinity elsewhere, null pointers.
 */
module CowTable {

  /** A loss value: minus infinity or a real number. */
  datatype Score = NegInf | Fin(v: real)

  /** One node's loss value and its pointer (1-based node number of the predecessor, 0 for none). */
  datatype Entry = Entry(score: Score, ptr: int)

  /**
   * The geometry of the programme: the signal segment lengths (one per
   * segment), the slack, and the window [lo[i], hi[i]] of every boundary.
   */
  datatype Geo = Geo(lenP: seq<int>, slack: int, lo: seq<int>, hi: seq<int>)

  predicate ValidGeo(g: Geo)
  {
    && g.slack >= 0
    && |g.lo| == |g.lenP| + 1 && |g.hi| == |g.lenP| + 1
    && forall i :: 0 <= i < |g.lo| ==> g.lo[i] <= g.hi[i]
  }

  function Segs(g: Geo): nat
  {
    |g.lenP|
  }

  /** Number of nodes of window i. */
  function Width(g: Geo, i: int): (w: nat)
    requires ValidGeo(g) && 0 <= i <= Segs(g)
    ensures w >= 1
  {
    g.hi[i] - g.lo[i] + 1
  }

  /** `Table_Index[i]`: the number of nodes in the windows before window i. */
  function Start(g: Geo, i: int): (s: nat)
    requires ValidGeo(g) && 0 <= i <= Segs(g) + 1
    ensures s >= i
  {
    if i == 0 then 0 else Start(g, i - 1) + Width(g, i - 1)
  }

  /** The table's length: `Table_Index[nSeg + 1]`. */
  function Total(g: Geo): nat
    requires ValidGeo(g)
  {
    Start(g, Segs(g) + 1)
  }

  /** Later windows start later: window i occupies [Start(i), Start(i + 1)) and that lies below Start(j) for j > i. */
  lemma {:induction false} StartMono(g: Geo, i: int, j: int)
    requires ValidGeo(g) && 0 <= i <= j <= Segs(g) + 1
    ensures Start(g, i) <= Start(g, j)
    ensures i < j ==> Start(g, i) + Width(g, i) <= Start(g, j)
    decreases j - i
  {
    if i < j {
      StartMono(g, i, j - 1);
    }
  }

  /** The positions lo..hi of one window. */
  function Range(lo: int, hi: int): (r: seq<int>)
    requires lo <= hi + 1
    ensures |r| == hi - lo + 1
    ensures forall k :: 0 <= k < |r| ==> r[k] == lo + k
    decreases hi - lo
  {
    if lo > hi then [] else [lo] + Range(lo + 1, hi)
  }

  /** Row 0 of the table for windows 0..m - 1: their positions, window after window. */
  function Layout(g: Geo, m: int): (pos: seq<int>)
    requires ValidGeo(g) && 0 <= m <= Segs(g) + 1
    ensures |pos| == Start(g, m)
  {
    if m == 0 then [] else Layout(g, m - 1) + Range(g.lo[m - 1], g.hi[m - 1])
  }

  /** Node j of window i sits at position lo[i] + j. */
  lemma {:induction false} LayoutAt(g: Geo, m: int, i: int, j: int)
    requires ValidGeo(g) && 0 <= i < m <= Segs(g) + 1 && 0 <= j < Width(g, i)
    ensures Start(g, i) + j < Start(g, m)
    ensures Layout(g, m)[Start(g, i) + j] == g.lo[i] + j
  {
    if i < m - 1 {
      LayoutAt(g, m - 1, i, j);
      StartMono(g, i, m - 1);
    }
  }

  /** The positions of window i in row 0 of all m windows. */
  lemma LayoutWindow(g: Geo, m: int, i: int, pos: seq<int>)
    requires ValidGeo(g) && 0 <= i < m <= Segs(g) + 1 && pos == Layout(g, m)
    ensures Start(g, i) + Width(g, i) <= |pos|
    ensures forall j :: Start(g, i) <= j < Start(g, i) + Width(g, i) ==> pos[j] == g.lo[i] + (j - Start(g, i))
  {
    StartMono(g, i, m);
    forall j | Start(g, i) <= j < Start(g, i) + Width(g, i)
      ensures pos[j] == g.lo[i] + (j - Start(g, i))
    {
      LayoutAt(g, m, i, j - Start(g, i));
    }
  }

  /** Rows 1 and 2 as first set up: score 0 and no pointer at node 0, minus infinity elsewhere. */
  function InitEntries(total: nat): (t: seq<Entry>)
    ensures |t| == total
  {
    seq(total, k => if k == 0 then Entry(Fin(0.0), 0) else Entry(NegInf, 0))
  }

  /** `np.cumsum` of the window sizes: `Table_Index`. */
  method TableIndex(g: Geo) returns (ti: array<nat>)
    requires ValidGeo(g)
    ensures fresh(ti) && ti.Length == Segs(g) + 2
    ensures forall i :: 0 <= i < ti.Length ==> ti[i] == Start(g, i)
  {
    ti := new nat[Segs(g) + 2];
    ti[0] := 0;
    for i := 0 to Segs(g) + 1
      invariant forall k :: 0 <= k <= i ==> ti[k] == Start(g, k)
    {
      ti[i + 1] := ti[i] + Width(g, i);
    }
  }

  /** `Table[:, 0, at : at + hi - lo + 1] = np.arange(lo, hi + 1)`. */
  method PlaceWindow(pos: array<int>, at: nat, lo: int, hi: int)
    requires lo <= hi + 1 && at + (hi - lo + 1) <= pos.Length
    modifies pos
    ensures pos[..at + (hi - lo + 1)] == old(pos[..at]) + Range(lo, hi)
  {
    var v := Range(lo, hi);
    forall k | 0 <= k < |v| {
      pos[at + k] := v[k];
    }
    assert pos[..at + |v|] == old(pos[..at]) + v;
  }

  /** The table set up: row 0 the positions of every window, rows 1 and 2 as InitEntries. */
  method SetUpTable(g: Geo, ti: array<nat>) returns (pos: array<int>, table: array<Entry>)
    requires ValidGeo(g) && ti.Length == Segs(g) + 2
    requires forall i :: 0 <= i < ti.Length ==> ti[i] == Start(g, i)
    ensures fresh(pos) && fresh(table)
    ensures pos[..] == Layout(g, Segs(g) + 1)
    ensures table[..] == InitEntries(Total(g))
  {
    var total := ti[Segs(g) + 1];
    pos := new int[total];
    for i := 0 to Segs(g) + 1
      invariant Start(g, i) <= pos.Length
      invariant pos[..Start(g, i)] == Layout(g, i)
    {
      StartMono(g, i, Segs(g) + 1);
      PlaceWindow(pos, ti[i], g.lo[i], g.hi[i]);
    }
    assert pos[..] == pos[..Start(g, Segs(g) + 1)];
    table := new Entry[total](k => if k == 0 then Entry(Fin(0.0), 0) else Entry(NegInf, 0));
    assert table[..] == InitEntries(total);
  }
}
