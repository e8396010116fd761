/**
 * The coarse grid and the seeds of `optim_cow` (fpbiolib/twarp/optim_cow.py):
 * `np.unique`, the at most five values per axis of the optimisation space,
 * the defaulted options and the start columns of the local searches.
 */
module OptimGrid {
  import opened Reals

  /** Strictly increasing. */
  predicate Ascending(s: seq<real>)
  {
    forall i, j :: 0 <= i < j < |s| ==> s[i] < s[j]
  }

  /** x placed into the strictly increasing s, unless it is there already. */
  function AddSorted(x: real, s: seq<real>): (r: seq<real>)
    requires Ascending(s)
    ensures Ascending(r)
    ensures forall v :: v in r <==> v == x || v in s
  {
    if s == [] then [x]
    else if x == s[0] then s
    else if x < s[0] then [x] + s
    else
      var rest := AddSorted(x, s[1..]);
      assert forall i :: 0 <= i < |rest| ==> s[0] < rest[i] by {
        forall i | 0 <= i < |rest|
          ensures s[0] < rest[i]
        {
          assert rest[i] in rest;
        }
      }
      [s[0]] + rest
  }

  /** `np.unique`: the distinct values of s in increasing order. */
  function Unique(s: seq<real>): (r: seq<real>)
    ensures Ascending(r)
    ensures forall v :: v in r <==> v in s
  {
    if s == [] then []
    else
      var n := |s| - 1;
      assert s == s[..n] + [s[n]];
      AddSorted(s[n], Unique(s[..n]))
  }

  /** A value above everything in s goes to the end. */
  lemma {:induction false} AddSortedLast(x: real, s: seq<real>)
    requires Ascending(s)
    requires forall i :: 0 <= i < |s| ==> s[i] < x
    ensures AddSorted(x, s) == s + [x]
  {
    if s != [] {
      AddSortedLast(x, s[1..]);
      assert s == [s[0]] + s[1..];
    }
  }

  /** A strictly increasing sequence is its own `np.unique`. */
  lemma {:induction false} UniqueOfAscending(s: seq<real>)
    requires Ascending(s)
    ensures Unique(s) == s
  {
    if s != [] {
      var n := |s| - 1;
      UniqueOfAscending(s[..n]);
      AddSortedLast(s[n], s[..n]);
      assert s[..n] + [s[n]] == s;
    }
  }

  /** `np.arange(lo, hi + 1)` */
  function Range(lo: int, hi: int): (r: seq<int>)
    ensures |r| == if hi < lo then 0 else hi - lo + 1
    ensures forall i :: 0 <= i < |r| ==> r[i] == lo + i
  {
    seq(if hi < lo then 0 else hi - lo + 1, i => lo + i)
  }

  /**
   * `ag` (or `bg`) for the range lo..hi: the whole range when it has at most
   * five values, otherwise its ends and the three rounded quarter points.
   */
  function Axis(lo: int, hi: int): (g: seq<int>)
  {
    var r := Range(lo, hi);
    if |r| <= 5 then r
    else
      Floors(Unique(Quarters(lo, hi)))
  }

  /** The `dtype=int` cast of integral values. */
  function Floors(u: seq<real>): (g: seq<int>)
    ensures |g| == |u|
  {
    seq(|u|, i requires 0 <= i < |u| => u[i].Floor)
  }

  /** `[se_g[0], np.round(se_g[0] + t), np.round(se_g[0] + 2t), np.round(se_g[0] + 3t), se_g[-1]]` with t a quarter of the range. */
  function Quarters(lo: int, hi: int): (q: seq<real>)
    ensures |q| == 5
  {
    var t := (hi - lo) as real / 4.0;
    [lo as real, RoundHalfEven(lo as real + t * 1.0) as real, RoundHalfEven(lo as real + t * 2.0) as real,
     RoundHalfEven(lo as real + t * 3.0) as real, hi as real]
  }

  /** The five candidate values of a range of more than five integers rise strictly. */
  lemma QuartersRise(lo: int, hi: int, t: real, a: int, b: int, c: int)
    requires hi - lo >= 5 && t * 4.0 == (hi - lo) as real
    requires lo as real + t - 0.5 <= a as real <= lo as real + t + 0.5
    requires lo as real + t * 2.0 - 0.5 <= b as real <= lo as real + t * 2.0 + 0.5
    requires lo as real + t * 3.0 - 0.5 <= c as real <= lo as real + t * 3.0 + 0.5
    ensures lo < a < b < c < hi
  {
  }

  /** Beyond five values the grid is the two ends and the three rounded quarter points, rising strictly. */
  lemma AxisWide(lo: int, hi: int)
    requires hi - lo >= 5
    ensures var t := (hi - lo) as real / 4.0;
      var a, b, c := RoundHalfEven(lo as real + t * 1.0), RoundHalfEven(lo as real + t * 2.0), RoundHalfEven(lo as real + t * 3.0);
      && lo < a < b < c < hi
      && Axis(lo, hi) == [lo, a, b, c, hi]
  {
    var t := (hi - lo) as real / 4.0;
    var a, b, c := RoundHalfEven(lo as real + t * 1.0), RoundHalfEven(lo as real + t * 2.0), RoundHalfEven(lo as real + t * 3.0);
    var q := Quarters(lo, hi);
    assert q == [lo as real, a as real, b as real, c as real, hi as real];
    QuartersRise(lo, hi, t, a, b, c);
    assert Ascending(q);
    UniqueOfAscending(q);
    assert Axis(lo, hi) == Floors(q);
  }

  /**
   * The grid of an axis rises strictly, stays within lo..hi and holds both
   * ends; it is the whole range when that has at most five values, and has
   * exactly five values otherwise.
   */
  lemma AxisFacts(lo: int, hi: int)
    ensures var g := Axis(lo, hi);
      && (forall i, j :: 0 <= i < j < |g| ==> g[i] < g[j])
      && (forall i :: 0 <= i < |g| ==> lo <= g[i] <= hi)
      && (hi < lo <==> |g| == 0)
      && (lo <= hi ==> g[0] == lo && g[|g| - 1] == hi)
      && (hi - lo < 5 ==> g == Range(lo, hi))
      && (hi - lo >= 5 ==> |g| == 5)
  {
    if hi - lo >= 5 {
      AxisWide(lo, hi);
    }
  }

  /** The position of the first occurrence of v in s. */
  function FirstIndex(s: seq<real>, v: real): (k: nat)
    requires v in s
    ensures k < |s| && s[k] == v
    ensures forall j :: 0 <= j < k ==> s[j] != v
  {
    if s[0] == v then 0 else 1 + FirstIndex(s[1..], v)
  }

  /**
   * `np.unique(OS[2, :], return_index=True)[1][-3:]`: the first positions of
   * the (at most three) largest distinct values, the smallest of them first.
   */
  function Seeds(scores: seq<real>): (starts: seq<nat>)
  {
    TopFirsts(scores, Unique(scores))
  }

  /** The first positions in scores of the last (at most three) values of u. */
  function TopFirsts(scores: seq<real>, u: seq<real>): (starts: seq<nat>)
    requires forall v :: v in u ==> v in scores
    ensures |starts| == (if |u| <= 3 then |u| else 3)
    ensures forall i :: 0 <= i < |starts| ==> starts[i] == FirstIndex(scores, u[|u| - |starts| + i])
  {
    var c := seq(|u|, i requires 0 <= i < |u| => FirstIndex(scores, u[i]));
    if |c| <= 3 then c else c[|c| - 3..]
  }

  /** The values the seeds start from. */
  function SeedValues(scores: seq<real>, starts: seq<nat>): (v: seq<real>)
    requires forall i :: 0 <= i < |starts| ==> starts[i] < |scores|
    ensures |v| == |starts|
  {
    seq(|starts|, i requires 0 <= i < |starts| => scores[starts[i]])
  }

  /**
   * There are at most three seeds, each the first column with its value,
   * their values rise strictly, and every value at least that of the first
   * seed (every value at all when there are fewer than three) is the value
   * of a seed.
   */
  lemma SeedsFacts(scores: seq<real>)
    ensures var starts := Seeds(scores);
      && |starts| <= 3
      && (forall i :: 0 <= i < |starts| ==> starts[i] < |scores|)
      && (forall i, j :: 0 <= i < |starts| && 0 <= j < starts[i] ==> scores[j] != scores[starts[i]])
      && (forall i, j :: 0 <= i < j < |starts| ==> scores[starts[i]] < scores[starts[j]])
      && (forall k :: 0 <= k < |scores| && (|starts| < 3 || scores[starts[0]] <= scores[k]) ==>
            scores[k] in SeedValues(scores, starts))
  {
    TopFirstsRise(scores, Unique(scores));
    TopFirstsCover(scores, Unique(scores));
  }

  /** Over a strictly increasing u, the seeds' values rise strictly. */
  lemma TopFirstsRise(scores: seq<real>, u: seq<real>)
    requires Ascending(u) && forall v :: v in u <==> v in scores
    ensures var starts := TopFirsts(scores, u);
      forall i, j :: 0 <= i < j < |starts| ==> scores[starts[i]] < scores[starts[j]]
  {
  }

  /** Over a u holding exactly the values of scores, every value at least the first seed's is a seed's value. */
  lemma TopFirstsCover(scores: seq<real>, u: seq<real>)
    requires Ascending(u) && forall v :: v in u <==> v in scores
    ensures var starts := TopFirsts(scores, u);
      forall k :: 0 <= k < |scores| && (|starts| < 3 || scores[starts[0]] <= scores[k]) ==>
        scores[k] in SeedValues(scores, starts)
  {
    var starts := TopFirsts(scores, u);
    var d := |u| - |starts|;
    forall k | 0 <= k < |scores| && (|starts| < 3 || scores[starts[0]] <= scores[k])
      ensures scores[k] in SeedValues(scores, starts)
    {
      assert scores[k] in u;
      var j :| 0 <= j < |u| && u[j] == scores[k];
      assert |starts| == 3 ==> scores[starts[0]] == u[d];
      assert j >= d;
      var i := j - d;
      assert scores[starts[i]] == u[j];
      assert SeedValues(scores, starts)[i] == scores[starts[i]];
    }
  }

  /** `options` once defaulted: plot flag, number of starts, step cap, band fraction. */
  datatype Settings = Settings(plot: real, starts: real, maxSteps: real, fraction: real)

  /** `[0, 3, 50, 0.15]` */
  const DefaultSettings := Settings(0.0, 3.0, 50.0, 0.15)

  /** `options`, replaced by the default when absent (empty) or not of length 4. */
  function Effective(options: seq<real>): (o: Settings)
    ensures |options| != 4 ==> o == DefaultSettings
    ensures |options| == 4 ==> [o.plot, o.starts, o.maxSteps, o.fraction] == options
  {
    if |options| != 4 then DefaultSettings
    else Settings(options[0], options[1], options[2], options[3])
  }
}
