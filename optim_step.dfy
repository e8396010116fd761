/**
 * One move of the local search of `optim_cow` (fpbiolib/twarp/optim_cow.py).
 * The three columns of the current simplex are ranked by their warping effect;
 * the worst one is placed among the three by four counts, `position`; and the
 * table `OS_opt1` / `OS_opt2` maps regular expressions over the printed counts
 * to the move that reflects the worst point. Every pattern found in the text
 * overwrites the candidate, so the last matching entry wins.
 */
module OptimStep {
  import opened Wrappers

  /** A (segment, slack) pair, `OS[0:2, k]`. */
  datatype Point = Point(seg: int, slack: int)

  function Shift(p: Point, d: Point): Point
  {
    Point(p.seg + d.seg, p.slack + d.slack)
  }

  /** `np.argsort` of three scores, equal scores kept in the order they come. */
  function Order3(v: seq<real>): (c: seq<nat>)
    requires |v| == 3
    ensures |c| == 3 && c[0] < 3 && c[1] < 3 && c[2] < 3
    ensures c[0] != c[1] && c[0] != c[2] && c[1] != c[2]
    ensures v[c[0]] <= v[c[1]] <= v[c[2]]
    ensures forall a, b :: 0 <= a < b < 3 && v[c[a]] == v[c[b]] ==> c[a] < c[b]
  {
    if v[0] <= v[1] then
      if v[1] <= v[2] then [0, 1, 2]
      else if v[0] <= v[2] then [0, 2, 1]
      else [2, 0, 1]
    else
      if v[0] <= v[2] then [1, 0, 2]
      else if v[1] <= v[2] then [1, 2, 0]
      else [2, 1, 0]
  }

  /** Count k of `position`: q has a smaller segment (0), a larger segment (1), a smaller slack (2) or a larger slack (3) than w. */
  predicate Beats(q: Point, w: Point, k: nat)
  {
    if k == 0 then q.seg < w.seg
    else if k == 1 then q.seg > w.seg
    else if k == 2 then q.slack < w.slack
    else q.slack > w.slack
  }

  /** The number of points of pts counted by count k of `position`. */
  function Count(pts: seq<Point>, w: Point, k: nat): (n: nat)
    ensures n <= |pts|
  {
    if pts == [] then 0 else (if Beats(pts[0], w, k) then 1 else 0) + Count(pts[1..], w, k)
  }

  /**
   * `position`: how many of the points have a smaller segment, a larger
   * segment, a smaller slack and a larger slack than w.
   */
  function Position(pts: seq<Point>, w: Point): (pos: seq<nat>)
    ensures |pos| == 4 && forall i :: 0 <= i < 4 ==> pos[i] <= |pts|
  {
    [Count(pts, w, 0), Count(pts, w, 1), Count(pts, w, 2), Count(pts, w, 3)]
  }

  /** A point that is one of pts is not counted on either side of itself. */
  lemma {:induction false} CountSides(pts: seq<Point>, w: Point)
    requires w in pts
    ensures Count(pts, w, 0) + Count(pts, w, 1) < |pts|
    ensures Count(pts, w, 2) + Count(pts, w, 3) < |pts|
  {
    if pts[0] != w {
      CountSides(pts[1..], w);
    } else {
      CountBoth(pts[1..], w);
    }
  }

  lemma {:induction false} CountBoth(pts: seq<Point>, w: Point)
    ensures Count(pts, w, 0) + Count(pts, w, 1) <= |pts|
    ensures Count(pts, w, 2) + Count(pts, w, 3) <= |pts|
  {
    if pts != [] {
      CountBoth(pts[1..], w);
    }
  }

  /** Count k over three points, one indicator per point. */
  lemma CountThree(a: Point, b: Point, c: Point, w: Point, k: nat)
    ensures Count([a, b, c], w, k) ==
      (if Beats(a, w, k) then 1 else 0) + (if Beats(b, w, k) then 1 else 0) + (if Beats(c, w, k) then 1 else 0)
  {
    assert [a, b, c][1..] == [b, c];
    assert [b, c][1..] == [c];
    assert [c][1..] == [];
    assert Count([c], w, k) == (if Beats(c, w, k) then 1 else 0) + Count([], w, k);
    assert Count([b, c], w, k) == (if Beats(b, w, k) then 1 else 0) + Count([c], w, k);
  }

  /** The four counts of w among three points. */
  lemma PositionThree(a: Point, b: Point, c: Point, w: Point)
    ensures forall k :: 0 <= k < 4 ==>
      (Position([a, b, c], w)[k] ==
       (if Beats(a, w, k) then 1 else 0) + (if Beats(b, w, k) then 1 else 0) + (if Beats(c, w, k) then 1 else 0))
  {
    CountThree(a, b, c, w, 0);
    CountThree(a, b, c, w, 1);
    CountThree(a, b, c, w, 2);
    CountThree(a, b, c, w, 3);
  }

  /** The counts of a point of a simplex of three add up to at most two per axis, so none exceeds 2. */
  lemma PositionBounds(pts: seq<Point>, w: Point)
    requires |pts| == 3 && w in pts
    ensures var pos := Position(pts, w);
      pos[0] + pos[1] <= 2 && pos[2] + pos[3] <= 2
  {
    CountSides(pts, w);
  }

  // ---- the regular expressions of the table and the text they are searched in

  /** A cell of a table entry: `\d` or one digit. */
  datatype Cell = AnyDigit | Is(d: nat)

  /** A compiled pattern character: the class `\d` or a literal. */
  datatype Token = DigitClass | Lit(c: char)

  function DigitChar(d: nat): char
    requires d < 10
  {
    (48 + d) as char
  }

  predicate IsDigit(ch: char)
  {
    '0' <= ch <= '9'
  }

  predicate CellOK(c: Cell)
  {
    c.Is? ==> c.d < 10
  }

  function TokenOf(c: Cell): Token
    requires CellOK(c)
  {
    match c
    case AnyDigit => DigitClass
    case Is(d) => Lit(DigitChar(d))
  }

  /** The pattern of a row of cells: the cells separated by ", ", as in `r"1, 0, 0, 1"` or `r"\d, \d, 2, \d"`. */
  function Compile(cells: seq<Cell>): seq<Token>
    requires forall i :: 0 <= i < |cells| ==> CellOK(cells[i])
  {
    if |cells| == 0 then []
    else if |cells| == 1 then [TokenOf(cells[0])]
    else [TokenOf(cells[0]), Lit(','), Lit(' ')] + Compile(cells[1..])
  }

  /** The decimal digits of n. */
  function Decimal(n: nat): string
  {
    if n < 10 then [DigitChar(n)] else Decimal(n / 10) + [DigitChar(n % 10)]
  }

  function Join(xs: seq<nat>): string
  {
    if |xs| == 0 then ""
    else if |xs| == 1 then Decimal(xs[0])
    else Decimal(xs[0]) + ", " + Join(xs[1..])
  }

  /** `f"{position}"` for a list of counts: `"[a, b, c, d]"`. */
  function Render(xs: seq<nat>): string
  {
    "[" + Join(xs) + "]"
  }

  predicate TokenMatches(t: Token, ch: char)
  {
    match t
    case DigitClass => IsDigit(ch)
    case Lit(c) => ch == c
  }

  predicate MatchAt(pat: seq<Token>, s: string, i: int)
    requires 0 <= i && i + |pat| <= |s|
  {
    forall j :: 0 <= j < |pat| ==> TokenMatches(pat[j], s[i + j])
  }

  /** `pattern.findall(s)` is not empty: the pattern occurs somewhere in s. */
  predicate Found(pat: seq<Token>, s: string)
  {
    exists i :: 0 <= i && i + |pat| <= |s| && MatchAt(pat, s, i)
  }

  /** Cell for cell, the row of cells accepts the counts. */
  predicate CellsFit(cells: seq<Cell>, pos: seq<nat>)
  {
    && |cells| == |pos|
    && forall i :: 0 <= i < |cells| ==> (if cells[i].AnyDigit? then pos[i] < 10 else pos[i] == cells[i].d)
  }

  lemma RenderFour(pos: seq<nat>)
    requires |pos| == 4 && forall i :: 0 <= i < 4 ==> pos[i] < 10
    ensures Render(pos) == ['[', DigitChar(pos[0]), ',', ' ', DigitChar(pos[1]), ',', ' ',
                            DigitChar(pos[2]), ',', ' ', DigitChar(pos[3]), ']']
  {
    assert Join(pos[3..]) == [DigitChar(pos[3])];
    assert Join(pos[2..]) == [DigitChar(pos[2])] + ", " + Join(pos[3..]);
    assert Join(pos[1..]) == [DigitChar(pos[1])] + ", " + Join(pos[2..]);
    assert Join(pos) == [DigitChar(pos[0])] + ", " + Join(pos[1..]);
  }

  lemma CompileFour(cells: seq<Cell>)
    requires |cells| == 4 && forall i :: 0 <= i < 4 ==> CellOK(cells[i])
    ensures Compile(cells) == [TokenOf(cells[0]), Lit(','), Lit(' '), TokenOf(cells[1]), Lit(','), Lit(' '),
                               TokenOf(cells[2]), Lit(','), Lit(' '), TokenOf(cells[3])]
  {
    assert Compile(cells[3..]) == [TokenOf(cells[3])];
    assert Compile(cells[2..]) == [TokenOf(cells[2]), Lit(','), Lit(' ')] + Compile(cells[3..]);
    assert Compile(cells[1..]) == [TokenOf(cells[1]), Lit(','), Lit(' ')] + Compile(cells[2..]);
  }

  /** The token of a cell accepts the digit of d exactly when the cell does; it accepts no bracket or comma. */
  lemma CellAccepts(c: Cell, d: nat)
    requires CellOK(c) && d < 10
    ensures TokenMatches(TokenOf(c), DigitChar(d)) <==> (c.AnyDigit? || d == c.d)
    ensures !TokenMatches(TokenOf(c), '[') && !TokenMatches(TokenOf(c), ',')
  {
    if c.Is? {
      assert DigitChar(d) == DigitChar(c.d) ==> (48 + d) == (48 + c.d);
    }
  }

  /** A match of the pattern of four cells in the text of four counts can only start at position 1. */
  lemma OnlyAfterBracket(cells: seq<Cell>, pos: seq<nat>, i: int)
    requires |cells| == 4 && forall k :: 0 <= k < 4 ==> CellOK(cells[k])
    requires |pos| == 4 && forall k :: 0 <= k < 4 ==> pos[k] < 10
    requires 0 <= i && i + |Compile(cells)| <= |Render(pos)| && MatchAt(Compile(cells), Render(pos), i)
    ensures i == 1
  {
    RenderFour(pos);
    CompileFour(cells);
    CellAccepts(cells[0], 0);
    assert TokenMatches(Compile(cells)[0], Render(pos)[i]);
  }

  /** At position 1 the pattern matches exactly when each cell accepts its count. */
  lemma AtOne(cells: seq<Cell>, pos: seq<nat>)
    requires |cells| == 4 && forall k :: 0 <= k < 4 ==> CellOK(cells[k])
    requires |pos| == 4 && forall k :: 0 <= k < 4 ==> pos[k] < 10
    ensures 1 + |Compile(cells)| <= |Render(pos)|
    ensures MatchAt(Compile(cells), Render(pos), 1) <==> CellsFit(cells, pos)
  {
    RenderFour(pos);
    CompileFour(cells);
    var pat, s := Compile(cells), Render(pos);
    CellAccepts(cells[0], pos[0]);
    CellAccepts(cells[1], pos[1]);
    CellAccepts(cells[2], pos[2]);
    CellAccepts(cells[3], pos[3]);
    if CellsFit(cells, pos) {
      assert cells[0].AnyDigit? || pos[0] == cells[0].d;
      assert cells[1].AnyDigit? || pos[1] == cells[1].d;
      assert cells[2].AnyDigit? || pos[2] == cells[2].d;
      assert cells[3].AnyDigit? || pos[3] == cells[3].d;
      forall j | 0 <= j < 10
        ensures TokenMatches(pat[j], s[1 + j])
      {
        assert j == 0 || j == 1 || j == 2 || j == 3 || j == 4 || j == 5 || j == 6 || j == 7 || j == 8 || j == 9;
      }
    }
    if MatchAt(pat, s, 1) {
      assert TokenMatches(pat[0], s[1]) && TokenMatches(pat[3], s[4]);
      assert TokenMatches(pat[6], s[7]) && TokenMatches(pat[9], s[10]);
      forall k | 0 <= k < 4
        ensures if cells[k].AnyDigit? then pos[k] < 10 else pos[k] == cells[k].d
      {
        assert k == 0 || k == 1 || k == 2 || k == 3;
      }
    }
  }

  /**
   * For four counts below ten, the pattern of four cells is found in the
   * printed counts exactly when the cells accept the counts: the only place
   * it can start is just after the opening bracket.
   */
  lemma FoundIffFit(cells: seq<Cell>, pos: seq<nat>)
    requires |cells| == 4 && forall i :: 0 <= i < 4 ==> CellOK(cells[i])
    requires |pos| == 4 && forall i :: 0 <= i < 4 ==> pos[i] < 10
    ensures Found(Compile(cells), Render(pos)) <==> CellsFit(cells, pos)
  {
    AtOne(cells, pos);
    if Found(Compile(cells), Render(pos)) {
      var i :| 0 <= i && i + |Compile(cells)| <= |Render(pos)| && MatchAt(Compile(cells), Render(pos), i);
      OnlyAfterBracket(cells, pos, i);
    }
  }

  // ---- the decision table

  /** An entry of `OS_opt1` / `OS_opt2`: its pattern and the move it gives the worst point. */
  datatype Rule = Rule(cells: seq<Cell>, move: Point)

  predicate RuleOK(r: Rule)
  {
    |r.cells| == 4 && forall i :: 0 <= i < 4 ==> CellOK(r.cells[i])
  }

  /** The eight entries in the order the dictionary lists them. */
  const Rules: seq<Rule> := [
    Rule([Is(1), Is(0), Is(0), Is(1)], Point(-1, 1)),
    Rule([Is(0), Is(1), Is(0), Is(1)], Point(1, 1)),
    Rule([Is(0), Is(1), Is(1), Is(0)], Point(1, -1)),
    Rule([Is(1), Is(0), Is(1), Is(0)], Point(-1, -1)),
    Rule([AnyDigit, AnyDigit, Is(2), AnyDigit], Point(0, -2)),
    Rule([Is(2), AnyDigit, AnyDigit, AnyDigit], Point(-2, 0)),
    Rule([AnyDigit, AnyDigit, AnyDigit, Is(2)], Point(0, 2)),
    Rule([AnyDigit, Is(2), AnyDigit, AnyDigit], Point(2, 0))
  ]

  predicate RulesOK(rules: seq<Rule>)
  {
    forall k :: 0 <= k < |rules| ==> RuleOK(rules[k])
  }

  lemma TableOK()
    ensures RulesOK(Rules)
  {
  }

  /** The pattern of r is found in the printed counts. */
  predicate Hits(r: Rule, pos: seq<nat>)
    requires RuleOK(r)
  {
    Found(Compile(r.cells), Render(pos))
  }

  /** The last entry whose pattern is found in the printed counts, if any. */
  function LastHit(rules: seq<Rule>, pos: seq<nat>): (k: Option<nat>)
    requires RulesOK(rules)
    ensures k.Some? ==> k.value < |rules| && Hits(rules[k.value], pos)
    ensures k.Some? ==> forall j :: k.value < j < |rules| ==> !Hits(rules[j], pos)
    ensures k.None? ==> forall j :: 0 <= j < |rules| ==> !Hits(rules[j], pos)
  {
    if rules == [] then None
    else
      var n := |rules| - 1;
      if Hits(rules[n], pos) then Some(n) else LastHit(rules[..n], pos)
  }

  /** The candidate a table gives for the counts pos of the worst point w: the move of its last applying entry from w, or (0, 0) when none applies. */
  function CandidateIn(rules: seq<Rule>, pos: seq<nat>, w: Point): Point
    requires RulesOK(rules)
  {
    match LastHit(rules, pos)
    case None => Point(0, 0)
    case Some(k) => Shift(w, rules[k].move)
  }

  /** The candidate of the table of `optim_cow`. */
  function Candidate(pos: seq<nat>, w: Point): Point
  {
    TableOK();
    CandidateIn(Rules, pos, w)
  }

  /**
   * `for key, val in OS_opt.items(): if key.findall(f"{position}"): OS[0:2, N] = val`
   * on a column that starts at zero.
   */
  method Dispatch(rules: seq<Rule>, pos: seq<nat>, w: Point) returns (cand: Point)
    requires RulesOK(rules)
    ensures cand == CandidateIn(rules, pos, w)
  {
    cand := Point(0, 0);
    ghost var hit: Option<nat> := None;
    for k := 0 to |rules|
      invariant hit.Some? ==> hit.value < k && Hits(rules[hit.value], pos)
      invariant hit.Some? ==> forall j :: hit.value < j < k ==> !Hits(rules[j], pos)
      invariant hit.None? ==> forall j :: 0 <= j < k ==> !Hits(rules[j], pos)
      invariant cand == (match hit case None => Point(0, 0) case Some(j) => Shift(w, rules[j].move))
    {
      if Found(Compile(rules[k].cells), Render(pos)) {
        cand := Shift(w, rules[k].move);
        hit := Some(k);
      }
    }
    LastHitUnique(rules, pos, hit);
  }

  /** The last hit is the only index with the properties LastHit ensures. */
  lemma LastHitUnique(rules: seq<Rule>, pos: seq<nat>, h: Option<nat>)
    requires RulesOK(rules)
    requires h.Some? ==> h.value < |rules| && Hits(rules[h.value], pos)
    requires h.Some? ==> forall j :: h.value < j < |rules| ==> !Hits(rules[j], pos)
    requires h.None? ==> forall j :: 0 <= j < |rules| ==> !Hits(rules[j], pos)
    ensures h == LastHit(rules, pos)
  {
  }

  /** The counts a point of a three-point simplex can have all print as single digits. */
  lemma SmallCounts(pts: seq<Point>, w: Point)
    requires |pts| == 3 && w in pts
    ensures forall i :: 0 <= i < 4 ==> Position(pts, w)[i] < 10
  {
    PositionBounds(pts, w);
  }

  /**
   * On the counts of a point of the simplex the table reads cell by cell:
   * entry k applies exactly when its cells accept the counts.
   */
  lemma HitsByCells(pts: seq<Point>, w: Point, k: nat)
    requires |pts| == 3 && w in pts && k < |Rules|
    ensures RuleOK(Rules[k])
    ensures Hits(Rules[k], Position(pts, w)) <==> CellsFit(Rules[k].cells, Position(pts, w))
  {
    TableOK();
    SmallCounts(pts, w);
    FoundIffFit(Rules[k].cells, Position(pts, w));
  }

  /** When the three points coincide no entry applies and the candidate is (0, 0). */
  lemma SameThree(p: Point)
    ensures Candidate(Position([p, p, p], p), p) == Point(0, 0)
  {
    var pos := Position([p, p, p], p);
    PositionThree(p, p, p, p);
    assert pos == [0, 0, 0, 0];
    forall k | 0 <= k < |Rules|
      ensures !Hits(Rules[k], pos)
    {
      HitsByCells([p, p, p], p, k);
    }
    TableOK();
    assert LastHit(Rules, pos).None?;
  }

  /**
   * The point with the largest slack of an L-shaped simplex has counts
   * [0, 1, 2, 0]: entry 4 applies and it moves two steps down in slack.
   */
  lemma CornerMove(p: Point)
    ensures var pts := [p, Shift(p, Point(1, 0)), Shift(p, Point(0, 1))];
      var w := pts[2];
      Position(pts, w) == [0, 1, 2, 0] &&
      Candidate(Position(pts, w), w) == Shift(w, Point(0, -2))
  {
    var pts := [p, Shift(p, Point(1, 0)), Shift(p, Point(0, 1))];
    var w := pts[2];
    var pos := Position(pts, w);
    PositionThree(pts[0], pts[1], pts[2], w);
    assert pos == [0, 1, 2, 0];
    TableOK();
    forall k | 4 < k < |Rules|
      ensures !Hits(Rules[k], pos)
    {
      HitsByCells(pts, w, k);
    }
    HitsByCells(pts, w, 4);
    assert LastHit(Rules, pos) == Some(4);
  }

  /** Later entries override earlier ones: counts [2, 0, 2, 0] fit entries 4 and 5, and entry 5 decides. */
  lemma LaterEntryWins(p: Point)
    ensures var pts := [p, Shift(p, Point(-1, -1)), Shift(p, Point(-2, -2))];
      Position(pts, p) == [2, 0, 2, 0] &&
      CellsFit(Rules[4].cells, [2, 0, 2, 0]) && CellsFit(Rules[5].cells, [2, 0, 2, 0]) &&
      Candidate(Position(pts, p), p) == Shift(p, Point(-2, 0))
  {
    var pts := [p, Shift(p, Point(-1, -1)), Shift(p, Point(-2, -2))];
    var pos := Position(pts, p);
    PositionThree(pts[0], pts[1], pts[2], p);
    assert pos == [2, 0, 2, 0];
    TableOK();
    forall k | 5 < k < |Rules|
      ensures !Hits(Rules[k], pos)
    {
      HitsByCells(pts, p, k);
    }
    HitsByCells(pts, p, 5);
    assert LastHit(Rules, pos) == Some(5);
  }
}
