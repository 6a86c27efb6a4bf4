/** Low points of a heightmap (the scan shared by the heightmap and basin
    scripts) and the heightmap script's risk-level sum. */
module LowPoints {
  import opened Util
  import opened Grid

  /** A cell is low when it is strictly below every neighbour; with no
      neighbours this holds vacuously, as Python's `all([])` does. */
  predicate IsLow(g: Heights, p: Point)
    requires IsGrid(g) && InBounds(p, ShapeOf(g))
  {
    forall q :: q in Neighbors(p, ShapeOf(g)) ==> Value(g, p) < Value(g, q)
  }

  /** The low points of row `r` from column `c` on, left to right. */
  function LowsInRow(g: Heights, r: int, c: int): (lows: seq<Point>)
    requires IsGrid(g) && 0 <= r < |g| && 0 <= c <= |g[0]|
    ensures forall p :: p in lows <==>
      InBounds(p, ShapeOf(g)) && p.row == r && p.col >= c && IsLow(g, p)
    ensures forall i, j :: 0 <= i < j < |lows| ==> LexLess(lows[i], lows[j])
    decreases |g[0]| - c
  {
    if c == |g[0]| then []
    else
      var rest := LowsInRow(g, r, c + 1);
      if IsLow(g, Point(r, c)) then [Point(r, c)] + rest else rest
  }

  /** The low points of rows `r` onward, in row-major order. */
  function LowsFrom(g: Heights, r: int): (lows: seq<Point>)
    requires IsGrid(g) && 0 <= r <= |g|
    ensures forall p :: p in lows <==> InBounds(p, ShapeOf(g)) && p.row >= r && IsLow(g, p)
    ensures forall i, j :: 0 <= i < j < |lows| ==> LexLess(lows[i], lows[j])
    decreases |g| - r
  {
    if r == |g| then []
    else LowsInRow(g, r, 0) + LowsFrom(g, r + 1)
  }

  /** The `np.ndenumerate` scan: every low point, each once, in row-major order. */
  function LowList(g: Heights): (lows: seq<Point>)
    requires IsGrid(g)
    ensures forall p :: p in lows <==> InBounds(p, ShapeOf(g)) && IsLow(g, p)
    ensures forall i, j :: 0 <= i < j < |lows| ==> LexLess(lows[i], lows[j])
  {
    LowsFrom(g, 0)
  }

  /** Row-major increasing lists hold no point twice. */
  lemma LexIncreasingDistinct(s: seq<Point>)
    requires forall i, j :: 0 <= i < j < |s| ==> LexLess(s[i], s[j])
    ensures Distinct(s)
  {
  }

  /** Two orthogonally adjacent cells are never both low. */
  lemma NoAdjacentLows(g: Heights, p: Point, q: Point)
    requires IsGrid(g) && InBounds(p, ShapeOf(g)) && q in Neighbors(p, ShapeOf(g))
    ensures InBounds(q, ShapeOf(g))
    ensures !(IsLow(g, p) && IsLow(g, q))
  {
    NeighborsSymmetric(p, q, ShapeOf(g));
  }

  /** A cell equal to one of its neighbours is not low. */
  lemma EqualNeighborNotLow(g: Heights, p: Point, q: Point)
    requires IsGrid(g) && InBounds(p, ShapeOf(g)) && q in Neighbors(p, ShapeOf(g))
    requires Value(g, p) == Value(g, q)
    ensures !IsLow(g, p)
  {
  }

  /** The only cell of a 1x1 grid is low. */
  lemma SingleCellIsLow(v: int)
    ensures LowList([[v]]) == [Point(0, 0)]
  {
    var g := [[v]];
    assert Neighbors(Point(0, 0), ShapeOf(g)) == {};
    assert IsLow(g, Point(0, 0));
    assert LowsInRow(g, 0, 0) == [Point(0, 0)] + LowsInRow(g, 0, 1);
    assert LowsFrom(g, 0) == LowsInRow(g, 0, 0) + LowsFrom(g, 1);
  }

  /** `lows` as the heightmap script collects them: the values at the low points. */
  function ValuesAt(g: Heights, pts: seq<Point>): (vs: seq<int>)
    requires IsGrid(g) && forall i :: 0 <= i < |pts| ==> InBounds(pts[i], ShapeOf(g))
    ensures |vs| == |pts| && forall i :: 0 <= i < |pts| ==> vs[i] == Value(g, pts[i])
  {
    if |pts| == 0 then [] else [Value(g, pts[0])] + ValuesAt(g, pts[1..])
  }

  function PlusOne(vs: seq<int>): (ws: seq<int>)
    ensures |ws| == |vs| && forall i :: 0 <= i < |vs| ==> ws[i] == vs[i] + 1
  {
    if |vs| == 0 then [] else [vs[0] + 1] + PlusOne(vs[1..])
  }

  /** The heightmap script's answer: the sum over low points of value + 1. */
  function RiskLevel(g: Heights): int
    requires IsGrid(g)
  {
    var lows := LowList(g);
    Sum(PlusOne(ValuesAt(g, lows)))
  }

  predicate DigitCells(g: Heights)
  {
    forall r, c :: 0 <= r < |g| && 0 <= c < |g[r]| ==> 0 <= g[r][c] <= 9
  }

  lemma {:induction false} SumBounds(s: seq<int>, lo: int, hi: int)
    requires forall i :: 0 <= i < |s| ==> lo <= s[i] <= hi
    ensures lo * |s| <= Sum(s) <= hi * |s|
  {
    if |s| > 0 {
      SumBounds(s[..|s| - 1], lo, hi);
    }
  }

  /** On a heightmap of digits each low point adds between 1 and 10 to the risk,
      so the risk is at least the number of low points. */
  lemma RiskLevelBounds(g: Heights)
    requires IsGrid(g) && DigitCells(g)
    ensures |LowList(g)| <= RiskLevel(g) <= 10 * |LowList(g)|
  {
    var ws := PlusOne(ValuesAt(g, LowList(g)));
    SumBounds(ws, 1, 10);
  }
}
