/** The grid vocabulary shared by the heightmap, basin and path scripts:
    row/column points, the grid shape, 4-neighbour and diagonal adjacency,
    and rectangular grids of integer cell values. */
module Grid {
  import opened Util

  /** A row/column pair. Coordinates are unbounded integers so that queries
      about points off the grid (which the tests make) are expressible. */
  datatype Point = Point(row: int, col: int)

  /** A grid's `shape`: its numbers of rows and columns. */
  datatype Shape = Shape(rows: int, cols: int)

  /** The corners of a bounding box, as `get_perimeter` returns them. */
  datatype Box = Box(lo: Point, hi: Point)

  predicate InBounds(p: Point, shape: Shape)
  {
    0 <= p.row < shape.rows && 0 <= p.col < shape.cols
  }

  /** Manhattan distance. */
  function Distance(p: Point, q: Point): nat
  {
    Abs(p.row - q.row) + Abs(p.col - q.col)
  }

  predicate IsDiagonalStep(p: Point, q: Point)
  {
    Abs(p.row - q.row) == 1 && Abs(p.col - q.col) == 1
  }

  /** The set-valued `get_neighbors`: above, below, left and right, each kept
      only when the bound check on its side passes. */
  function Neighbors(p: Point, shape: Shape): (ns: set<Point>)
    ensures forall q :: q in ns ==> Distance(p, q) == 1
    ensures InBounds(p, shape) ==>
      forall q :: q in ns <==> InBounds(q, shape) && Distance(p, q) == 1
  {
    SidesAreNeighbors(p, shape);
    Sides(p, shape)
  }

  /** The four bound-checked sides, as `get_neighbors` builds them. */
  function Sides(p: Point, shape: Shape): set<Point>
  {
    (if p.row > 0 then {Point(p.row - 1, p.col)} else {})
    + (if p.row < shape.rows - 1 then {Point(p.row + 1, p.col)} else {})
    + (if p.col > 0 then {Point(p.row, p.col - 1)} else {})
    + (if p.col < shape.cols - 1 then {Point(p.row, p.col + 1)} else {})
  }

  /** A point at distance 1 is one of the four sides. */
  lemma UnitStep(p: Point, q: Point)
    requires Distance(p, q) == 1
    ensures q in {Point(p.row - 1, p.col), Point(p.row + 1, p.col), Point(p.row, p.col - 1), Point(p.row, p.col + 1)}
  {
  }

  lemma SidesAreNeighbors(p: Point, shape: Shape)
    ensures forall q :: q in Sides(p, shape) ==> Distance(p, q) == 1
    ensures InBounds(p, shape) ==>
      forall q :: q in Sides(p, shape) <==> InBounds(q, shape) && Distance(p, q) == 1
  {
    if InBounds(p, shape) {
      forall q | InBounds(q, shape) && Distance(p, q) == 1
        ensures q in Sides(p, shape)
      {
        UnitStep(p, q);
      }
    }
  }

  /** Adjacency is symmetric between cells of the grid. */
  lemma NeighborsSymmetric(p: Point, q: Point, shape: Shape)
    requires InBounds(p, shape) && q in Neighbors(p, shape)
    ensures InBounds(q, shape) && p in Neighbors(q, shape)
  {
  }

  /** The list-valued `get_neighbors` of the basin script, in the order
      above, below, left, right. */
  function NeighborList(p: Point, shape: Shape): seq<Point>
  {
    (if p.row > 0 then [Point(p.row - 1, p.col)] else [])
    + (if p.row < shape.rows - 1 then [Point(p.row + 1, p.col)] else [])
    + (if p.col > 0 then [Point(p.row, p.col - 1)] else [])
    + (if p.col < shape.cols - 1 then [Point(p.row, p.col + 1)] else [])
  }

  lemma NeighborListDistinct(p: Point, shape: Shape)
    ensures Distinct(NeighborList(p, shape))
  {
  }

  lemma NeighborListElements(p: Point, shape: Shape)
    ensures forall q :: q in NeighborList(p, shape) <==> q in Neighbors(p, shape)
  {
  }

  /** The list holds each neighbour exactly once, so as a set it is the
      set-valued neighbour function. */
  lemma NeighborListIsNeighbors(p: Point, shape: Shape)
    ensures Distinct(NeighborList(p, shape))
    ensures Elements(NeighborList(p, shape)) == Neighbors(p, shape)
    ensures |NeighborList(p, shape)| == |Neighbors(p, shape)|
  {
    NeighborListDistinct(p, shape);
    NeighborListElements(p, shape);
    DistinctCard(NeighborList(p, shape));
    assert Elements(NeighborList(p, shape)) == Neighbors(p, shape);
  }

  predicate IsCorner(p: Point, shape: Shape)
  {
    (p.row == 0 || p.row == shape.rows - 1) && (p.col == 0 || p.col == shape.cols - 1)
  }

  predicate OnBorder(p: Point, shape: Shape)
  {
    p.row == 0 || p.row == shape.rows - 1 || p.col == 0 || p.col == shape.cols - 1
  }

  /** On a grid of at least 2x2, corners have 2 neighbours, other border cells 3
      and interior cells 4. */
  lemma NeighborCount(p: Point, shape: Shape)
    requires shape.rows >= 2 && shape.cols >= 2 && InBounds(p, shape)
    ensures IsCorner(p, shape) ==> |Neighbors(p, shape)| == 2
    ensures OnBorder(p, shape) && !IsCorner(p, shape) ==> |Neighbors(p, shape)| == 3
    ensures !OnBorder(p, shape) ==> |Neighbors(p, shape)| == 4
  {
    NeighborListIsNeighbors(p, shape);
  }

  /** A single-cell grid gives its only cell no neighbours. */
  lemma SingleCellHasNoNeighbors()
    ensures Neighbors(Point(0, 0), Shape(1, 1)) == {}
  {
  }

  /** `get_diagonals`: the diagonal cells that pass the bound checks, in the
      order above-left, above-right, below-left, below-right. */
  function Diagonals(p: Point, shape: Shape): (ds: seq<Point>)
    ensures forall i :: 0 <= i < |ds| ==> IsDiagonalStep(p, ds[i])
    ensures forall i, j :: 0 <= i < j < |ds| ==> LexLess(ds[i], ds[j])
    ensures InBounds(p, shape) ==>
      forall q :: q in ds <==> InBounds(q, shape) && IsDiagonalStep(p, q)
  {
    var above :=
      if p.row > 0 then
        (if p.col > 0 then [Point(p.row - 1, p.col - 1)] else [])
        + (if p.col < shape.cols - 1 then [Point(p.row - 1, p.col + 1)] else [])
      else [];
    var below :=
      if p.row < shape.rows - 1 then
        (if p.col > 0 then [Point(p.row + 1, p.col - 1)] else [])
        + (if p.col < shape.cols - 1 then [Point(p.row + 1, p.col + 1)] else [])
      else [];
    above + below
  }

  /** Row-major order on points. */
  predicate LexLess(p: Point, q: Point)
  {
    p.row < q.row || (p.row == q.row && p.col < q.col)
  }

  function AllDiagonals(pts: seq<Point>, shape: Shape): (ds: seq<Point>)
    ensures forall q :: q in ds <==> exists i :: 0 <= i < |pts| && q in Diagonals(pts[i], shape)
  {
    if |pts| == 0 then []
    else
      var rest := AllDiagonals(pts[1..], shape);
      assert forall i :: 1 <= i < |pts| ==> pts[i] == pts[1..][i - 1];
      Diagonals(pts[0], shape) + rest
  }

  /** The points whose bounding box `get_perimeter` reports: every diagonal of
      every given point, plus the first given point when that yields exactly
      one diagonal. */
  function PerimeterPoints(bounds: seq<Point>, shape: Shape): set<Point>
  {
    var ds := set q | q in AllDiagonals(bounds, shape);
    if |ds| == 1 then ds + {bounds[0]} else ds
  }

  function Rows(s: seq<Point>): (rs: seq<int>)
    ensures |rs| == |s| && forall i :: 0 <= i < |s| ==> rs[i] == s[i].row
  {
    if |s| == 0 then [] else [s[0].row] + Rows(s[1..])
  }

  function Cols(s: seq<Point>): (cs: seq<int>)
    ensures |cs| == |s| && forall i :: 0 <= i < |s| ==> cs[i] == s[i].col
  {
    if |s| == 0 then [] else [s[0].col] + Cols(s[1..])
  }

  /** The smallest box holding every point of a non-empty list, from Python's
      `min` and `max` over its rows and its columns. */
  function BoundingBox(pts: seq<Point>): (b: Box)
    requires |pts| > 0
    ensures forall q :: q in pts ==>
      b.lo.row <= q.row <= b.hi.row && b.lo.col <= q.col <= b.hi.col
    ensures exists q :: q in pts && q.row == b.lo.row
    ensures exists q :: q in pts && q.row == b.hi.row
    ensures exists q :: q in pts && q.col == b.lo.col
    ensures exists q :: q in pts && q.col == b.hi.col
  {
    var rows := Rows(pts);
    var cols := Cols(pts);
    Box(Point(MinOf(rows), MinOf(cols)), Point(MaxOf(rows), MaxOf(cols)))
  }

  /** The list `get_perimeter` takes the minima and maxima of. */
  function PerimeterList(bounds: seq<Point>, shape: Shape): (pts: seq<Point>)
    ensures forall q :: q in pts <==> q in PerimeterPoints(bounds, shape)
  {
    var ds := AllDiagonals(bounds, shape);
    if |set q | q in ds| == 1 then ds + [bounds[0]] else ds
  }

  /** `get_perimeter`: the bounding box of the perimeter points, or `None` where
      Python's `min` of an empty list raises. */
  function Perimeter(bounds: seq<Point>, shape: Shape): (r: Option<Box>)
    ensures r.None? <==> PerimeterPoints(bounds, shape) == {}
    ensures r.Some? ==> forall q :: q in PerimeterPoints(bounds, shape) ==>
      r.value.lo.row <= q.row <= r.value.hi.row && r.value.lo.col <= q.col <= r.value.hi.col
    ensures r.Some? ==>
      (exists q :: q in PerimeterPoints(bounds, shape) && q.row == r.value.lo.row)
      && (exists q :: q in PerimeterPoints(bounds, shape) && q.row == r.value.hi.row)
      && (exists q :: q in PerimeterPoints(bounds, shape) && q.col == r.value.lo.col)
      && (exists q :: q in PerimeterPoints(bounds, shape) && q.col == r.value.hi.col)
  {
    var pts := PerimeterList(bounds, shape);
    if |pts| == 0 then None
    else
      assert pts[0] in PerimeterPoints(bounds, shape);
      Some(BoundingBox(pts))
  }

  // ---------------------------------------------------------------------------
  // The cells of a grid and how many there are

  /** The cells of the grid. */
  function Cells(shape: Shape): (cs: set<Point>)
    ensures forall q :: q in cs <==> InBounds(q, shape)
  {
    RowsAboveMembers(shape.rows, shape.cols);
    RowsAbove(shape.rows, shape.cols)
  }

  /** The cells of the first `rows` rows, built row by row. */
  function RowsAbove(rows: int, cols: int): set<Point>
    decreases rows
  {
    if rows <= 0 then {} else RowsAbove(rows - 1, cols) + RowCells(rows - 1, cols)
  }

  lemma {:induction false} RowsAboveMembers(rows: int, cols: int)
    ensures forall q :: q in RowsAbove(rows, cols) <==> 0 <= q.row < rows && 0 <= q.col < cols
    decreases rows
  {
    if rows > 0 {
      RowsAboveMembers(rows - 1, cols);
    }
  }

  function RowCells(r: int, cols: int): (cs: set<Point>)
    ensures forall q :: q in cs <==> q.row == r && 0 <= q.col < cols
  {
    set c | 0 <= c < cols :: Point(r, c)
  }

  lemma {:induction false} RowCellsCard(r: int, cols: nat)
    ensures |RowCells(r, cols)| == cols
  {
    if cols > 0 {
      RowCellsCard(r, cols - 1);
      assert RowCells(r, cols) == RowCells(r, cols - 1) + {Point(r, cols - 1)};
    }
  }

  /** A `rows x cols` grid has `rows * cols` cells. */
  lemma CellsCard(rows: nat, cols: nat)
    ensures |Cells(Shape(rows, cols))| == rows * cols
  {
    RowsAboveCard(rows, cols);
    RowsAreaIsProduct(rows, cols);
  }

  /** `cols` added `rows` times. */
  function RowsArea(rows: nat, cols: nat): nat
  {
    if rows == 0 then 0 else RowsArea(rows - 1, cols) + cols
  }

  lemma {:induction false} RowsAreaIsProduct(rows: nat, cols: nat)
    ensures RowsArea(rows, cols) == rows * cols
  {
    if rows > 0 {
      RowsAreaIsProduct(rows - 1, cols);
      MulSucc(rows - 1, cols);
    }
  }

  /** The cells counted row by row: the rows share no cell. */
  lemma {:induction false} RowsAboveCard(rows: nat, cols: nat)
    ensures |RowsAbove(rows, cols)| == RowsArea(rows, cols)
  {
    if rows > 0 {
      var upper, last := RowsAbove(rows - 1, cols), RowCells(rows - 1, cols);
      RowsAboveCard(rows - 1, cols);
      RowCellsCard(rows - 1, cols);
      LastRowApart(rows - 1, cols);
      assert |upper + last| == |upper| + |last|;
    }
  }

  /** The last row shares no cell with the rows above it. */
  lemma LastRowApart(r: int, cols: int)
    ensures RowsAbove(r, cols) !! RowCells(r, cols)
  {
    RowsAboveMembers(r, cols);
  }

  predicate Distinct<T(==)>(s: seq<T>)
  {
    forall i, j :: 0 <= i < j < |s| ==> s[i] != s[j]
  }

  lemma DistinctSnoc<T>(s: seq<T>, x: T)
    requires Distinct(s) && x !in s
    ensures Distinct(s + [x])
  {
  }

  /** The set of elements of a sequence. */
  function Elements<T(!new)>(s: seq<T>): (r: set<T>)
    ensures forall x :: x in r <==> x in s
  {
    set x | x in s
  }

  lemma {:induction false} DistinctCard<T(!new)>(s: seq<T>)
    requires Distinct(s)
    ensures |Elements(s)| == |s|
  {
    if |s| > 0 {
      var init := s[..|s| - 1];
      DistinctCard(init);
      assert Elements(s) == Elements(init) + {s[|s| - 1]};
      assert s[|s| - 1] !in init;
    }
  }

  lemma SubsetCard<T>(a: set<T>, b: set<T>)
    requires a <= b
    ensures |a| <= |b|
  {
    assert b == a + (b - a);
  }

  /** Pigeonhole: a sequence of distinct cells of a grid is no longer than the
      number of cells. */
  lemma DistinctCellsBound(s: seq<Point>, shape: Shape)
    requires Distinct(s)
    requires forall i :: 0 <= i < |s| ==> InBounds(s[i], shape)
    ensures |s| <= |Cells(shape)|
  {
    DistinctCard(s);
    SubsetCard(Elements(s), Cells(shape));
  }

  // ---------------------------------------------------------------------------
  // Rectangular grids of cell values (the numpy matrix of the scripts)

  type Heights = seq<seq<int>>

  /** At least one row, all rows of the same length. */
  predicate IsGrid(g: Heights)
  {
    |g| > 0 && forall r :: 0 <= r < |g| ==> |g[r]| == |g[0]|
  }

  function ShapeOf(g: Heights): Shape
    requires IsGrid(g)
  {
    Shape(|g|, |g[0]|)
  }

  function Value(g: Heights, p: Point): int
    requires IsGrid(g) && InBounds(p, ShapeOf(g))
  {
    g[p.row][p.col]
  }

  // ---------------------------------------------------------------------------
  // The scripts' test cases, on a 10x10 shape

  /** The five cases of `test_get_neighbors`, including the points on row or
      column 10, just outside the shape. */
  lemma NeighborsExamples()
    ensures Neighbors(Point(0, 0), Shape(10, 10)) == {Point(0, 1), Point(1, 0)}
    ensures Neighbors(Point(0, 10), Shape(10, 10)) == {Point(0, 9), Point(1, 10)}
    ensures Neighbors(Point(10, 0), Shape(10, 10)) == {Point(9, 0), Point(10, 1)}
    ensures Neighbors(Point(10, 10), Shape(10, 10)) == {Point(9, 10), Point(10, 9)}
    ensures Neighbors(Point(5, 5), Shape(10, 10)) == {Point(4, 5), Point(5, 4), Point(5, 6), Point(6, 5)}
  {
    assert Sides(Point(0, 0), Shape(10, 10)) == {Point(0, 1), Point(1, 0)};
    assert Sides(Point(0, 10), Shape(10, 10)) == {Point(0, 9), Point(1, 10)};
    assert Sides(Point(10, 0), Shape(10, 10)) == {Point(9, 0), Point(10, 1)};
    assert Sides(Point(10, 10), Shape(10, 10)) == {Point(9, 10), Point(10, 9)};
    assert Sides(Point(5, 5), Shape(10, 10)) == {Point(4, 5), Point(5, 4), Point(5, 6), Point(6, 5)};
    NeighborsAre(Point(0, 0), {Point(0, 1), Point(1, 0)});
    NeighborsAre(Point(0, 10), {Point(0, 9), Point(1, 10)});
    NeighborsAre(Point(10, 0), {Point(9, 0), Point(10, 1)});
    NeighborsAre(Point(10, 10), {Point(9, 10), Point(10, 9)});
    NeighborsAre(Point(5, 5), {Point(4, 5), Point(5, 4), Point(5, 6), Point(6, 5)});
  }

  lemma NeighborsAre(p: Point, ns: set<Point>)
    requires Sides(p, Shape(10, 10)) == ns
    ensures Neighbors(p, Shape(10, 10)) == ns
  {
  }

  /** The five cases of `test_get_diagonals`. */
  lemma DiagonalsExamples()
    ensures Diagonals(Point(0, 0), Shape(10, 10)) == [Point(1, 1)]
    ensures Diagonals(Point(0, 10), Shape(10, 10)) == [Point(1, 9)]
    ensures Diagonals(Point(10, 0), Shape(10, 10)) == [Point(9, 1)]
    ensures Diagonals(Point(10, 10), Shape(10, 10)) == [Point(9, 9)]
    ensures Diagonals(Point(5, 5), Shape(10, 10)) == [Point(4, 4), Point(4, 6), Point(6, 4), Point(6, 6)]
  {
  }
}
