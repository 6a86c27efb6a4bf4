/** The path finder: grow every simple path from the start cell in lockstep,
    one open (zero-valued) orthogonal neighbour per round, and stop at the
    first path that steps onto the end cell. */
module FindPath {
  import opened Util
  import opened Grid

  /** The cell value a path may step onto. */
  const Open: int := 0

  // ---------------------------------------------------------------------------
  // Parsing "row,col"

  /** `s` is `a,b` for two runs of digits, optionally followed by one
      newline. */
  predicate PointText(s: string, a: string, b: string)
  {
    IsDecimal(a) && IsDecimal(b) && (s == a + "," + b || s == a + "," + b + "\n")
  }

  /** The text before the one final newline `$` lets through. */
  function Chomp(s: string): string
  {
    if |s| > 0 && s[|s| - 1] == '\n' then s[..|s| - 1] else s
  }

  /** A text of the pattern splits at its first comma into its two runs. */
  lemma PointTextSplits(s: string, a: string, b: string)
    requires PointText(s, a, b)
    ensures FirstIndex(Chomp(s), ',') == |a| && Chomp(s)[..|a|] == a && Chomp(s)[|a| + 1..] == b
  {
    var t := Chomp(s);
    if s == a + "," + b {
      assert s[|s| - 1] == b[|b| - 1];
    } else {
      assert s[..|s| - 1] == a + "," + b;
    }
    assert t == a + [','] + b;
    FirstIndexAt(a, ',', b);
    assert t[..|a|] == a;
    assert t[|a| + 1..] == b;
  }

  /** Two runs of digits found around the first comma make a text of the pattern. */
  lemma SplitIsPointText(s: string, i: nat)
    requires i < |Chomp(s)| && IsDecimal(Chomp(s)[..i]) && IsDecimal(Chomp(s)[i + 1..]) && Chomp(s)[i] == ','
    ensures PointText(s, Chomp(s)[..i], Chomp(s)[i + 1..])
  {
    var t := Chomp(s);
    assert t == t[..i] + "," + t[i + 1..];
    if t != s {
      assert s == t + "\n";
    }
  }

  /** The point pattern `^(\d+),(\d+)$`: two runs of digits around one comma.
      Python's `$` also matches just before a final newline, so one trailing
      newline is accepted. */
  function ParsePoint(s: string): (r: Option<Point>)
    ensures r.Some? <==> exists a, b :: PointText(s, a, b)
    ensures forall a, b :: PointText(s, a, b) ==> r == Some(Point(DecimalValue(a), DecimalValue(b)))
  {
    var t := Chomp(s);
    var i := FirstIndex(t, ',');
    assert forall a, b :: PointText(s, a, b) ==> i == |a| && t[..i] == a && t[i + 1..] == b by {
      forall a, b | PointText(s, a, b)
        ensures i == |a| && t[..i] == a && t[i + 1..] == b
      {
        PointTextSplits(s, a, b);
      }
    }
    if i < |t| && IsDecimal(t[..i]) && IsDecimal(t[i + 1..]) then
      SplitIsPointText(s, i);
      Some(Point(DecimalValue(t[..i]), DecimalValue(t[i + 1..])))
    else None
  }

  /** Writing a point as `row,col` and parsing it back gives the point. */
  lemma ParsePointRoundTrip(row: nat, col: nat)
    ensures ParsePoint(ShowNat(row) + "," + ShowNat(col)) == Some(Point(row, col))
  {
    assert PointText(ShowNat(row) + "," + ShowNat(col), ShowNat(row), ShowNat(col));
    DecimalShowNat(row);
    DecimalShowNat(col);
  }

  /** A point needs both coordinates: a string without digits after the comma is rejected. */
  lemma ParsePointNeedsColumn(row: nat)
    ensures ParsePoint(ShowNat(row) + ",") == None
  {
    var a := ShowNat(row);
    var s := a + ",";
    assert s == a + [','] + "";
    FirstIndexAt(a, ',', "");
    assert s[|a| + 1..] == "";
  }

  // ---------------------------------------------------------------------------
  // Walks

  /** A simple path from `start`: every cell on the grid, no cell twice, each
      step to an orthogonal neighbour whose value is open. The start cell's own
      value is never looked at. */
  predicate IsWalk(g: Heights, start: Point, p: seq<Point>)
    requires IsGrid(g)
  {
    && |p| >= 1 && p[0] == start
    && (forall i :: 0 <= i < |p| ==> InBounds(p[i], ShapeOf(g)))
    && Distinct(p)
    && (forall i :: 1 <= i < |p| ==> p[i] in Neighbors(p[i - 1], ShapeOf(g)) && Value(g, p[i]) == Open)
  }

  /** A walk still in the frontier: it has not stepped onto `end`. */
  predicate Pending(g: Heights, start: Point, end: Point, p: seq<Point>)
    requires IsGrid(g)
  {
    IsWalk(g, start, p) && forall i :: 1 <= i < |p| ==> p[i] != end
  }

  /** A walk that the search reports: it steps onto `end` as its last move. */
  predicate Reaches(g: Heights, start: Point, end: Point, p: seq<Point>)
    requires IsGrid(g)
  {
    IsWalk(g, start, p) && |p| >= 2 && p[|p| - 1] == end
  }

  /** The cells a walk may step to next: open neighbours of its last cell that
      it has not visited ("do not backtrack"). */
  function Forward(g: Heights, p: seq<Point>): (fs: set<Point>)
    requires IsGrid(g) && |p| >= 1 && InBounds(p[|p| - 1], ShapeOf(g))
    ensures forall n :: n in fs <==>
      n in Neighbors(p[|p| - 1], ShapeOf(g)) && n !in p && Value(g, n) == Open
  {
    set n | n in Neighbors(p[|p| - 1], ShapeOf(g)) && n !in p && Value(g, n) == Open
  }

  lemma ExtendWalk(g: Heights, start: Point, p: seq<Point>, n: Point)
    requires IsGrid(g) && IsWalk(g, start, p) && n in Forward(g, p)
    ensures IsWalk(g, start, p + [n])
  {
    DistinctSnoc(p, n);
    var q := p + [n];
    forall i | 1 <= i < |q|
      ensures q[i] in Neighbors(q[i - 1], ShapeOf(g)) && Value(g, q[i]) == Open
    {
      if i < |p| {
        assert q[i] == p[i] && q[i - 1] == p[i - 1];
      }
    }
  }

  lemma PrefixWalk(g: Heights, start: Point, p: seq<Point>, j: int)
    requires IsGrid(g) && IsWalk(g, start, p) && 1 <= j <= |p|
    ensures IsWalk(g, start, p[..j])
    ensures j < |p| ==> p[j] in Forward(g, p[..j])
  {
    var q := p[..j];
    assert forall i :: 0 <= i < j ==> q[i] == p[i];
    if j < |p| {
      assert p[j] !in q;
    }
  }

  /** Cutting a reaching walk one step before its end leaves a pending walk,
      whose next move is onto `end`. */
  lemma ReachesSplit(g: Heights, start: Point, end: Point, q: seq<Point>, j: int)
    requires IsGrid(g) && Reaches(g, start, end, q) && 1 <= j < |q|
    ensures Pending(g, start, end, q[..j])
    ensures q[j] in Forward(g, q[..j])
    ensures q[j] == end <==> j == |q| - 1
  {
    PrefixWalk(g, start, q, j);
    forall i | 1 <= i < j ensures q[..j][i] != end {
      assert q[i] != q[|q| - 1];
    }
    if j < |q| - 1 {
      assert q[j] != q[|q| - 1];
    }
  }

  /** No path can both start and end on one cell: the search reports no
      solution when asked for a path from a cell to itself. */
  lemma NoWalkBackToStart(g: Heights, start: Point, q: seq<Point>)
    requires IsGrid(g)
    ensures !Reaches(g, start, start, q)
  {
    if IsWalk(g, start, q) && |q| >= 2 {
      assert q[0] != q[|q| - 1];
    }
  }

  // ---------------------------------------------------------------------------
  // The search

  /** The state between two rounds, when every path has `k` cells: the
      frontier holds exactly the pending walks of that length, and every walk
      that reaches `end` is longer. */
  ghost predicate Frontier(g: Heights, start: Point, end: Point, paths: set<seq<Point>>, k: int)
    requires IsGrid(g)
  {
    && Tips(g, paths)
    && (forall p :: p in paths <==> Pending(g, start, end, p) && |p| == k)
    && (forall q :: Reaches(g, start, end, q) ==> |q| > k)
  }

  /** Every path has a last cell on the grid. */
  predicate Tips(g: Heights, paths: set<seq<Point>>)
    requires IsGrid(g)
  {
    forall p :: p in paths ==> |p| >= 1 && InBounds(p[|p| - 1], ShapeOf(g))
  }

  /** The extensions of frontier paths that step onto `end`. */
  function Arrivals(g: Heights, end: Point, paths: set<seq<Point>>): (a: set<seq<Point>>)
    requires IsGrid(g) && Tips(g, paths)
    ensures forall q :: q in a ==> exists p :: p in paths && q == p + [end] && end in Forward(g, p)
    ensures forall p :: p in paths && end in Forward(g, p) ==> p + [end] in a
  {
    set p | p in paths && end in Forward(g, p) :: p + [end]
  }

  /** `new_paths` of one round: every frontier path extended by each of its forward cells. */
  function Advance(g: Heights, paths: set<seq<Point>>): (next: set<seq<Point>>)
    requires IsGrid(g) && Tips(g, paths)
    ensures forall q :: q in next ==> exists p, n :: p in paths && n in Forward(g, p) && q == p + [n]
  {
    set p, n | p in paths && n in Forward(g, p) :: p + [n]
  }

  lemma StartFrontier(g: Heights, start: Point, end: Point)
    requires IsGrid(g) && InBounds(start, ShapeOf(g))
    ensures Frontier(g, start, end, {[start]}, 1)
  {
    assert Pending(g, start, end, [start]);
    forall p | Pending(g, start, end, p) && |p| == 1 ensures p == [start] {
      assert p == [p[0]];
    }
  }

  /** A path arriving in the round after length `k` is a shortest reaching walk. */
  lemma ArrivalIsShortest(g: Heights, start: Point, end: Point, paths: set<seq<Point>>, k: int, found: seq<Point>)
    requires IsGrid(g) && Frontier(g, start, end, paths, k)
    requires found in Arrivals(g, end, paths)
    ensures Reaches(g, start, end, found)
    ensures forall q :: Reaches(g, start, end, q) ==> |found| <= |q|
  {
    var p :| p in paths && found == p + [end] && end in Forward(g, p);
    ExtendWalk(g, start, p, end);
  }

  /** Every walk reaching `end` runs through the frontier: its first `k` cells
      form one of the frontier's paths. */
  lemma ReachesThroughFrontier(g: Heights, start: Point, end: Point, paths: set<seq<Point>>, k: int, q: seq<Point>)
    requires IsGrid(g) && k >= 1 && Frontier(g, start, end, paths, k) && Reaches(g, start, end, q)
    ensures q[..k] in paths
    ensures q[k] in Forward(g, q[..k])
    ensures |q| == k + 1 ==> q == q[..k] + [end]
  {
    ReachesSplit(g, start, end, q, k);
    if |q| == k + 1 {
      assert q == q[..k] + [q[k]];
    }
  }

  /** With no arrivals after length `k`, every reaching walk is longer than `k + 1`. */
  lemma RoundLonger(g: Heights, start: Point, end: Point, paths: set<seq<Point>>, k: int)
    requires IsGrid(g) && k >= 1 && Frontier(g, start, end, paths, k)
    requires Arrivals(g, end, paths) == {}
    ensures forall q :: Reaches(g, start, end, q) ==> |q| > k + 1
  {
    forall q | Reaches(g, start, end, q) ensures |q| > k + 1 {
      ReachesThroughFrontier(g, start, end, paths, k, q);
    }
  }

  /** With no arrivals, every extended path is a pending walk one cell longer. */
  lemma AdvancePending(g: Heights, start: Point, end: Point, paths: set<seq<Point>>, k: int, p: seq<Point>)
    requires IsGrid(g) && k >= 1 && Frontier(g, start, end, paths, k)
    requires Arrivals(g, end, paths) == {} && p in Advance(g, paths)
    ensures Pending(g, start, end, p) && |p| == k + 1
  {
    var p0, n :| p0 in paths && n in Forward(g, p0) && p == p0 + [n];
    assert Pending(g, start, end, p0) && |p0| == k;
    ExtendWalk(g, start, p0, n);
    assert end !in Forward(g, p0) by {
      assert p0 + [end] !in Arrivals(g, end, paths);
    }
    forall i | 1 <= i < |p| ensures p[i] != end {
      if i < |p0| {
        assert p[i] == p0[i];
      }
    }
  }

  /** Every pending walk one cell longer than the frontier is one of its extensions. */
  lemma AdvanceComplete(g: Heights, start: Point, end: Point, paths: set<seq<Point>>, k: int, p: seq<Point>)
    requires IsGrid(g) && k >= 1 && Frontier(g, start, end, paths, k)
    requires Pending(g, start, end, p) && |p| == k + 1
    ensures p in Advance(g, paths)
  {
    PrefixWalk(g, start, p, k);
    assert p == p[..k] + [p[k]];
  }

  /** A round without arrivals turns the frontier of length `k` into that of length `k + 1`. */
  lemma RoundStep(g: Heights, start: Point, end: Point, paths: set<seq<Point>>, k: int)
    requires IsGrid(g) && k >= 1 && Frontier(g, start, end, paths, k)
    requires Arrivals(g, end, paths) == {}
    ensures Frontier(g, start, end, Advance(g, paths), k + 1)
  {
    var next := Advance(g, paths);
    RoundLonger(g, start, end, paths, k);
    forall p | p in next ensures Pending(g, start, end, p) && |p| == k + 1 {
      AdvancePending(g, start, end, paths, k, p);
    }
    forall p | Pending(g, start, end, p) && |p| == k + 1 ensures p in next {
      AdvanceComplete(g, start, end, paths, k, p);
    }
  }

  /** A non-empty frontier holds a simple walk, so its length is at most the number of cells. */
  lemma FrontierBound(g: Heights, start: Point, end: Point, paths: set<seq<Point>>, k: int)
    requires IsGrid(g) && Frontier(g, start, end, paths, k) && paths != {}
    ensures k <= |Cells(ShapeOf(g))|
  {
    var w :| w in paths;
    DistinctCellsBound(w, ShapeOf(g));
  }

  datatype Outcome = Found(path: seq<Point>) | NoSolution

  /** The lockstep search of the path script's main loop. Within one round the
      script tries paths and neighbours in list and set order; the set order is
      left open here, so when several paths reach `end` in the same round any
      one of them may be the one reported. */
  method Search(g: Heights, start: Point, end: Point) returns (r: Outcome)
    requires IsGrid(g) && InBounds(start, ShapeOf(g))
    ensures r.Found? ==> Reaches(g, start, end, r.path)
    ensures r.Found? ==> forall q :: Reaches(g, start, end, q) ==> |r.path| <= |q|
    ensures r.NoSolution? <==> forall q :: !Reaches(g, start, end, q)
    ensures start == end ==> r.NoSolution?
  {
    var paths: set<seq<Point>> := {[start]};
    var k := 1;
    StartFrontier(g, start, end);
    FrontierBound(g, start, end, paths, k);
    while true
      invariant 1 <= k <= |Cells(ShapeOf(g))|
      invariant Frontier(g, start, end, paths, k)
      decreases |Cells(ShapeOf(g))| - k
    {
      var arrivals := Arrivals(g, end, paths);
      if arrivals != {} {
        var found :| found in arrivals;
        ArrivalIsShortest(g, start, end, paths, k, found);
        NoWalkBackToStart(g, start, found);
        return Found(found);
      }
      var next := Advance(g, paths);
      RoundStep(g, start, end, paths, k);
      if next == {} {
        forall q | Reaches(g, start, end, q) ensures q[..k + 1] in next {
          ReachesThroughFrontier(g, start, end, next, k + 1, q);
        }
        return NoSolution;
      }
      FrontierBound(g, start, end, next, k + 1);
      paths := next;
      k := k + 1;
    }
  }
}
