/** The hydrothermal-vent scripts: each input line is a segment
    `x1,y1 -> x2,y2`; its cells are painted onto a sparse grid of counts, and
    the answer is the number of cells painted more than once. vents.py keeps
    only horizontal and vertical segments and walks `xs × ys`; vents2 keeps
    every segment and pairs `xs` with `ys` by `zip_longest`. */
module Vents {
  import opened Util

  datatype Cell = Cell(x: int, y: int)

  datatype Segment = Segment(x1: int, y1: int, x2: int, y2: int)

  /** `v` lies between `a` and `b`, inclusive, in either order. */
  predicate Between(a: int, b: int, v: int)
  {
    (a <= v <= b) || (b <= v <= a)
  }

  // ---------------------------------------------------------------------------
  // The coordinate ranges

  /** Python's `range(start, stop, step)` for a step of 1 or -1. */
  function Range(start: int, stop: int, step: int): (r: seq<int>)
    requires step == 1 || step == -1
    ensures |r| == (if step == 1 then (if start < stop then stop - start else 0)
                    else (if start > stop then start - stop else 0))
    ensures forall k :: 0 <= k < |r| ==> r[k] == start + k * step
    decreases Abs(stop - start)
  {
    if (step == 1 && start >= stop) || (step == -1 && start <= stop) then []
    else [start] + Range(start + step, stop, step)
  }

  /** vents.py's `xs`: `range(x1, x2 - 1, -1)` when x1 > x2, else
      `range(x1, x2 + 1)`; it runs from x1 to x2 inclusive. */
  function PythonSpan(a: int, b: int): (r: seq<int>)
    ensures |r| == Abs(b - a) + 1
    ensures forall k :: 0 <= k < |r| ==> r[k] == (if a <= b then a + k else a - k)
  {
    if a > b then Range(a, b - 1, -1) else Range(a, b + 1, 1)
  }

  /** Rust's `(a..=b).collect()`. */
  function Inclusive(a: int, b: int): (r: seq<int>)
    ensures |r| == (if a <= b then b - a + 1 else 0)
    ensures forall k :: 0 <= k < |r| ==> r[k] == a + k
    decreases b - a
  {
    if a > b then [] else [a] + Inclusive(a + 1, b)
  }

  /** vents2's `xs`: `(x1..=x2)` when x1 < x2, else `(x2..=x1).rev()`. */
  function RustSpan(a: int, b: int): (r: seq<int>)
    ensures |r| == Abs(b - a) + 1
    ensures forall k :: 0 <= k < |r| ==> r[k] == (if a <= b then a + k else a - k)
  {
    if a < b then Inclusive(a, b)
    else
      var up := Inclusive(b, a);
      var r := Reverse(up);
      assert forall k :: 0 <= k < |r| ==> r[k] == up[|up| - 1 - k];
      r
  }

  /** Both scripts walk the same coordinate sequence. */
  lemma SpansAgree(a: int, b: int)
    ensures PythonSpan(a, b) == RustSpan(a, b)
  {
  }

  /** A span holds each value between its ends exactly once. */
  lemma SpanCount(a: int, b: int, v: int)
    ensures multiset(PythonSpan(a, b))[v] == if Between(a, b, v) then 1 else 0
  {
    var r := PythonSpan(a, b);
    if Between(a, b, v) {
      var k := if a <= b then v - a else a - v;
      assert r[k] == v;
      DistinctCount(r, k);
    } else {
      assert v !in r;
    }
  }

  /** In a sequence without repeats, a present value occurs once. */
  lemma {:induction false} DistinctCount(r: seq<int>, k: nat)
    requires k < |r|
    requires forall i, j :: 0 <= i < j < |r| ==> r[i] != r[j]
    ensures multiset(r)[r[k]] == 1
  {
    assert r == r[..k] + [r[k]] + r[k + 1..];
    assert r[k] !in r[..k];
    assert r[k] !in r[k + 1..];
  }

  // ---------------------------------------------------------------------------
  // The cells of a segment

  predicate AxisAligned(s: Segment)
  {
    s.x1 == s.x2 || s.y1 == s.y2
  }

  /** Independent description of a kept segment's cells: the rectangle
      spanned by its ends. */
  predicate Covers(s: Segment, c: Cell)
  {
    Between(s.x1, s.x2, c.x) && Between(s.y1, s.y2, c.y)
  }

  function Row(x: int, ys: seq<int>): (r: seq<Cell>)
    ensures |r| == |ys| && forall k :: 0 <= k < |ys| ==> r[k] == Cell(x, ys[k])
  {
    seq(|ys|, k requires 0 <= k < |ys| => Cell(x, ys[k]))
  }

  /** `for x in xs: for y in ys`. */
  function Product(xs: seq<int>, ys: seq<int>): seq<Cell>
  {
    if |xs| == 0 then [] else Row(xs[0], ys) + Product(xs[1..], ys)
  }

  lemma RowCount(x: int, ys: seq<int>, c: Cell)
    ensures multiset(Row(x, ys))[c] == if c.x == x then multiset(ys)[c.y] else 0
  {
    if |ys| > 0 {
      var n := |ys| - 1;
      RowCount(x, ys[..n], c);
      assert Row(x, ys) == Row(x, ys[..n]) + [Cell(x, ys[n])];
      assert ys == ys[..n] + [ys[n]];
    }
  }

  /** When `c.x` occurs at most once among the xs, `c` occurs in the product
      as often as `c.y` occurs among the ys, if `c.x` is an x at all. */
  lemma {:induction false} ProductCount(xs: seq<int>, ys: seq<int>, c: Cell)
    requires multiset(xs)[c.x] <= 1
    ensures multiset(Product(xs, ys))[c] == if c.x in xs then multiset(ys)[c.y] else 0
  {
    if |xs| > 0 {
      var rest := xs[1..];
      assert xs == [xs[0]] + rest;
      assert multiset(xs) == multiset{xs[0]} + multiset(rest);
      ProductCount(rest, ys, c);
      RowCount(xs[0], ys, c);
      assert multiset(Product(xs, ys)) == multiset(Row(xs[0], ys)) + multiset(Product(rest, ys));
      if xs[0] == c.x {
        assert c.x !in rest;
      }
    }
  }

  /** vents.py: the cells a line increments, none for a diagonal line. */
  function PythonCells(s: Segment): seq<Cell>
  {
    if !AxisAligned(s) then []
    else Product(PythonSpan(s.x1, s.x2), PythonSpan(s.y1, s.y2))
  }

  /** A kept segment increments exactly the cells it covers, each once, and
      |x2 − x1| + |y2 − y1| + 1 of them. */
  lemma PythonCellsCount(s: Segment, c: Cell)
    ensures multiset(PythonCells(s))[c] == if AxisAligned(s) && Covers(s, c) then 1 else 0
  {
    if AxisAligned(s) {
      SpanCount(s.x1, s.x2, c.x);
      SpanCount(s.y1, s.y2, c.y);
      ProductCount(PythonSpan(s.x1, s.x2), PythonSpan(s.y1, s.y2), c);
      assert c.x in PythonSpan(s.x1, s.x2) <==> Between(s.x1, s.x2, c.x) by {
        assert c.x in PythonSpan(s.x1, s.x2) <==> c.x in multiset(PythonSpan(s.x1, s.x2));
      }
    }
  }

  lemma {:induction false} PythonCellsLength(s: Segment)
    requires AxisAligned(s)
    ensures |PythonCells(s)| == Abs(s.x2 - s.x1) + Abs(s.y2 - s.y1) + 1
  {
    var xs := PythonSpan(s.x1, s.x2);
    var ys := PythonSpan(s.y1, s.y2);
    if s.x1 == s.x2 {
      assert Product(xs, ys) == Row(s.x1, ys) + Product([], ys) by {
        assert xs == [s.x1];
        assert xs[1..] == [];
      }
    } else {
      assert ys == [s.y1];
      ProductOfColumn(xs, s.y1);
    }
  }

  /** vents2: `xs.zip_longest(&ys)`, the shorter side padded with its first
      element. */
  function ZipLongest(xs: seq<int>, ys: seq<int>): (r: seq<Cell>)
    requires |xs| > 0 && |ys| > 0
    ensures |r| == if |xs| >= |ys| then |xs| else |ys|
  {
    var n := if |xs| >= |ys| then |xs| else |ys|;
    seq(n, k requires 0 <= k < n =>
      Cell(if k < |xs| then xs[k] else xs[0], if k < |ys| then ys[k] else ys[0]))
  }

  /** The points vents2 increments for a segment; diagonals are not skipped. */
  function RustPoints(s: Segment): (pts: seq<Cell>)
    ensures |pts| == (if Abs(s.x2 - s.x1) >= Abs(s.y2 - s.y1) then Abs(s.x2 - s.x1) else Abs(s.y2 - s.y1)) + 1
  {
    ZipLongest(RustSpan(s.x1, s.x2), RustSpan(s.y1, s.y2))
  }

  /** On a 45° segment the k-th point is (x1 ± k, y1 ± k), from one end to
      the other. */
  lemma RustDiagonal(s: Segment)
    requires Abs(s.x2 - s.x1) == Abs(s.y2 - s.y1)
    ensures forall k :: 0 <= k < |RustPoints(s)| ==>
      RustPoints(s)[k] == Cell(if s.x1 <= s.x2 then s.x1 + k else s.x1 - k,
                               if s.y1 <= s.y2 then s.y1 + k else s.y1 - k)
    ensures RustPoints(s)[0] == Cell(s.x1, s.y1)
    ensures RustPoints(s)[|RustPoints(s)| - 1] == Cell(s.x2, s.y2)
  {
    var xs := RustSpan(s.x1, s.x2);
    var ys := RustSpan(s.y1, s.y2);
    var pts := RustPoints(s);
    assert |pts| == |xs| == |ys|;
    forall k | 0 <= k < |pts|
      ensures pts[k] == Cell(xs[k], ys[k])
    {
    }
  }

  /** On a horizontal or vertical segment the padded coordinate is shared by
      every point, and vents2 walks exactly vents.py's cells, in the same
      order. */
  lemma RustAgreesOnAxisAligned(s: Segment)
    requires AxisAligned(s)
    ensures s.x1 == s.x2 ==> forall k :: 0 <= k < |RustPoints(s)| ==> RustPoints(s)[k].x == s.x1
    ensures s.y1 == s.y2 ==> forall k :: 0 <= k < |RustPoints(s)| ==> RustPoints(s)[k].y == s.y1
    ensures RustPoints(s) == PythonCells(s)
  {
    var xs := PythonSpan(s.x1, s.x2);
    var ys := PythonSpan(s.y1, s.y2);
    SpansAgree(s.x1, s.x2);
    SpansAgree(s.y1, s.y2);
    if s.x1 == s.x2 {
      assert xs == [s.x1];
      assert Product(xs, ys) == Row(s.x1, ys) + Product([], ys) by {
        assert xs[1..] == [];
      }
    } else {
      assert ys == [s.y1];
      ProductOfColumn(xs, s.y1);
    }
  }

  lemma {:induction false} ProductOfColumn(xs: seq<int>, y: int)
    ensures |Product(xs, [y])| == |xs|
    ensures forall k :: 0 <= k < |xs| ==> Product(xs, [y])[k] == Cell(xs[k], y)
  {
    if |xs| > 0 {
      ProductOfColumn(xs[1..], y);
      assert Product(xs, [y]) == [Cell(xs[0], y)] + Product(xs[1..], [y]);
    }
  }

  // ---------------------------------------------------------------------------
  // The grid of counts

  /** The `defaultdict(int)` / `HashMap` of counts: only painted cells are keys. */
  type Counts = map<Cell, nat>

  function Get(g: Counts, c: Cell): nat
  {
    if c in g then g[c] else 0
  }

  /** `grid[(x, y)] += 1`. */
  function Paint(g: Counts, pts: seq<Cell>): Counts
  {
    if |pts| == 0 then g
    else
      var h := Paint(g, pts[..|pts| - 1]);
      var c := pts[|pts| - 1];
      h[c := Get(h, c) + 1]
  }

  /** Each point adds one to its own cell and nothing elsewhere: the count of
      a cell goes up by the number of times it occurs, and the keys grow by
      the painted cells. */
  lemma {:induction false} PaintCount(g: Counts, pts: seq<Cell>, c: Cell)
    ensures Get(Paint(g, pts), c) == Get(g, c) + multiset(pts)[c]
    ensures c in Paint(g, pts) <==> c in g || c in pts
  {
    if |pts| > 0 {
      var n := |pts| - 1;
      PaintCount(g, pts[..n], c);
      assert pts == pts[..n] + [pts[n]];
    }
  }

  /** The painted grid depends only on which cells are painted how often, not
      on the order of painting. */
  lemma PaintPermutation(g: Counts, a: seq<Cell>, b: seq<Cell>)
    requires multiset(a) == multiset(b)
    ensures Paint(g, a) == Paint(g, b)
  {
    forall c | true
      ensures Get(Paint(g, a), c) == Get(Paint(g, b), c)
      ensures c in Paint(g, a) <==> c in Paint(g, b)
    {
      PaintCount(g, a, c);
      PaintCount(g, b, c);
      assert c in a <==> c in multiset(a);
      assert c in b <==> c in multiset(b);
    }
    MapsEqual(Paint(g, a), Paint(g, b));
  }

  lemma MapsEqual(m: Counts, n: Counts)
    requires forall c :: c in m <==> c in n
    requires forall c :: Get(m, c) == Get(n, c)
    ensures m == n
  {
    assert forall c | c in m :: m[c] == Get(m, c) == Get(n, c) == n[c];
  }

  /** vents.py's loop over the segments. */
  function PythonGrid(segs: seq<Segment>): Counts
  {
    if |segs| == 0 then map[]
    else Paint(PythonGrid(segs[..|segs| - 1]), PythonCells(segs[|segs| - 1]))
  }

  /** vents2's loop over the segments. */
  function RustGrid(segs: seq<Segment>): Counts
  {
    if |segs| == 0 then map[]
    else Paint(RustGrid(segs[..|segs| - 1]), RustPoints(segs[|segs| - 1]))
  }

  predicate KeptAndCovers(c: Cell, s: Segment)
  {
    AxisAligned(s) && Covers(s, c)
  }

  /** How many kept segments cover `c`. */
  function Coverage(segs: seq<Segment>, c: Cell): nat
  {
    CountWhere(segs, s => KeptAndCovers(c, s))
  }

  /** Each cell's count is the number of kept segments covering it, and only
      covered cells appear in the grid. */
  lemma {:induction false} PythonGridCount(segs: seq<Segment>, c: Cell)
    ensures Get(PythonGrid(segs), c) == Coverage(segs, c)
    ensures c in PythonGrid(segs) <==> Get(PythonGrid(segs), c) > 0
  {
    if |segs| > 0 {
      var n := |segs| - 1;
      PythonGridCount(segs[..n], c);
      PaintCount(PythonGrid(segs[..n]), PythonCells(segs[n]), c);
      PythonCellsCount(segs[n], c);
      assert c in PythonCells(segs[n]) <==> c in multiset(PythonCells(segs[n]));
    }
  }

  function Swap(s: Segment): Segment
  {
    Segment(s.x2, s.y2, s.x1, s.y1)
  }

  /** Swapping a segment's endpoints leaves the painted grid unchanged. */
  lemma {:induction false} PythonGridSwap(segs: seq<Segment>, k: nat)
    requires k < |segs|
    ensures PythonGrid(segs[k := Swap(segs[k])]) == PythonGrid(segs)
  {
    var swapped := segs[k := Swap(segs[k])];
    forall c | true
      ensures Get(PythonGrid(swapped), c) == Get(PythonGrid(segs), c)
      ensures c in PythonGrid(swapped) <==> c in PythonGrid(segs)
    {
      PythonGridCount(segs, c);
      PythonGridCount(swapped, c);
      assert Coverage(swapped, c) == Coverage(segs, c) by {
        CountWhereSwap(segs, k, s => KeptAndCovers(c, s));
      }
    }
    MapsEqual(PythonGrid(swapped), PythonGrid(segs));
  }

  /** Replacing one segment by its swap does not change how many segments
      cover a cell. */
  lemma CountWhereSwap(segs: seq<Segment>, k: nat, p: Segment -> bool)
    requires k < |segs|
    requires p(Swap(segs[k])) == p(segs[k])
    ensures CountWhere(segs[k := Swap(segs[k])], p) == CountWhere(segs, p)
  {
    var swapped := segs[k := Swap(segs[k])];
    assert segs == segs[..k] + [segs[k]] + segs[k + 1..];
    assert swapped == segs[..k] + [Swap(segs[k])] + segs[k + 1..];
    CountWhereAppend(segs[..k] + [segs[k]], segs[k + 1..], p);
    CountWhereAppend(segs[..k], [segs[k]], p);
    CountWhereAppend(segs[..k] + [Swap(segs[k])], segs[k + 1..], p);
    CountWhereAppend(segs[..k], [Swap(segs[k])], p);
    assert [segs[k]][..0] == [];
    assert [Swap(segs[k])][..0] == [];
  }

  /** When every segment is horizontal or vertical, both scripts build the
      same grid. */
  lemma {:induction false} GridsAgreeOnAxisAligned(segs: seq<Segment>)
    requires forall k :: 0 <= k < |segs| ==> AxisAligned(segs[k])
    ensures RustGrid(segs) == PythonGrid(segs)
  {
    if |segs| > 0 {
      var n := |segs| - 1;
      assert RustGrid(segs[..n]) == PythonGrid(segs[..n]) by {
        assert forall k :: 0 <= k < n ==> segs[..n][k] == segs[k];
        GridsAgreeOnAxisAligned(segs[..n]);
      }
      assert RustPoints(segs[n]) == PythonCells(segs[n]) by {
        RustAgreesOnAxisAligned(segs[n]);
      }
      GridsStep(segs);
    }
  }

  /** Both loops paint the last segment onto the grid of the others; when
      those grids and the last segment's cells agree, so do the results. */
  lemma GridsStep(segs: seq<Segment>)
    requires |segs| > 0
    requires RustGrid(segs[..|segs| - 1]) == PythonGrid(segs[..|segs| - 1])
    requires RustPoints(segs[|segs| - 1]) == PythonCells(segs[|segs| - 1])
    ensures RustGrid(segs) == PythonGrid(segs)
  {
  }

  /** The printed answer: the number of cells painted more than once. */
  function Overlaps(g: Counts): nat
  {
    |set c | c in g && g[c] > 1|
  }

  // ---------------------------------------------------------------------------
  // Reading the lines

  /** `x, y = map(int, p.split(','))`. */
  function ParsePair(p: string): Option<(int, int)>
  {
    var parts := SplitOn(p, ',');
    if |parts| != 2 then None
    else match (ParseInt(parts[0]), ParseInt(parts[1]))
      case (Some(x), Some(y)) => Some((x, y))
      case _ => None
  }

  /** vents.py on one line: `start, _, stop = line.split(' ')`; the middle
      token is not inspected, and anything else raises ValueError. */
  function PythonSegment(line: string): Result<Segment>
  {
    PartsSegment(SplitOn(RStrip(line), ' '))
  }

  /** The unpacking of the split line into a segment. */
  function PartsSegment(parts: seq<string>): Result<Segment>
  {
    if |parts| != 3 then Err("ValueError: wrong number of values to unpack")
    else
      var start, stop := ParsePair(parts[0]), ParsePair(parts[2]);
      if start.Some? && stop.Some? then Ok(Segment(start.value.0, start.value.1, stop.value.0, stop.value.1))
      else Err("ValueError: invalid segment")
  }

  /** The loop stops at the first line that does not parse; otherwise each
      line gives its segment, in order. */
  function PythonSegments(lines: seq<string>): (r: Result<seq<Segment>>)
    ensures r.Ok? <==> forall k :: 0 <= k < |lines| ==> PythonSegment(lines[k]).Ok?
    ensures r.Ok? ==> |r.value| == |lines|
    ensures r.Ok? ==> forall k :: 0 <= k < |lines| ==> PythonSegment(lines[k]) == Ok(r.value[k])
  {
    var r := AllOk(LineSegments(lines));
    assert forall k :: 0 <= k < |lines| ==> PythonSegment(lines[k]) == LineSegments(lines)[k];
    r
  }

  /** The outcome of each line on its own. */
  function LineSegments(lines: seq<string>): seq<Result<Segment>>
  {
    seq(|lines|, k requires 0 <= k < |lines| => PythonSegment(lines[k]))
  }

  /** A line that parses after lines that parse adds its segment at the end. */
  lemma PythonSegmentsSnoc(lines: seq<string>)
    requires |lines| > 0
    requires PythonSegments(lines[..|lines| - 1]).Ok? && PythonSegment(lines[|lines| - 1]).Ok?
    ensures PythonSegments(lines) ==
      Ok(PythonSegments(lines[..|lines| - 1]).value + [PythonSegment(lines[|lines| - 1]).value])
  {
    var n := |lines| - 1;
    var rs := LineSegments(lines);
    assert rs[..n] == LineSegments(lines[..n]);
    AllOkSnoc(rs);
  }

  /** vents.py: the answer, or the error that stops it. */
  function PythonVents(lines: seq<string>): (r: Result<nat>)
    ensures r.Ok? <==> forall k :: 0 <= k < |lines| ==> PythonSegment(lines[k]).Ok?
  {
    match PythonSegments(lines)
    case Err(e) => Err(e)
    case Ok(segs) => Ok(Overlaps(PythonGrid(segs)))
  }

  /** The printed number counts the cells that two or more kept segments
      cover. */
  lemma PythonOverlaps(segs: seq<Segment>)
    ensures Overlaps(PythonGrid(segs)) == |set c | c in PythonGrid(segs) && Coverage(segs, c) > 1|
  {
    var g := PythonGrid(segs);
    forall c | c in g
      ensures g[c] == Coverage(segs, c)
    {
      PythonGridCount(segs, c);
    }
    assert (set c | c in g && g[c] > 1) == (set c | c in g && Coverage(segs, c) > 1);
  }

  /** `\d+,\d+` of the vents2 pattern. */
  function NatPair(p: string): Option<(int, int)>
  {
    var parts := SplitOn(p, ',');
    if |parts| == 2 && IsDecimal(parts[0]) && IsDecimal(parts[1])
    then Some((DecimalValue(parts[0]) as int, DecimalValue(parts[1]) as int))
    else None
  }

  /** The vents2 pattern `^(\d+),(\d+)\s+->\s+(\d+),(\d+)$`: no space at
      either end, and three words, the middle one `->`. */
  function RustSegment(line: string): (r: Option<Segment>)
    ensures r.Some? ==> r.value.x1 >= 0 && r.value.y1 >= 0 && r.value.x2 >= 0 && r.value.y2 >= 0
  {
    if |line| == 0 || IsSpace(line[0]) || IsSpace(line[|line| - 1]) then None
    else WordsSegment(Words(line))
  }

  /** The pattern's three words: two pairs around `->`. */
  function WordsSegment(ws: seq<string>): (r: Option<Segment>)
    ensures r.Some? ==> r.value.x1 >= 0 && r.value.y1 >= 0 && r.value.x2 >= 0 && r.value.y2 >= 0
  {
    if |ws| != 3 || ws[1] != "->" then None
    else
      var start, stop := NatPair(ws[0]), NatPair(ws[2]);
      if start.Some? && stop.Some? then Some(Segment(start.value.0, start.value.1, stop.value.0, stop.value.1))
      else None
  }

  /** Lines that do not match the pattern are skipped. */
  function RustSegments(lines: seq<string>): (segs: seq<Segment>)
    ensures |segs| <= |lines|
    ensures forall k :: 0 <= k < |segs| ==> exists j :: 0 <= j < |lines| && RustSegment(lines[j]) == Some(segs[k])
  {
    if |lines| == 0 then []
    else
      var front := RustSegments(lines[..|lines| - 1]);
      var last := lines[|lines| - 1];
      match RustSegment(last)
      case None => front
      case Some(s) => front + [s]
  }

  /** When every line matches, each gives its segment, in order. */
  lemma {:induction false} RustSegmentsAllMatch(lines: seq<string>)
    requires forall j :: 0 <= j < |lines| ==> RustSegment(lines[j]).Some?
    ensures |RustSegments(lines)| == |lines|
    ensures forall k :: 0 <= k < |lines| ==> RustSegment(lines[k]) == Some(RustSegments(lines)[k])
  {
    if |lines| > 0 {
      var n := |lines| - 1;
      var front := lines[..n];
      assert forall j :: 0 <= j < n ==> front[j] == lines[j];
      RustSegmentsAllMatch(front);
      var segs := RustSegments(front) + [RustSegment(lines[n]).value];
      assert RustSegments(lines) == segs;
      forall k | 0 <= k < |lines|
        ensures RustSegment(lines[k]) == Some(segs[k])
      {
        if k < n {
          assert lines[k] == front[k] && segs[k] == RustSegments(front)[k];
          assert RustSegment(front[k]) == Some(RustSegments(front)[k]);
          assert RustSegment(lines[k]) == Some(segs[k]);
        } else {
          var r := RustSegment(lines[n]);
          assert r.Some?;
          assert r == Some(r.value) && k == n && segs[n] == r.value;
        }
      }
    }
  }

  /** The segments of two blocks of lines are those of each block, in order. */
  lemma {:induction false} RustSegmentsAppend(a: seq<string>, b: seq<string>)
    ensures RustSegments(a + b) == RustSegments(a) + RustSegments(b)
    decreases |b|
  {
    if |b| == 0 {
      assert a + b == a;
    } else {
      var n := |b| - 1;
      assert (a + b)[..|a + b| - 1] == a + b[..n];
      RustSegmentsAppend(a, b[..n]);
      var t := if RustSegment(b[n]).Some? then [RustSegment(b[n]).value] else [];
      AppendAssoc(RustSegments(a), RustSegments(b[..n]), t);
    }
  }

  function RustVents(lines: seq<string>): nat
  {
    Overlaps(RustGrid(RustSegments(lines)))
  }

  /** When both scripts read the same segments and none is diagonal, they
      print the same number. */
  lemma VentsAgree(lines: seq<string>)
    requires PythonSegments(lines) == Ok(RustSegments(lines))
    requires forall k :: 0 <= k < |RustSegments(lines)| ==> AxisAligned(RustSegments(lines)[k])
    ensures PythonVents(lines) == Ok(RustVents(lines))
  {
    GridsAgreeOnAxisAligned(RustSegments(lines));
  }

  // ---------------------------------------------------------------------------
  // Well-formed input

  /** A line of the puzzle input: `a,b -> c,d` with four decimal numerals. */
  predicate SegmentText(line: string, a: string, b: string, c: string, d: string)
  {
    && IsDecimal(a) && IsDecimal(b) && IsDecimal(c) && IsDecimal(d)
    && line == a + "," + b + " -> " + c + "," + d
  }

  /** `a,b` splits at its comma into the two numerals. */
  lemma PairSplits(a: string, b: string)
    requires IsDecimal(a) && IsDecimal(b)
    ensures SplitOn(a + "," + b, ',') == [a, b]
  {
    var parts := [a, b];
    assert parts[1..] == [b];
    assert JoinWith(parts, ',') == a + "," + b;
    SplitJoin(parts, ',');
  }

  /** Python's `map(int, p.split(','))` on `a,b`. */
  lemma PairParses(a: string, b: string)
    requires IsDecimal(a) && IsDecimal(b)
    ensures ParsePair(a + "," + b) == Some((DecimalValue(a) as int, DecimalValue(b) as int))
  {
    PairSplits(a, b);
    assert a[0] != '-' && b[0] != '-';
  }

  /** The Rust pattern's `\d+,\d+` on `a,b`. */
  lemma PairMatches(a: string, b: string)
    requires IsDecimal(a) && IsDecimal(b)
    ensures NatPair(a + "," + b) == Some((DecimalValue(a) as int, DecimalValue(b) as int))
  {
    PairSplits(a, b);
  }

  /** `a,b` holds no whitespace. */
  lemma PairNoSpace(a: string, b: string)
    requires IsDecimal(a) && IsDecimal(b)
    ensures |a + "," + b| > 0 && NoSpace(a + "," + b)
  {
    NoSpaceDecimal(a);
    NoSpaceDecimal(b);
    NoSpaceAppend(a, ",");
    NoSpaceAppend(a + ",", b);
  }

  /** A segment line is its three words joined by single spaces. */
  lemma SegmentTextJoin(a: string, b: string, c: string, d: string)
    ensures a + "," + b + " -> " + c + "," + d == JoinWith([a + "," + b, "->", c + "," + d], ' ')
  {
    var p, q := a + "," + b, c + "," + d;
    var y := p + " -> ";
    AppendAssoc(y, c, ",");
    AppendAssoc(y, c + ",", d);
    var parts := [p, "->", q];
    assert parts[1..] == ["->", q] && parts[1..][1..] == [q];
    assert JoinWith(parts[1..], ' ') == "->" + [' '] + q;
    assert JoinWith(parts, ' ') == p + [' '] + ("->" + [' '] + q);
    assert [' '] + "->" + [' '] == " -> ";
    SpacedJoin(p, ' ', "->", q);
  }

  lemma SpacedJoin<T>(x: seq<T>, s: T, y: seq<T>, z: seq<T>)
    ensures x + [s] + (y + [s] + z) == x + ([s] + y + [s]) + z
  {
  }

  /** Three words without spaces, joined by single spaces, split back into
      the same three, by `split(' ')` and by `\s+` alike. */
  lemma ThreeWords(p: string, q: string)
    requires |p| > 0 && |q| > 0 && NoSpace(p) && NoSpace(q)
    ensures SplitOn(JoinWith([p, "->", q], ' '), ' ') == [p, "->", q]
    ensures Words(JoinWith([p, "->", q], ' ')) == [p, "->", q]
  {
    var parts := [p, "->", q];
    assert NoSpace("->");
    assert forall k :: 0 <= k < 3 ==> NoSpace(parts[k]);
    assert forall k, i :: 0 <= k < 3 && 0 <= i < |parts[k]| ==> parts[k][i] != ' ' by {
      forall k, i | 0 <= k < 3 && 0 <= i < |parts[k]|
        ensures parts[k][i] != ' '
      {
        assert !IsSpace(parts[k][i]);
      }
    }
    SplitJoin(parts, ' ');
    WordsJoin(parts);
  }

  /** On a well-formed line both scripts read the same segment. */
  lemma SegmentLineAgrees(line: string, a: string, b: string, c: string, d: string)
    requires SegmentText(line, a, b, c, d)
    ensures PythonSegment(line) == Ok(Segment(DecimalValue(a), DecimalValue(b), DecimalValue(c), DecimalValue(d)))
    ensures RustSegment(line) == Some(Segment(DecimalValue(a), DecimalValue(b), DecimalValue(c), DecimalValue(d)))
  {
    var p, q := a + "," + b, c + "," + d;
    var s := Segment(DecimalValue(a), DecimalValue(b), DecimalValue(c), DecimalValue(d));
    assert SplitOn(line, ' ') == [p, "->", q] && Words(line) == [p, "->", q] by {
      PairNoSpace(a, b);
      PairNoSpace(c, d);
      SegmentTextJoin(a, b, c, d);
      ThreeWords(p, q);
    }
    SegmentTextEnds(line, a, b, c, d);
    assert PythonSegment(line) == Ok(s) by {
      PairParses(a, b);
      PairParses(c, d);
      PartsRead(p, "->", q);
    }
    assert RustSegment(line) == Some(s) by {
      PairMatches(a, b);
      PairMatches(c, d);
      WordsRead(p, q);
    }
  }

  /** A well-formed line starts and ends with a digit. */
  lemma SegmentTextEnds(line: string, a: string, b: string, c: string, d: string)
    requires SegmentText(line, a, b, c, d)
    ensures |line| > 0 && !IsSpace(line[0]) && !IsSpace(line[|line| - 1]) && RStrip(line) == line
  {
    var x := a + "," + b + " -> " + c + ",";
    assert line == x + d;
    assert line[|line| - 1] == d[|d| - 1];
    assert IsDigit(d[|d| - 1]) && IsDigit(a[0]);
    assert line[0] == a[0];
  }

  /** vents.py unpacks three parts whose ends are pairs into the segment
      between them, whatever the middle part is. */
  lemma PartsRead(p: string, middle: string, q: string)
    requires ParsePair(p).Some? && ParsePair(q).Some?
    ensures PartsSegment([p, middle, q]) ==
      Ok(Segment(ParsePair(p).value.0, ParsePair(p).value.1, ParsePair(q).value.0, ParsePair(q).value.1))
  {
    var parts := [p, middle, q];
    assert |parts| == 3 && parts[0] == p && parts[2] == q;
  }

  /** The vents2 pattern reads three words `p -> q` whose ends are pairs as
      the segment between them. */
  lemma WordsRead(p: string, q: string)
    requires NatPair(p).Some? && NatPair(q).Some?
    ensures WordsSegment([p, "->", q]) ==
      Some(Segment(NatPair(p).value.0, NatPair(p).value.1, NatPair(q).value.0, NatPair(q).value.1))
  {
    var ws := [p, "->", q];
    assert |ws| == 3 && ws[0] == p && ws[1] == "->" && ws[2] == q;
  }

  /** `line` is a well-formed line of the puzzle input. */
  ghost predicate IsSegmentLine(line: string)
  {
    exists a, b, c, d :: SegmentText(line, a, b, c, d)
  }

  /** On well-formed input the two scripts read the same segments. */
  lemma {:induction false} SegmentsAgree(lines: seq<string>)
    requires forall i :: 0 <= i < |lines| ==> IsSegmentLine(lines[i])
    ensures PythonSegments(lines) == Ok(RustSegments(lines))
  {
    if |lines| > 0 {
      var n := |lines| - 1;
      var front := lines[..n];
      assert PythonSegments(front) == Ok(RustSegments(front)) by {
        assert forall i :: 0 <= i < n ==> front[i] == lines[i];
        SegmentsAgree(front);
      }
      var a, b, c, d :| SegmentText(lines[n], a, b, c, d);
      SegmentLineAgrees(lines[n], a, b, c, d);
      PythonSegmentsSnoc(lines);
    }
  }

  /** `line` is a well-formed line whose segment is horizontal or vertical. */
  ghost predicate IsAxisLine(line: string)
  {
    exists a, b, c, d :: SegmentText(line, a, b, c, d) &&
      (DecimalValue(a) == DecimalValue(c) || DecimalValue(b) == DecimalValue(d))
  }

  /** On well-formed input without diagonals, vents.py and vents2 print the
      same number. */
  lemma TextVentsAgree(lines: seq<string>)
    requires forall i :: 0 <= i < |lines| ==> IsAxisLine(lines[i])
    ensures PythonVents(lines) == Ok(RustVents(lines))
  {
    forall k | 0 <= k < |lines|
      ensures RustSegment(lines[k]).Some? && AxisAligned(RustSegment(lines[k]).value)
    {
      var a, b, c, d :| SegmentText(lines[k], a, b, c, d) &&
        (DecimalValue(a) == DecimalValue(c) || DecimalValue(b) == DecimalValue(d));
      SegmentLineAgrees(lines[k], a, b, c, d);
    }
    SegmentsAgree(lines);
    RustSegmentsAllMatch(lines);
    VentsAgree(lines);
  }
}
