/** Basin growth around each low point, bounded by cells of height 9, and the
    basin script's answer: the product of the three largest basin sizes. */
module Basins {
  import opened Util
  import opened Grid
  import opened LowPoints

  /** The height that stops a basin from growing. */
  const Barrier: int := 9

  /** No member of `s` has a neighbour outside `s` below the barrier height. */
  ghost predicate Closed(g: Heights, s: set<Point>)
    requires IsGrid(g)
  {
    forall m, q :: m in s && InBounds(m, ShapeOf(g)) && q in Neighbors(m, ShapeOf(g)) ==>
      q in s || Value(g, q) == Barrier
  }

  /** `basin` is what growing from `low` must give: it holds `low`, lies on the
      grid, is closed, and is contained in every closed set holding `low`. */
  ghost predicate IsBasinOf(g: Heights, low: Point, basin: set<Point>)
    requires IsGrid(g)
  {
    && low in basin
    && basin <= Cells(ShapeOf(g))
    && Closed(g, basin)
    && forall s :: low in s && Closed(g, s) ==> basin <= s
  }

  /** One round of growth: the neighbours of the basin that are below the
      barrier and not yet in it, all added together. */
  function GrowthRound(g: Heights, basin: set<Point>): (added: set<Point>)
    requires IsGrid(g)
    ensures added <= Cells(ShapeOf(g))
    ensures added !! basin
    ensures forall q :: q in added ==> Value(g, q) != Barrier
    ensures forall q :: q in added ==>
      exists m :: m in basin && InBounds(m, ShapeOf(g)) && q in Neighbors(m, ShapeOf(g))
  {
    set m, q | m in basin && InBounds(m, ShapeOf(g)) && q in Neighbors(m, ShapeOf(g))
                 && Value(g, q) != Barrier && q !in basin :: q
  }

  /** A set with nothing left to add is closed. */
  lemma NoGrowthIsClosed(g: Heights, basin: set<Point>)
    requires IsGrid(g) && GrowthRound(g, basin) == {}
    ensures Closed(g, basin)
  {
  }

  /** The basin loop: start from `{low}` and add every qualifying neighbour
      each round until a round adds nothing. */
  method GrowBasin(g: Heights, low: Point) returns (basin: set<Point>)
    requires IsGrid(g) && InBounds(low, ShapeOf(g))
    ensures IsBasinOf(g, low, basin)
    ensures forall b :: b in basin && b != low ==> Value(g, b) != Barrier
  {
    var cells := Cells(ShapeOf(g));
    basin := {low};
    while true
      invariant low in basin && basin <= cells
      invariant forall b :: b in basin && b != low ==> Value(g, b) != Barrier
      invariant forall s :: low in s && Closed(g, s) ==> basin <= s
      decreases cells - basin
    {
      var added := GrowthRound(g, basin);
      if added == {} {
        NoGrowthIsClosed(g, basin);
        return;
      }
      forall s | low in s && Closed(g, s)
        ensures added <= s
      {
        forall q | q in added ensures q in s {
          var m :| m in basin && InBounds(m, ShapeOf(g)) && q in Neighbors(m, ShapeOf(g));
        }
      }
      basin := basin + added;
    }
  }

  /** The basin of a seed is determined by the seed alone, whatever order
      cells are added in. */
  lemma BasinUnique(g: Heights, low: Point, b1: set<Point>, b2: set<Point>)
    requires IsGrid(g) && IsBasinOf(g, low, b1) && IsBasinOf(g, low, b2)
    ensures b1 == b2
  {
  }

  /** Regrowing from any member of a basin stays inside that basin. */
  lemma RegrowWithinBasin(g: Heights, low: Point, basin: set<Point>, m: Point, again: set<Point>)
    requires IsGrid(g) && IsBasinOf(g, low, basin) && m in basin && IsBasinOf(g, m, again)
    ensures again <= basin
  {
  }

  // ---------------------------------------------------------------------------
  // The answer: product of the three largest basin sizes

  function Product(s: seq<int>): int
  {
    if |s| == 0 then 1 else s[0] * Product(s[1..])
  }

  function Min(a: int, b: int): int
  {
    if a < b then a else b
  }

  /** `list(reversed(sorted(sizes)))[:3]`: up to three sizes, largest first. */
  function LargestThree(sizes: seq<int>): (top: seq<int>)
    ensures |top| == Min(3, |sizes|)
  {
    Reverse(Sort(sizes))[..Min(3, |sizes|)]
  }

  predicate SortedDesc(s: seq<int>)
  {
    forall i, j :: 0 <= i < j < |s| ==> s[i] >= s[j]
  }

  lemma ReverseSortedDesc(s: seq<int>)
    requires SortedAsc(s)
    ensures SortedDesc(Reverse(s))
  {
    var r := Reverse(s);
    forall i, j | 0 <= i < j < |r| ensures r[i] >= r[j] {
      assert r[i] == s[|s| - 1 - i] && r[j] == s[|s| - 1 - j];
    }
  }

  /** In a non-increasing sequence every element of a prefix is at least every
      element after it. */
  lemma PrefixDominates(d: seq<int>, k: int)
    requires SortedDesc(d) && 0 <= k <= |d|
    ensures forall x, y :: x in d[..k] && y in d[k..] ==> y <= x
  {
    forall x, y | x in d[..k] && y in d[k..] ensures y <= x {
      var i :| 0 <= i < k && d[..k][i] == x;
      var j :| 0 <= j < |d| - k && d[k..][j] == y;
      assert x == d[i] && y == d[k + j];
    }
  }

  lemma SplitMultiset(d: seq<int>, k: int)
    requires 0 <= k <= |d|
    ensures multiset(d[..k]) <= multiset(d)
    ensures multiset(d) - multiset(d[..k]) == multiset(d[k..])
  {
    assert d == d[..k] + d[k..];
  }

  /** The sizes kept are the largest ones: they come from the input, in
      non-increasing order, and every size left out is at most each size kept. */
  lemma LargestThreeAreLargest(sizes: seq<int>)
    ensures multiset(LargestThree(sizes)) <= multiset(sizes)
    ensures SortedDesc(LargestThree(sizes))
    ensures forall x, y ::
      x in LargestThree(sizes) && y in multiset(sizes) - multiset(LargestThree(sizes)) ==> y <= x
  {
    var desc := Reverse(Sort(sizes));
    var k := Min(3, |sizes|);
    var top := LargestThree(sizes);
    assert top == desc[..k];
    assert multiset(desc) == multiset(sizes) by {
      ReverseMultiset(Sort(sizes));
    }
    assert SortedDesc(desc) by {
      ReverseSortedDesc(Sort(sizes));
    }
    SplitMultiset(desc, k);
    PrefixDominates(desc, k);
    assert SortedDesc(top) by {
      forall i, j | 0 <= i < j < |top| ensures top[i] >= top[j] {
        assert top[i] == desc[i] && top[j] == desc[j];
      }
    }
    forall x, y | x in top && y in multiset(sizes) - multiset(top) ensures y <= x {
      assert y in multiset(desc[k..]);
      assert y in desc[k..];
    }
  }

  /** The basin script's printed product: 1 for no basins, else the product of
      the (up to) three largest sizes. */
  function TopThreeProduct(sizes: seq<int>): (r: int)
    ensures |sizes| == 0 ==> r == 1
    ensures |sizes| == 1 ==> r == sizes[0]
  {
    var top := LargestThree(sizes);
    LargestThreeAreLargest(sizes);
    if |sizes| == 1 then
      assert sizes == [sizes[0]] && top == [top[0]];
      assert top[0] in multiset(sizes);
      assert Product(top) == top[0] * Product([]);
      Product(top)
    else
      Product(top)
  }

  /** The whole basin script on a grid: one basin per low point in scan order,
      and the product of the three largest sizes. */
  method BasinProduct(g: Heights) returns (basins: seq<set<Point>>, answer: int)
    requires IsGrid(g)
    ensures |basins| == |LowList(g)|
    ensures forall i :: 0 <= i < |basins| ==> IsBasinOf(g, LowList(g)[i], basins[i])
    ensures answer == TopThreeProduct(Sizes(basins))
  {
    var lows := LowList(g);
    basins := [];
    var i := 0;
    while i < |lows|
      invariant 0 <= i <= |lows| && |basins| == i
      invariant forall k :: 0 <= k < i ==> IsBasinOf(g, lows[k], basins[k])
    {
      assert lows[i] in lows;
      var basin := GrowBasin(g, lows[i]);
      ghost var before := basins;
      basins := basins + [basin];
      assert forall k :: 0 <= k < i ==> basins[k] == before[k];
      i := i + 1;
    }
    answer := TopThreeProduct(Sizes(basins));
  }

  function Sizes(basins: seq<set<Point>>): (sizes: seq<int>)
    ensures |sizes| == |basins| && forall i :: 0 <= i < |basins| ==> sizes[i] == |basins[i]|
  {
    if |basins| == 0 then [] else [|basins[0]|] + Sizes(basins[1..])
  }

  /** A basin is never larger than the grid, which bounds the number of growth rounds. */
  lemma BasinSizeBound(g: Heights, low: Point, basin: set<Point>)
    requires IsGrid(g) && IsBasinOf(g, low, basin)
    ensures 1 <= |basin| <= |g| * |g[0]|
  {
    SubsetCard(basin, Cells(ShapeOf(g)));
    CellsCard(|g|, |g[0]|);
  }
}
