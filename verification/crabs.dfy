/** The crab-alignment scripts. Every candidate position from the leftmost
    to the rightmost crab is priced as the fuel all crabs spend to reach it,
    and the cheapest price is reported. crabs.py spends one unit per step;
    crabs2.py spends 1 + 2 + … + d units for a move of d steps. */
module Crabs {
  import opened Util

  /** How a crab burns fuel. */
  datatype Rate = Constant | Growing

  /** `sum(range(1, d + 1))`. */
  function Triangle(d: nat): (t: nat)
    ensures t >= d
  {
    if d == 0 then 0 else Triangle(d - 1) + d
  }

  /** The closed form of the triangular number. */
  lemma {:induction false} TriangleFormula(d: nat)
    ensures 2 * Triangle(d) == d * (d + 1)
  {
    if d > 0 {
      TriangleFormula(d - 1);
      MulSucc(d - 1, d + 1);
    }
  }

  lemma {:induction false} TriangleMonotone(a: nat, b: nat)
    requires a <= b
    ensures Triangle(a) <= Triangle(b)
    decreases b
  {
    if a < b {
      TriangleMonotone(a, b - 1);
    }
  }

  /** crabs2.py's `cost(start, end)`. */
  function Cost(start: int, end: int): (c: nat)
    ensures c >= Abs(end - start)
    ensures c == 0 <==> start == end
  {
    Triangle(Abs(end - start))
  }

  lemma CostSymmetric(a: int, b: int)
    ensures Cost(a, b) == Cost(b, a)
  {
    assert Abs(b - a) == Abs(a - b);
  }

  /** The cases `test_cost` checks; the list holds the triangular numbers
      for the distances 0 to 11. */
  lemma CostExamples(a: int, b: int)
    requires (a, b) in {(1, 2), (1, 3), (1, 4), (1, 5), (1, 6), (2, 1), (6, 1), (16, 5)}
    ensures Cost(a, b) == [0, 1, 3, 6, 10, 15, 21, 28, 36, 45, 55, 66][Abs(b - a)]
  {
    TriangleFormula(Abs(b - a));
  }

  /** `cost(a, b)` is the triangular number of the distance. */
  lemma CostClosedForm(a: int, b: int)
    ensures 2 * Cost(a, b) == Abs(b - a) * (Abs(b - a) + 1)
  {
    TriangleFormula(Abs(b - a));
  }

  /** The fuel one crab at `x` spends to reach `start`. */
  function Step(rate: Rate, start: int, x: int): nat
  {
    match rate
    case Constant => Abs(start - x)
    case Growing => Cost(start, x)
  }

  /** The price of a candidate: the sum over all crabs. */
  function Fuel(rate: Rate, pos: seq<int>, start: int): nat
  {
    if |pos| == 0 then 0
    else Fuel(rate, pos[..|pos| - 1], start) + Step(rate, start, pos[|pos| - 1])
  }

  /** A candidate costs nothing exactly when every crab is already there. */
  lemma {:induction false} FuelZero(rate: Rate, pos: seq<int>, start: int)
    ensures Fuel(rate, pos, start) == 0 <==> forall i :: 0 <= i < |pos| ==> pos[i] == start
  {
    if |pos| > 0 {
      FuelZero(rate, pos[..|pos| - 1], start);
      assert forall i :: 0 <= i < |pos| - 1 ==> pos[..|pos| - 1][i] == pos[i];
    }
  }

  lemma {:induction false} FuelAppend(rate: Rate, a: seq<int>, b: seq<int>, start: int)
    ensures Fuel(rate, a + b, start) == Fuel(rate, a, start) + Fuel(rate, b, start)
    decreases |b|
  {
    if |b| == 0 {
      assert a + b == a;
    } else {
      assert (a + b)[..|a + b| - 1] == a + b[..|b| - 1];
      FuelAppend(rate, a, b[..|b| - 1], start);
    }
  }

  /** The price does not depend on the order of the crabs, so sorting them
      first changes nothing. */
  lemma {:induction false} FuelPermutation(rate: Rate, a: seq<int>, b: seq<int>, start: int)
    requires multiset(a) == multiset(b)
    ensures Fuel(rate, a, start) == Fuel(rate, b, start)
    decreases |a|
  {
    if |a| > 0 {
      var n := |a| - 1;
      var j := RemoveLast(a, b);
      FuelPermutation(rate, a[..n], b[..j] + b[j + 1..], start);
      FuelRemove(rate, b, j, start);
    }
  }

  /** The price with the crab at index `j` taken out. */
  lemma FuelRemove(rate: Rate, b: seq<int>, j: nat, start: int)
    requires j < |b|
    ensures Fuel(rate, b, start) == Fuel(rate, b[..j] + b[j + 1..], start) + Step(rate, start, b[j])
  {
    var x := b[j];
    assert b == b[..j] + [x] + b[j + 1..];
    FuelAppend(rate, b[..j], b[j + 1..], start);
    FuelAppend(rate, b[..j] + [x], b[j + 1..], start);
    FuelAppend(rate, b[..j], [x], start);
    assert Fuel(rate, [x], start) == Step(rate, start, x) by {
      assert [x][..0] == [];
    }
  }

  /** Moving a candidate away from every crab never makes it cheaper. */
  lemma StepFartherAway(rate: Rate, s: int, t: int, x: int)
    requires Abs(t - x) <= Abs(s - x)
    ensures Step(rate, t, x) <= Step(rate, s, x)
  {
    if rate == Growing {
      TriangleMonotone(Abs(x - t), Abs(x - s));
    }
  }

  lemma {:induction false} FuelFartherAway(rate: Rate, pos: seq<int>, s: int, t: int)
    requires forall i :: 0 <= i < |pos| ==> Abs(t - pos[i]) <= Abs(s - pos[i])
    ensures Fuel(rate, pos, t) <= Fuel(rate, pos, s)
  {
    if |pos| > 0 {
      var n := |pos| - 1;
      FuelFartherAway(rate, pos[..n], s, t);
      StepFartherAway(rate, s, t, pos[n]);
    }
  }

  /** The price of each candidate `lo`, `lo + 1`, …, `hi`: the `costs` list. */
  function Costs(rate: Rate, pos: seq<int>, lo: int, hi: int): (c: seq<int>)
    requires lo <= hi
    ensures |c| == hi - lo + 1
    ensures forall i :: 0 <= i < |c| ==> c[i] == Fuel(rate, pos, lo + i)
  {
    seq(hi - lo + 1, i requires 0 <= i <= hi - lo => Fuel(rate, pos, lo + i))
  }

  /** The first element of a sorted copy is the smallest element. */
  lemma SortedFirstIsMin(s: seq<int>)
    requires |s| > 0
    ensures Sort(s)[0] == MinOf(s)
  {
    var r := Sort(s);
    var m := MinOf(s);
    assert m <= r[0] by {
      assert r[0] in multiset(s);
      var i :| 0 <= i < |s| && s[i] == r[0];
    }
    assert r[0] <= m by {
      assert m in multiset(r);
      var j :| 0 <= j < |r| && r[j] == m;
      assert r[0] <= r[j];
    }
  }

  lemma SortedLastIsMax(s: seq<int>)
    requires |s| > 0
    ensures Sort(s)[|s| - 1] == MaxOf(s)
  {
    var r := Sort(s);
    assert r[|r| - 1] == MaxOf(r) by {
      SortedAscLast(r);
    }
    MaxOfPermutation(r, s);
  }

  /** The last element of a non-decreasing sequence is its maximum. */
  lemma SortedAscLast(r: seq<int>)
    requires |r| > 0 && SortedAsc(r)
    ensures MaxOf(r) == r[|r| - 1]
  {
    var n := |r| - 1;
    assert MaxOf(r) in r;
    var k :| 0 <= k < |r| && r[k] == MaxOf(r);
    assert k <= n ==> r[k] <= r[n];
  }

  /** The maximum depends only on the multiset of elements. */
  lemma MaxOfPermutation(a: seq<int>, b: seq<int>)
    requires |a| > 0 && |b| > 0 && multiset(a) == multiset(b)
    ensures MaxOf(a) == MaxOf(b)
  {
    assert MaxOf(a) in b by {
      assert MaxOf(a) in multiset(a);
    }
    assert MaxOf(b) in a by {
      assert MaxOf(b) in multiset(b);
    }
  }

  /** The smallest price is the price of some candidate and no candidate is
      cheaper. */
  lemma CostsMin(rate: Rate, pos: seq<int>, lo: int, hi: int)
    requires lo <= hi
    ensures exists x :: lo <= x <= hi && MinOf(Costs(rate, pos, lo, hi)) == Fuel(rate, pos, x)
    ensures forall x :: lo <= x <= hi ==> MinOf(Costs(rate, pos, lo, hi)) <= Fuel(rate, pos, x)
  {
    var c := Costs(rate, pos, lo, hi);
    var i :| 0 <= i < |c| && c[i] == MinOf(c);
    assert lo <= lo + i <= hi && MinOf(c) == Fuel(rate, pos, lo + i);
    forall x | lo <= x <= hi
      ensures MinOf(c) <= Fuel(rate, pos, x)
    {
      assert c[x - lo] == Fuel(rate, pos, x);
    }
  }

  /** Sorting the crabs changes no price. */
  lemma FuelSorted(rate: Rate, ps: seq<int>)
    ensures forall x :: Fuel(rate, Sort(ps), x) == Fuel(rate, ps, x)
  {
    forall x
      ensures Fuel(rate, Sort(ps), x) == Fuel(rate, ps, x)
    {
      FuelPermutation(rate, Sort(ps), ps, x);
    }
  }

  /** `sorted(costs)[0]` for the crabs at `ps`, priced at `rate`, over the
      candidates `pos[0]..pos[-1]` of the sorted positions. */
  function Cheapest(rate: Rate, ps: seq<int>): (r: int)
    requires |ps| > 0
    ensures exists x :: MinOf(ps) <= x <= MaxOf(ps) && r == Fuel(rate, ps, x)
    ensures forall x :: MinOf(ps) <= x <= MaxOf(ps) ==> r <= Fuel(rate, ps, x)
  {
    var pos := Sort(ps);
    SortedBounds(ps);
    var costs := Costs(rate, pos, pos[0], pos[|pos| - 1]);
    SortedFirstIsMin(costs);
    CheapestSound(rate, ps, MinOf(ps), MaxOf(ps));
    Sort(costs)[0]
  }

  lemma SortedBounds(ps: seq<int>)
    requires |ps| > 0
    ensures Sort(ps)[0] == MinOf(ps) <= MaxOf(ps) == Sort(ps)[|ps| - 1]
  {
    SortedFirstIsMin(ps);
    SortedLastIsMax(ps);
  }

  /** The cheapest candidate priced on the sorted crabs is the cheapest one
      priced on the crabs as given. */
  lemma CheapestSound(rate: Rate, ps: seq<int>, lo: int, hi: int)
    requires lo <= hi
    ensures exists x :: lo <= x <= hi && MinOf(Costs(rate, Sort(ps), lo, hi)) == Fuel(rate, ps, x)
    ensures forall x :: lo <= x <= hi ==> MinOf(Costs(rate, Sort(ps), lo, hi)) <= Fuel(rate, ps, x)
  {
    CostsMin(rate, Sort(ps), lo, hi);
    FuelSorted(rate, ps);
  }

  /** Restricting the candidates to the crabs' span loses nothing: the
      reported price is the cheapest over every integer position. */
  lemma CheapestIsGlobal(rate: Rate, ps: seq<int>, x: int)
    requires |ps| > 0
    ensures Cheapest(rate, ps) <= Fuel(rate, ps, x)
  {
    var lo, hi := MinOf(ps), MaxOf(ps);
    if x < lo {
      FuelFartherAway(rate, ps, x, lo);
    } else if x > hi {
      FuelFartherAway(rate, ps, x, hi);
    }
  }

  lemma CheapestIsGlobalAll(rate: Rate, ps: seq<int>)
    requires |ps| > 0
    ensures forall x :: Cheapest(rate, ps) <= Fuel(rate, ps, x)
  {
    forall x
      ensures Cheapest(rate, ps) <= Fuel(rate, ps, x)
    {
      CheapestIsGlobal(rate, ps, x);
    }
  }

  /** Both scripts: parse `state.split(',')`, then report the cheapest price.
      Splitting always yields a field, so a parsed list is never empty and
      `pos[0]` never fails. */
  function Align(rate: Rate, state: string): (r: Result<int>)
    ensures r.Ok? <==> ParseInts(SplitOn(state, ',')).Ok?
    ensures r.Ok? ==> forall x :: r.value <= Fuel(rate, ParseInts(SplitOn(state, ',')).value, x)
    ensures r.Ok? ==> exists x :: r.value == Fuel(rate, ParseInts(SplitOn(state, ',')).value, x)
  {
    match ParseInts(SplitOn(state, ','))
    case Err(msg) => Err(msg)
    case Ok(ps) =>
      CheapestIsGlobalAll(rate, ps);
      Ok(Cheapest(rate, ps))
  }
}
