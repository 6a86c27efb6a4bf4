/** The lantern-fish scripts. lanternfish.py keeps one timer per fish in a
    list; lanternfish2.py keeps a dictionary from timer to number of fish.
    Each day a fish at 0 resets to 6 and spawns a fish at 8, and every other
    fish counts down by one. The dictionary form refines the list form: it
    always holds the list's timer counts. */
module Lanternfish {
  import opened Util

  // ---------------------------------------------------------------------------
  // The list form

  /** The timer a fish has after one day in the list: `cur` of the loop. */
  function Next(t: int): int
  {
    if t == 0 then 6 else t - 1
  }

  function Zeros(ages: seq<int>): (n: nat)
    ensures n <= |ages|
  {
    if |ages| == 0 then 0 else Zeros(ages[..|ages| - 1]) + (if ages[|ages| - 1] == 0 then 1 else 0)
  }

  /** One day of lanternfish.py: `cur + new`, the existing fish in their old
      order followed by one newborn at 8 per fish that was at 0. */
  function Day(ages: seq<int>): (r: seq<int>)
    ensures |r| == |ages| + Zeros(ages)
    ensures forall i :: 0 <= i < |ages| ==> r[i] == Next(ages[i])
    ensures forall i :: |ages| <= i < |r| ==> r[i] == 8
  {
    seq(|ages|, i requires 0 <= i < |ages| => Next(ages[i])) + seq(Zeros(ages), _ => 8)
  }

  function Days(ages: seq<int>, d: nat): seq<int>
    decreases d
  {
    if d == 0 then ages else Days(Day(ages), d - 1)
  }

  predicate Timers(ages: seq<int>)
  {
    forall i :: 0 <= i < |ages| ==> 0 <= ages[i] <= 8
  }

  /** Timers in 0..8 stay in 0..8. */
  lemma {:induction false} DaysKeepTimers(ages: seq<int>, d: nat)
    requires Timers(ages)
    ensures Timers(Days(ages, d))
    decreases d
  {
    if d > 0 {
      DaysKeepTimers(Day(ages), d - 1);
    }
  }

  /** The school never shrinks, and it grows by one fish per fish at 0. */
  lemma {:induction false} DaysNeverShrink(ages: seq<int>, d: nat)
    ensures |Days(ages, d)| >= |ages|
    ensures d > 0 ==> |Days(ages, d)| >= |ages| + multiset(ages)[0]
    decreases d
  {
    if d > 0 {
      ZerosCount(ages);
      DaysNeverShrink(Day(ages), d - 1);
    }
  }

  /** How many fish have timer `k` after a day, in terms of the counts before:
      those at 0 reset to 6 and spawn at 8, those at k + 1 count down to k. */
  lemma {:induction false} DayCount(ages: seq<int>, k: int)
    ensures multiset(Day(ages))[k] ==
      (if k == 6 then multiset(ages)[0] else 0) +
      (if k == 8 then multiset(ages)[0] else 0) +
      (if k != -1 then multiset(ages)[k + 1] else 0)
  {
    var cur := seq(|ages|, i requires 0 <= i < |ages| => Next(ages[i]));
    var born := seq(Zeros(ages), _ => 8);
    assert Day(ages) == cur + born;
    CurCount(ages, k);
    BornCount(Zeros(ages), k);
    ZerosCount(ages);
  }

  lemma {:induction false} CurCount(ages: seq<int>, k: int)
    ensures multiset(seq(|ages|, i requires 0 <= i < |ages| => Next(ages[i])))[k] ==
      (if k == 6 then multiset(ages)[0] else 0) + (if k != -1 then multiset(ages)[k + 1] else 0)
  {
    if |ages| > 0 {
      var n := |ages| - 1;
      CurCount(ages[..n], k);
      var cur := seq(|ages|, i requires 0 <= i < |ages| => Next(ages[i]));
      assert cur == seq(n, i requires 0 <= i < n => Next(ages[..n][i])) + [Next(ages[n])];
      assert ages == ages[..n] + [ages[n]];
    }
  }

  lemma BornCount(z: nat, k: int)
    ensures multiset(seq(z, _ => 8))[k] == if k == 8 then z else 0
  {
    if z > 0 {
      BornCount(z - 1, k);
      assert seq(z, _ => 8) == seq(z - 1, _ => 8) + [8];
    }
  }

  lemma {:induction false} ZerosCount(ages: seq<int>)
    ensures Zeros(ages) == multiset(ages)[0]
  {
    if |ages| > 0 {
      ZerosCount(ages[..|ages| - 1]);
      assert ages == ages[..|ages| - 1] + [ages[|ages| - 1]];
    }
  }

  // ---------------------------------------------------------------------------
  // The dictionary form

  /** A `defaultdict(int)` from timer to number of fish, as a list of its
      items. The order of the items is not the dictionary's insertion order
      and nothing depends on it. */
  type Hist = seq<(int, nat)>

  /** `h[k]`: the sum of the counts stored under `k` (at most one entry when
      the dictionary is built with `Add`). */
  function Count(h: Hist, k: int): nat
  {
    if |h| == 0 then 0
    else Count(h[..|h| - 1], k) + (if h[|h| - 1].0 == k then h[|h| - 1].1 else 0)
  }

  function Total(h: Hist): nat
  {
    if |h| == 0 then 0 else Total(h[..|h| - 1]) + h[|h| - 1].1
  }

  ghost predicate HasKey(h: Hist, k: int)
  {
    exists i :: 0 <= i < |h| && h[i].0 == k
  }

  /** The keys of a dictionary with one more entry at the end. */
  lemma HasKeySnoc(h: Hist, x: (int, nat))
    ensures forall j :: HasKey(h + [x], j) <==> HasKey(h, j) || j == x.0
  {
    var r := h + [x];
    forall j
      ensures HasKey(r, j) <==> HasKey(h, j) || j == x.0
    {
      if HasKey(r, j) {
        var i :| 0 <= i < |r| && r[i].0 == j;
        if i < |h| {
          assert h[i].0 == j;
        }
      }
      if HasKey(h, j) {
        var i :| 0 <= i < |h| && h[i].0 == j;
        assert r[i].0 == j;
      }
      assert r[|h|].0 == x.0;
    }
  }

  /** `h[k] += n`: updates the entry for `k` in place, or puts a new entry
      for `k` at the front. */
  function Add(h: Hist, k: int, n: nat): (r: Hist)
    ensures forall j :: Count(r, j) == Count(h, j) + (if j == k then n else 0)
    ensures Total(r) == Total(h) + n
    ensures forall j :: HasKey(r, j) <==> HasKey(h, j) || j == k
  {
    if |h| == 0 then
      HasKeySnoc([], (k, n));
      [(k, n)]
    else
      var m := |h| - 1;
      assert h == h[..m] + [h[m]];
      HasKeySnoc(h[..m], h[m]);
      if h[m].0 == k then
        var r := h[..m] + [(k, h[m].1 + n)];
        assert r[..m] == h[..m];
        HasKeySnoc(h[..m], (k, h[m].1 + n));
        r
      else
        var front := Add(h[..m], k, n);
        var r := front + [h[m]];
        assert r[..|r| - 1] == front;
        HasKeySnoc(front, h[m]);
        r
  }

  /** The initial dictionary: one `ages[age] += 1` per fish, in input order. */
  function Histogram(ages: seq<int>): (h: Hist)
    ensures forall k :: Count(h, k) == multiset(ages)[k]
    ensures Total(h) == |ages|
  {
    if |ages| == 0 then []
    else
      var n := |ages| - 1;
      assert ages == ages[..n] + [ages[n]];
      Add(Histogram(ages[..n]), ages[n], 1)
  }

  /** The body of `for age, num in ages.items()` applied to the items from
      `i` on, accumulating into `new`. */
  function Spread(items: Hist, i: nat, acc: Hist): Hist
    requires i <= |items|
    decreases |items| - i
  {
    if i == |items| then acc else Spread(items, i + 1, Put(acc, items[i].0, items[i].1))
  }

  /** One pass of the loop body: `num` fish at `age`. */
  function Put(acc: Hist, age: int, num: nat): Hist
  {
    if age == 0 then Add(Add(acc, 6, num), 8, num) else Add(acc, age - 1, num)
  }

  lemma PutCount(acc: Hist, age: int, num: nat, k: int)
    ensures Count(Put(acc, age, num), k) == Count(acc, k) +
      (if age == 0 && k == 6 then num else 0) +
      (if age == 0 && k == 8 then num else 0) +
      (if age != 0 && k == age - 1 then num else 0)
  {
  }

  lemma PutTotal(acc: Hist, age: int, num: nat)
    ensures Total(Put(acc, age, num)) == Total(acc) + num + (if age == 0 then num else 0)
  {
  }

  lemma PutKeys(acc: Hist, age: int, num: nat)
    requires 0 <= age <= 8
    requires forall k :: HasKey(acc, k) ==> 0 <= k <= 8
    ensures forall k :: HasKey(Put(acc, age, num), k) ==> 0 <= k <= 8
  {
  }

  /** One day of lanternfish2.py. */
  function HistDay(h: Hist): Hist
  {
    Spread(h, 0, [])
  }

  function HistDays(h: Hist, d: nat): Hist
    decreases d
  {
    if d == 0 then h else HistDays(HistDay(h), d - 1)
  }

  /** The count of `k` in the items from `i` on. */
  function CountFrom(items: Hist, i: nat, k: int): nat
    requires i <= |items|
    decreases |items| - i
  {
    if i == |items| then 0 else (if items[i].0 == k then items[i].1 else 0) + CountFrom(items, i + 1, k)
  }

  lemma {:induction false} CountFromAll(items: Hist, k: int)
    ensures CountFrom(items, 0, k) == Count(items, k)
    decreases |items|
  {
    if |items| > 0 {
      var n := |items| - 1;
      CountFromSplit(items, 0, n, k);
      CountFromAll(items[..n], k);
    }
  }

  lemma {:induction false} CountFromSplit(items: Hist, i: nat, n: nat, k: int)
    requires i <= n < |items| && n == |items| - 1
    ensures CountFrom(items, i, k) == CountFrom(items[..n], i, k) + (if items[n].0 == k then items[n].1 else 0)
    decreases n - i
  {
    if i < n {
      CountFromSplit(items, i + 1, n, k);
      assert items[..n][i] == items[i];
    }
  }

  /** What one day does to each count: the loop adds the count at 0 to 6 and
      8, and the count at k + 1 to k. */
  lemma {:induction false} SpreadCount(items: Hist, i: nat, acc: Hist, k: int)
    requires i <= |items|
    ensures Count(Spread(items, i, acc), k) == Count(acc, k) +
      (if k == 6 then CountFrom(items, i, 0) else 0) +
      (if k == 8 then CountFrom(items, i, 0) else 0) +
      (if k != -1 then CountFrom(items, i, k + 1) else 0)
    decreases |items| - i
  {
    if i < |items| {
      PutCount(acc, items[i].0, items[i].1, k);
      SpreadCount(items, i + 1, Put(acc, items[i].0, items[i].1), k);
    }
  }

  /** The day step preserves the total as old total plus the fish at 0. */
  lemma {:induction false} SpreadTotal(items: Hist, i: nat, acc: Hist)
    requires i <= |items|
    ensures Total(Spread(items, i, acc)) == Total(acc) + TotalFrom(items, i) + CountFrom(items, i, 0)
    decreases |items| - i
  {
    if i < |items| {
      PutTotal(acc, items[i].0, items[i].1);
      SpreadTotal(items, i + 1, Put(acc, items[i].0, items[i].1));
    }
  }

  function TotalFrom(items: Hist, i: nat): nat
    requires i <= |items|
    decreases |items| - i
  {
    if i == |items| then 0 else items[i].1 + TotalFrom(items, i + 1)
  }

  lemma {:induction false} TotalFromAll(items: Hist)
    ensures TotalFrom(items, 0) == Total(items)
    decreases |items|
  {
    if |items| > 0 {
      var n := |items| - 1;
      TotalFromSplit(items, 0, n);
      TotalFromAll(items[..n]);
    }
  }

  lemma {:induction false} TotalFromSplit(items: Hist, i: nat, n: nat)
    requires i <= n < |items| && n == |items| - 1
    ensures TotalFrom(items, i) == TotalFrom(items[..n], i) + items[n].1
    decreases n - i
  {
    if i < n {
      TotalFromSplit(items, i + 1, n);
      assert items[..n][i] == items[i];
    }
  }

  /** The fish after a day: the previous total plus one newborn per fish at 0. */
  lemma HistDayTotal(h: Hist)
    ensures Total(HistDay(h)) == Total(h) + Count(h, 0)
  {
    SpreadTotal(h, 0, []);
    TotalFromAll(h);
    CountFromAll(h, 0);
  }

  /** Timers in 0..8 stay in 0..8: every key of the acc dictionary is. */
  lemma {:induction false} SpreadKeys(items: Hist, i: nat, acc: Hist)
    requires i <= |items|
    requires forall j :: 0 <= j < |items| ==> 0 <= items[j].0 <= 8
    requires forall k :: HasKey(acc, k) ==> 0 <= k <= 8
    ensures forall k :: HasKey(Spread(items, i, acc), k) ==> 0 <= k <= 8
    decreases |items| - i
  {
    if i < |items| {
      PutKeys(acc, items[i].0, items[i].1);
      SpreadKeys(items, i + 1, Put(acc, items[i].0, items[i].1));
    }
  }

  /** A dictionary whose timers are all in 0..8 keeps them there. */
  lemma HistDayKeys(h: Hist)
    requires forall k :: HasKey(h, k) ==> 0 <= k <= 8
    ensures forall k :: HasKey(HistDay(h), k) ==> 0 <= k <= 8
  {
    forall j | 0 <= j < |h|
      ensures 0 <= h[j].0 <= 8
    {
      assert HasKey(h, h[j].0);
    }
    SpreadKeys(h, 0, []);
  }

  /** The dictionary holds exactly the list's counts of each timer. */
  ghost predicate Refines(h: Hist, ages: seq<int>)
  {
    forall k :: Count(h, k) == multiset(ages)[k]
  }

  /** One dictionary day refines one list day. */
  lemma HistDayRefines(h: Hist, ages: seq<int>)
    requires Refines(h, ages)
    ensures Refines(HistDay(h), Day(ages))
  {
    forall k
      ensures Count(HistDay(h), k) == multiset(Day(ages))[k]
    {
      SpreadCount(h, 0, [], k);
      CountFromAll(h, 0);
      CountFromAll(h, k + 1);
      DayCount(ages, k);
    }
  }

  /** After any number of days the two scripts agree on every count and on
      the number of fish they print. */
  lemma {:induction false} HistDaysRefines(h: Hist, ages: seq<int>, d: nat)
    requires Refines(h, ages) && Total(h) == |ages|
    ensures Refines(HistDays(h, d), Days(ages, d))
    ensures Total(HistDays(h, d)) == |Days(ages, d)|
    decreases d
  {
    if d > 0 {
      HistDayRefines(h, ages);
      HistDayTotal(h);
      ZerosCount(ages);
      HistDaysRefines(HistDay(h), Day(ages), d - 1);
    }
  }

  /** Both scripts on the same parsed state. */
  lemma ScriptsAgree(ages: seq<int>, d: nat)
    ensures Total(HistDays(Histogram(ages), d)) == |Days(ages, d)|
  {
    HistDaysRefines(Histogram(ages), ages, d);
  }

  /** `range(1, days + 1)` runs no day at all when `days` is below 1. */
  function Elapsed(days: int): nat
  {
    if days < 0 then 0 else days
  }

  /** lanternfish.py: the number of fish it reports after `days` days, or the
      ValueError of a field that is not an integer. */
  function ListSchool(state: string, days: int): (r: Result<nat>)
    ensures r.Ok? <==> ParseInts(SplitOn(state, ',')).Ok?
    ensures r.Ok? ==> r.value >= |SplitOn(state, ',')|
  {
    match ParseInts(SplitOn(state, ','))
    case Err(msg) => Err(msg)
    case Ok(ages) =>
      DaysNeverShrink(ages, Elapsed(days));
      Ok(|Days(ages, Elapsed(days))|)
  }

  /** lanternfish2.py: the sum of the dictionary's counts after `days` days. */
  function DictSchool(state: string, days: int): (r: Result<nat>)
    ensures r.Ok? <==> ParseInts(SplitOn(state, ',')).Ok?
    ensures r.Ok? ==> r.value == |Days(ParseInts(SplitOn(state, ',')).value, Elapsed(days))|
  {
    match ParseInts(SplitOn(state, ','))
    case Err(msg) => Err(msg)
    case Ok(ages) =>
      ScriptsAgree(ages, Elapsed(days));
      Ok(Total(HistDays(Histogram(ages), Elapsed(days))))
  }

  /** The two scripts report the same number of fish on every input. */
  lemma SchoolsAgree(state: string, days: int)
    ensures ListSchool(state, days) == DictSchool(state, days)
  {
    match ParseInts(SplitOn(state, ','))
    case Err(_) =>
    case Ok(ages) => ScriptsAgree(ages, Elapsed(days));
  }
}
