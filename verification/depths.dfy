/** The sonar-sweep scripts. depths.py and its Rust twin count the readings
    deeper than the one before; depths_window.py and its Rust twin compare
    sums over a sliding window of readings instead. */
module Depths {
  import opened Util

  // ---------------------------------------------------------------------------
  // The reference count

  /** The number of positions `i` with `xs[i - w] < xs[i]`: with `w == 1` the
      readings deeper than the previous one, with a larger `w` the windows
      whose sum grew (see `SlideSum`). */
  function Gains(xs: seq<int>, w: nat): nat
  {
    if |xs| <= w then 0
    else Gains(xs[..|xs| - 1], w) + (if xs[|xs| - 1 - w] < xs[|xs| - 1] then 1 else 0)
  }

  /** Extending the readings by one adds the new position's comparison. */
  lemma GainsStep(xs: seq<int>, k: nat, w: nat)
    requires k < |xs|
    ensures Gains(xs[..k + 1], w) == Gains(xs[..k], w) + (if k >= w && xs[k - w] < xs[k] then 1 else 0)
  {
    assert xs[..k + 1][..k] == xs[..k];
  }

  /** Only positions after the first `w` can count. */
  lemma {:induction false} GainsBound(xs: seq<int>, w: nat)
    ensures Gains(xs, w) <= if |xs| <= w then 0 else |xs| - w
  {
    if |xs| > w {
      GainsBound(xs[..|xs| - 1], w);
    }
  }

  /** Readings that never grow count nothing; equal readings are not an
      increase. */
  lemma {:induction false} NoGainsWhenNonIncreasing(xs: seq<int>, w: nat)
    requires forall i, j :: 0 <= i < j < |xs| ==> xs[j] <= xs[i]
    ensures Gains(xs, w) == 0
  {
    if |xs| > w {
      NoGainsWhenNonIncreasing(xs[..|xs| - 1], w);
    }
  }

  /** Strictly deeper readings count at every position after the first `w`. */
  lemma {:induction false} AllGainsWhenIncreasing(xs: seq<int>, w: nat)
    requires w > 0
    requires forall i, j :: 0 <= i < j < |xs| ==> xs[i] < xs[j]
    ensures Gains(xs, w) == if |xs| <= w then 0 else |xs| - w
  {
    if |xs| > w {
      AllGainsWhenIncreasing(xs[..|xs| - 1], w);
    }
  }

  /** Sliding a window one step changes its sum by the reading that enters
      minus the one that leaves, so the sum grows exactly when the entering
      reading is the larger. */
  lemma SlideSum(window: seq<int>, x: int)
    requires |window| > 0
    ensures Sum(window[1..] + [x]) == Sum(window) - window[0] + x
    ensures Sum(window) < Sum(window[1..] + [x]) <==> window[0] < x
  {
    SumAppend(window[1..], [x]);
    SumFront(window);
    assert Sum([x]) == x by {
      assert [x][..0] == [];
    }
  }

  // ---------------------------------------------------------------------------
  // The loops

  /** depths.py and depths: the loop remembers the previous reading, counts
      a reading deeper than it and does not count the first one. */
  method CountIncreases(xs: seq<int>) returns (n: nat)
    ensures n == Gains(xs, 1)
  {
    var prev: Option<int> := None;
    n := 0;
    var k := 0;
    while k < |xs|
      invariant 0 <= k <= |xs|
      invariant prev == (if k == 0 then None else Some(xs[k - 1]))
      invariant n == Gains(xs[..k], 1)
    {
      var num := xs[k];
      if prev.Some? && prev.value < num {
        n := n + 1;
      }
      assert xs[..k + 1][..k] == xs[..k];
      prev := Some(num);
      k := k + 1;
    }
    assert xs[..k] == xs;
  }

  /** depths_window.py and depths_window: fill the window with the first `w`
      readings; after that each reading enters the window, the oldest leaves,
      and a larger sum counts. A window of size 0 (or below) is empty when the
      first reading arrives, and removing its front fails. */
  method CountWindowIncreases(xs: seq<int>, w: int) returns (r: Result<nat>)
    ensures r.Err? <==> w <= 0 && |xs| > 0
    ensures w > 0 ==> r == Ok(Gains(xs, w))
  {
    var window: seq<int> := [];
    var n: nat := 0;
    var k := 0;
    while k < |xs|
      invariant 0 <= k <= |xs|
      invariant w <= 0 ==> k == 0 && window == [] && n == 0
      invariant w > 0 ==> window == xs[..k][if k <= w then 0 else k - w..]
      invariant w > 0 ==> n == Gains(xs[..k], w)
    {
      var num := xs[k];
      assert xs[..k + 1][..k] == xs[..k];
      if w > 0 {
        GainsStep(xs, k, w);
      }
      if |window| < w {
        window := window + [num];
      } else {
        var prev := Sum(window);
        if |window| == 0 {
          return Err(EmptyPop);
        }
        assert window[0] == xs[k - w];
        SlideSum(window, num);
        window := window[1..] + [num];
        var sum := Sum(window);
        if sum > prev {
          n := n + 1;
        }
      }
      k := k + 1;
    }
    assert xs[..k] == xs;
    r := Ok(n);
  }

  /** Removing the front of an empty window: an IndexError in Python, a
      panic in Rust. */
  const EmptyPop := "IndexError: pop from empty list"

  // ---------------------------------------------------------------------------
  // Reading the input

  /** `n.rstrip()` for every line, before Python's `int`. */
  function Stripped(lines: seq<string>): (r: seq<string>)
    ensures |r| == |lines|
    ensures forall i :: 0 <= i < |lines| ==> r[i] == RStrip(lines[i])
  {
    seq(|lines|, i requires 0 <= i < |lines| => RStrip(lines[i]))
  }

  /** The lines the Rust scripts keep: those that `parse::<usize>()` accepts,
      in order; the others are skipped. */
  function RustReadings(lines: seq<string>): (xs: seq<int>)
    ensures |xs| <= |lines|
    ensures forall i :: 0 <= i < |xs| ==> 0 <= xs[i] <= UsizeMax
  {
    if |lines| == 0 then []
    else
      var front := RustReadings(lines[..|lines| - 1]);
      match RustParse(lines[|lines| - 1], 0, UsizeMax)
      case Some(v) => front + [v]
      case None => front
  }

  /** depths.py: every line must hold an integer; one that does not raises
      a ValueError, otherwise the increases are counted. */
  method PythonDepths(lines: seq<string>) returns (r: Result<nat>)
    ensures r.Ok? <==> ParseInts(Stripped(lines)).Ok?
    ensures r.Ok? ==> r.value == Gains(ParseInts(Stripped(lines)).value, 1)
  {
    var parsed := ParseInts(Stripped(lines));
    if parsed.Err? {
      return Err(parsed.msg);
    }
    var n := CountIncreases(parsed.value);
    r := Ok(n);
  }

  /** depths_window.py. The lines are read one at a time, so with a window
      of 0 or below the first line is the only one read: it raises a
      ValueError if `int` rejects it, and otherwise `window.pop(0)` fails. */
  method PythonWindow(lines: seq<string>, w: int) returns (r: Result<nat>)
    ensures w > 0 ==> (r.Ok? <==> ParseInts(Stripped(lines)).Ok?)
    ensures w > 0 && r.Ok? ==> r.value == Gains(ParseInts(Stripped(lines)).value, w)
    ensures w <= 0 && |lines| == 0 ==> r == Ok(0)
    ensures w <= 0 && |lines| > 0 && ParseInt(RStrip(lines[0])).None? ==> r == Err(BadInt)
    ensures w <= 0 && |lines| > 0 && ParseInt(RStrip(lines[0])).Some? ==> r == Err(EmptyPop)
  {
    if |lines| == 0 {
      return Ok(0);
    }
    if w <= 0 {
      if ParseInt(RStrip(lines[0])).None? {
        return Err(BadInt);
      }
      return Err(EmptyPop);
    }
    var parsed := ParseInts(Stripped(lines));
    if parsed.Err? {
      return Err(parsed.msg);
    }
    r := CountWindowIncreases(parsed.value, w);
  }

  /** The ValueError of Python's `int`. */
  const BadInt := "ValueError: invalid literal for int()"

  /** One more line adds its reading when it parses and nothing otherwise. */
  lemma RustReadingsStep(lines: seq<string>, k: nat)
    requires k < |lines|
    ensures RustReadings(lines[..k + 1]) ==
      RustReadings(lines[..k]) + (match RustParse(lines[k], 0, UsizeMax) case Some(v) => [v] case None => [])
  {
    assert lines[..k + 1][..k] == lines[..k];
  }

  /** depths (Rust): the loop over the lines, skipping those that are not a
      `usize` and leaving the previous reading as it was. */
  method RustDepths(lines: seq<string>) returns (n: nat)
    ensures n == Gains(RustReadings(lines), 1)
  {
    var prev: Option<int> := None;
    n := 0;
    var k := 0;
    ghost var xs: seq<int> := [];
    while k < |lines|
      invariant 0 <= k <= |lines|
      invariant xs == RustReadings(lines[..k])
      invariant prev == (if |xs| == 0 then None else Some(xs[|xs| - 1]))
      invariant n == Gains(xs, 1)
    {
      RustReadingsStep(lines, k);
      var parsed := RustParse(lines[k], 0, UsizeMax);
      if parsed.Some? {
        var num := parsed.value;
        GainsStep(xs + [num], |xs|, 1);
        assert (xs + [num])[..|xs|] == xs;
        assert (xs + [num])[..|xs| + 1] == xs + [num];
        if prev.Some? && prev.value < num {
          n := n + 1;
        }
        prev := Some(num);
        xs := xs + [num];
      }
      k := k + 1;
    }
    assert lines[..k] == lines;
  }

  /** depths_window (Rust): the window size is a `usize` given on the
      command line. */
  method RustWindow(lines: seq<string>, w: nat) returns (r: Result<nat>)
    ensures r.Err? <==> w == 0 && |RustReadings(lines)| > 0
    ensures w > 0 ==> r == Ok(Gains(RustReadings(lines), w))
  {
    r := CountWindowIncreases(RustReadings(lines), w);
  }

  /** On input where every line is a plain numeral that fits a `usize`, the
      Python and Rust scripts read the same readings, so they report the
      same counts. */
  lemma {:induction false} ReadingsAgree(lines: seq<string>)
    requires forall i :: 0 <= i < |lines| ==> IsDecimal(lines[i]) && DecimalValue(lines[i]) <= UsizeMax
    ensures ParseInts(Stripped(lines)) == Ok(RustReadings(lines))
  {
    if |lines| > 0 {
      var n := |lines| - 1;
      assert ParseInts(Stripped(lines[..n])) == Ok(RustReadings(lines[..n])) by {
        ReadingsAgree(lines[..n]);
      }
      assert Stripped(lines)[..n] == Stripped(lines[..n]);
      assert ParseInt(Stripped(lines)[n]) == RustParse(lines[n], 0, UsizeMax) by {
        NumeralReadsAlike(lines[n]);
      }
    }
  }

  lemma NumeralReadsAlike(s: string)
    requires IsDecimal(s) && DecimalValue(s) <= UsizeMax
    ensures RStrip(s) == s
    ensures ParseInt(s) == RustParse(s, 0, UsizeMax) == Some(DecimalValue(s))
  {
    assert !IsSpace(s[|s| - 1]);
    assert s[0] != '-' && s[0] != '+';
  }

  /** `parse_int`, which reads the window size: the message names the text. */
  function ParseIntArg(val: string, lo: int, hi: int): (r: Result<int>)
    ensures r.Ok? <==> RustParse(val, lo, hi).Some?
    ensures r.Err? ==> r.msg == "Invalid integer \"" + val + "\""
  {
    match RustParse(val, lo, hi)
    case Some(v) => Ok(v)
    case None => Err("Invalid integer \"" + val + "\"")
  }

  /** The cases `test_parse_int` checks. */
  lemma ParseIntArgExamples()
    ensures ParseIntArg("1", 0, UsizeMax) == Ok(1)
    ensures ParseIntArg("-1", I32Min, I32Max) == Ok(-1)
    ensures ParseIntArg("foo", -0x8000_0000_0000_0000, 0x7FFF_FFFF_FFFF_FFFF) == Err("Invalid integer \"foo\"")
  {
    assert "1"[..0] == "";
    assert "-1"[1..] == "1";
    assert !IsDigit("foo"[0]);
  }
}
