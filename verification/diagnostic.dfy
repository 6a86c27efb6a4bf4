/** The binary diagnostic scripts, in their Python and Rust versions: the
    power rates (per-column majority bits, `epsilon` and `gamma`) and the
    life-support ratings (the `calc` bit-criteria filter). Rows are the input
    lines, one character per bit. Python reads lines with `rstrip`; Rust's
    `lines()` only drops the line terminator, so the Rust models take the
    lines as they are. */
module Diagnostic {
  import opened Util

  /** The two crashes of these scripts: Python's IndexError and ValueError,
      and the corresponding Rust panics (`vals[0]`, `val[i]`, `unwrap`). */
  const IndexError: string := "index out of range"
  const ValueError: string := "invalid literal"

  predicate IsBinary(s: string)
  {
    forall i :: 0 <= i < |s| ==> s[i] == '0' || s[i] == '1'
  }

  /** Every row holds at least `w` characters. */
  predicate Wide(rows: seq<string>, w: nat)
  {
    forall k :: 0 <= k < |rows| ==> w <= |rows[k]|
  }

  /** `int(s, base=2)` and `isize::from_str_radix(s, 2)` for a string of
      binary digits: most significant first. */
  function BinaryValue(s: string): nat
    requires IsBinary(s)
  {
    if |s| == 0 then 0
    else 2 * BinaryValue(s[..|s| - 1]) + (if s[|s| - 1] == '1' then 1 else 0)
  }

  /** Parsing a base-2 numeral: the empty string and non-binary characters
      are errors. Signs, underscores and surrounding spaces, which Python
      also accepts, are not modelled. */
  function ParseBinary(s: string): (r: Result<nat>)
    ensures r.Ok? <==> |s| > 0 && IsBinary(s)
  {
    if |s| > 0 && IsBinary(s) then Ok(BinaryValue(s)) else Err(ValueError)
  }

  // ---------------------------------------------------------------------------
  // Counting a column

  /** Python's `filter(lambda b: b, bits)` over `int` digits keeps the
      non-zero digits; Rust's `filter(|&&v| v == '1')` keeps only '1'. */
  predicate NonZeroDigit(c: char)
  {
    c != '0'
  }

  predicate IsOneChar(c: char)
  {
    c == '1'
  }

  /** How many rows count as a one in column `i`. */
  function Ones(rows: seq<string>, i: nat, one: char -> bool): (n: nat)
    requires Wide(rows, i + 1)
    ensures n <= |rows|
  {
    if |rows| == 0 then 0
    else Ones(rows[..|rows| - 1], i, one) + (if one(rows[|rows| - 1][i]) then 1 else 0)
  }

  /** On binary rows the two ways of counting ones agree. */
  lemma {:induction false} OnesAgree(rows: seq<string>, i: nat)
    requires Wide(rows, i + 1)
    requires forall k :: 0 <= k < |rows| ==> IsBinary(rows[k])
    ensures Ones(rows, i, NonZeroDigit) == Ones(rows, i, IsOneChar)
  {
    if |rows| > 0 {
      OnesAgree(rows[..|rows| - 1], i);
    }
  }

  /** The number of rows counting as one in column `i` and as zero are the
      two halves of the column. */
  lemma {:induction false} OnesAndZeros(rows: seq<string>, i: nat, one: char -> bool)
    requires Wide(rows, i + 1)
    ensures Ones(rows, i, one) + CountWhere(Column(rows, i), c => !one(c)) == |rows|
  {
    if |rows| > 0 {
      var n := |rows| - 1;
      OnesAndZeros(rows[..n], i, one);
      assert Column(rows, i)[..n] == Column(rows[..n], i);
    }
  }

  /** `[n[i] for n in nums]`. */
  function Column(rows: seq<string>, i: nat): (bits: seq<char>)
    requires Wide(rows, i + 1)
    ensures |bits| == |rows| && forall k :: 0 <= k < |rows| ==> bits[k] == rows[k][i]
  {
    seq(|rows|, k requires 0 <= k < |rows| => rows[k][i])
  }

  // ---------------------------------------------------------------------------
  // Power rates

  /** Column `i` of epsilon is '1' when ones strictly outnumber zeros. */
  function EpsilonBit(rows: seq<string>, i: nat, one: char -> bool): char
    requires Wide(rows, i + 1)
  {
    var ones := Ones(rows, i, one);
    var zeros := |rows| - ones;
    if ones > zeros then '1' else '0'
  }

  function GammaBit(rows: seq<string>, i: nat, one: char -> bool): char
    requires Wide(rows, i + 1)
  {
    var ones := Ones(rows, i, one);
    var zeros := |rows| - ones;
    if ones > zeros then '0' else '1'
  }

  function Epsilon(rows: seq<string>, w: nat, one: char -> bool): (eps: string)
    requires Wide(rows, w)
    ensures |eps| == w && IsBinary(eps)
  {
    seq(w, i requires 0 <= i < w => EpsilonBit(rows, i, one))
  }

  function Gamma(rows: seq<string>, w: nat, one: char -> bool): (gam: string)
    requires Wide(rows, w)
    ensures |gam| == w && IsBinary(gam)
  {
    seq(w, i requires 0 <= i < w => GammaBit(rows, i, one))
  }

  /** Gamma is the bitwise complement of epsilon, and a tie gives epsilon '0'
      and gamma '1'. */
  lemma RatesComplement(rows: seq<string>, w: nat, one: char -> bool)
    requires Wide(rows, w)
    ensures forall i :: 0 <= i < w ==> Gamma(rows, w, one)[i] != Epsilon(rows, w, one)[i]
    ensures forall i :: 0 <= i < w && 2 * Ones(rows, i, one) == |rows| ==>
      Epsilon(rows, w, one)[i] == '0' && Gamma(rows, w, one)[i] == '1'
  {
  }

  /** A binary string and its complement add up to all ones. */
  lemma {:induction false} ComplementSum(a: string, b: string)
    requires IsBinary(a) && IsBinary(b) && |a| == |b|
    requires forall i :: 0 <= i < |a| ==> a[i] != b[i]
    ensures BinaryValue(a) + BinaryValue(b) == Pow2(|a|) - 1
  {
    if |a| > 0 {
      var n := |a| - 1;
      ComplementSum(a[..n], b[..n]);
    }
  }

  /** `epsilon_bin + gamma_bin == 2^width - 1`. */
  lemma RatesSum(rows: seq<string>, w: nat, one: char -> bool)
    requires Wide(rows, w)
    ensures BinaryValue(Epsilon(rows, w, one)) + BinaryValue(Gamma(rows, w, one)) == Pow2(w) - 1
  {
    RatesComplement(rows, w, one);
    ComplementSum(Epsilon(rows, w, one), Gamma(rows, w, one));
  }

  /** What the power-rate scripts print: the two strings and their values. */
  datatype Power = Power(epsilon: string, gamma: string, epsilonValue: nat, gammaValue: nat)

  function Consumption(p: Power): nat
  {
    p.epsilonValue * p.gammaValue
  }

  /** The common part of both power scripts on their rows: the width is that
      of the first row, a shorter row is an index error, and an empty width
      makes the base-2 parse fail. */
  function PowerOf(rows: seq<string>, one: char -> bool): (r: Result<Power>)
    ensures r.Ok? <==> |rows| > 0 && |rows[0]| > 0 && Wide(rows, |rows[0]|)
    ensures r.Ok? ==> (|r.value.epsilon| == |rows[0]| &&
                       r.value.epsilonValue + r.value.gammaValue == Pow2(|rows[0]|) - 1)
  {
    if |rows| == 0 then Err(IndexError)
    else
      var w := |rows[0]|;
      if !Wide(rows, w) then Err(IndexError)
      else if w == 0 then Err(ValueError)
      else
        var eps := Epsilon(rows, w, one);
        var gam := Gamma(rows, w, one);
        RatesSum(rows, w, one);
        Ok(Power(eps, gam, BinaryValue(eps), BinaryValue(gam)))
  }

  function RStripAll(lines: seq<string>): (rows: seq<string>)
    ensures |rows| == |lines| && forall k :: 0 <= k < |lines| ==> rows[k] == RStrip(lines[k])
  {
    seq(|lines|, k requires 0 <= k < |lines| => RStrip(lines[k]))
  }

  predicate AllDigits(rows: seq<string>)
  {
    forall k, i :: 0 <= k < |rows| && 0 <= i < |rows[k]| ==> IsDigit(rows[k][i])
  }

  /** binary.py: every character is read with `int` (a ValueError unless it
      is a decimal digit), and non-zero digits count as ones. */
  function PythonPower(lines: seq<string>): (r: Result<Power>)
    ensures r.Ok? ==> |lines| > 0 && AllDigits(RStripAll(lines))
  {
    var rows := RStripAll(lines);
    if !AllDigits(rows) then Err(ValueError) else PowerOf(rows, NonZeroDigit)
  }

  /** Number of rows with a '1' in column `i`, counted as the Rust `filter`. */
  method CountOnes(vals: seq<string>, i: nat) returns (ones: nat)
    requires Wide(vals, i + 1)
    ensures ones == Ones(vals, i, IsOneChar)
  {
    ones := 0;
    var k := 0;
    while k < |vals|
      invariant 0 <= k <= |vals|
      invariant ones == Ones(vals[..k], i, IsOneChar)
    {
      assert vals[..k + 1][..k] == vals[..k];
      if vals[k][i] == '1' {
        ones := ones + 1;
      }
      k := k + 1;
    }
    assert vals[..k] == vals;
  }

  /** binary_strings: the column loop of `main`, pushing one character of
      each rate per column and panicking where Rust would. */
  method RustPower(vals: seq<string>) returns (r: Result<Power>)
    ensures r == PowerOf(vals, IsOneChar)
  {
    if |vals| == 0 {
      return Err(IndexError);
    }
    var w := |vals[0]|;
    var epsilon := "";
    var gamma := "";
    var i := 0;
    while i < w
      invariant 0 <= i <= w
      invariant Wide(vals, i)
      invariant epsilon == Epsilon(vals, i, IsOneChar) && gamma == Gamma(vals, i, IsOneChar)
    {
      if exists k :: 0 <= k < |vals| && |vals[k]| <= i {
        return Err(IndexError);
      }
      var ones := CountOnes(vals, i);
      var zeros := |vals| - ones;
      epsilon := epsilon + [if ones > zeros then '1' else '0'];
      gamma := gamma + [if ones > zeros then '0' else '1'];
      i := i + 1;
    }
    if w == 0 {
      return Err(ValueError);
    }
    RatesSum(vals, w, IsOneChar);
    r := Ok(Power(epsilon, gamma, BinaryValue(epsilon), BinaryValue(gamma)));
  }

  // ---------------------------------------------------------------------------
  // The isize arithmetic of the Rust programs

  /** The largest `isize` on a 64-bit target. */
  const IsizeMax: nat := 0x7FFF_FFFF_FFFF_FFFF

  /** The panics of `from_str_radix(..).unwrap()` past `isize` and of an
      overflowing `*`. */
  const PosOverflow: string := "number too large to fit in target type"
  const MultiplyOverflow: string := "attempt to multiply with overflow"

  /** `isize::from_str_radix(s, 2).unwrap()` on the strings these programs
      build, whose first character is never a sign. */
  function IsizeBinary(s: string): (r: Result<nat>)
    ensures r.Ok? <==> |s| > 0 && IsBinary(s) && BinaryValue(s) <= IsizeMax
    ensures r.Ok? ==> r.value == BinaryValue(s)
  {
    match ParseBinary(s)
    case Err(e) => Err(e)
    case Ok(v) => if v > IsizeMax then Err(PosOverflow) else Ok(v)
  }

  /** `a * b` on `isize`, for operands that are not negative. */
  function IsizeTimes(a: nat, b: nat): (r: Result<nat>)
    ensures r.Ok? <==> a * b <= IsizeMax
    ensures r.Ok? ==> r.value == a * b
  {
    if a * b > IsizeMax then Err(MultiplyOverflow) else Ok(a * b)
  }

  /** A base-2 numeral of n digits is below 2^n. */
  lemma {:induction false} BinaryValueBound(s: string)
    requires IsBinary(s)
    ensures BinaryValue(s) < Pow2(|s|)
  {
    if |s| > 0 {
      BinaryValueBound(s[..|s| - 1]);
    }
  }

  lemma {:induction false} Pow2Monotone(a: nat, b: nat)
    requires a <= b
    ensures Pow2(a) <= Pow2(b)
    decreases b
  {
    if a < b {
      Pow2Monotone(a, b - 1);
    }
  }

  lemma {:induction false} Pow2Add(a: nat, b: nat)
    ensures Pow2(a + b) == Pow2(a) * Pow2(b)
    decreases a
  {
    if a > 0 {
      Pow2Add(a - 1, b);
      assert Pow2(a + b) == 2 * (Pow2(a - 1) * Pow2(b));
    }
  }

  lemma Pow2ThirtyTwo()
    ensures Pow2(31) == 0x8000_0000 && Pow2(32) == 0x1_0000_0000
  {
    assert Pow2(2) == 4;
    Pow2Add(2, 2);
    Pow2Add(4, 4);
    Pow2Add(8, 8);
    Pow2Add(16, 16);
    assert Pow2(32) == 2 * Pow2(31);
  }

  /** binary_strings after the column loop: both rates go through
      `from_str_radix` and their `isize` product is printed. */
  function RustPowerOutput(vals: seq<string>): (r: Result<nat>)
    ensures PowerOf(vals, IsOneChar).Err? ==> r == Err(PowerOf(vals, IsOneChar).msg)
    ensures r.Ok? ==> PowerOf(vals, IsOneChar).Ok? && r.value == Consumption(PowerOf(vals, IsOneChar).value)
    ensures r.Ok? ==> r.value <= IsizeMax
  {
    match PowerOf(vals, IsOneChar)
    case Err(e) => Err(e)
    case Ok(p) =>
      match (IsizeBinary(p.epsilon), IsizeBinary(p.gamma))
      case (Err(e), _) => Err(e)
      case (_, Err(e)) => Err(e)
      case (Ok(eps), Ok(gam)) => IsizeTimes(eps, gam)
  }

  /** Two numbers summing to less than 2^32 have a product below 2^63. */
  lemma SmallSumProduct(a: nat, b: nat)
    requires a + b < 0x1_0000_0000
    ensures a * b < 0x8000_0000_0000_0000
  {
    if a <= b {
      SmallerTimesWord(a, b);
    } else {
      SmallerTimesWord(b, a);
    }
  }

  /** The smaller of two numbers summing to less than 2^32 is below 2^31,
      and the larger one is below 2^32. */
  lemma SmallerTimesWord(a: nat, b: nat)
    requires a <= b && a + b < 0x1_0000_0000
    ensures a * b < 0x8000_0000_0000_0000 && b * a == a * b
  {
    var d: nat := 0xFFFF_FFFF - b;
    assert a * 0xFFFF_FFFF == a * b + a * d;
    assert a * d >= 0;
  }

  /** Up to 32 columns the program never panics on its arithmetic: it
      prints epsilon times gamma whenever the rates exist. */
  lemma NarrowPowerFits(vals: seq<string>)
    requires PowerOf(vals, IsOneChar).Ok? && |vals[0]| <= 32
    ensures RustPowerOutput(vals) == Ok(Consumption(PowerOf(vals, IsOneChar).value))
  {
    var p := PowerOf(vals, IsOneChar).value;
    var w := |vals[0]|;
    Pow2Monotone(w, 32);
    Pow2ThirtyTwo();
    assert p.epsilon == Epsilon(vals, w, IsOneChar) && p.gamma == Gamma(vals, w, IsOneChar);
    assert p.epsilonValue == BinaryValue(p.epsilon) && p.gammaValue == BinaryValue(p.gamma);
    SmallSumProduct(p.epsilonValue, p.gammaValue);
  }

  lemma EpsilonAgree(rows: seq<string>, w: nat)
    requires Wide(rows, w)
    requires forall k :: 0 <= k < |rows| ==> IsBinary(rows[k])
    ensures Epsilon(rows, w, NonZeroDigit) == Epsilon(rows, w, IsOneChar)
    ensures Gamma(rows, w, NonZeroDigit) == Gamma(rows, w, IsOneChar)
  {
    forall i | 0 <= i < w
      ensures Ones(rows, i, NonZeroDigit) == Ones(rows, i, IsOneChar)
    {
      OnesAgree(rows, i);
    }
  }

  /** On binary lines without trailing spaces, the Rust and Python power
      scripts print the same rates. */
  lemma PowerScriptsAgree(lines: seq<string>)
    requires forall k :: 0 <= k < |lines| ==> IsBinary(lines[k]) && RStrip(lines[k]) == lines[k]
    ensures PythonPower(lines) == PowerOf(lines, IsOneChar)
  {
    var rows := RStripAll(lines);
    assert rows == lines;
    if |rows| > 0 && Wide(rows, |rows[0]|) {
      EpsilonAgree(rows, |rows[0]|);
    }
  }

  // ---------------------------------------------------------------------------
  // Life-support ratings

  /** The bit kept in a round: the most common bit with ties going to '1', or
      the least common with ties going to '0'. */
  function Criterion(ones: nat, zeros: nat, mostWanted: bool): (c: char)
    ensures mostWanted ==> (c == '1' <==> ones >= zeros)
    ensures !mostWanted ==> (c == '0' <==> ones >= zeros)
  {
    var (most, least) := if ones >= zeros then ('1', '0') else ('0', '1');
    if mostWanted then most else least
  }

  /** `[v for v in copied if v[i] == cmp]`. */
  function Keep(rows: seq<string>, i: nat, c: char): (r: seq<string>)
    requires Wide(rows, i + 1)
    ensures |r| <= |rows|
    ensures forall k :: 0 <= k < |r| ==> r[k] in rows && r[k][i] == c
  {
    if |rows| == 0 then []
    else
      var n := |rows| - 1;
      Keep(rows[..n], i, c) + (if rows[n][i] == c then [rows[n]] else [])
  }

  /** The rows of `vals` that begin with `p`, in their input order. */
  function WithPrefix(vals: seq<string>, p: string): (r: seq<string>)
    ensures |r| <= |vals|
    ensures forall k :: 0 <= k < |r| ==> r[k] in vals && |p| <= |r[k]| && r[k][..|p|] == p
  {
    if |vals| == 0 then []
    else
      var n := |vals| - 1;
      var v := vals[n];
      WithPrefix(vals[..n], p) + (if |p| <= |v| && v[..|p|] == p then [v] else [])
  }

  /** One round of the filter refines the surviving prefix by one bit: the
      survivors are always exactly the input rows that share the criteria
      bits chosen so far, in input order. */
  lemma {:induction false} KeepExtendsPrefix(vals: seq<string>, p: string, c: char)
    requires Wide(WithPrefix(vals, p), |p| + 1)
    ensures Keep(WithPrefix(vals, p), |p|, c) == WithPrefix(vals, p + [c])
  {
    if |vals| > 0 {
      var n := |vals| - 1;
      var v := vals[n];
      var front := WithPrefix(vals[..n], p);
      var all := WithPrefix(vals, p);
      var q := p + [c];
      var rest := WithPrefix(vals[..n], q);
      assert WithPrefix(vals, q) == rest + (if |q| <= |v| && v[..|q|] == q then [v] else []);
      if |p| <= |v| && v[..|p|] == p {
        assert all == front + [v];
        assert Wide(front, |p| + 1) by {
          assert forall k :: 0 <= k < |front| ==> front[k] == all[k];
        }
        assert Keep(front, |p|, c) == rest by {
          KeepExtendsPrefix(vals[..n], p, c);
        }
        assert Keep(all, |p|, c) == Keep(front, |p|, c) + (if v[|p|] == c then [v] else []) by {
          assert all[..|all| - 1] == front && all[|all| - 1] == v;
        }
        PrefixStep(v, p, c);
      } else {
        assert all == front;
        assert Keep(front, |p|, c) == rest by {
          KeepExtendsPrefix(vals[..n], p, c);
        }
        NoPrefixStep(v, p, c);
      }
    }
  }

  lemma PrefixStep(v: string, p: string, c: char)
    requires |p| < |v| && v[..|p|] == p
    ensures (|p + [c]| <= |v| && v[..|p + [c]|] == p + [c]) <==> v[|p|] == c
  {
    assert v[..|p| + 1] == v[..|p|] + [v[|p|]];
  }

  lemma NoPrefixStep(v: string, p: string, c: char)
    requires !(|p| <= |v| && v[..|p|] == p)
    ensures !(|p + [c]| <= |v| && v[..|p + [c]|] == p + [c])
  {
  }

  lemma {:induction false} WithEmptyPrefix(vals: seq<string>)
    ensures WithPrefix(vals, "") == vals
  {
    if |vals| > 0 {
      var n := |vals| - 1;
      assert vals[n][..0] == "";
      assert WithPrefix(vals[..n], "") == vals[..n] by {
        WithEmptyPrefix(vals[..n]);
      }
      assert vals == vals[..n] + [vals[n]];
    }
  }

  /** The loop of `calc` from round `i` on, with `copied` the survivors. */
  function CalcFrom(copied: seq<string>, i: nat, width: nat, mostWanted: bool): Result<Option<string>>
    decreases width - i
  {
    if i >= width then Ok(None)
    else if !Wide(copied, i + 1) then Err(IndexError)
    else
      var ones := Ones(copied, i, IsOneChar);
      var zeros := |copied| - ones;
      var next := Keep(copied, i, Criterion(ones, zeros, mostWanted));
      if |next| == 1 then Ok(Some(next[0]))
      else CalcFrom(next, i + 1, width, mostWanted)
  }

  /** `calc`: the rounds run over the columns of the first row; the first round
      that leaves exactly one row returns it, and None is returned when no
      round does. The same function models binary2.py on `rstrip`ped lines
      and binary_strings2 on raw lines. */
  function Calc(vals: seq<string>, mostWanted: bool): Result<Option<string>>
  {
    if |vals| == 0 then Err(IndexError) else CalcFrom(vals, 0, |vals[0]|, mostWanted)
  }

  /** Invariant of the rounds: a returned row is an input row that starts
      with the chosen criteria bits. */
  lemma {:induction false} CalcFromReturnsInputRow(vals: seq<string>, p: string, width: nat, mostWanted: bool)
    ensures CalcFrom(WithPrefix(vals, p), |p|, width, mostWanted).Ok? &&
            CalcFrom(WithPrefix(vals, p), |p|, width, mostWanted).value.Some? ==>
              CalcFrom(WithPrefix(vals, p), |p|, width, mostWanted).value.value in vals
    decreases width - |p|
  {
    var copied := WithPrefix(vals, p);
    if |p| < width && Wide(copied, |p| + 1) {
      var ones := Ones(copied, |p|, IsOneChar);
      var c := Criterion(ones, |copied| - ones, mostWanted);
      var next := Keep(copied, |p|, c);
      if |next| == 1 {
        assert CalcFrom(copied, |p|, width, mostWanted) == Ok(Some(next[0]));
        assert next[0] in vals by {
          assert next[0] in copied;
        }
      } else {
        assert CalcFrom(copied, |p|, width, mostWanted) == CalcFrom(next, |p + [c]|, width, mostWanted);
        assert next == WithPrefix(vals, p + [c]) by {
          KeepExtendsPrefix(vals, p, c);
        }
        CalcFromReturnsInputRow(vals, p + [c], width, mostWanted);
      }
    }
  }

  /** The returned rating is one of the input rows. */
  lemma CalcReturnsInputRow(vals: seq<string>, mostWanted: bool)
    ensures Calc(vals, mostWanted).Ok? && Calc(vals, mostWanted).value.Some? ==>
      Calc(vals, mostWanted).value.value in vals
  {
    if |vals| > 0 {
      WithEmptyPrefix(vals);
      CalcFromReturnsInputRow(vals, "", |vals[0]|, mostWanted);
    }
  }

  /** On binary rows the most-common filter never empties a non-empty list;
      the least-common one can (see `LeastWantedCanEmpty`). */
  lemma {:induction false} MostWantedKeepsOne(rows: seq<string>, i: nat)
    requires |rows| > 0 && Wide(rows, i + 1)
    requires forall k :: 0 <= k < |rows| ==> IsBinary(rows[k])
    ensures var ones := Ones(rows, i, IsOneChar);
            |Keep(rows, i, Criterion(ones, |rows| - ones, true))| > 0
  {
    var ones := Ones(rows, i, IsOneChar);
    var c := Criterion(ones, |rows| - ones, true);
    KeepCountsMatches(rows, i, c);
  }

  /** How many rows `Keep` keeps: the ones for '1', all the others for '0'. */
  lemma {:induction false} KeepCountsMatches(rows: seq<string>, i: nat, c: char)
    requires Wide(rows, i + 1)
    requires forall k :: 0 <= k < |rows| ==> IsBinary(rows[k])
    ensures c == '1' ==> |Keep(rows, i, c)| == Ones(rows, i, IsOneChar)
    ensures c == '0' ==> |Keep(rows, i, c)| == |rows| - Ones(rows, i, IsOneChar)
  {
    if |rows| > 0 {
      KeepCountsMatches(rows[..|rows| - 1], i, c);
    }
  }

  /** When every row shares a bit, the least-common filter keeps nothing, and
      `calc` falls off the end with None. */
  lemma LeastWantedCanEmpty()
    ensures Calc(["10", "11"], false) == Ok(None)
  {
    var vals := ["10", "11"];
    assert Ones(vals, 0, IsOneChar) == 2;
    assert Keep(vals, 0, '0') == [];
    assert Ones([], 1, IsOneChar) == 0;
  }

  /** Rust's filtering loop: `copied.iter().filter(|val| val[i] == cmp)`. */
  method KeepRows(copied: seq<string>, i: nat, cmp: char) returns (filtered: seq<string>)
    requires Wide(copied, i + 1)
    ensures filtered == Keep(copied, i, cmp)
  {
    filtered := [];
    var k := 0;
    while k < |copied|
      invariant 0 <= k <= |copied|
      invariant filtered == Keep(copied[..k], i, cmp)
    {
      assert copied[..k + 1][..k] == copied[..k];
      if copied[k][i] == cmp {
        filtered := filtered + [copied[k]];
      }
      k := k + 1;
    }
    assert copied[..k] == copied;
  }

  /** binary_strings2 `calc`: the imperative rounds compute the same result
      as the recursive model of binary2.py. */
  method RustCalc(vals: seq<string>, mostWanted: bool) returns (r: Result<Option<string>>)
    ensures r == Calc(vals, mostWanted)
  {
    if |vals| == 0 {
      return Err(IndexError);
    }
    var width := |vals[0]|;
    var copied := vals;
    var i := 0;
    while i < width
      invariant 0 <= i <= width
      invariant CalcFrom(copied, i, width, mostWanted) == Calc(vals, mostWanted)
      decreases width - i
    {
      if exists k :: 0 <= k < |copied| && |copied[k]| <= i {
        return Err(IndexError);
      }
      var ones := CountOnes(copied, i);
      var zeros := |copied| - ones;
      var cmp := if ones >= zeros then (if mostWanted then '1' else '0')
                 else (if mostWanted then '0' else '1');
      assert cmp == Criterion(ones, zeros, mostWanted);
      var filtered := KeepRows(copied, i, cmp);
      if |filtered| == 1 {
        return Ok(Some(filtered[0]));
      }
      copied := filtered;
      i := i + 1;
    }
    r := Ok(None);
  }

  function Times(a: nat, b: nat): nat
  {
    a * b
  }

  /** `int(rating, base=2)` in binary2.py: a None rating is a TypeError. */
  function PythonRating(rating: Result<Option<string>>): (r: Result<nat>)
    ensures r.Ok? ==> rating.Ok? && rating.value.Some? && IsBinary(rating.value.value)
  {
    match rating
    case Err(e) => Err(e)
    case Ok(None) => Err("TypeError")
    case Ok(Some(s)) => ParseBinary(s)
  }

  /** The product printed by binary2.py; a rating that is not a binary
      numeral makes `int` raise. */
  function PythonLifeSupport(lines: seq<string>): (r: Result<nat>)
  {
    var rows := RStripAll(lines);
    match PythonRating(Calc(rows, true))
    case Err(e) => Err(e)
    case Ok(o) =>
      match PythonRating(Calc(rows, false))
      case Err(e) => Err(e)
      case Ok(c) => Ok(Times(o, c))
  }

  /** The product printed by binary_strings2, printed only when both ratings
      are Some; `unwrap` panics on a rating that is not binary or does not
      fit `isize`, and the product panics past `isize`. */
  function RustLifeSupport(vals: seq<string>): (r: Result<Option<nat>>)
    ensures r.Ok? && r.value.Some? ==> Calc(vals, true).Ok? && Calc(vals, true).value.Some?
    ensures r.Ok? && r.value.Some? ==> Calc(vals, false).Ok? && Calc(vals, false).value.Some?
    ensures r.Ok? && r.value.Some? ==> r.value.value <= IsizeMax
    ensures r == Ok(None) <==> Calc(vals, true).Ok? && Calc(vals, false).Ok? && (Calc(vals, true).value.None? || Calc(vals, false).value.None?)
    ensures r.Ok? && r.value.Some? ==>
      var o, c := Calc(vals, true).value.value, Calc(vals, false).value.value;
      IsBinary(o) && IsBinary(c) && r.value.value == BinaryValue(o) * BinaryValue(c)
    ensures Calc(vals, true).Ok? && Calc(vals, true).value.Some? && Calc(vals, false).Ok? && Calc(vals, false).value.Some? ==>
      var o, c := Calc(vals, true).value.value, Calc(vals, false).value.value;
      r.Ok? <==> IsizeBinary(o).Ok? && IsizeBinary(c).Ok? && BinaryValue(o) * BinaryValue(c) <= IsizeMax
  {
    match Calc(vals, true)
    case Err(e) => Err(e)
    case Ok(oxygen) =>
      match Calc(vals, false)
      case Err(e) => Err(e)
      case Ok(co2) =>
        if oxygen.None? || co2.None? then Ok(None)
        else
          match IsizeBinary(oxygen.value)
          case Err(e) => Err(e)
          case Ok(o) =>
            match IsizeBinary(co2.value)
            case Err(e) => Err(e)
            case Ok(c) =>
              match IsizeTimes(o, c)
              case Err(e) => Err(e)
              case Ok(v) => Ok(Some(v))
  }

  /** Rows of at most 31 characters never reach the `isize` limits: both
      ratings, when they exist and are binary, are read and multiplied. */
  lemma NarrowRatingsFit(vals: seq<string>)
    requires forall k :: 0 <= k < |vals| ==> |vals[k]| <= 31
    requires Calc(vals, true).Ok? && Calc(vals, true).value.Some? && IsBinary(Calc(vals, true).value.value)
    requires Calc(vals, false).Ok? && Calc(vals, false).value.Some? && IsBinary(Calc(vals, false).value.value)
    requires |Calc(vals, true).value.value| > 0 && |Calc(vals, false).value.value| > 0
    ensures RustLifeSupport(vals) == Ok(Some(BinaryValue(Calc(vals, true).value.value) * BinaryValue(Calc(vals, false).value.value)))
  {
    var o := Calc(vals, true).value.value;
    var c := Calc(vals, false).value.value;
    CalcReturnsInputRow(vals, true);
    CalcReturnsInputRow(vals, false);
    BinaryValueBound(o);
    BinaryValueBound(c);
    Pow2Monotone(|o|, 31);
    Pow2Monotone(|c|, 31);
    Pow2ThirtyTwo();
    SmallSumProduct(BinaryValue(o), BinaryValue(c));
  }

  /** On lines without trailing spaces both scripts print the same product
      whenever both ratings exist. */
  lemma LifeSupportAgree(lines: seq<string>)
    requires forall k :: 0 <= k < |lines| ==> RStrip(lines[k]) == lines[k]
    requires RustLifeSupport(lines).Ok? && RustLifeSupport(lines).value.Some?
    ensures PythonLifeSupport(lines) == Ok(RustLifeSupport(lines).value.value)
  {
    assert RStripAll(lines) == lines;
  }
}
