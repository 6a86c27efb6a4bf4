/** Shared vocabulary of the puzzle scripts: optional results, sums, sorting,
    decimal digits and whitespace splitting. Each concept is defined once here
    and imported by the modules that model the individual scripts. */
module Util {

  /** Python's `None`-or-value and Rust's `Option`. */
  datatype Option<T> = None | Some(value: T)

  /** A value or an error message, as Rust's `Result<T, Box<dyn Error>>`. */
  datatype Result<T> = Ok(value: T) | Err(msg: string)

  /** The results in order when all are `Ok`, else the first error. */
  function AllOk<T>(rs: seq<Result<T>>): (r: Result<seq<T>>)
    ensures r.Ok? <==> forall k :: 0 <= k < |rs| ==> rs[k].Ok?
    ensures r.Ok? ==> |r.value| == |rs|
    ensures r.Ok? ==> forall k :: 0 <= k < |rs| ==> rs[k] == Ok(r.value[k])
  {
    if |rs| == 0 then Ok([])
    else
      var front := AllOk(rs[..|rs| - 1]);
      if front.Err? then Err(front.msg)
      else if rs[|rs| - 1].Err? then Err(rs[|rs| - 1].msg)
      else Ok(front.value + [rs[|rs| - 1].value])
  }

  /** One more result that is `Ok` after results that are all `Ok` adds its
      value at the end. */
  lemma AllOkSnoc<T>(rs: seq<Result<T>>)
    requires |rs| > 0 && AllOk(rs[..|rs| - 1]).Ok? && rs[|rs| - 1].Ok?
    ensures AllOk(rs) == Ok(AllOk(rs[..|rs| - 1]).value + [rs[|rs| - 1].value])
  {
  }

  lemma AppendAssoc<T>(x: seq<T>, y: seq<T>, z: seq<T>)
    ensures (x + y) + z == x + (y + z)
  {
  }

  function Abs(x: int): nat
  {
    if x < 0 then -x else x
  }

  /** One more row of `b`: a step Dafny's arithmetic does not take alone. */
  lemma MulSucc(a: int, b: int)
    ensures (a + 1) * b == a * b + b
  {
  }

  function Sum(s: seq<int>): int
  {
    if |s| == 0 then 0 else Sum(s[..|s| - 1]) + s[|s| - 1]
  }

  lemma {:induction false} SumAppend(a: seq<int>, b: seq<int>)
    ensures Sum(a + b) == Sum(a) + Sum(b)
    decreases |b|
  {
    if |b| == 0 {
      assert a + b == a;
    } else {
      assert (a + b)[..|a + b| - 1] == a + b[..|b| - 1];
      SumAppend(a, b[..|b| - 1]);
    }
  }

  lemma SumFront(s: seq<int>)
    requires |s| > 0
    ensures Sum(s) == s[0] + Sum(s[1..])
  {
    assert s == [s[0]] + s[1..];
    SumAppend([s[0]], s[1..]);
  }

  /** Sums over sequences of naturals are natural, and bounded below by any term. */
  lemma {:induction false} SumNonNegative(s: seq<int>)
    requires forall i :: 0 <= i < |s| ==> s[i] >= 0
    ensures Sum(s) >= 0
    ensures forall i :: 0 <= i < |s| ==> Sum(s) >= s[i]
  {
    if |s| > 0 {
      SumNonNegative(s[..|s| - 1]);
      assert forall i :: 0 <= i < |s| - 1 ==> s[..|s| - 1][i] == s[i];
    }
  }

  /** Number of positions of `s` that hold `x`. */
  function Occurrences<T(==)>(s: seq<T>, x: T): nat
  {
    if |s| == 0 then 0
    else Occurrences(s[..|s| - 1], x) + (if s[|s| - 1] == x then 1 else 0)
  }

  lemma {:induction false} OccurrencesIsMultiplicity<T>(s: seq<T>, x: T)
    ensures Occurrences(s, x) == multiset(s)[x]
  {
    if |s| > 0 {
      OccurrencesIsMultiplicity(s[..|s| - 1], x);
      assert s == s[..|s| - 1] + [s[|s| - 1]];
    }
  }

  /** Number of elements of `s` that satisfy `p`. */
  function CountWhere<T>(s: seq<T>, p: T -> bool): nat
  {
    if |s| == 0 then 0
    else CountWhere(s[..|s| - 1], p) + (if p(s[|s| - 1]) then 1 else 0)
  }

  lemma {:induction false} CountWhereAppend<T>(a: seq<T>, b: seq<T>, p: T -> bool)
    ensures CountWhere(a + b, p) == CountWhere(a, p) + CountWhere(b, p)
    decreases |b|
  {
    if |b| == 0 {
      assert a + b == a;
    } else {
      assert (a + b)[..|a + b| - 1] == a + b[..|b| - 1];
      CountWhereAppend(a, b[..|b| - 1], p);
    }
  }

  lemma {:induction false} CountWhereAll<T>(s: seq<T>, p: T -> bool)
    requires forall i :: 0 <= i < |s| ==> p(s[i])
    ensures CountWhere(s, p) == |s|
  {
    if |s| > 0 {
      CountWhereAll(s[..|s| - 1], p);
    }
  }

  /** Where the last element of `a` sits in a permutation `b` of it: taking
      it out of both leaves permutations of each other. */
  lemma RemoveLast<T>(a: seq<T>, b: seq<T>) returns (j: nat)
    requires |a| > 0 && multiset(a) == multiset(b)
    ensures j < |b| && b[j] == a[|a| - 1]
    ensures multiset(a[..|a| - 1]) == multiset(b[..j] + b[j + 1..])
  {
    var n := |a| - 1;
    var x := a[n];
    assert x in multiset(b);
    j :| 0 <= j < |b| && b[j] == x;
    assert b == b[..j] + [x] + b[j + 1..];
    assert multiset(b) == multiset(b[..j]) + multiset{x} + multiset(b[j + 1..]);
    assert multiset(b[..j] + b[j + 1..]) == multiset(b[..j]) + multiset(b[j + 1..]);
    assert a == a[..n] + [x];
    assert multiset(a) == multiset(a[..n]) + multiset{x};
    assert multiset(a[..n]) == multiset(a) - multiset{x};
    assert multiset(b[..j] + b[j + 1..]) == multiset(b) - multiset{x};
  }

  /** Counting does not depend on the order of the elements. */
  lemma {:induction false} CountWherePermutation<T>(a: seq<T>, b: seq<T>, p: T -> bool)
    requires multiset(a) == multiset(b)
    ensures CountWhere(a, p) == CountWhere(b, p)
    decreases |a|
  {
    if |a| > 0 {
      var n := |a| - 1;
      var x := a[n];
      assert a == a[..n] + [x];
      assert x in multiset(b);
      var j :| 0 <= j < |b| && b[j] == x;
      assert b == b[..j] + [x] + b[j + 1..];
      var b' := b[..j] + b[j + 1..];
      assert multiset(b) == multiset(b[..j]) + multiset{x} + multiset(b[j + 1..]);
      assert multiset(b') == multiset(b[..j]) + multiset(b[j + 1..]);
      assert multiset(a) == multiset(a[..n]) + multiset{x};
      assert multiset(a[..n]) == multiset(a) - multiset{x};
      assert multiset(b') == multiset(b) - multiset{x};
      CountWherePermutation(a[..n], b', p);
      CountWhereAppend(b[..j], b[j + 1..], p);
      CountWhereAppend(b[..j] + [x], b[j + 1..], p);
      CountWhereAppend(b[..j], [x], p);
      assert CountWhere([x], p) == (if p(x) then 1 else 0) by {
        assert [x][..0] == [];
      }
    }
  }

  predicate SortedAsc(s: seq<int>)
  {
    forall i, j :: 0 <= i < j < |s| ==> s[i] <= s[j]
  }

  /** `s` is in non-decreasing order of `key`. */
  predicate SortedBy<T>(s: seq<T>, key: T -> int)
  {
    forall i, j :: 0 <= i < j < |s| ==> key(s[i]) <= key(s[j])
  }

  /** Every element of `s` has a key of at least `n`. */
  predicate KeysAtLeast<T>(n: int, s: seq<T>, key: T -> int)
  {
    forall k :: 0 <= k < |s| ==> n <= key(s[k])
  }

  lemma KeysAtLeastInsert<T>(n: int, x: T, u: seq<T>, t: seq<T>, key: T -> int)
    requires multiset(t) == multiset(u) + multiset{x}
    requires KeysAtLeast(n, u, key) && n <= key(x)
    ensures KeysAtLeast(n, t, key)
  {
    forall k | 0 <= k < |t| ensures n <= key(t[k]) {
      assert t[k] in multiset(t);
      if t[k] != x {
        assert t[k] in multiset(u);
        var i :| 0 <= i < |u| && u[i] == t[k];
      }
    }
  }

  /** Insert `x` before the first element with a larger or equal key. */
  function InsertBy<T>(x: T, s: seq<T>, key: T -> int): (r: seq<T>)
    requires SortedBy(s, key)
    ensures SortedBy(r, key)
    ensures multiset(r) == multiset(s) + multiset{x}
    ensures |r| == |s| + 1
  {
    if |s| == 0 then [x]
    else if key(x) <= key(s[0]) then [x] + s
    else
      var t := InsertBy(x, s[1..], key);
      assert s == [s[0]] + s[1..];
      KeysAtLeastInsert(key(s[0]), x, s[1..], t, key);
      [s[0]] + t
  }

  /** Insertion sort on a key. Elements with equal keys keep their input
      order, as Python's `sorted` does. */
  function SortBy<T>(s: seq<T>, key: T -> int): (r: seq<T>)
    ensures SortedBy(r, key)
    ensures multiset(r) == multiset(s)
    ensures |r| == |s|
  {
    if |s| == 0 then []
    else
      assert s == [s[0]] + s[1..];
      InsertBy(s[0], SortBy(s[1..], key), key)
  }

  /** The elements of `s` whose key is `k`, in order. */
  function WithKey<T>(s: seq<T>, key: T -> int, k: int): seq<T>
  {
    if |s| == 0 then []
    else (if key(s[0]) == k then [s[0]] else []) + WithKey(s[1..], key, k)
  }

  lemma WithKeyCons<T>(x: T, s: seq<T>, key: T -> int, k: int)
    ensures WithKey([x] + s, key, k) == (if key(x) == k then [x] else []) + WithKey(s, key, k)
  {
    assert ([x] + s)[1..] == s;
  }

  /** Inserting `x` puts it before every element of its key. */
  lemma {:induction false} InsertByWithKey<T>(x: T, s: seq<T>, key: T -> int, k: int)
    requires SortedBy(s, key)
    ensures WithKey(InsertBy(x, s, key), key, k) == (if key(x) == k then [x] else []) + WithKey(s, key, k)
    decreases |s|
  {
    if |s| == 0 {
      WithKeyCons(x, s, key, k);
    } else if key(x) <= key(s[0]) {
      WithKeyCons(x, s, key, k);
    } else {
      var t := InsertBy(x, s[1..], key);
      InsertByWithKey(x, s[1..], key, k);
      InsertBySkips(x, s, key, k);
    }
  }

  /** The step of InsertByWithKey past a smaller first element. */
  lemma InsertBySkips<T>(x: T, s: seq<T>, key: T -> int, k: int)
    requires SortedBy(s, key) && |s| > 0 && key(x) > key(s[0])
    requires WithKey(InsertBy(x, s[1..], key), key, k) == (if key(x) == k then [x] else []) + WithKey(s[1..], key, k)
    ensures WithKey(InsertBy(x, s, key), key, k) == (if key(x) == k then [x] else []) + WithKey(s, key, k)
  {
    var t := InsertBy(x, s[1..], key);
    var w1 := WithKey(s[1..], key, k);
    assert InsertBy(x, s, key) == [s[0]] + t;
    WithKeyCons(s[0], t, key, k);
    WithKeyCons(s[0], s[1..], key, k);
    assert s == [s[0]] + s[1..];
    if key(s[0]) == k {
      assert WithKey(t, key, k) == w1;
    } else {
      assert WithKey(s, key, k) == w1;
    }
  }

  /** Sorting is stable: the elements of each key keep their input order. */
  lemma {:induction false} SortByStable<T>(s: seq<T>, key: T -> int, k: int)
    ensures WithKey(SortBy(s, key), key, k) == WithKey(s, key, k)
    decreases |s|
  {
    if |s| > 0 {
      SortByStable(s[1..], key, k);
      InsertByWithKey(s[0], SortBy(s[1..], key), key, k);
    }
  }

  function Identity(x: int): int
  {
    x
  }

  /** Python's `sorted` on a list of integers. */
  function Sort(s: seq<int>): (r: seq<int>)
    ensures SortedAsc(r)
    ensures multiset(r) == multiset(s)
    ensures |r| == |s|
  {
    var r := SortBy(s, Identity);
    assert forall i, j :: 0 <= i < j < |r| ==> Identity(r[i]) <= Identity(r[j]);
    r
  }

  function Reverse<T>(s: seq<T>): (r: seq<T>)
    ensures |r| == |s|
    ensures forall i :: 0 <= i < |s| ==> r[i] == s[|s| - 1 - i]
  {
    if |s| == 0 then [] else [s[|s| - 1]] + Reverse(s[..|s| - 1])
  }

  lemma ReverseMultiset<T>(s: seq<T>)
    ensures multiset(Reverse(s)) == multiset(s)
  {
    if |s| > 0 {
      ReverseMultiset(s[..|s| - 1]);
      assert s == s[..|s| - 1] + [s[|s| - 1]];
    }
  }

  function MinOf(s: seq<int>): (m: int)
    requires |s| > 0
    ensures m in s
    ensures forall i :: 0 <= i < |s| ==> m <= s[i]
  {
    if |s| == 1 then s[0]
    else
      var rest := MinOf(s[1..]);
      assert forall i :: 1 <= i < |s| ==> s[i] == s[1..][i - 1];
      if s[0] <= rest then s[0] else rest
  }

  function MaxOf(s: seq<int>): (m: int)
    requires |s| > 0
    ensures m in s
    ensures forall i :: 0 <= i < |s| ==> s[i] <= m
  {
    if |s| == 1 then s[0]
    else
      var rest := MaxOf(s[1..]);
      assert forall i :: 1 <= i < |s| ==> s[i] == s[1..][i - 1];
      if s[0] >= rest then s[0] else rest
  }

  function Pow2(n: nat): (r: nat)
    ensures r >= 1
  {
    if n == 0 then 1 else 2 * Pow2(n - 1)
  }

  // ---------------------------------------------------------------------------
  // Decimal digits (ASCII only)

  predicate IsDigit(c: char)
  {
    '0' <= c <= '9'
  }

  function DigitValue(c: char): nat
    requires IsDigit(c)
  {
    (c as int - '0' as int) as nat
  }

  function DigitChar(d: nat): (c: char)
    requires d < 10
    ensures IsDigit(c) && DigitValue(c) == d
  {
    ('0' as int + d) as char
  }

  /** One or more ASCII decimal digits. */
  predicate IsDecimal(s: string)
  {
    |s| > 0 && forall i :: 0 <= i < |s| ==> IsDigit(s[i])
  }

  /** The value of a string of decimal digits, most significant first; leading zeros are allowed. */
  function DecimalValue(s: string): nat
    requires forall i :: 0 <= i < |s| ==> IsDigit(s[i])
  {
    if |s| == 0 then 0
    else DecimalValue(s[..|s| - 1]) * 10 + DigitValue(s[|s| - 1])
  }

  /** Python's `int` on an optionally signed decimal numeral; the other forms
      `int` accepts (a '+' sign, underscores, surrounding spaces) are not
      modelled. */
  function ParseInt(s: string): Option<int>
  {
    if |s| > 0 && s[0] == '-' && IsDecimal(s[1..]) then Some(-(DecimalValue(s[1..]) as int))
    else if IsDecimal(s) then Some(DecimalValue(s))
    else None
  }

  /** `list(map(int, fields))`: the first field `int` rejects raises a
      ValueError. */
  function ParseInts(fields: seq<string>): (r: Result<seq<int>>)
    ensures r.Ok? ==> |r.value| == |fields|
    ensures r.Ok? ==> forall i :: 0 <= i < |fields| ==> ParseInt(fields[i]) == Some(r.value[i])
    ensures r.Ok? <==> forall i :: 0 <= i < |fields| ==> ParseInt(fields[i]).Some?
  {
    if |fields| == 0 then Ok([])
    else match ParseInts(fields[..|fields| - 1])
      case Err(msg) => Err(msg)
      case Ok(front) =>
        match ParseInt(fields[|fields| - 1])
        case Some(v) => Ok(front + [v])
        case None => Err("ValueError: invalid literal for int()")
  }

  /** The shortest decimal numeral of `n`. */
  function ShowNat(n: nat): (s: string)
    ensures IsDecimal(s)
    ensures n > 0 ==> s[0] != '0'
  {
    if n < 10 then [DigitChar(n)]
    else ShowNat(n / 10) + [DigitChar(n % 10)]
  }

  lemma {:induction false} DecimalShowNat(n: nat)
    ensures DecimalValue(ShowNat(n)) == n
  {
    if n >= 10 {
      DecimalShowNat(n / 10);
      var s := ShowNat(n);
      assert s[..|s| - 1] == ShowNat(n / 10);
    }
  }

  /** The largest `usize`, for a 64-bit target. */
  const UsizeMax: int := 0xFFFF_FFFF_FFFF_FFFF
  const I32Min: int := -0x8000_0000
  const I32Max: int := 0x7FFF_FFFF

  /** Rust's `str::parse` for the integer type whose values are `lo..=hi`: an
      optional '+' (or '-' when the type is signed) and at least one ASCII
      digit, with no spaces; a value out of range is an error. */
  function RustParse(s: string, lo: int, hi: int): (r: Option<int>)
    ensures r.Some? ==> lo <= r.value <= hi
    ensures r.Some? ==> IsDecimal(s) || (|s| > 1 && (s[0] == '+' || (s[0] == '-' && lo < 0)) && IsDecimal(s[1..]))
  {
    var negative := |s| > 0 && s[0] == '-' && lo < 0;
    var digits := if |s| > 0 && (s[0] == '+' || negative) then s[1..] else s;
    if !IsDecimal(digits) then None
    else
      var v := if negative then -(DecimalValue(digits) as int) else DecimalValue(digits) as int;
      if lo <= v <= hi then Some(v) else None
  }

  /** Every `usize` survives printing and parsing back. */
  lemma RustParseShowNat(n: nat)
    requires n <= UsizeMax
    ensures RustParse(ShowNat(n), 0, UsizeMax) == Some(n)
  {
    DecimalShowNat(n);
  }

  // ---------------------------------------------------------------------------
  // Whitespace

  /** Python's `str.isspace` for one character, the set that `split()` and
      `rstrip()` use: the ASCII controls \t to \r and \x1c to \x1f, and the
      Unicode spaces and separators. */
  predicate IsSpace(c: char)
  {
    c == ' ' || '\t' <= c <= '\r' || '\U{1C}' <= c <= '\U{1F}' || c == '\U{85}' || c == '\U{A0}'
    || c == '\U{1680}' || '\U{2000}' <= c <= '\U{200A}' || c == '\U{2028}' || c == '\U{2029}'
    || c == '\U{202F}' || c == '\U{205F}' || c == '\U{3000}'
  }

  /** Length of the run of non-space characters at the front of `s`. */
  function WordLength(s: string): (n: nat)
    ensures n <= |s|
    ensures forall i :: 0 <= i < n ==> !IsSpace(s[i])
    ensures n < |s| ==> IsSpace(s[n])
  {
    if |s| == 0 || IsSpace(s[0]) then 0 else 1 + WordLength(s[1..])
  }

  /** Python's `s.split()`: the maximal runs of non-space characters, in order. */
  function Words(s: string): (ws: seq<string>)
    ensures forall k :: 0 <= k < |ws| ==> |ws[k]| > 0
    ensures forall k, i :: 0 <= k < |ws| && 0 <= i < |ws[k]| ==> !IsSpace(ws[k][i])
    decreases |s|
  {
    if |s| == 0 then []
    else if IsSpace(s[0]) then Words(s[1..])
    else
      var n := WordLength(s);
      [s[..n]] + Words(s[n..])
  }

  lemma {:induction false} WordLengthSpaceAppend(s: string, c: char)
    requires IsSpace(c)
    ensures WordLength(s + [c]) == WordLength(s)
  {
    if |s| > 0 && !IsSpace(s[0]) {
      assert (s + [c])[1..] == s[1..] + [c];
      WordLengthSpaceAppend(s[1..], c);
    }
  }

  /** A trailing space adds no word. */
  lemma {:induction false} WordsSpaceAppend(s: string, c: char)
    requires IsSpace(c)
    ensures Words(s + [c]) == Words(s)
    decreases |s|
  {
    if |s| == 0 {
      assert Words([c]) == Words([c][1..]);
    } else if IsSpace(s[0]) {
      assert (s + [c])[1..] == s[1..] + [c];
      WordsSpaceAppend(s[1..], c);
    } else {
      var n := WordLength(s);
      WordLengthSpaceAppend(s, c);
      assert (s + [c])[..n] == s[..n];
      assert (s + [c])[n..] == s[n..] + [c];
      WordsSpaceAppend(s[n..], c);
    }
  }

  /** A word runs up to the first whitespace character and no further. */
  lemma {:induction false} WordLengthAt(s: string, n: nat)
    requires n <= |s| && forall i :: 0 <= i < n ==> !IsSpace(s[i])
    requires n == |s| || IsSpace(s[n])
    ensures WordLength(s) == n
    decreases n
  {
    if n > 0 {
      WordLengthAt(s[1..], n - 1);
    }
  }

  /** A non-empty string without whitespace is one word. */
  lemma WordsOfWord(w: string)
    requires |w| > 0 && forall i :: 0 <= i < |w| ==> !IsSpace(w[i])
    ensures Words(w) == [w]
  {
    WordLengthAt(w, |w|);
    assert w[..|w|] == w && w[|w|..] == [];
  }

  /** A whitespace character separates the words on its two sides. */
  lemma {:induction false} WordsSplitAt(a: string, c: char, b: string)
    requires IsSpace(c)
    ensures Words(a + [c] + b) == Words(a) + Words(b)
    decreases |a|
  {
    if |a| == 0 {
      assert (a + [c] + b)[1..] == b;
    } else if IsSpace(a[0]) {
      WordsSplitAt(a[1..], c, b);
      WordsSplitAtSpace(a, c, b);
    } else {
      var n := WordLength(a);
      WordsSplitAt(a[n..], c, b);
      WordsSplitAtWord(a, c, b);
    }
  }

  /** The step of WordsSplitAt past a leading whitespace character. */
  lemma WordsSplitAtSpace(a: string, c: char, b: string)
    requires |a| > 0 && IsSpace(a[0])
    requires Words(a[1..] + [c] + b) == Words(a[1..]) + Words(b)
    ensures Words(a + [c] + b) == Words(a) + Words(b)
  {
    assert (a + [c] + b)[1..] == a[1..] + [c] + b;
  }

  /** The step of WordsSplitAt past a leading word. */
  lemma WordsSplitAtWord(a: string, c: char, b: string)
    requires IsSpace(c) && |a| > 0 && !IsSpace(a[0])
    requires Words(a[WordLength(a)..] + [c] + b) == Words(a[WordLength(a)..]) + Words(b)
    ensures Words(a + [c] + b) == Words(a) + Words(b)
  {
    var s := a + [c] + b;
    var n := WordLength(a);
    var x, p, q := a[..n], Words(a[n..]), Words(b);
    assert Words(s) == [x] + (p + q) by {
      assert forall i :: 0 <= i < n ==> s[i] == a[i];
      assert n < |a| ==> s[n] == a[n];
      WordLengthAt(s, n);
      WordsLeadingWord(s, n);
      assert s[..n] == x && s[n..] == a[n..] + [c] + b;
    }
    assert Words(a) == [x] + p by {
      WordsLeadingWord(a, n);
    }
    AppendAssoc([x], p, q);
  }

  /** `split()` of a string that starts with a word of length `n`. */
  lemma WordsLeadingWord(s: string, n: nat)
    requires |s| > 0 && !IsSpace(s[0]) && WordLength(s) == n
    ensures Words(s) == [s[..n]] + Words(s[n..])
  {
  }

  /** `s` holds no whitespace character. */
  predicate NoSpace(s: string)
  {
    forall i :: 0 <= i < |s| ==> !IsSpace(s[i])
  }

  lemma NoSpaceDecimal(s: string)
    requires IsDecimal(s)
    ensures NoSpace(s)
  {
    forall i | 0 <= i < |s|
      ensures !IsSpace(s[i])
    {
      assert IsDigit(s[i]);
    }
  }

  lemma NoSpaceAppend(x: string, y: string)
    requires NoSpace(x) && NoSpace(y)
    ensures NoSpace(x + y)
  {
    forall i | 0 <= i < |x + y|
      ensures !IsSpace((x + y)[i])
    {
      if i < |x| {
        assert (x + y)[i] == x[i];
      } else {
        assert (x + y)[i] == y[i - |x|];
      }
    }
  }

  /** Splitting words joined by single spaces gives the words back. */
  lemma {:induction false} WordsJoin(ws: seq<string>)
    requires |ws| >= 1
    requires forall k :: 0 <= k < |ws| ==> |ws[k]| > 0
    requires forall k :: 0 <= k < |ws| ==> NoSpace(ws[k])
    ensures Words(JoinWith(ws, ' ')) == ws
    decreases |ws|
  {
    WordsOfWord(ws[0]);
    if |ws| > 1 {
      WordsJoin(ws[1..]);
      WordsSplitAt(ws[0], ' ', JoinWith(ws[1..], ' '));
      assert [ws[0]] + ws[1..] == ws;
    }
  }

  /** Python's `str.rstrip()`: drop the trailing run of whitespace. */
  function RStrip(s: string): (t: string)
    ensures |t| <= |s| && t == s[..|t|]
    ensures |t| > 0 ==> !IsSpace(t[|t| - 1])
    ensures forall i :: |t| <= i < |s| ==> IsSpace(s[i])
  {
    if |s| == 0 || !IsSpace(s[|s| - 1]) then s else RStrip(s[..|s| - 1])
  }

  /** `s.rstrip().split()` is `s.split()`. */
  lemma {:induction false} WordsRStrip(s: string)
    ensures Words(RStrip(s)) == Words(s)
  {
    if |s| > 0 && IsSpace(s[|s| - 1]) {
      var n := |s| - 1;
      WordsRStrip(s[..n]);
      assert s == s[..n] + [s[n]];
      WordsSpaceAppend(s[..n], s[n]);
    }
  }

  /** Index of the first `c` in `s`, or `|s|` when there is none. */
  function FirstIndex(s: string, c: char): (i: nat)
    ensures i <= |s|
    ensures forall k :: 0 <= k < i ==> s[k] != c
    ensures i < |s| ==> s[i] == c
  {
    if |s| == 0 || s[0] == c then 0 else 1 + FirstIndex(s[1..], c)
  }

  /** Python's `s.split(sep)` for a one-character separator: the pieces between
      separators, empty pieces included. */
  function SplitOn(s: string, sep: char): (parts: seq<string>)
    ensures |parts| >= 1
    ensures forall k, i :: 0 <= k < |parts| && 0 <= i < |parts[k]| ==> parts[k][i] != sep
    decreases |s|
  {
    var i := FirstIndex(s, sep);
    if i == |s| then [s] else [s[..i]] + SplitOn(s[i + 1..], sep)
  }

  /** `sep.join(parts)`. */
  function JoinWith(parts: seq<string>, sep: char): string
    requires |parts| >= 1
  {
    if |parts| == 1 then parts[0] else parts[0] + [sep] + JoinWith(parts[1..], sep)
  }

  /** Splitting and joining back with the same separator restores the string. */
  lemma {:induction false} JoinSplit(s: string, sep: char)
    ensures JoinWith(SplitOn(s, sep), sep) == s
    decreases |s|
  {
    var i := FirstIndex(s, sep);
    if i < |s| {
      var rest := SplitOn(s[i + 1..], sep);
      assert SplitOn(s, sep) == [s[..i]] + rest;
      assert ([s[..i]] + rest)[1..] == rest;
      JoinSplit(s[i + 1..], sep);
      assert JoinWith(SplitOn(s, sep), sep) == s[..i] + [sep] + JoinWith(rest, sep);
      assert s == s[..i] + [sep] + s[i + 1..];
    } else {
      assert SplitOn(s, sep) == [s];
    }
  }

  /** Splitting what was joined gives back the pieces, when no piece holds the separator. */
  lemma {:induction false} SplitJoin(parts: seq<string>, sep: char)
    requires |parts| >= 1
    requires forall k, i :: 0 <= k < |parts| && 0 <= i < |parts[k]| ==> parts[k][i] != sep
    ensures SplitOn(JoinWith(parts, sep), sep) == parts
    decreases |parts|
  {
    if |parts| > 1 {
      var rest := JoinWith(parts[1..], sep);
      var s := parts[0] + [sep] + rest;
      assert FirstIndex(s, sep) == |parts[0]| by {
        FirstIndexAt(parts[0], sep, rest);
      }
      assert s[..|parts[0]|] == parts[0];
      assert s[|parts[0]| + 1..] == rest;
      assert SplitOn(rest, sep) == parts[1..] by {
        SplitJoin(parts[1..], sep);
      }
    } else {
      assert FirstIndex(parts[0], sep) == |parts[0]|;
    }
  }

  lemma {:induction false} FirstIndexAt(a: string, sep: char, b: string)
    requires forall i :: 0 <= i < |a| ==> a[i] != sep
    ensures FirstIndex(a + [sep] + b, sep) == |a|
    decreases |a|
  {
    if |a| > 0 {
      assert (a + [sep] + b)[1..] == a[1..] + [sep] + b;
      FirstIndexAt(a[1..], sep, b);
    }
  }

  predicate IsBlank(s: string)
  {
    forall i :: 0 <= i < |s| ==> IsSpace(s[i])
  }

  /** A line with no words is exactly a line that `rstrip` reduces to the empty string. */
  lemma {:induction false} WordsEmptyIffBlank(s: string)
    ensures Words(s) == [] <==> IsBlank(s)
    decreases |s|
  {
    if |s| > 0 {
      if IsSpace(s[0]) {
        WordsEmptyIffBlank(s[1..]);
        assert IsBlank(s) <==> IsBlank(s[1..]) by {
          assert forall i :: 1 <= i < |s| ==> s[i] == s[1..][i - 1];
        }
      }
    }
  }
}
