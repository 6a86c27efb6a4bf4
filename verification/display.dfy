/** The seven-segment scripts. The counting script tallies output words whose
    length only one digit has; the decoding script works out which wire drives
    which segment from the ten patterns of a line, using 7-bit masks, and
    reads the four output words as a number. */
module Display {
  import opened Util

  // ---------------------------------------------------------------------------
  // Bit counting

  /** Number of set bits, peeling the low bit off each round as the counting
      loop does. Masks never exceed seven bits, so a `bv7` holds them exactly. */
  function PopCount(v: bv7): nat
    decreases v as nat
  {
    if v == 0 then 0 else LowBit(v) + PopCount(v >> 1)
  }

  /** `n & 1` as a number. */
  function LowBit(v: bv7): nat
  {
    if v & 1 == 1 then 1 else 0
  }

  /** `count_set_bits`: add the low bit, shift right, until nothing is left. */
  method CountSetBits(n: bv7) returns (count: nat)
    ensures count == PopCount(n)
    ensures count <= 7
  {
    count := 0;
    var m := n;
    ghost var shifts := 0;
    while m != 0
      invariant count + PopCount(m) == PopCount(n)
      invariant 0 <= shifts <= 7 && count <= shifts
      invariant m as nat < Pow2(7 - shifts)
      decreases m as nat
    {
      count := count + LowBit(m);
      PowHalf(m, 7 - shifts);
      m := m >> 1;
      shifts := shifts + 1;
    }
  }

  lemma PowHalf(m: bv7, k: nat)
    requires m != 0 && m as nat < Pow2(k)
    ensures k >= 1 && (m >> 1) as nat < Pow2(k - 1)
  {
    assert (m >> 1) as nat == m as nat / 2;
  }

  /** A value with exactly one bit set. */
  predicate OneHot(v: bv7)
  {
    v != 0 && v & (v - 1) == 0
  }

  /** A mask has one set bit exactly when it is a single bit. */
  lemma {:induction false} PopCountOneIffOneHot(v: bv7)
    ensures PopCount(v) == 1 <==> OneHot(v)
    ensures PopCount(v) == 0 <==> v == 0
    decreases v as nat
  {
    if v != 0 {
      PopCountOneIffOneHot(v >> 1);
      assert (v >> 1) as nat < v as nat;
      if v & 1 == 1 {
        assert OneHot(v) <==> v >> 1 == 0;
      } else {
        assert OneHot(v) <==> OneHot(v >> 1);
      }
    }
  }

  // ---------------------------------------------------------------------------
  // Masks

  /** The value of a `'1'` at index `x` of the 7-character mask string read in base 2. */
  function Bit(x: nat): (b: bv7)
    requires x < 7
    ensures OneHot(b)
  {
    if x == 0 then 64
    else if x == 1 then 32
    else if x == 2 then 16
    else if x == 3 then 8
    else if x == 4 then 4
    else if x == 5 then 2
    else 1
  }

  lemma BitDistinct(x: nat, y: nat)
    requires x < 7 && y < 7
    ensures Bit(x) & Bit(y) == 0 <==> x != y
  {
  }

  /** `pos`: each letter's index in the seven-letter pattern; a repeated letter
      keeps its last index, as building a dict does. */
  function PosMap(bits: string): (pos: map<char, nat>)
    ensures forall c :: c in pos <==> c in bits
    ensures forall c :: c in pos ==> pos[c] < |bits| && bits[pos[c]] == c
  {
    if |bits| == 0 then map[]
    else PosMap(bits[..|bits| - 1])[bits[|bits| - 1] := |bits| - 1]
  }

  /** The mask of a pattern: the bit of each of its letters; `None` when a
      letter is missing from `pos` (a KeyError). */
  function PatMask(pat: string, pos: map<char, nat>): (m: Option<bv7>)
    requires forall c :: c in pos ==> pos[c] < 7
    ensures m.Some? <==> forall i :: 0 <= i < |pat| ==> pat[i] in pos
  {
    if |pat| == 0 then Some(0)
    else
      match PatMask(pat[..|pat| - 1], pos)
      case None => None
      case Some(m) =>
        if pat[|pat| - 1] in pos then Some(m | Bit(pos[pat[|pat| - 1]])) else None
  }

  /** Python's `^` and `&` on two masks. `decode` is written with these so
      that each of its steps stays one term, applied left to right as Python
      evaluates a chain of operators. */
  function Xor(m: bv7, n: bv7): bv7
  {
    m ^ n
  }

  function And(m: bv7, n: bv7): bv7
  {
    m & n
  }

  /** A pattern with its mask, as stored in `bits_by_len`. */
  datatype Entry = Entry(pat: string, mask: bv7)

  function Entries(ps: seq<string>, pos: map<char, nat>): (es: Option<seq<Entry>>)
    requires forall c :: c in pos ==> pos[c] < 7
    ensures es.Some? ==> |es.value| == |ps|
    ensures es.Some? ==> forall i :: 0 <= i < |ps| ==>
      es.value[i].pat == ps[i] && PatMask(ps[i], pos) == Some(es.value[i].mask)
    ensures es.None? <==> exists i :: 0 <= i < |ps| && PatMask(ps[i], pos).None?
  {
    if |ps| == 0 then Some([])
    else
      match Entries(ps[..|ps| - 1], pos)
      case None => None
      case Some(es) =>
        match PatMask(ps[|ps| - 1], pos)
        case None => None
        case Some(m) => Some(es + [Entry(ps[|ps| - 1], m)])
  }

  /** `bits_by_len[k]`: the entries whose pattern has `k` letters, in order. */
  function LenGroup(es: seq<Entry>, k: nat): (g: seq<Entry>)
    ensures forall e :: e in g <==> e in es && |e.pat| == k
  {
    if |es| == 0 then []
    else LenGroup(es[..|es| - 1], k) + (if |es[|es| - 1].pat| == k then [es[|es| - 1]] else [])
  }

  /** The `pos_f` loop: the last six-letter entry whose overlap with `one` has a
      single bit gives that overlap; `None` leaves `pos_f` as the empty string. */
  function LastSingle(one: bv7, es: seq<Entry>): (f: Option<bv7>)
    ensures f.Some? ==> PopCount(f.value) == 1 && exists e :: e in es && f.value == one & e.mask
    ensures f.None? <==> forall e :: e in es ==> PopCount(one & e.mask) != 1
  {
    if |es| == 0 then None
    else if PopCount(one & es[|es| - 1].mask) == 1 then Some(one & es[|es| - 1].mask)
    else LastSingle(one, es[..|es| - 1])
  }

  /** `reduce(lambda a, b: a & b, fives)`. */
  function AndAll(es: seq<Entry>): (m: bv7)
    requires |es| > 0
  {
    if |es| == 1 then es[0].mask else AndAll(es[..|es| - 1]) & es[|es| - 1].mask
  }

  /** A bit is set in the conjunction exactly when every mask has it. */
  lemma {:induction false} AndAllBits(es: seq<Entry>, b: bv7)
    requires |es| > 0
    ensures AndAll(es) & b == b <==> forall e :: e in es ==> e.mask & b == b
  {
    if |es| > 1 {
      AndAllBits(es[..|es| - 1], b);
      assert es == es[..|es| - 1] + [es[|es| - 1]];
    }
  }

  /** The `if`/`elif` chain on the seven segment masks `pos_a` to `pos_g`: the
      first digit whose segments XOR to `bits`. */
  function Classify(bits: bv7, a: bv7, b: bv7, c: bv7, d: bv7, e: bv7, f: bv7, g: bv7): Option<char>
  {
    if bits ^ c ^ f == 0 then Some('1')
    else if bits ^ a ^ c ^ d ^ e ^ g == 0 then Some('2')
    else if bits ^ a ^ c ^ d ^ f ^ g == 0 then Some('3')
    else if bits ^ b ^ c ^ d ^ f == 0 then Some('4')
    else if bits ^ a ^ b ^ d ^ f ^ g == 0 then Some('5')
    else if bits ^ a ^ b ^ d ^ e ^ f ^ g == 0 then Some('6')
    else if bits ^ a ^ c ^ f == 0 then Some('7')
    else if bits ^ a ^ b ^ c ^ d ^ e ^ f ^ g == 0 then Some('8')
    else if bits ^ a ^ b ^ c ^ d ^ f ^ g == 0 then Some('9')
    else if bits ^ a ^ b ^ c ^ e ^ f ^ g == 0 then Some('0')
    else None
  }

  // ---------------------------------------------------------------------------
  // Sorting

  function Length(s: string): int
  {
    |s|
  }

  /** `sorted(patterns, key=len)`. */
  function SortByLen(s: seq<string>): (r: seq<string>)
    ensures multiset(r) == multiset(s) && |r| == |s|
    ensures forall i, j :: 0 <= i < j < |r| ==> |r[i]| <= |r[j]|
  {
    var r := SortBy(s, Length);
    assert forall i, j :: 0 <= i < j < |r| ==> Length(r[i]) <= Length(r[j]);
    r
  }

  function Code(c: char): int
  {
    c as int
  }

  /** `''.join(sorted(pat))`: the letters of a pattern in order. */
  function SortChars(s: string): (r: string)
    ensures multiset(r) == multiset(s) && |r| == |s|
    ensures SortedChars(r)
  {
    var r := SortBy(s, Code);
    assert forall i, j :: 0 <= i < j < |r| ==> Code(r[i]) <= Code(r[j]);
    r
  }

  predicate SortedChars(s: string)
  {
    forall i, j :: 0 <= i < j < |s| ==> s[i] <= s[j]
  }

  lemma SortedHead(s: string, x: char)
    requires SortedChars(s) && x in s
    ensures s[0] <= x
  {
  }

  lemma SortedTail(s: string)
    requires SortedChars(s) && |s| > 0
    ensures SortedChars(s[1..])
  {
    forall i, j | 0 <= i < j < |s| - 1 ensures s[1..][i] <= s[1..][j] {
      assert s[1..][i] == s[i + 1] && s[1..][j] == s[j + 1];
    }
  }

  /** Two sorted strings with the same letters are the same string. */
  lemma {:induction false} SortedUnique(a: string, b: string)
    requires multiset(a) == multiset(b)
    requires SortedChars(a) && SortedChars(b)
    ensures a == b
    decreases |a|
  {
    assert |a| == |multiset(a)| == |b|;
    if |a| > 0 {
      SortedHeads(a, b);
      assert a[1..] == b[1..] by {
        SortedTail(a);
        SortedTail(b);
        SortedUnique(a[1..], b[1..]);
      }
      SameHeadAndTail(a, b);
    }
  }

  /** Two sorted strings with the same letters start with the same letter,
      and the rest have the same letters. */
  lemma SortedHeads(a: string, b: string)
    requires multiset(a) == multiset(b) && |a| > 0
    requires SortedChars(a) && SortedChars(b)
    ensures |b| > 0 && a[0] == b[0] && multiset(a[1..]) == multiset(b[1..])
  {
    assert |a| == |multiset(a)| == |b|;
    assert a[0] in b && b[0] in a by {
      assert a[0] in multiset(b) && b[0] in multiset(a);
    }
    SortedHead(a, b[0]);
    SortedHead(b, a[0]);
    TailLetters(a, b);
  }

  lemma TailLetters(a: string, b: string)
    requires multiset(a) == multiset(b) && |a| > 0 && |b| > 0 && a[0] == b[0]
    ensures multiset(a[1..]) == multiset(b[1..])
  {
    assert a == [a[0]] + a[1..] && b == [b[0]] + b[1..];
    assert multiset(a[1..]) == multiset(a) - multiset{a[0]};
    assert multiset(b[1..]) == multiset(b) - multiset{b[0]};
  }

  lemma SameHeadAndTail(a: string, b: string)
    requires |a| > 0 && |b| > 0 && a[0] == b[0] && a[1..] == b[1..]
    ensures a == b
  {
    assert a == [a[0]] + a[1..] && b == [b[0]] + b[1..];
  }

  /** Patterns with the same letters, in any order, share a key. */
  lemma SortCharsKey(a: string, b: string)
    requires multiset(a) == multiset(b)
    ensures SortChars(a) == SortChars(b)
  {
    SortedUnique(SortChars(a), SortChars(b));
  }

  // ---------------------------------------------------------------------------
  // The decoder

  /** The digit the `if`/`elif` chain gives each entry, if any. */
  function Classes(es: seq<Entry>, a: bv7, b: bv7, c: bv7, d: bv7, e: bv7, f: bv7, g: bv7): (ds: seq<Option<char>>)
    ensures |ds| == |es|
  {
    seq(|es|, j requires 0 <= j < |es| => Classify(es[j].mask, a, b, c, d, e, f, g))
  }

  /** The key of each entry in `res`: its pattern's letters, sorted. */
  function Keys(es: seq<Entry>): (ks: seq<string>)
    ensures |ks| == |es|
  {
    seq(|es|, j requires 0 <= j < |es| => SortChars(es[j].pat))
  }

  /** `res`: the digit of every entry that has one, under the entry's key,
      later entries overwriting earlier ones. */
  function Store(keys: seq<string>, digits: seq<Option<char>>): (res: map<string, char>)
    requires |digits| == |keys|
    ensures forall k :: k in res ==> exists j :: 0 <= j < |keys| && keys[j] == k && digits[j].Some?
  {
    if |keys| == 0 then map[]
    else
      var n := |keys| - 1;
      var res := Store(keys[..n], digits[..n]);
      match digits[n]
      case None => res
      case Some(digit) => res[keys[n] := digit]
  }

  /** The loop that fills `res`, with the seven segment masks. */
  function ResultMap(es: seq<Entry>, a: bv7, b: bv7, c: bv7, d: bv7, e: bv7, f: bv7, g: bv7): map<string, char>
  {
    Store(Keys(es), Classes(es, a, b, c, d, e, f, g))
  }

  /** The longest pattern comes first once the patterns are sorted by length
      and reversed, and no pattern is lost. */
  lemma LongestFirst(ps: seq<string>)
    requires |ps| > 0
    ensures Reverse(SortByLen(ps))[0] in ps
    ensures forall i :: 0 <= i < |ps| ==> |ps[i]| <= |Reverse(SortByLen(ps))[0]|
    ensures multiset(Reverse(SortByLen(ps))) == multiset(ps)
  {
    var r := SortByLen(ps);
    ReverseMultiset(r);
    var top := r[|r| - 1];
    assert Reverse(r)[0] == top;
    assert top in multiset(ps);
    forall i | 0 <= i < |ps|
      ensures |ps[i]| <= |top|
    {
      assert ps[i] in multiset(r);
      var j :| 0 <= j < |r| && r[j] == ps[i];
    }
  }

  /** `decode`: `Err` names the Python exception raised on malformed input. */
  function Decode(patterns: seq<string>): (r: Result<map<string, char>>)
    ensures r.Ok? ==> |patterns| > 0
    ensures r.Ok? ==> exists i :: 0 <= i < |patterns| && |patterns[i]| == 7
    ensures r.Ok? ==> forall i :: 0 <= i < |patterns| ==> |patterns[i]| <= 7
  {
    if |patterns| == 0 then Err("IndexError")
    else
      LongestFirst(patterns);
      var sorted := Reverse(SortByLen(patterns));
      var bits := sorted[0];
      if |bits| != 7 then Err("AssertionError")
      else
        var pos := PosMap(bits);
        match Entries(sorted, pos)
        case None => Err("KeyError")
        case Some(es) =>
          assert es[0].pat == bits;
          DecodeEntries(es)
  }

  /** The rest of `decode` once the entries are built: from the groups by
      length to the seven segment masks, then `res`. `es` starts with the
      seven-letter pattern, so `bits_by_len[7]` is never empty. */
  function DecodeEntries(es: seq<Entry>): (r: Result<map<string, char>>)
    requires |es| > 0 && |es[0].pat| == 7
  {
    var ones, sevens := LenGroup(es, 2), LenGroup(es, 3);
    if |ones| == 0 || |sevens| == 0 then Err("IndexError")
    else
      var one, seven := ones[0].mask, sevens[0].mask;
      var posA := Xor(one, seven);
      match LastSingle(one, LenGroup(es, 6))
      case None => Err("TypeError")
      case Some(posF) =>
        var posC := Xor(one, posF);
        var fives := LenGroup(es, 5);
        if |fives| == 0 then Err("TypeError")
        else
          var horz := AndAll(fives);
          var fours := LenGroup(es, 4);
          if |fours| == 0 then Err("IndexError")
          else
            var four := fours[0].mask;
            var posD := And(horz, four);
            var posB := Xor(Xor(Xor(four, posC), posD), posF);
            assert es[0] in LenGroup(es, 7);
            var eight := LenGroup(es, 7)[0].mask;
            var posE := Xor(Xor(Xor(Xor(eight, horz), posB), posC), posF);
            var posG := Xor(Xor(Xor(Xor(Xor(Xor(eight, posA), posB), posC), posD), posE), posF);
            Ok(ResultMap(es, posA, posB, posC, posD, posE, posF, posG))
  }

  // ---------------------------------------------------------------------------
  // Lines

  /** `re.split(r'\s*[|]\s*', line)` unpacked into two parts: the patterns and
      the output words; any other number of bars fails to unpack. */
  function SplitLine(line: string): (r: Result<(seq<string>, seq<string>)>)
    ensures r.Ok? <==> |SplitOn(line, '|')| == 2
  {
    var parts := SplitOn(line, '|');
    if |parts| != 2 then Err("ValueError") else Ok((Words(parts[0]), Words(parts[1])))
  }

  /** `n in [2, 3, 4, 7]`: the lengths of the patterns for 1, 7, 4 and 8. */
  predicate UniqueLength(k: int)
  {
    k == 2 || k == 3 || k == 4 || k == 7
  }

  /** The positions of the output words whose length is unique. */
  function UniquePositions(outputs: seq<string>): set<int>
  {
    set i | 0 <= i < |outputs| && UniqueLength(|outputs[i]|)
  }

  /** The counting script on one line: how many output words have a unique length. */
  function UniqueCount(outputs: seq<string>): (n: nat)
    ensures n == |UniquePositions(outputs)|
  {
    if |outputs| == 0 then 0
    else
      var m := |outputs| - 1;
      UniquePositionsSnoc(outputs);
      UniqueCount(outputs[..m]) + (if UniqueLength(|outputs[m]|) then 1 else 0)
  }

  /** The last word adds its own position, or nothing, to those of the words before it. */
  lemma UniquePositionsSnoc(outputs: seq<string>)
    requires |outputs| > 0
    ensures UniquePositions(outputs) == UniquePositions(outputs[..|outputs| - 1]) +
      (if UniqueLength(|outputs[|outputs| - 1]|) then {|outputs| - 1} else {})
    ensures |outputs| - 1 !in UniquePositions(outputs[..|outputs| - 1])
  {
    var m := |outputs| - 1;
    assert forall i :: 0 <= i < m ==> outputs[..m][i] == outputs[i];
  }

  /** The unique-length count of one line, or the error that splitting it raises. */
  function LineUnique(line: string): (r: Result<nat>)
    ensures r.Ok? <==> SplitLine(RStrip(line)).Ok?
    ensures r.Ok? ==> r.value == |UniquePositions(SplitLine(RStrip(line)).value.1)|
  {
    match SplitLine(RStrip(line))
    case Err(msg) => Err(msg)
    case Ok(halves) => Ok(UniqueCount(halves.1))
  }

  /** The results of the lines, one per line. */
  function LineUniques(lines: seq<string>): (rs: seq<Result<nat>>)
    ensures |rs| == |lines| && forall i :: 0 <= i < |lines| ==> rs[i] == LineUnique(lines[i])
  {
    seq(|lines|, i requires 0 <= i < |lines| => LineUnique(lines[i]))
  }

  /** How many output words of unique length each line has, when every line splits. */
  function LineCounts(lines: seq<string>): (counts: seq<nat>)
    requires forall i :: 0 <= i < |lines| ==> SplitLine(RStrip(lines[i])).Ok?
    ensures |counts| == |lines|
    ensures forall i :: 0 <= i < |lines| ==> counts[i] == |UniquePositions(SplitLine(RStrip(lines[i])).value.1)|
  {
    seq(|lines|, i requires 0 <= i < |lines| => UniqueCount(SplitLine(RStrip(lines[i])).value.1))
  }

  /** The counting script's answer: the sum over lines of their unique-length
      words; the first line that does not split stops the script. */
  function CountUnique(lines: seq<string>): (r: Result<nat>)
    ensures r.Ok? <==> forall i :: 0 <= i < |lines| ==> SplitLine(RStrip(lines[i])).Ok?
    ensures r.Ok? ==> r.value == Sum(LineCounts(lines))
    ensures r.Err? ==> exists i :: (0 <= i < |lines| && SplitLine(RStrip(lines[i])) == Err(r.msg) &&
      forall j :: 0 <= j < i ==> SplitLine(RStrip(lines[j])).Ok?)
  {
    var r := SumValues(LineUniques(lines));
    if r.Ok? then
      CountsAreValues(lines);
      r
    else r
  }

  /** When every line splits, the line results are exactly the counts. */
  lemma CountsAreValues(lines: seq<string>)
    requires forall i :: 0 <= i < |lines| ==> SplitLine(RStrip(lines[i])).Ok?
    ensures AllOk(LineUniques(lines)) == Ok(LineCounts(lines))
  {
    var rs := LineUniques(lines);
    assert AllOk(rs).value == LineCounts(lines);
  }

  /** `''.join(map(decoded.get, output))`: a missing key makes the join fail. */
  function LookUp(decoded: map<string, char>, outputs: seq<string>): (r: Result<string>)
    ensures r.Ok? <==> forall i :: 0 <= i < |outputs| ==> SortChars(outputs[i]) in decoded
    ensures r.Ok? ==> |r.value| == |outputs|
    ensures r.Ok? ==> forall i :: 0 <= i < |outputs| ==>
      SortChars(outputs[i]) in decoded && r.value[i] == decoded[SortChars(outputs[i])]
  {
    if |outputs| == 0 then Ok("")
    else
      var init := outputs[..|outputs| - 1];
      var key := SortChars(outputs[|outputs| - 1]);
      match LookUp(decoded, init)
      case Err(msg) => Err(msg)
      case Ok(digits) =>
        if key in decoded then
          LookUpStep(decoded, outputs, digits);
          Ok(digits + [decoded[key]])
        else Err("TypeError")
  }

  lemma LookUpStep(decoded: map<string, char>, outputs: seq<string>, digits: string)
    requires |outputs| > 0 && |digits| == |outputs| - 1
    requires forall i :: 0 <= i < |outputs| - 1 ==>
      SortChars(outputs[..|outputs| - 1][i]) in decoded && digits[i] == decoded[SortChars(outputs[..|outputs| - 1][i])]
    requires SortChars(outputs[|outputs| - 1]) in decoded
    ensures forall i :: 0 <= i < |outputs| ==>
      SortChars(outputs[i]) in decoded &&
      (digits + [decoded[SortChars(outputs[|outputs| - 1])]])[i] == decoded[SortChars(outputs[i])]
  {
    var r := digits + [decoded[SortChars(outputs[|outputs| - 1])]];
    forall i | 0 <= i < |outputs| - 1
      ensures outputs[..|outputs| - 1][i] == outputs[i] && r[i] == digits[i]
    {
    }
  }

  /** One line of the decoding script: decode the patterns, look up the output
      words and read the digits as a decimal number. */
  function LineValue(line: string): (r: Result<nat>)
  {
    match SplitLine(RStrip(line))
    case Err(msg) => Err(msg)
    case Ok(halves) =>
      match Decode(halves.0)
      case Err(msg) => Err(msg)
      case Ok(decoded) =>
        match LookUp(decoded, halves.1)
        case Err(msg) => Err(msg)
        case Ok(digits) =>
          if IsDecimal(digits) then Ok(DecimalValue(digits)) else Err("ValueError")
  }

  /** A running `sum` over results in order: the sum of the values when all
      are `Ok`, else the first error. */
  function SumValues(rs: seq<Result<nat>>): (r: Result<nat>)
    ensures r.Ok? <==> forall i :: 0 <= i < |rs| ==> rs[i].Ok?
    ensures r.Ok? ==> AllOk(rs).Ok? && r.value == Sum(AllOk(rs).value)
    ensures r.Ok? ==> forall i :: 0 <= i < |rs| ==> rs[i].value <= r.value
    ensures r.Err? ==> exists i :: 0 <= i < |rs| && rs[i] == Err(r.msg) && forall j :: 0 <= j < i ==> rs[j].Ok?
  {
    if |rs| == 0 then Ok(0)
    else
      var init := rs[..|rs| - 1];
      match SumValues(init)
      case Err(msg) =>
        SumValuesFrontErr(rs, init, msg);
        Err(msg)
      case Ok(n) =>
        match rs[|rs| - 1]
        case Err(msg) =>
          SumValuesLastErr(rs, init);
          Err(msg)
        case Ok(v) =>
          SumValuesSnoc(rs, init, n);
          Ok(n + v)
  }

  /** The first error among the results before the last is the first of all. */
  lemma SumValuesFrontErr(rs: seq<Result<nat>>, init: seq<Result<nat>>, msg: string)
    requires |rs| > 0 && init == rs[..|rs| - 1]
    requires exists i :: 0 <= i < |init| && init[i] == Err(msg) && forall j :: 0 <= j < i ==> init[j].Ok?
    ensures exists i :: 0 <= i < |rs| && rs[i] == Err(msg) && forall j :: 0 <= j < i ==> rs[j].Ok?
  {
    var i :| 0 <= i < |init| && init[i] == Err(msg) && forall j :: 0 <= j < i ==> init[j].Ok?;
    assert rs[i] == init[i];
    assert forall j :: 0 <= j < i ==> rs[j] == init[j];
  }

  /** An error in the last result, after results that are all `Ok`, is the first. */
  lemma SumValuesLastErr(rs: seq<Result<nat>>, init: seq<Result<nat>>)
    requires |rs| > 0 && init == rs[..|rs| - 1] && rs[|rs| - 1].Err?
    requires forall i :: 0 <= i < |init| ==> init[i].Ok?
    ensures exists i :: 0 <= i < |rs| && rs[i] == Err(rs[|rs| - 1].msg) && forall j :: 0 <= j < i ==> rs[j].Ok?
  {
    assert forall j :: 0 <= j < |init| ==> rs[j] == init[j];
  }

  /** One more `Ok` value after values summing to `n`. */
  lemma SumValuesSnoc(rs: seq<Result<nat>>, init: seq<Result<nat>>, n: nat)
    requires |rs| > 0 && init == rs[..|rs| - 1] && rs[|rs| - 1].Ok?
    requires AllOk(init).Ok? && n == Sum(AllOk(init).value)
    requires forall i :: 0 <= i < |init| ==> init[i].Ok? && init[i].value <= n
    ensures AllOk(rs).Ok? && n + rs[|rs| - 1].value == Sum(AllOk(rs).value)
    ensures forall i :: 0 <= i < |rs| ==> rs[i].Ok? && rs[i].value <= n + rs[|rs| - 1].value
  {
    var front := AllOk(init).value;
    var v := rs[|rs| - 1].value;
    assert AllOk(rs).value == front + [v] by {
      AllOkSnoc(rs);
    }
    assert (front + [v])[..|front|] == front;
    assert forall i :: 0 <= i < |init| ==> rs[i] == init[i];
  }

  /** The decoding script's answer: the sum of the line values. */
  function DecodeAll(lines: seq<string>): (r: Result<nat>)
  {
    SumValues(seq(|lines|, i requires 0 <= i < |lines| => LineValue(lines[i])))
  }
}
