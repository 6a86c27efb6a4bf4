/** Correctness of the segment decoder: for any wiring of the seven segments
    and any line that shows every digit at least once (letters in any order,
    patterns in any order), decoding maps each pattern's sorted letters to the
    digit it shows. */
module Segments {
  import opened Util
  import opened Display

  /** The lit segments of each digit, a = 0 to g = 6, as in the decoder's
      diagram. */
  function Lit(d: nat): (segs: seq<nat>)
    requires d < 10
    ensures forall k :: 0 <= k < |segs| ==> segs[k] < 7
  {
    if d == 0 then [0, 1, 2, 4, 5, 6]
    else if d == 1 then [2, 5]
    else if d == 2 then [0, 2, 3, 4, 6]
    else if d == 3 then [0, 2, 3, 5, 6]
    else if d == 4 then [1, 2, 3, 5]
    else if d == 5 then [0, 1, 3, 5, 6]
    else if d == 6 then [0, 1, 3, 4, 5, 6]
    else if d == 7 then [0, 2, 5]
    else if d == 8 then [0, 1, 2, 3, 4, 5, 6]
    else [0, 1, 2, 3, 5, 6]
  }

  /** How many segments each digit lights. */
  lemma LitLength(d: nat)
    requires d < 10
    ensures |Lit(d)| == [6, 2, 5, 5, 4, 5, 6, 3, 7, 6][d]
  {
  }

  /** The unique lengths are exactly those that one digit alone has. */
  lemma UniqueLengthOneDigit(k: int)
    ensures UniqueLength(k) <==>
      exists d :: 0 <= d < 10 && |Lit(d)| == k && forall e :: 0 <= e < 10 && |Lit(e)| == k ==> e == d
  {
    var lens := [6, 2, 5, 5, 4, 5, 6, 3, 7, 6];
    forall e | 0 <= e < 10
      ensures |Lit(e)| == lens[e]
    {
      LitLength(e);
    }
    if UniqueLength(k) {
      var d := if k == 2 then 1 else if k == 3 then 7 else if k == 4 then 4 else 8;
      forall e | 0 <= e < 10 && lens[e] == k
        ensures e == d
      {
        assert e == 0 || e == 1 || e == 2 || e == 3 || e == 4 || e == 5 || e == 6 || e == 7 || e == 8 || e == 9;
      }
      assert |Lit(d)| == k;
    } else {
      forall d | 0 <= d < 10 && |Lit(d)| == k
        ensures exists e :: 0 <= e < 10 && |Lit(e)| == k && e != d
      {
        assert d == 0 || d == 1 || d == 2 || d == 3 || d == 4 || d == 5 || d == 6 || d == 7 || d == 8 || d == 9;
        var e := if d == 0 then 6 else if d == 6 then 9 else if d == 9 then 0
          else if d == 2 then 3 else if d == 3 then 5 else 2;
        assert |Lit(e)| == lens[e];
      }
    }
  }

  /** `w[s]` is the wire letter that drives segment `s`; no letter drives two segments. */
  predicate IsWiring(w: seq<char>)
  {
    |w| == 7 && forall i, j :: 0 <= i < j < 7 ==> w[i] != w[j]
  }

  /** The wire letters of digit `d`'s lit segments, in segment order. */
  function Wires(w: seq<char>, d: nat): (ws: string)
    requires |w| == 7 && d < 10
    ensures |ws| == |Lit(d)|
    ensures forall k :: 0 <= k < |ws| ==> ws[k] == w[Lit(d)[k]]
  {
    seq(|Lit(d)|, k requires 0 <= k < |Lit(d)| => w[Lit(d)[k]])
  }

  /** `p` is a pattern for digit `d`: the wires of its lit segments, each once, in any order. */
  predicate Shows(p: string, w: seq<char>, d: nat)
    requires IsWiring(w) && d < 10
  {
    multiset(p) == multiset(Wires(w, d))
  }

  /** A pattern that shows `d` has one letter per lit segment, and its letters
      are the wires of those segments. */
  lemma ShownLetters(p: string, w: seq<char>, d: nat)
    requires IsWiring(w) && d < 10 && Shows(p, w, d)
    ensures |p| == |Lit(d)|
    ensures forall c :: c in p <==> exists k :: 0 <= k < |Lit(d)| && w[Lit(d)[k]] == c
  {
    var ws := Wires(w, d);
    assert |p| == |multiset(p)| == |multiset(ws)| == |ws|;
    forall c
      ensures c in p <==> exists k :: 0 <= k < |Lit(d)| && w[Lit(d)[k]] == c
    {
      assert c in p <==> c in multiset(p);
      assert c in ws <==> c in multiset(ws);
      if c in ws {
        var k :| 0 <= k < |ws| && ws[k] == c;
        assert w[Lit(d)[k]] == c;
      }
      if exists k :: 0 <= k < |Lit(d)| && w[Lit(d)[k]] == c {
        var k :| 0 <= k < |Lit(d)| && w[Lit(d)[k]] == c;
        assert ws[k] == c;
      }
    }
  }

  /** A line of patterns under wiring `w`: `ds[i]` is the digit `ps[i]` shows,
      and every digit is shown. */
  predicate ValidLine(ps: seq<string>, w: seq<char>, ds: seq<nat>)
  {
    && IsWiring(w)
    && |ds| == |ps|
    && (forall i :: 0 <= i < |ps| ==> ds[i] < 10 && Shows(ps[i], w, ds[i]))
    && (forall d :: 0 <= d < 10 ==> d in ds)
  }

  /** In a line of patterns, a word of unique length can only show the one
      digit of that length: two letters show 1, three show 7, four show 4,
      seven show 8. */
  lemma UniqueWordShowsDigit(ps: seq<string>, w: seq<char>, ds: seq<nat>, i: nat)
    requires ValidLine(ps, w, ds) && i < |ps| && UniqueLength(|ps[i]|)
    ensures ds[i] == [0, 0, 1, 7, 4, 0, 0, 8][|ps[i]|]
  {
    var d := ds[i];
    ShownLetters(ps[i], w, d);
    LitLength(d);
    assert d == 0 || d == 1 || d == 2 || d == 3 || d == 4 || d == 5 || d == 6 || d == 7 || d == 8 || d == 9;
  }

  /** The digits the counting script is after: 1, 4, 7 and 8. */
  predicate IsEasy(d: nat)
  {
    d == 1 || d == 4 || d == 7 || d == 8
  }

  /** A word showing digit `d` has a unique length exactly when `d` is 1, 4, 7 or 8. */
  lemma UniqueLengthIffEasy(p: string, w: seq<char>, d: nat)
    requires IsWiring(w) && d < 10 && Shows(p, w, d)
    ensures UniqueLength(|p|) <==> IsEasy(d)
  {
    ShownLetters(p, w, d);
    LitLength(d);
    assert d == 0 || d == 1 || d == 2 || d == 3 || d == 4 || d == 5 || d == 6 || d == 7 || d == 8 || d == 9;
  }

  /** On output words that each show a digit under one wiring, the counting
      script counts exactly the words that show 1, 4, 7 or 8. */
  lemma UniqueCountCountsEasy(outputs: seq<string>, w: seq<char>, ds: seq<nat>)
    requires IsWiring(w) && |ds| == |outputs|
    requires forall i :: 0 <= i < |outputs| ==> ds[i] < 10 && Shows(outputs[i], w, ds[i])
    ensures UniqueCount(outputs) == |set i | 0 <= i < |outputs| && IsEasy(ds[i])|
  {
    forall i | 0 <= i < |outputs|
      ensures UniqueLength(|outputs[i]|) <==> IsEasy(ds[i])
    {
      UniqueLengthIffEasy(outputs[i], w, ds[i]);
    }
    assert UniquePositions(outputs) == set i | 0 <= i < |outputs| && IsEasy(ds[i]);
  }

  // ---------------------------------------------------------------------------
  // Masks as sets of bits

  /** Bit `x` is set in `m`. */
  predicate Has(m: bv7, x: nat)
    requires x < 7
  {
    m & Bit(x) == Bit(x)
  }

  lemma HasBit(a: nat, x: nat)
    requires a < 7 && x < 7
    ensures Has(Bit(a), x) <==> a == x
  {
  }

  lemma HasOr(m: bv7, n: bv7, x: nat)
    requires x < 7
    ensures Has(m | n, x) <==> Has(m, x) || Has(n, x)
  {
    var b := Bit(x);
    assert OneHot(b);
    assert b == 64 || b == 32 || b == 16 || b == 8 || b == 4 || b == 2 || b == 1;
  }

  lemma HasAnd(m: bv7, n: bv7, x: nat)
    requires x < 7
    ensures Has(m & n, x) <==> Has(m, x) && Has(n, x)
  {
    var b := Bit(x);
    assert OneHot(b);
    assert b == 64 || b == 32 || b == 16 || b == 8 || b == 4 || b == 2 || b == 1;
  }

  /** Masks with the same bits are equal. */
  lemma BitsExt(m: bv7, n: bv7)
    requires forall x :: 0 <= x < 7 ==> (Has(m, x) <==> Has(n, x))
    ensures m == n
  {
    assert Has(m, 0) == Has(n, 0) && Has(m, 1) == Has(n, 1) && Has(m, 2) == Has(n, 2);
    assert Has(m, 3) == Has(n, 3) && Has(m, 4) == Has(n, 4);
    assert Has(m, 5) == Has(n, 5) && Has(m, 6) == Has(n, 6);
  }

  /** A pattern's mask has exactly the bits of its letters' positions. */
  lemma {:induction false} PatMaskBits(p: string, pos: map<char, nat>, x: nat)
    requires forall c :: c in pos ==> pos[c] < 7
    requires forall i :: 0 <= i < |p| ==> p[i] in pos
    requires x < 7
    ensures Has(PatMask(p, pos).value, x) <==> exists i :: 0 <= i < |p| && pos[p[i]] == x
    decreases |p|
  {
    if |p| > 0 {
      var init := p[..|p| - 1];
      PatMaskBits(init, pos, x);
      HasBit(pos[p[|p| - 1]], x);
      HasOr(PatMask(init, pos).value, Bit(pos[p[|p| - 1]]), x);
      assert forall i :: 0 <= i < |init| ==> init[i] == p[i];
      if exists i :: 0 <= i < |p| && pos[p[i]] == x {
        var i :| 0 <= i < |p| && pos[p[i]] == x;
        if i < |init| {
          assert pos[init[i]] == x;
        }
      }
    }
  }

  /** The OR of the wire masks of the first `k` segments in `segs`. */
  function SegMask(segs: seq<nat>, wires: seq<bv7>, k: nat): bv7
    requires |wires| == 7 && k <= |segs| && forall j :: 0 <= j < |segs| ==> segs[j] < 7
  {
    if k == 0 then 0 else SegMask(segs, wires, k - 1) | wires[segs[k - 1]]
  }

  /** A bit is set in the OR exactly when one of the segments sits there. */
  lemma {:induction false} SegMaskBits(segs: seq<nat>, pi: seq<nat>, k: nat, x: nat)
    requires |pi| == 7 && forall s :: 0 <= s < 7 ==> pi[s] < 7
    requires k <= |segs| && forall j :: 0 <= j < |segs| ==> segs[j] < 7
    requires x < 7
    ensures Has(SegMask(segs, Placed(pi), k), x) <==> exists j :: 0 <= j < k && pi[segs[j]] == x
  {
    if k > 0 {
      SegMaskBits(segs, pi, k - 1, x);
      HasBit(pi[segs[k - 1]], x);
      HasOr(SegMask(segs, Placed(pi), k - 1), Placed(pi)[segs[k - 1]], x);
    }
  }

  /** The seven one-bit wire masks: segment `s` is bit `pi[s]`. */
  function Placed(pi: seq<nat>): (ws: seq<bv7>)
    requires |pi| == 7 && forall s :: 0 <= s < 7 ==> pi[s] < 7
    ensures |ws| == 7 && forall s :: 0 <= s < 7 ==> ws[s] == Bit(pi[s])
  {
    seq(7, s requires 0 <= s < 7 => Bit(pi[s]))
  }

  /** The mask of digit `d` when segment `s` sits at bit position `pi[s]`. */
  function DigitMask(d: nat, pi: seq<nat>): bv7
    requires d < 10 && |pi| == 7 && forall s :: 0 <= s < 7 ==> pi[s] < 7
  {
    SegMask(Lit(d), Placed(pi), |Lit(d)|)
  }

  // ---------------------------------------------------------------------------
  // The bit algebra of the decoder

  /** Seven masks with a bit each, no two sharing a bit. */
  predicate Disjoint(a: bv7, b: bv7, c: bv7, d: bv7, e: bv7, f: bv7, g: bv7)
  {
    && a != 0 && b != 0 && c != 0 && d != 0 && e != 0 && f != 0 && g != 0
    && a & b == 0 && a & c == 0 && a & d == 0 && a & e == 0 && a & f == 0 && a & g == 0
    && b & c == 0 && b & d == 0 && b & e == 0 && b & f == 0 && b & g == 0
    && c & d == 0 && c & e == 0 && c & f == 0 && c & g == 0
    && d & e == 0 && d & f == 0 && d & g == 0
    && e & f == 0 && e & g == 0
    && f & g == 0
  }

  /** Seven single bits, no two the same. */
  predicate Independent(a: bv7, b: bv7, c: bv7, d: bv7, e: bv7, f: bv7, g: bv7)
  {
    && Disjoint(a, b, c, d, e, f, g)
    && OneHot(a) && OneHot(b) && OneHot(c) && OneHot(d) && OneHot(e) && OneHot(f) && OneHot(g)
  }

  /** The decoder's first steps: `one ^ seven` is segment a, and among the
      six-segment digits only 6 meets `one` in a single bit, segment f; the
      rest of `one` is segment c. */
  lemma RecoverACF(a: bv7, b: bv7, c: bv7, d: bv7, e: bv7, f: bv7, g: bv7)
    requires Independent(a, b, c, d, e, f, g)
    ensures (c | f) ^ (a | c | f) == a
    ensures (c | f) & (a | b | d | e | f | g) == f && OneHot(f)
    ensures (c | f) & (a | b | c | e | f | g) == c | f && !OneHot(c | f)
    ensures (c | f) & (a | b | c | d | f | g) == c | f
    ensures (c | f) ^ f == c
  {
  }

  /** The five-segment digits 2, 3 and 5 share exactly the horizontal
      segments a, d and g; `four` meets them in d alone. */
  lemma RecoverD(a: bv7, b: bv7, c: bv7, d: bv7, e: bv7, f: bv7, g: bv7)
    requires Independent(a, b, c, d, e, f, g)
    ensures (a | c | d | e | g) & (a | c | d | f | g) & (a | b | d | f | g) == a | d | g
    ensures (a | d | g) & (b | c | d | f) == d
  {
  }

  /** What is left of `four` is b; what is left of `eight` is e and then g. */
  lemma RecoverBEG(a: bv7, b: bv7, c: bv7, d: bv7, e: bv7, f: bv7, g: bv7)
    requires Independent(a, b, c, d, e, f, g)
    ensures (b | c | d | f) ^ c ^ d ^ f == b
    ensures (a | b | c | d | e | f | g) ^ (a | d | g) ^ b ^ c ^ f == e
    ensures (a | b | c | d | e | f | g) ^ a ^ b ^ c ^ d ^ e ^ f == g
  {
  }

  // ---------------------------------------------------------------------------
  // Classifying a mask

  /** The digit named by the `k`-th test of the chain, which tries 1, 2, ..., 9, then 0. */
  function Label(k: nat): char
    requires k < 10
  {
    if k == 9 then '0' else '1' + k as char
  }

  /** The chain finds no digit when every test leaves bits over. */
  lemma ClassifyNone(bits: bv7, a: bv7, b: bv7, c: bv7, d: bv7, e: bv7, f: bv7, g: bv7)
    requires bits ^ c ^ f != 0
    requires bits ^ a ^ c ^ d ^ e ^ g != 0
    requires bits ^ a ^ c ^ d ^ f ^ g != 0
    requires bits ^ b ^ c ^ d ^ f != 0
    requires bits ^ a ^ b ^ d ^ f ^ g != 0
    requires bits ^ a ^ b ^ d ^ e ^ f ^ g != 0
    requires bits ^ a ^ c ^ f != 0
    requires bits ^ a ^ b ^ c ^ d ^ e ^ f ^ g != 0
    requires bits ^ a ^ b ^ c ^ d ^ f ^ g != 0
    requires bits ^ a ^ b ^ c ^ e ^ f ^ g != 0
    ensures Classify(bits, a, b, c, d, e, f, g) == None
  {
  }

  /** The chain answers 0 when the tests before its own fail and its own passes. */
  lemma ReadsZero(bits: bv7, a: bv7, b: bv7, c: bv7, d: bv7, e: bv7, f: bv7, g: bv7)
    requires bits ^ c ^ f != 0
    requires bits ^ a ^ c ^ d ^ e ^ g != 0
    requires bits ^ a ^ c ^ d ^ f ^ g != 0
    requires bits ^ b ^ c ^ d ^ f != 0
    requires bits ^ a ^ b ^ d ^ f ^ g != 0
    requires bits ^ a ^ b ^ d ^ e ^ f ^ g != 0
    requires bits ^ a ^ c ^ f != 0
    requires bits ^ a ^ b ^ c ^ d ^ e ^ f ^ g != 0
    requires bits ^ a ^ b ^ c ^ d ^ f ^ g != 0
    requires bits ^ a ^ b ^ c ^ e ^ f ^ g == 0
    ensures Classify(bits, a, b, c, d, e, f, g) == Some('0')
  {
  }

  /** With the true segment masks, the mask of 0 reads as 0. */
  lemma ClassifiesZero(a: bv7, b: bv7, c: bv7, d: bv7, e: bv7, f: bv7, g: bv7)
    requires Disjoint(a, b, c, d, e, f, g)
    ensures Classify(a | b | c | e | f | g, a, b, c, d, e, f, g) == Some('0')
  {
    ReadsZero(a | b | c | e | f | g, a, b, c, d, e, f, g);
  }

  /** The chain answers 1 when the tests before its own fail and its own passes. */
  lemma ReadsOne(bits: bv7, a: bv7, b: bv7, c: bv7, d: bv7, e: bv7, f: bv7, g: bv7)
    requires bits ^ c ^ f == 0
    ensures Classify(bits, a, b, c, d, e, f, g) == Some('1')
  {
  }

  /** With the true segment masks, the mask of 1 reads as 1. */
  lemma ClassifiesOne(a: bv7, b: bv7, c: bv7, d: bv7, e: bv7, f: bv7, g: bv7)
    requires Disjoint(a, b, c, d, e, f, g)
    ensures Classify(c | f, a, b, c, d, e, f, g) == Some('1')
  {
    ReadsOne(c | f, a, b, c, d, e, f, g);
  }

  /** The chain answers 2 when the tests before its own fail and its own passes. */
  lemma ReadsTwo(bits: bv7, a: bv7, b: bv7, c: bv7, d: bv7, e: bv7, f: bv7, g: bv7)
    requires bits ^ c ^ f != 0
    requires bits ^ a ^ c ^ d ^ e ^ g == 0
    ensures Classify(bits, a, b, c, d, e, f, g) == Some('2')
  {
  }

  /** With the true segment masks, the mask of 2 reads as 2. */
  lemma ClassifiesTwo(a: bv7, b: bv7, c: bv7, d: bv7, e: bv7, f: bv7, g: bv7)
    requires Disjoint(a, b, c, d, e, f, g)
    ensures Classify(a | c | d | e | g, a, b, c, d, e, f, g) == Some('2')
  {
    ReadsTwo(a | c | d | e | g, a, b, c, d, e, f, g);
  }

  /** The chain answers 3 when the tests before its own fail and its own passes. */
  lemma ReadsThree(bits: bv7, a: bv7, b: bv7, c: bv7, d: bv7, e: bv7, f: bv7, g: bv7)
    requires bits ^ c ^ f != 0
    requires bits ^ a ^ c ^ d ^ e ^ g != 0
    requires bits ^ a ^ c ^ d ^ f ^ g == 0
    ensures Classify(bits, a, b, c, d, e, f, g) == Some('3')
  {
  }

  /** With the true segment masks, the mask of 3 reads as 3. */
  lemma ClassifiesThree(a: bv7, b: bv7, c: bv7, d: bv7, e: bv7, f: bv7, g: bv7)
    requires Disjoint(a, b, c, d, e, f, g)
    ensures Classify(a | c | d | f | g, a, b, c, d, e, f, g) == Some('3')
  {
    ReadsThree(a | c | d | f | g, a, b, c, d, e, f, g);
  }

  /** The chain answers 4 when the tests before its own fail and its own passes. */
  lemma ReadsFour(bits: bv7, a: bv7, b: bv7, c: bv7, d: bv7, e: bv7, f: bv7, g: bv7)
    requires bits ^ c ^ f != 0
    requires bits ^ a ^ c ^ d ^ e ^ g != 0
    requires bits ^ a ^ c ^ d ^ f ^ g != 0
    requires bits ^ b ^ c ^ d ^ f == 0
    ensures Classify(bits, a, b, c, d, e, f, g) == Some('4')
  {
  }

  /** With the true segment masks, the mask of 4 reads as 4. */
  lemma ClassifiesFour(a: bv7, b: bv7, c: bv7, d: bv7, e: bv7, f: bv7, g: bv7)
    requires Disjoint(a, b, c, d, e, f, g)
    ensures Classify(b | c | d | f, a, b, c, d, e, f, g) == Some('4')
  {
    ReadsFour(b | c | d | f, a, b, c, d, e, f, g);
  }

  /** The chain answers 5 when the tests before its own fail and its own passes. */
  lemma ReadsFive(bits: bv7, a: bv7, b: bv7, c: bv7, d: bv7, e: bv7, f: bv7, g: bv7)
    requires bits ^ c ^ f != 0
    requires bits ^ a ^ c ^ d ^ e ^ g != 0
    requires bits ^ a ^ c ^ d ^ f ^ g != 0
    requires bits ^ b ^ c ^ d ^ f != 0
    requires bits ^ a ^ b ^ d ^ f ^ g == 0
    ensures Classify(bits, a, b, c, d, e, f, g) == Some('5')
  {
  }

  /** With the true segment masks, the mask of 5 reads as 5. */
  lemma ClassifiesFive(a: bv7, b: bv7, c: bv7, d: bv7, e: bv7, f: bv7, g: bv7)
    requires Disjoint(a, b, c, d, e, f, g)
    ensures Classify(a | b | d | f | g, a, b, c, d, e, f, g) == Some('5')
  {
    ReadsFive(a | b | d | f | g, a, b, c, d, e, f, g);
  }

  /** The chain answers 6 when the tests before its own fail and its own passes. */
  lemma ReadsSix(bits: bv7, a: bv7, b: bv7, c: bv7, d: bv7, e: bv7, f: bv7, g: bv7)
    requires bits ^ c ^ f != 0
    requires bits ^ a ^ c ^ d ^ e ^ g != 0
    requires bits ^ a ^ c ^ d ^ f ^ g != 0
    requires bits ^ b ^ c ^ d ^ f != 0
    requires bits ^ a ^ b ^ d ^ f ^ g != 0
    requires bits ^ a ^ b ^ d ^ e ^ f ^ g == 0
    ensures Classify(bits, a, b, c, d, e, f, g) == Some('6')
  {
  }

  /** With the true segment masks, the mask of 6 reads as 6. */
  lemma ClassifiesSix(a: bv7, b: bv7, c: bv7, d: bv7, e: bv7, f: bv7, g: bv7)
    requires Disjoint(a, b, c, d, e, f, g)
    ensures Classify(a | b | d | e | f | g, a, b, c, d, e, f, g) == Some('6')
  {
    ReadsSix(a | b | d | e | f | g, a, b, c, d, e, f, g);
  }

  /** The chain answers 7 when the tests before its own fail and its own passes. */
  lemma ReadsSeven(bits: bv7, a: bv7, b: bv7, c: bv7, d: bv7, e: bv7, f: bv7, g: bv7)
    requires bits ^ c ^ f != 0
    requires bits ^ a ^ c ^ d ^ e ^ g != 0
    requires bits ^ a ^ c ^ d ^ f ^ g != 0
    requires bits ^ b ^ c ^ d ^ f != 0
    requires bits ^ a ^ b ^ d ^ f ^ g != 0
    requires bits ^ a ^ b ^ d ^ e ^ f ^ g != 0
    requires bits ^ a ^ c ^ f == 0
    ensures Classify(bits, a, b, c, d, e, f, g) == Some('7')
  {
  }

  /** With the true segment masks, the mask of 7 reads as 7. */
  lemma ClassifiesSeven(a: bv7, b: bv7, c: bv7, d: bv7, e: bv7, f: bv7, g: bv7)
    requires Disjoint(a, b, c, d, e, f, g)
    ensures Classify(a | c | f, a, b, c, d, e, f, g) == Some('7')
  {
    ReadsSeven(a | c | f, a, b, c, d, e, f, g);
  }

  /** The chain answers 8 when the tests before its own fail and its own passes. */
  lemma ReadsEight(bits: bv7, a: bv7, b: bv7, c: bv7, d: bv7, e: bv7, f: bv7, g: bv7)
    requires bits ^ c ^ f != 0
    requires bits ^ a ^ c ^ d ^ e ^ g != 0
    requires bits ^ a ^ c ^ d ^ f ^ g != 0
    requires bits ^ b ^ c ^ d ^ f != 0
    requires bits ^ a ^ b ^ d ^ f ^ g != 0
    requires bits ^ a ^ b ^ d ^ e ^ f ^ g != 0
    requires bits ^ a ^ c ^ f != 0
    requires bits ^ a ^ b ^ c ^ d ^ e ^ f ^ g == 0
    ensures Classify(bits, a, b, c, d, e, f, g) == Some('8')
  {
  }

  /** With the true segment masks, the mask of 8 reads as 8. */
  lemma ClassifiesEight(a: bv7, b: bv7, c: bv7, d: bv7, e: bv7, f: bv7, g: bv7)
    requires Disjoint(a, b, c, d, e, f, g)
    ensures Classify(a | b | c | d | e | f | g, a, b, c, d, e, f, g) == Some('8')
  {
    ReadsEight(a | b | c | d | e | f | g, a, b, c, d, e, f, g);
  }

  /** The chain answers 9 when the tests before its own fail and its own passes. */
  lemma ReadsNine(bits: bv7, a: bv7, b: bv7, c: bv7, d: bv7, e: bv7, f: bv7, g: bv7)
    requires bits ^ c ^ f != 0
    requires bits ^ a ^ c ^ d ^ e ^ g != 0
    requires bits ^ a ^ c ^ d ^ f ^ g != 0
    requires bits ^ b ^ c ^ d ^ f != 0
    requires bits ^ a ^ b ^ d ^ f ^ g != 0
    requires bits ^ a ^ b ^ d ^ e ^ f ^ g != 0
    requires bits ^ a ^ c ^ f != 0
    requires bits ^ a ^ b ^ c ^ d ^ e ^ f ^ g != 0
    requires bits ^ a ^ b ^ c ^ d ^ f ^ g == 0
    ensures Classify(bits, a, b, c, d, e, f, g) == Some('9')
  {
  }

  /** With the true segment masks, the mask of 9 reads as 9. */
  lemma ClassifiesNine(a: bv7, b: bv7, c: bv7, d: bv7, e: bv7, f: bv7, g: bv7)
    requires Disjoint(a, b, c, d, e, f, g)
    ensures Classify(a | b | c | d | f | g, a, b, c, d, e, f, g) == Some('9')
  {
    ReadsNine(a | b | c | d | f | g, a, b, c, d, e, f, g);
  }
}
