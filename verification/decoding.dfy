/** End-to-end correctness of the segment decoder: on a line whose ten or
    more patterns show every digit under some wiring, `Decode` succeeds and
    maps each pattern's sorted letters to the digit it shows, and a line's
    output words read as the number they show. */
module Decoding {
  import opened Util
  import opened Display
  import opened Segments

  // ---------------------------------------------------------------------------
  // Masks of shown patterns

  /** The bit position the decoder gives each segment: the index of the
      segment's wire letter in the seven-letter pattern. */
  function Positions(w: seq<char>, pos: map<char, nat>): (pi: seq<nat>)
    requires |w| == 7 && forall s :: 0 <= s < 7 ==> w[s] in pos
    ensures |pi| == 7 && forall s :: 0 <= s < 7 ==> pi[s] == pos[w[s]]
  {
    seq(7, s requires 0 <= s < 7 => pos[w[s]])
  }

  /** The decoder's mask of a pattern that shows `d` is the mask of `d`'s lit
      segments, each at its wire's position. */
  lemma MaskOfShown(p: string, w: seq<char>, d: nat, pos: map<char, nat>)
    requires IsWiring(w) && d < 10 && Shows(p, w, d)
    requires forall c :: c in pos ==> pos[c] < 7
    requires forall s :: 0 <= s < 7 ==> w[s] in pos
    ensures PatMask(p, pos) == Some(DigitMask(d, Positions(w, pos)))
  {
    ShownLetters(p, w, d);
    var pi := Positions(w, pos);
    forall i | 0 <= i < |p|
      ensures p[i] in pos
    {
      assert p[i] in p;
    }
    var m := PatMask(p, pos).value;
    var n := DigitMask(d, pi);
    forall x | 0 <= x < 7
      ensures Has(m, x) <==> Has(n, x)
    {
      PatMaskBits(p, pos, x);
      SegMaskBits(Lit(d), pi, |Lit(d)|, x);
      if exists i :: 0 <= i < |p| && pos[p[i]] == x {
        var i :| 0 <= i < |p| && pos[p[i]] == x;
        assert p[i] in p;
        var k :| 0 <= k < |Lit(d)| && w[Lit(d)[k]] == p[i];
        assert pi[Lit(d)[k]] == x;
      }
      if exists k :: 0 <= k < |Lit(d)| && pi[Lit(d)[k]] == x {
        var k :| 0 <= k < |Lit(d)| && pi[Lit(d)[k]] == x;
        var c := w[Lit(d)[k]];
        assert c in p;
        var i :| 0 <= i < |p| && p[i] == c;
        assert pos[p[i]] == x;
      }
    }
    BitsExt(m, n);
  }

  /** Seven distinct wire letters at seven distinct positions give seven
      distinct single bits. */
  lemma PlacedIndependent(pi: seq<nat>)
    requires |pi| == 7 && forall s :: 0 <= s < 7 ==> pi[s] < 7
    requires forall s, t :: 0 <= s < t < 7 ==> pi[s] != pi[t]
    ensures Independent(Bit(pi[0]), Bit(pi[1]), Bit(pi[2]), Bit(pi[3]), Bit(pi[4]), Bit(pi[5]), Bit(pi[6]))
  {
    forall s, t | 0 <= s < t < 7
      ensures Bit(pi[s]) & Bit(pi[t]) == 0
    {
      BitDistinct(pi[s], pi[t]);
    }
  }

  /** The mask the classifying chain accepts for digit `d`, from the seven
      segment masks. */
  function DigitBits(n: nat, a: bv7, b: bv7, c: bv7, d: bv7, e: bv7, f: bv7, g: bv7): bv7
    requires n < 10
  {
    if n == 0 then a | b | c | e | f | g
    else if n == 1 then c | f
    else if n == 2 then a | c | d | e | g
    else if n == 3 then a | c | d | f | g
    else if n == 4 then b | c | d | f
    else if n == 5 then a | b | d | f | g
    else if n == 6 then a | b | d | e | f | g
    else if n == 7 then a | c | f
    else if n == 8 then a | b | c | d | e | f | g
    else a | b | c | d | f | g
  }

  /** The OR of the first segments' wire masks, written out. */
  lemma SegMaskOne(l: seq<nat>, ws: seq<bv7>)
    requires |ws| == 7 && |l| >= 1 && forall j :: 0 <= j < |l| ==> l[j] < 7
    ensures SegMask(l, ws, 1) == ws[l[0]]
  {
    assert SegMask(l, ws, 0) == 0;
  }

  lemma SegMaskTwo(l: seq<nat>, ws: seq<bv7>)
    requires |ws| == 7 && |l| >= 2 && forall j :: 0 <= j < |l| ==> l[j] < 7
    ensures SegMask(l, ws, 2) == ws[l[0]] | ws[l[1]]
  {
    SegMaskOne(l, ws);
  }

  lemma SegMaskThree(l: seq<nat>, ws: seq<bv7>)
    requires |ws| == 7 && |l| >= 3 && forall j :: 0 <= j < |l| ==> l[j] < 7
    ensures SegMask(l, ws, 3) == ws[l[0]] | ws[l[1]] | ws[l[2]]
  {
    SegMaskTwo(l, ws);
  }

  lemma SegMaskFour(l: seq<nat>, ws: seq<bv7>)
    requires |ws| == 7 && |l| >= 4 && forall j :: 0 <= j < |l| ==> l[j] < 7
    ensures SegMask(l, ws, 4) == ws[l[0]] | ws[l[1]] | ws[l[2]] | ws[l[3]]
  {
    SegMaskThree(l, ws);
  }

  lemma SegMaskFive(l: seq<nat>, ws: seq<bv7>)
    requires |ws| == 7 && |l| >= 5 && forall j :: 0 <= j < |l| ==> l[j] < 7
    ensures SegMask(l, ws, 5) == ws[l[0]] | ws[l[1]] | ws[l[2]] | ws[l[3]] | ws[l[4]]
  {
    SegMaskFour(l, ws);
  }

  lemma SegMaskSix(l: seq<nat>, ws: seq<bv7>)
    requires |ws| == 7 && |l| >= 6 && forall j :: 0 <= j < |l| ==> l[j] < 7
    ensures SegMask(l, ws, 6) == ws[l[0]] | ws[l[1]] | ws[l[2]] | ws[l[3]] | ws[l[4]] | ws[l[5]]
  {
    SegMaskFive(l, ws);
  }

  lemma SegMaskSeven(l: seq<nat>, ws: seq<bv7>)
    requires |ws| == 7 && |l| >= 7 && forall j :: 0 <= j < |l| ==> l[j] < 7
    ensures SegMask(l, ws, 7) == ws[l[0]] | ws[l[1]] | ws[l[2]] | ws[l[3]] | ws[l[4]] | ws[l[5]] | ws[l[6]]
  {
    SegMaskSix(l, ws);
  }

  lemma SegMaskOfDigit(n: nat, ws: seq<bv7>)
    requires n < 10 && |ws| == 7
    ensures SegMask(Lit(n), ws, |Lit(n)|) == DigitBits(n, ws[0], ws[1], ws[2], ws[3], ws[4], ws[5], ws[6])
  {
    if n == 0 {
      SegMaskSix(Lit(0), ws);
      return;
    } else if n == 1 {
      SegMaskTwo(Lit(1), ws);
      return;
    } else if n == 2 {
      SegMaskFive(Lit(2), ws);
      return;
    } else if n == 3 {
      SegMaskFive(Lit(3), ws);
      return;
    } else if n == 4 {
      SegMaskFour(Lit(4), ws);
      return;
    } else if n == 5 {
      SegMaskFive(Lit(5), ws);
      return;
    } else if n == 6 {
      SegMaskSix(Lit(6), ws);
      return;
    } else if n == 7 {
      SegMaskThree(Lit(7), ws);
      return;
    } else if n == 8 {
      SegMaskSeven(Lit(8), ws);
      return;
    } else {
      SegMaskSix(Lit(9), ws);
      return;
    }
  }

  /** A digit's mask is the OR of its segments' bits. */
  lemma DigitMaskBits(n: nat, pi: seq<nat>)
    requires n < 10 && |pi| == 7 && forall s :: 0 <= s < 7 ==> pi[s] < 7
    ensures DigitMask(n, pi) ==
      DigitBits(n, Bit(pi[0]), Bit(pi[1]), Bit(pi[2]), Bit(pi[3]), Bit(pi[4]), Bit(pi[5]), Bit(pi[6]))
  {
    var ws := Placed(pi);
    SegMaskOfDigit(n, ws);
    assert ws[0] == Bit(pi[0]) && ws[1] == Bit(pi[1]) && ws[2] == Bit(pi[2]) && ws[3] == Bit(pi[3]);
    assert ws[4] == Bit(pi[4]) && ws[5] == Bit(pi[5]) && ws[6] == Bit(pi[6]);
  }

  /** With the true segment masks, every digit's mask reads as that digit. */
  lemma ClassifiesDigit(n: nat, a: bv7, b: bv7, c: bv7, d: bv7, e: bv7, f: bv7, g: bv7)
    requires n < 10 && Disjoint(a, b, c, d, e, f, g)
    ensures Classify(DigitBits(n, a, b, c, d, e, f, g), a, b, c, d, e, f, g) == Some(DigitChar(n))
  {
    if n == 0 { ClassifiesZero(a, b, c, d, e, f, g); }
    else if n == 1 { ClassifiesOne(a, b, c, d, e, f, g); }
    else if n == 2 { ClassifiesTwo(a, b, c, d, e, f, g); }
    else if n == 3 { ClassifiesThree(a, b, c, d, e, f, g); }
    else if n == 4 { ClassifiesFour(a, b, c, d, e, f, g); }
    else if n == 5 { ClassifiesFive(a, b, c, d, e, f, g); }
    else if n == 6 { ClassifiesSix(a, b, c, d, e, f, g); }
    else if n == 7 { ClassifiesSeven(a, b, c, d, e, f, g); }
    else if n == 8 { ClassifiesEight(a, b, c, d, e, f, g); }
    else { ClassifiesNine(a, b, c, d, e, f, g); }
  }

  /** The lengths of the digits: 2, 3, 4 and 7 letters name one digit each,
      5 letters are 2, 3 or 5, and 6 letters are 0, 6 or 9. */
  lemma LengthDigits(n: nat)
    requires n < 10
    ensures |Lit(n)| == 2 <==> n == 1
    ensures |Lit(n)| == 3 <==> n == 7
    ensures |Lit(n)| == 4 <==> n == 4
    ensures |Lit(n)| == 7 <==> n == 8
    ensures |Lit(n)| == 5 <==> n == 2 || n == 3 || n == 5
    ensures |Lit(n)| == 6 <==> n == 0 || n == 6 || n == 9
  {
    LitLength(n);
    assert n == 0 || n == 1 || n == 2 || n == 3 || n == 4 || n == 5 || n == 6 || n == 7 || n == 8 || n == 9;
  }

  /** How many segments each digit lights, as a table. */
  const Segs: seq<nat> := [6, 2, 5, 5, 4, 5, 6, 3, 7, 6]

  /** The same facts about the table. */
  lemma SegsDigits(n: nat)
    requires n < 10
    ensures Segs[n] == 2 <==> n == 1
    ensures Segs[n] == 3 <==> n == 7
    ensures Segs[n] == 4 <==> n == 4
    ensures Segs[n] == 7 <==> n == 8
    ensures Segs[n] == 5 <==> n == 2 || n == 3 || n == 5
    ensures Segs[n] == 6 <==> n == 0 || n == 6 || n == 9
  {
    assert n == 0 || n == 1 || n == 2 || n == 3 || n == 4 || n == 5 || n == 6 || n == 7 || n == 8 || n == 9;
  }

  // ---------------------------------------------------------------------------
  // The entries of a valid line

  /** What the decoder builds from a valid line: `es` holds an entry for each
      pattern, in some order, and each entry's mask is `masks[d]` for the
      digit `d` its pattern shows. Entry `j` is pattern `src[j]`, and pattern
      `i` is entry `dst[i]`. */
  ghost predicate Scene(ps: seq<string>, ds: seq<nat>, es: seq<Entry>, masks: seq<bv7>, src: seq<nat>, dst: seq<nat>)
  {
    && |ds| == |ps| && |masks| == 10
    && (forall i :: 0 <= i < |ps| ==> ds[i] < 10 && |ps[i]| == Segs[ds[i]])
    && (forall n :: 0 <= n < 10 ==> n in ds)
    && EntriesArePatterns(ps, ds, es, masks, src)
    && PatternsHaveEntries(ps, ds, es, masks, dst)
  }

  /** Every entry is some pattern with the mask of the digit it shows. */
  ghost predicate EntriesArePatterns(ps: seq<string>, ds: seq<nat>, es: seq<Entry>, masks: seq<bv7>, src: seq<nat>)
    requires |ds| == |ps| && |masks| == 10 && forall i :: 0 <= i < |ps| ==> ds[i] < 10
  {
    && |src| == |es|
    && forall j {:trigger src[j]} :: 0 <= j < |es| ==>
      src[j] < |ps| && es[j].pat == ps[src[j]] && es[j].mask == masks[ds[src[j]]]
  }

  /** Every pattern has an entry with the mask of the digit it shows. */
  ghost predicate PatternsHaveEntries(ps: seq<string>, ds: seq<nat>, es: seq<Entry>, masks: seq<bv7>, dst: seq<nat>)
    requires |ds| == |ps| && |masks| == 10 && forall i :: 0 <= i < |ps| ==> ds[i] < 10
  {
    && |dst| == |ps|
    && forall i {:trigger dst[i]} :: 0 <= i < |ps| ==>
      dst[i] < |es| && es[dst[i]].pat == ps[i] && es[dst[i]].mask == masks[ds[i]]
  }

  /** The index of an occurrence of `x` in `s`. */
  ghost function IndexIn(s: seq<string>, x: string): (i: nat)
    requires x in s
    ensures i < |s| && s[i] == x
  {
    if s[0] == x then 0 else 1 + IndexIn(s[1..], x)
  }

  /** On a valid line a longest pattern shows 8: it has seven letters, one
      for every wire. */
  lemma LongestShowsEight(ps: seq<string>, w: seq<char>, ds: seq<nat>, bits: string)
    requires ValidLine(ps, w, ds)
    requires bits in ps && forall i :: 0 <= i < |ps| ==> |ps[i]| <= |bits|
    ensures |bits| == 7 && forall s :: 0 <= s < 7 ==> w[s] in bits
  {
    LongestIsEight(ps, w, ds, bits);
    ShownLength(bits, w, 8);
    LitAtMostSeven(8);
    EightHasEveryWire(bits, w);
  }

  /** The digit a longest pattern of a valid line shows. */
  lemma LongestIsEight(ps: seq<string>, w: seq<char>, ds: seq<nat>, bits: string)
    requires ValidLine(ps, w, ds)
    requires bits in ps && forall i :: 0 <= i < |ps| ==> |ps[i]| <= |bits|
    ensures Shows(bits, w, 8)
  {
    var i0 :| 0 <= i0 < |ps| && ps[i0] == bits;
    var d := ds[i0];
    assert d < 10 && Shows(bits, w, d);
    assert |bits| >= 7 by {
      assert 8 in ds;
      var i8 :| 0 <= i8 < |ds| && ds[i8] == 8;
      ShownLength(ps[i8], w, 8);
      LitAtMostSeven(8);
    }
    assert d == 8 by {
      ShownLength(bits, w, d);
      LitAtMostSeven(d);
    }
  }

  /** A pattern that shows `d` has one letter per lit segment. */
  lemma ShownLength(p: string, w: seq<char>, d: nat)
    requires IsWiring(w) && d < 10 && Shows(p, w, d)
    ensures |p| == |Lit(d)|
  {
    ShownLetters(p, w, d);
  }

  /** No digit lights more than seven segments, and only 8 lights all seven. */
  lemma LitAtMostSeven(d: nat)
    requires d < 10
    ensures |Lit(d)| <= 7 && (|Lit(d)| == 7 <==> d == 8)
  {
    LitLength(d);
    LengthDigits(d);
    assert [6, 2, 5, 5, 4, 5, 6, 3, 7, 6][d] <= 7;
  }

  /** The pattern of 8 holds every wire. */
  lemma EightHasEveryWire(p: string, w: seq<char>)
    requires IsWiring(w) && Shows(p, w, 8)
    ensures forall s :: 0 <= s < 7 ==> w[s] in p
  {
    assert Lit(8) == [0, 1, 2, 3, 4, 5, 6];
    assert Wires(w, 8) == w;
    forall s | 0 <= s < 7
      ensures w[s] in p
    {
      assert w[s] in multiset(p);
    }
  }

  /** `pos` built from a seven-letter pattern holding every wire gives the
      seven segments seven distinct positions. */
  lemma Placement(w: seq<char>, bits: string)
    requires IsWiring(w) && |bits| == 7 && forall s :: 0 <= s < 7 ==> w[s] in bits
    ensures forall c :: c in PosMap(bits) ==> PosMap(bits)[c] < 7
    ensures forall s :: 0 <= s < 7 ==> w[s] in PosMap(bits)
    ensures forall s, t :: 0 <= s < t < 7 ==> Positions(w, PosMap(bits))[s] != Positions(w, PosMap(bits))[t]
  {
    var pos := PosMap(bits);
    var pi := Positions(w, pos);
    forall s, t | 0 <= s < t < 7
      ensures pi[s] != pi[t]
    {
      assert bits[pos[w[s]]] == w[s] && bits[pos[w[t]]] == w[t];
    }
  }

  /** On a valid line, once `pos` places every wire, each pattern's mask is
      the mask of the digit it shows. */
  lemma MasksOfLine(ps: seq<string>, w: seq<char>, ds: seq<nat>, pos: map<char, nat>)
    requires ValidLine(ps, w, ds)
    requires forall c :: c in pos ==> pos[c] < 7
    requires forall s :: 0 <= s < 7 ==> w[s] in pos
    ensures forall i :: 0 <= i < |ps| ==>
      PatMask(ps[i], pos) == Some(DigitMask(ds[i], Positions(w, pos))) && |ps[i]| == |Lit(ds[i])|
  {
    forall i | 0 <= i < |ps|
      ensures PatMask(ps[i], pos) == Some(DigitMask(ds[i], Positions(w, pos))) && |ps[i]| == |Lit(ds[i])|
    {
      MaskOfShown(ps[i], w, ds[i], pos);
      ShownLetters(ps[i], w, ds[i]);
    }
  }

  /** The entries `decode` builds from the patterns in any order are the
      patterns' digit masks. */
  lemma EntriesOfLine(ps: seq<string>, ds: seq<nat>, sorted: seq<string>, pos: map<char, nat>, masks: seq<bv7>)
    returns (es: seq<Entry>, src: seq<nat>, dst: seq<nat>)
    requires |ds| == |ps| && |masks| == 10
    requires forall c :: c in pos ==> pos[c] < 7
    requires forall i :: 0 <= i < |ps| ==> ds[i] < 10 && |ps[i]| == |Lit(ds[i])|
    requires forall i :: 0 <= i < |ps| ==> PatMask(ps[i], pos) == Some(masks[ds[i]])
    requires forall n :: 0 <= n < 10 ==> n in ds
    requires multiset(sorted) == multiset(ps)
    ensures Entries(sorted, pos) == Some(es)
    ensures forall j :: 0 <= j < |es| ==> PatMask(es[j].pat, pos) == Some(es[j].mask)
    ensures Scene(ps, ds, es, masks, src, dst)
  {
    assert Entries(sorted, pos).Some? by {
      forall j | 0 <= j < |sorted|
        ensures PatMask(sorted[j], pos).Some?
      {
        assert sorted[j] in multiset(ps);
      }
    }
    es := Entries(sorted, pos).value;
    forall i | 0 <= i < |ps|
      ensures |ps[i]| == Segs[ds[i]]
    {
      LitLength(ds[i]);
    }
    src := EntriesFromPatterns(ps, ds, sorted, pos, masks, es);
    dst := EntriesForPatterns(ps, ds, sorted, pos, masks, es);
  }

  lemma EntriesFromPatterns(ps: seq<string>, ds: seq<nat>, sorted: seq<string>, pos: map<char, nat>, masks: seq<bv7>,
                            es: seq<Entry>)
    returns (src: seq<nat>)
    requires |ds| == |ps| && |masks| == 10 && forall i :: 0 <= i < |ps| ==> ds[i] < 10
    requires forall c :: c in pos ==> pos[c] < 7
    requires forall i :: 0 <= i < |ps| ==> PatMask(ps[i], pos) == Some(masks[ds[i]])
    requires multiset(sorted) == multiset(ps)
    requires Entries(sorted, pos) == Some(es)
    ensures EntriesArePatterns(ps, ds, es, masks, src)
  {
    forall j | 0 <= j < |es|
      ensures sorted[j] in ps
    {
      assert sorted[j] in multiset(ps);
    }
    src := seq(|es|, j requires 0 <= j < |es| => IndexIn(ps, sorted[j]));
  }

  lemma EntriesForPatterns(ps: seq<string>, ds: seq<nat>, sorted: seq<string>, pos: map<char, nat>, masks: seq<bv7>,
                           es: seq<Entry>)
    returns (dst: seq<nat>)
    requires |ds| == |ps| && |masks| == 10 && forall i :: 0 <= i < |ps| ==> ds[i] < 10
    requires forall c :: c in pos ==> pos[c] < 7
    requires forall i :: 0 <= i < |ps| ==> PatMask(ps[i], pos) == Some(masks[ds[i]])
    requires multiset(sorted) == multiset(ps)
    requires Entries(sorted, pos) == Some(es)
    ensures PatternsHaveEntries(ps, ds, es, masks, dst)
  {
    forall i | 0 <= i < |ps|
      ensures ps[i] in sorted
    {
      assert ps[i] in multiset(sorted);
    }
    dst := seq(|ps|, i requires 0 <= i < |ps| => IndexIn(sorted, ps[i]));
  }

  /** A pattern's mask depends only on which letters it has. */
  lemma PatMaskLetters(p: string, q: string, pos: map<char, nat>)
    requires forall c :: c in pos ==> pos[c] < 7
    requires multiset(p) == multiset(q)
    requires forall i :: 0 <= i < |p| ==> p[i] in pos
    ensures PatMask(p, pos) == PatMask(q, pos)
  {
    forall i | 0 <= i < |q|
      ensures q[i] in pos
    {
      assert q[i] in multiset(p);
      var k :| 0 <= k < |p| && p[k] == q[i];
    }
    var m, n := PatMask(p, pos).value, PatMask(q, pos).value;
    forall x | 0 <= x < 7
      ensures Has(m, x) <==> Has(n, x)
    {
      PatMaskBits(p, pos, x);
      PatMaskBits(q, pos, x);
      if exists i :: 0 <= i < |p| && pos[p[i]] == x {
        var i :| 0 <= i < |p| && pos[p[i]] == x;
        assert p[i] in multiset(q);
        var j :| 0 <= j < |q| && q[j] == p[i];
      }
      if exists j :: 0 <= j < |q| && pos[q[j]] == x {
        var j :| 0 <= j < |q| && pos[q[j]] == x;
        assert q[j] in multiset(p);
        var i :| 0 <= i < |p| && p[i] == q[j];
      }
    }
    BitsExt(m, n);
  }

  /** Entries whose patterns have the same letters have the same mask, so
      overwriting a key of `res` never changes its digit. */
  lemma SameKeySameMask(es: seq<Entry>, pos: map<char, nat>)
    requires forall c :: c in pos ==> pos[c] < 7
    requires forall j :: 0 <= j < |es| ==> PatMask(es[j].pat, pos) == Some(es[j].mask)
    ensures forall j, k :: 0 <= j < |es| && 0 <= k < |es| && Keys(es)[j] == Keys(es)[k] ==> es[j].mask == es[k].mask
  {
    forall j, k | 0 <= j < |es| && 0 <= k < |es| && Keys(es)[j] == Keys(es)[k]
      ensures es[j].mask == es[k].mask
    {
      assert multiset(es[j].pat) == multiset(es[k].pat) by {
        assert multiset(SortChars(es[j].pat)) == multiset(SortChars(es[k].pat));
      }
      PatMaskLetters(es[j].pat, es[k].pat, pos);
    }
  }

  // ---------------------------------------------------------------------------
  // The groups by length

  /** The masks of the digits when segment `s` is the one-bit mask given for it. */
  ghost predicate Table(masks: seq<bv7>, a: bv7, b: bv7, c: bv7, d: bv7, e: bv7, f: bv7, g: bv7)
  {
    |masks| == 10 && forall n :: 0 <= n < 10 ==> masks[n] == DigitBits(n, a, b, c, d, e, f, g)
  }

  /** The entry of pattern `i` has `|ps[i]|` letters, so it is in that group. */
  lemma InGroup(ps: seq<string>, ds: seq<nat>, es: seq<Entry>, masks: seq<bv7>, src: seq<nat>, dst: seq<nat>, n: nat)
    returns (x: Entry)
    requires Scene(ps, ds, es, masks, src, dst) && n < 10
    ensures x in LenGroup(es, Segs[n]) && x.mask == masks[n]
  {
    assert n in ds;
    var i :| 0 <= i < |ds| && ds[i] == n;
    x := es[dst[i]];
  }

  /** An entry of the group of `k` letters shows a digit with `k` lit segments. */
  lemma GroupMember(ps: seq<string>, ds: seq<nat>, es: seq<Entry>, masks: seq<bv7>, src: seq<nat>, dst: seq<nat>,
                    k: nat, x: Entry)
    returns (m: nat)
    requires Scene(ps, ds, es, masks, src, dst) && x in LenGroup(es, k)
    ensures m < 10 && Segs[m] == k && x.mask == masks[m]
  {
    var j :| 0 <= j < |es| && es[j] == x;
    m := ds[src[j]];
  }

  /** Two letters show only 1, three only 7, four only 4 and seven only 8, so
      the first entry of such a group has that digit's mask. */
  lemma UniqueGroup(ps: seq<string>, ds: seq<nat>, es: seq<Entry>, masks: seq<bv7>, src: seq<nat>, dst: seq<nat>,
                    k: nat, n: nat)
    requires Scene(ps, ds, es, masks, src, dst)
    requires (k == 2 && n == 1) || (k == 3 && n == 7) || (k == 4 && n == 4) || (k == 7 && n == 8)
    ensures |LenGroup(es, k)| > 0 && LenGroup(es, k)[0].mask == masks[n]
  {
    var g := LenGroup(es, k);
    assert Segs[n] == k;
    var x := InGroup(ps, ds, es, masks, src, dst, n);
    assert g[0] in g;
    var m := GroupMember(ps, ds, es, masks, src, dst, k, g[0]);
    assert m == n by {
      SegsDigits(m);
    }
  }

  /** Six letters show 0, 6 or 9, and 6 appears. */
  lemma SixGroup(ps: seq<string>, ds: seq<nat>, es: seq<Entry>, masks: seq<bv7>, src: seq<nat>, dst: seq<nat>)
    requires Scene(ps, ds, es, masks, src, dst)
    ensures forall e :: e in LenGroup(es, 6) ==> e.mask == masks[0] || e.mask == masks[6] || e.mask == masks[9]
    ensures exists e :: e in LenGroup(es, 6) && e.mask == masks[6]
  {
    var x6 := InGroup(ps, ds, es, masks, src, dst, 6);
    forall e | e in LenGroup(es, 6)
      ensures e.mask == masks[0] || e.mask == masks[6] || e.mask == masks[9]
    {
      var m := GroupMember(ps, ds, es, masks, src, dst, 6, e);
      SegsDigits(m);
    }
  }

  /** Five letters show 2, 3 or 5, and all three appear. */
  lemma FiveGroup(ps: seq<string>, ds: seq<nat>, es: seq<Entry>, masks: seq<bv7>, src: seq<nat>, dst: seq<nat>)
    requires Scene(ps, ds, es, masks, src, dst)
    ensures forall e :: e in LenGroup(es, 5) ==> e.mask == masks[2] || e.mask == masks[3] || e.mask == masks[5]
    ensures exists e :: e in LenGroup(es, 5) && e.mask == masks[2]
    ensures exists e :: e in LenGroup(es, 5) && e.mask == masks[3]
    ensures exists e :: e in LenGroup(es, 5) && e.mask == masks[5]
  {
    assert Segs[2] == 5 && Segs[3] == 5 && Segs[5] == 5;
    var x2 := InGroup(ps, ds, es, masks, src, dst, 2);
    var x3 := InGroup(ps, ds, es, masks, src, dst, 3);
    var x5 := InGroup(ps, ds, es, masks, src, dst, 5);
    forall e | e in LenGroup(es, 5)
      ensures e.mask == masks[2] || e.mask == masks[3] || e.mask == masks[5]
    {
      var m := GroupMember(ps, ds, es, masks, src, dst, 5, e);
      SegsDigits(m);
    }
  }

  // ---------------------------------------------------------------------------
  // The decoder's steps

  /** The `pos_f` loop finds segment f: among 0, 6 and 9 only 6 meets `one`
      in a single bit. */
  lemma FindsF(sixes: seq<Entry>, a: bv7, b: bv7, c: bv7, d: bv7, e: bv7, f: bv7, g: bv7)
    requires Independent(a, b, c, d, e, f, g)
    requires forall x :: x in sixes ==>
      x.mask == a | b | c | e | f | g || x.mask == a | b | d | e | f | g || x.mask == a | b | c | d | f | g
    requires exists x :: x in sixes && x.mask == a | b | d | e | f | g
    ensures LastSingle(c | f, sixes) == Some(f)
  {
    RecoverACF(a, b, c, d, e, f, g);
    PopCountOneIffOneHot(f);
    PopCountOneIffOneHot(c | f);
    var x :| x in sixes && x.mask == a | b | d | e | f | g;
    assert PopCount((c | f) & x.mask) == 1;
  }

  /** The conjunction of the five-segment masks is the horizontal segments. */
  lemma HorizontalSegments(fives: seq<Entry>, a: bv7, b: bv7, c: bv7, d: bv7, e: bv7, f: bv7, g: bv7)
    requires Independent(a, b, c, d, e, f, g)
    requires forall x :: x in fives ==>
      x.mask == a | c | d | e | g || x.mask == a | c | d | f | g || x.mask == a | b | d | f | g
    requires exists x :: x in fives && x.mask == a | c | d | e | g
    requires exists x :: x in fives && x.mask == a | c | d | f | g
    requires exists x :: x in fives && x.mask == a | b | d | f | g
    ensures |fives| > 0 && AndAll(fives) == a | d | g
  {
    RecoverD(a, b, c, d, e, f, g);
    AndAllOfThree(fives, a | c | d | e | g, a | c | d | f | g, a | b | d | f | g);
  }

  /** A conjunction over entries drawn from three masks, all present, is the
      conjunction of the three. */
  lemma AndAllOfThree(xs: seq<Entry>, m2: bv7, m3: bv7, m5: bv7)
    requires forall x :: x in xs ==> x.mask == m2 || x.mask == m3 || x.mask == m5
    requires exists x :: x in xs && x.mask == m2
    requires exists x :: x in xs && x.mask == m3
    requires exists x :: x in xs && x.mask == m5
    ensures |xs| > 0 && AndAll(xs) == m2 & m3 & m5
  {
    var x2 :| x2 in xs && x2.mask == m2;
    var x3 :| x3 in xs && x3.mask == m3;
    var x5 :| x5 in xs && x5.mask == m5;
    var i2 :| 0 <= i2 < |xs| && xs[i2] == x2;
    var i3 :| 0 <= i3 < |xs| && xs[i3] == x3;
    var i5 :| 0 <= i5 < |xs| && xs[i5] == x5;
    assert forall i :: 0 <= i < |xs| ==> xs[i].mask == m2 || xs[i].mask == m3 || xs[i].mask == m5 by {
      forall i | 0 <= i < |xs|
        ensures xs[i] in xs
      {
      }
    }
    AndAllAtThree(xs, m2, m3, m5, i2, i3, i5);
  }

  lemma AndAllAtThree(xs: seq<Entry>, m2: bv7, m3: bv7, m5: bv7, i2: nat, i3: nat, i5: nat)
    requires forall i :: 0 <= i < |xs| ==> xs[i].mask == m2 || xs[i].mask == m3 || xs[i].mask == m5
    requires i2 < |xs| && i3 < |xs| && i5 < |xs|
    requires xs[i2].mask == m2 && xs[i3].mask == m3 && xs[i5].mask == m5
    ensures AndAll(xs) == m2 & m3 & m5
  {
    var m := m2 & m3 & m5;
    var v := AndAll(xs);
    assert v & m == m by {
      forall i | 0 <= i < |xs|
        ensures xs[i].mask & m == m
      {
        Within(xs[i].mask, m2, m3, m5);
      }
      AndAllAbove(xs, m);
    }
    assert v & m2 == v && v & m3 == v && v & m5 == v by {
      AndAllBelow(xs, i2);
      AndAllBelow(xs, i3);
      AndAllBelow(xs, i5);
    }
    Squeeze(v, m2, m3, m5);
  }

  /** The conjunction keeps the bits every member has. */
  lemma {:induction false} AndAllAbove(xs: seq<Entry>, b: bv7)
    requires |xs| > 0
    requires forall i :: 0 <= i < |xs| ==> xs[i].mask & b == b
    ensures AndAll(xs) & b == b
  {
    if |xs| > 1 {
      AndAllAbove(xs[..|xs| - 1], b);
    }
  }

  /** The conjunction has no bit that a member lacks. */
  lemma {:induction false} AndAllBelow(xs: seq<Entry>, k: nat)
    requires k < |xs|
    ensures AndAll(xs) & xs[k].mask == AndAll(xs)
  {
    if |xs| > 1 && k < |xs| - 1 {
      AndAllBelow(xs[..|xs| - 1], k);
    }
  }

  lemma Within(x: bv7, m2: bv7, m3: bv7, m5: bv7)
    requires x == m2 || x == m3 || x == m5
    ensures x & (m2 & m3 & m5) == m2 & m3 & m5
  {
  }

  /** A mask below each of three masks and above their conjunction is it. */
  lemma Squeeze(v: bv7, m2: bv7, m3: bv7, m5: bv7)
    requires v & m2 == v && v & m3 == v && v & m5 == v
    requires v & (m2 & m3 & m5) == m2 & m3 & m5
    ensures v == m2 & m3 & m5
  {
  }

  /** With every group in place, `decode` computes the seven segment masks
      and returns the classification of every entry. */
  lemma DecodeSteps(ps: seq<string>, es: seq<Entry>, a: bv7, b: bv7, c: bv7, d: bv7, e: bv7, f: bv7, g: bv7)
    requires Independent(a, b, c, d, e, f, g)
    requires |ps| > 0 && |Reverse(SortByLen(ps))[0]| == 7
    requires forall ch :: ch in PosMap(Reverse(SortByLen(ps))[0]) ==> PosMap(Reverse(SortByLen(ps))[0])[ch] < 7
    requires Entries(Reverse(SortByLen(ps)), PosMap(Reverse(SortByLen(ps))[0])) == Some(es)
    requires |LenGroup(es, 2)| > 0 && LenGroup(es, 2)[0].mask == c | f
    requires |LenGroup(es, 3)| > 0 && LenGroup(es, 3)[0].mask == a | c | f
    requires LastSingle(c | f, LenGroup(es, 6)) == Some(f)
    requires |LenGroup(es, 5)| > 0 && AndAll(LenGroup(es, 5)) == a | d | g
    requires |LenGroup(es, 4)| > 0 && LenGroup(es, 4)[0].mask == b | c | d | f
    requires |LenGroup(es, 7)| > 0 && LenGroup(es, 7)[0].mask == a | b | c | d | e | f | g
    ensures Decode(ps) == Ok(ResultMap(es, a, b, c, d, e, f, g))
  {
    assert |es| > 0 && |es[0].pat| == 7;
    StepA(a, b, c, d, e, f, g);
    StepC(a, b, c, d, e, f, g);
    StepD(a, b, c, d, e, f, g);
    StepB(a, b, c, d, e, f, g);
    StepE(a, b, c, d, e, f, g);
    StepG(a, b, c, d, e, f, g);
    SegmentsFound(es, c | f, a | c | f, b | c | d | f, a | d | g, a | b | c | d | e | f | g, a, b, c, d, e, f, g);
  }

  /** Each assignment of `decode`, applied to the masks of 1, 7, 4, 8 and the
      conjunction of 2, 3 and 5, yields one segment. */
  lemma StepA(a: bv7, b: bv7, c: bv7, d: bv7, e: bv7, f: bv7, g: bv7)
    requires Independent(a, b, c, d, e, f, g)
    ensures Xor(c | f, a | c | f) == a
  {
    RecoverACF(a, b, c, d, e, f, g);
    XorPair(c | f, a | c | f, a);
  }

  lemma StepC(a: bv7, b: bv7, c: bv7, d: bv7, e: bv7, f: bv7, g: bv7)
    requires Independent(a, b, c, d, e, f, g)
    ensures Xor(c | f, f) == c
  {
    RecoverACF(a, b, c, d, e, f, g);
    XorPair(c | f, f, c);
  }

  lemma StepD(a: bv7, b: bv7, c: bv7, d: bv7, e: bv7, f: bv7, g: bv7)
    requires Independent(a, b, c, d, e, f, g)
    ensures And(a | d | g, b | c | d | f) == d
  {
    RecoverD(a, b, c, d, e, f, g);
  }

  lemma StepB(a: bv7, b: bv7, c: bv7, d: bv7, e: bv7, f: bv7, g: bv7)
    requires Independent(a, b, c, d, e, f, g)
    ensures Xor(Xor(Xor(b | c | d | f, c), d), f) == b
  {
    RecoverBEG(a, b, c, d, e, f, g);
    XorChain3(b | c | d | f, c, d, f, b);
  }

  lemma StepE(a: bv7, b: bv7, c: bv7, d: bv7, e: bv7, f: bv7, g: bv7)
    requires Independent(a, b, c, d, e, f, g)
    ensures Xor(Xor(Xor(Xor(a | b | c | d | e | f | g, a | d | g), b), c), f) == e
  {
    RecoverBEG(a, b, c, d, e, f, g);
    XorChain4(a | b | c | d | e | f | g, a | d | g, b, c, f, e);
  }

  lemma StepG(a: bv7, b: bv7, c: bv7, d: bv7, e: bv7, f: bv7, g: bv7)
    requires Independent(a, b, c, d, e, f, g)
    ensures Xor(Xor(Xor(Xor(Xor(Xor(a | b | c | d | e | f | g, a), b), c), d), e), f) == g
  {
    RecoverBEG(a, b, c, d, e, f, g);
    XorChain6(a | b | c | d | e | f | g, a, b, c, d, e, f, g);
  }

  lemma XorPair(m: bv7, x: bv7, r: bv7)
    requires m ^ x == r
    ensures Xor(m, x) == r
  {
  }

  lemma XorChain3(m: bv7, x: bv7, y: bv7, z: bv7, r: bv7)
    requires m ^ x ^ y ^ z == r
    ensures Xor(Xor(Xor(m, x), y), z) == r
  {
  }

  lemma XorChain4(m: bv7, x: bv7, y: bv7, z: bv7, u: bv7, r: bv7)
    requires m ^ x ^ y ^ z ^ u == r
    ensures Xor(Xor(Xor(Xor(m, x), y), z), u) == r
  {
  }

  lemma XorChain6(m: bv7, x: bv7, y: bv7, z: bv7, u: bv7, v: bv7, w: bv7, r: bv7)
    requires m ^ x ^ y ^ z ^ u ^ v ^ w == r
    ensures Xor(Xor(Xor(Xor(Xor(Xor(m, x), y), z), u), v), w) == r
  {
  }

  /** The rest of `decode` computes the segment masks from the first entries
      of the groups. */
  lemma SegmentsFound(es: seq<Entry>, one: bv7, seven: bv7, four: bv7, horz: bv7, eight: bv7,
                      a: bv7, b: bv7, c: bv7, d: bv7, e: bv7, f: bv7, g: bv7)
    requires |es| > 0 && |es[0].pat| == 7
    requires |LenGroup(es, 2)| > 0 && LenGroup(es, 2)[0].mask == one
    requires |LenGroup(es, 3)| > 0 && LenGroup(es, 3)[0].mask == seven
    requires LastSingle(one, LenGroup(es, 6)) == Some(f)
    requires |LenGroup(es, 5)| > 0 && AndAll(LenGroup(es, 5)) == horz
    requires |LenGroup(es, 4)| > 0 && LenGroup(es, 4)[0].mask == four
    requires LenGroup(es, 7)[0].mask == eight
    requires Xor(one, seven) == a && Xor(one, f) == c && And(horz, four) == d
    requires Xor(Xor(Xor(four, c), d), f) == b && Xor(Xor(Xor(Xor(eight, horz), b), c), f) == e
    requires Xor(Xor(Xor(Xor(Xor(Xor(eight, a), b), c), d), e), f) == g
    ensures DecodeEntries(es) == Ok(ResultMap(es, a, b, c, d, e, f, g))
  {
  }

  /** When every entry has a digit, `lab[j]` for entry `j`, and entries with
      the same key have the same digit, `res` maps each entry's key to its
      digit: a later entry overwrites a key only with the digit it already
      had. */
  lemma {:induction false} StoreLabels(keys: seq<string>, digits: seq<Option<char>>, lab: seq<char>)
    requires |digits| == |keys| && |lab| == |keys|
    requires forall j :: 0 <= j < |keys| ==> digits[j] == Some(lab[j])
    requires forall j, k :: 0 <= j < |keys| && 0 <= k < |keys| && keys[j] == keys[k] ==> lab[j] == lab[k]
    ensures forall j :: 0 <= j < |keys| ==> keys[j] in Store(keys, digits) && Store(keys, digits)[keys[j]] == lab[j]
  {
    if |keys| > 0 {
      var n := |keys| - 1;
      StoreLabels(keys[..n], digits[..n], lab[..n]);
    }
  }

  // ---------------------------------------------------------------------------
  // The whole decoder

  /** What `decode` has built from a valid line before it looks at the
      groups, `sorted` being the patterns longest first: the first has seven
      letters, `pos` places the seven wires at seven distinct positions `pi`,
      and each entry's mask is the mask of the digit its pattern shows,
      segment `s` being bit `pi[s]`. */
  ghost predicate Built(ps: seq<string>, ds: seq<nat>, sorted: seq<string>, pi: seq<nat>,
                        es: seq<Entry>, masks: seq<bv7>, src: seq<nat>, dst: seq<nat>)
  {
    && |sorted| > 0 && |sorted[0]| == 7
    && (forall ch :: ch in PosMap(sorted[0]) ==> PosMap(sorted[0])[ch] < 7)
    && Entries(sorted, PosMap(sorted[0])) == Some(es)
    && (forall j :: 0 <= j < |es| ==> PatMask(es[j].pat, PosMap(sorted[0])) == Some(es[j].mask))
    && |pi| == 7 && (forall s :: 0 <= s < 7 ==> pi[s] < 7) && (forall s, t :: 0 <= s < t < 7 ==> pi[s] != pi[t])
    && Table(masks, Bit(pi[0]), Bit(pi[1]), Bit(pi[2]), Bit(pi[3]), Bit(pi[4]), Bit(pi[5]), Bit(pi[6]))
    && Scene(ps, ds, es, masks, src, dst)
  }

  /** What `decode` builds from a valid line before it looks at the groups,
      given the patterns `sorted` longest first: the first has seven letters,
      `pos` places the seven wires at seven distinct positions `pi`, and each
      entry's mask is the mask of the digit its pattern shows, segment `s`
      being bit `pi[s]`. */
  lemma LineSetup(ps: seq<string>, w: seq<char>, ds: seq<nat>, sorted: seq<string>)
    returns (pi: seq<nat>, es: seq<Entry>, masks: seq<bv7>, src: seq<nat>, dst: seq<nat>)
    requires ValidLine(ps, w, ds)
    requires |sorted| > 0 && sorted[0] in ps && multiset(sorted) == multiset(ps)
    requires forall i :: 0 <= i < |ps| ==> |ps[i]| <= |sorted[0]|
    ensures Built(ps, ds, sorted, pi, es, masks, src, dst)
  {
    pi, masks := LinePositions(ps, w, ds, sorted[0]);
    es, src, dst := EntriesOfLine(ps, ds, sorted, PosMap(sorted[0]), masks);
  }

  /** The longest pattern has seven letters, one per wire, so `pos` built
      from it places the seven wires at seven distinct positions `pi`; with
      segment `s` at bit `pi[s]`, each pattern's mask is its digit's mask. */
  lemma LinePositions(ps: seq<string>, w: seq<char>, ds: seq<nat>, bits: string)
    returns (pi: seq<nat>, masks: seq<bv7>)
    requires ValidLine(ps, w, ds)
    requires bits in ps && forall i :: 0 <= i < |ps| ==> |ps[i]| <= |bits|
    ensures |bits| == 7 && forall ch :: ch in PosMap(bits) ==> PosMap(bits)[ch] < 7
    ensures |pi| == 7 && (forall s :: 0 <= s < 7 ==> pi[s] < 7) && forall s, t :: 0 <= s < t < 7 ==> pi[s] != pi[t]
    ensures Table(masks, Bit(pi[0]), Bit(pi[1]), Bit(pi[2]), Bit(pi[3]), Bit(pi[4]), Bit(pi[5]), Bit(pi[6]))
    ensures forall i :: 0 <= i < |ps| ==> |ps[i]| == |Lit(ds[i])| && PatMask(ps[i], PosMap(bits)) == Some(masks[ds[i]])
  {
    LongestShowsEight(ps, w, ds, bits);
    Placement(w, bits);
    pi := Positions(w, PosMap(bits));
    masks := LineMasks(ps, w, ds, PosMap(bits), pi);
  }

  /** The masks of the ten digits with segment `s` at bit `pi[s]`; each
      pattern's mask is the mask of the digit it shows. */
  lemma LineMasks(ps: seq<string>, w: seq<char>, ds: seq<nat>, pos: map<char, nat>, pi: seq<nat>)
    returns (masks: seq<bv7>)
    requires ValidLine(ps, w, ds)
    requires forall ch :: ch in pos ==> pos[ch] < 7
    requires forall s :: 0 <= s < 7 ==> w[s] in pos
    requires pi == Positions(w, pos) && forall s :: 0 <= s < 7 ==> pi[s] < 7
    ensures Table(masks, Bit(pi[0]), Bit(pi[1]), Bit(pi[2]), Bit(pi[3]), Bit(pi[4]), Bit(pi[5]), Bit(pi[6]))
    ensures forall i :: 0 <= i < |ps| ==> |ps[i]| == |Lit(ds[i])| && PatMask(ps[i], pos) == Some(masks[ds[i]])
  {
    masks := MaskTable(pi);
    MasksOfLine(ps, w, ds, pos);
  }

  /** The table of digit masks for the positions `pi`. */
  lemma MaskTable(pi: seq<nat>) returns (masks: seq<bv7>)
    requires |pi| == 7 && forall s :: 0 <= s < 7 ==> pi[s] < 7
    ensures Table(masks, Bit(pi[0]), Bit(pi[1]), Bit(pi[2]), Bit(pi[3]), Bit(pi[4]), Bit(pi[5]), Bit(pi[6]))
    ensures forall n :: 0 <= n < 10 ==> DigitMask(n, pi) == masks[n]
  {
    masks := seq(10, n requires 0 <= n < 10 => DigitMask(n, pi));
    forall n | 0 <= n < 10
      ensures masks[n] == DigitBits(n, Bit(pi[0]), Bit(pi[1]), Bit(pi[2]), Bit(pi[3]), Bit(pi[4]), Bit(pi[5]), Bit(pi[6]))
    {
      DigitMaskBits(n, pi);
    }
  }

  /** On a valid line the groups by length hold what the decoder expects:
      1, 7, 4 and 8 first in their groups, f found among the six-letter
      patterns and a, d and g shared by the five-letter ones. */
  lemma GroupsOfLine(ps: seq<string>, ds: seq<nat>, es: seq<Entry>, masks: seq<bv7>, src: seq<nat>, dst: seq<nat>,
                     a: bv7, b: bv7, c: bv7, d: bv7, e: bv7, f: bv7, g: bv7)
    requires Scene(ps, ds, es, masks, src, dst)
    requires Independent(a, b, c, d, e, f, g) && Table(masks, a, b, c, d, e, f, g)
    ensures |LenGroup(es, 2)| > 0 && LenGroup(es, 2)[0].mask == c | f
    ensures |LenGroup(es, 3)| > 0 && LenGroup(es, 3)[0].mask == a | c | f
    ensures LastSingle(c | f, LenGroup(es, 6)) == Some(f)
    ensures |LenGroup(es, 5)| > 0 && AndAll(LenGroup(es, 5)) == a | d | g
    ensures |LenGroup(es, 4)| > 0 && LenGroup(es, 4)[0].mask == b | c | d | f
    ensures |LenGroup(es, 7)| > 0 && LenGroup(es, 7)[0].mask == a | b | c | d | e | f | g
  {
    assert masks[1] == c | f && masks[7] == a | c | f && masks[4] == b | c | d | f;
    assert masks[8] == a | b | c | d | e | f | g;
    UniqueGroup(ps, ds, es, masks, src, dst, 2, 1);
    UniqueGroup(ps, ds, es, masks, src, dst, 3, 7);
    UniqueGroup(ps, ds, es, masks, src, dst, 4, 4);
    UniqueGroup(ps, ds, es, masks, src, dst, 7, 8);
    SixesOfLine(ps, ds, es, masks, src, dst, a, b, c, d, e, f, g);
    FivesOfLine(ps, ds, es, masks, src, dst, a, b, c, d, e, f, g);
  }

  lemma SixesOfLine(ps: seq<string>, ds: seq<nat>, es: seq<Entry>, masks: seq<bv7>, src: seq<nat>, dst: seq<nat>,
                    a: bv7, b: bv7, c: bv7, d: bv7, e: bv7, f: bv7, g: bv7)
    requires Scene(ps, ds, es, masks, src, dst)
    requires Independent(a, b, c, d, e, f, g) && Table(masks, a, b, c, d, e, f, g)
    ensures LastSingle(c | f, LenGroup(es, 6)) == Some(f)
  {
    assert masks[0] == a | b | c | e | f | g && masks[6] == a | b | d | e | f | g;
    assert masks[9] == a | b | c | d | f | g;
    SixGroup(ps, ds, es, masks, src, dst);
    FindsF(LenGroup(es, 6), a, b, c, d, e, f, g);
  }

  lemma FivesOfLine(ps: seq<string>, ds: seq<nat>, es: seq<Entry>, masks: seq<bv7>, src: seq<nat>, dst: seq<nat>,
                    a: bv7, b: bv7, c: bv7, d: bv7, e: bv7, f: bv7, g: bv7)
    requires Scene(ps, ds, es, masks, src, dst)
    requires Independent(a, b, c, d, e, f, g) && Table(masks, a, b, c, d, e, f, g)
    ensures |LenGroup(es, 5)| > 0 && AndAll(LenGroup(es, 5)) == a | d | g
  {
    assert masks[2] == a | c | d | e | g && masks[3] == a | c | d | f | g;
    assert masks[5] == a | b | d | f | g;
    FiveGroup(ps, ds, es, masks, src, dst);
    HorizontalSegments(LenGroup(es, 5), a, b, c, d, e, f, g);
  }

  /** With the true segment masks every entry reads as the digit its pattern
      shows; `lab[j]` is the digit of entry `j`. */
  lemma LabelsOfLine(ps: seq<string>, ds: seq<nat>, es: seq<Entry>, masks: seq<bv7>, src: seq<nat>, dst: seq<nat>,
                     a: bv7, b: bv7, c: bv7, d: bv7, e: bv7, f: bv7, g: bv7)
    returns (lab: seq<char>)
    requires Scene(ps, ds, es, masks, src, dst)
    requires Disjoint(a, b, c, d, e, f, g) && Table(masks, a, b, c, d, e, f, g)
    ensures |lab| == |es|
    ensures forall j :: 0 <= j < |es| ==> Classes(es, a, b, c, d, e, f, g)[j] == Some(lab[j])
    ensures forall i :: 0 <= i < |ps| ==> lab[dst[i]] == DigitChar(ds[i])
  {
    lab := seq(|es|, j requires 0 <= j < |es| => DigitChar(ds[src[j]]));
    forall j | 0 <= j < |es|
      ensures Classes(es, a, b, c, d, e, f, g)[j] == Some(lab[j])
    {
      ClassifiesDigit(ds[src[j]], a, b, c, d, e, f, g);
    }
    forall i | 0 <= i < |ps|
      ensures lab[dst[i]] == DigitChar(ds[i])
    {
      ClassifiesDigit(ds[i], a, b, c, d, e, f, g);
    }
  }

  /** Entries with the same key read as the same digit. */
  lemma LabelsAgree(es: seq<Entry>, pos: map<char, nat>, lab: seq<char>,
                    a: bv7, b: bv7, c: bv7, d: bv7, e: bv7, f: bv7, g: bv7)
    requires forall ch :: ch in pos ==> pos[ch] < 7
    requires forall j :: 0 <= j < |es| ==> PatMask(es[j].pat, pos) == Some(es[j].mask)
    requires |lab| == |es| && forall j :: 0 <= j < |es| ==> Classes(es, a, b, c, d, e, f, g)[j] == Some(lab[j])
    ensures forall j, k :: 0 <= j < |es| && 0 <= k < |es| && Keys(es)[j] == Keys(es)[k] ==> lab[j] == lab[k]
  {
    SameKeySameMask(es, pos);
  }

  /** On a valid line `decode` gets through every step and returns `res`
      for the true segment masks. */
  lemma DecodeOfLine(ps: seq<string>, ds: seq<nat>, pi: seq<nat>,
                     es: seq<Entry>, masks: seq<bv7>, src: seq<nat>, dst: seq<nat>)
    requires |ps| > 0 && Built(ps, ds, Reverse(SortByLen(ps)), pi, es, masks, src, dst)
    ensures |pi| == 7 && forall s :: 0 <= s < 7 ==> pi[s] < 7
    ensures Decode(ps) == Ok(ResultMap(es, Bit(pi[0]), Bit(pi[1]), Bit(pi[2]), Bit(pi[3]), Bit(pi[4]), Bit(pi[5]), Bit(pi[6])))
  {
    PlacedIndependent(pi);
    var a, b, c, d, e, f, g := Bit(pi[0]), Bit(pi[1]), Bit(pi[2]), Bit(pi[3]), Bit(pi[4]), Bit(pi[5]), Bit(pi[6]);
    GroupsOfLine(ps, ds, es, masks, src, dst, a, b, c, d, e, f, g);
    DecodeSteps(ps, es, a, b, c, d, e, f, g);
  }

  /** The digit of each entry, `lab[j]` for entry `j`: what the chain reads
      with the true segment masks, the same for entries with the same key,
      and the digit shown for the entry of each pattern. */
  lemma LineLabels(ps: seq<string>, ds: seq<nat>, sorted: seq<string>, pi: seq<nat>,
                   es: seq<Entry>, masks: seq<bv7>, src: seq<nat>, dst: seq<nat>)
    returns (lab: seq<char>)
    requires Built(ps, ds, sorted, pi, es, masks, src, dst)
    ensures |pi| == 7 && forall s :: 0 <= s < 7 ==> pi[s] < 7
    ensures |lab| == |es|
    ensures forall j :: 0 <= j < |es| ==>
      Classes(es, Bit(pi[0]), Bit(pi[1]), Bit(pi[2]), Bit(pi[3]), Bit(pi[4]), Bit(pi[5]), Bit(pi[6]))[j] == Some(lab[j])
    ensures forall j, k :: 0 <= j < |es| && 0 <= k < |es| && Keys(es)[j] == Keys(es)[k] ==> lab[j] == lab[k]
    ensures forall i :: 0 <= i < |ps| ==> lab[dst[i]] == DigitChar(ds[i])
  {
    PlacedIndependent(pi);
    var a, b, c, d, e, f, g := Bit(pi[0]), Bit(pi[1]), Bit(pi[2]), Bit(pi[3]), Bit(pi[4]), Bit(pi[5]), Bit(pi[6]);
    lab := LabelsOfLine(ps, ds, es, masks, src, dst, a, b, c, d, e, f, g);
    LabelsAgree(es, PosMap(sorted[0]), lab, a, b, c, d, e, f, g);
  }

  /** `res` filled from entries whose keys are the patterns' sorted letters
      and whose digits are the digits shown: each pattern's key maps to its
      digit, and there are no other keys. */
  lemma StoreOfLine(ps: seq<string>, ds: seq<nat>, keys: seq<string>, digits: seq<Option<char>>, lab: seq<char>,
                    src: seq<nat>, dst: seq<nat>)
    requires |digits| == |keys| && |lab| == |keys| && |ds| == |ps| && forall i :: 0 <= i < |ps| ==> ds[i] < 10
    requires forall j :: 0 <= j < |keys| ==> digits[j] == Some(lab[j])
    requires forall j, k :: 0 <= j < |keys| && 0 <= k < |keys| && keys[j] == keys[k] ==> lab[j] == lab[k]
    requires |dst| == |ps| && forall i :: 0 <= i < |ps| ==>
      dst[i] < |keys| && keys[dst[i]] == SortChars(ps[i]) && lab[dst[i]] == DigitChar(ds[i])
    requires |src| == |keys| && forall j :: 0 <= j < |keys| ==> src[j] < |ps| && keys[j] == SortChars(ps[src[j]])
    ensures forall i :: 0 <= i < |ps| ==>
      SortChars(ps[i]) in Store(keys, digits) && Store(keys, digits)[SortChars(ps[i])] == DigitChar(ds[i])
    ensures forall k :: k in Store(keys, digits) ==> exists i :: 0 <= i < |ps| && SortChars(ps[i]) == k
  {
    StoreLabels(keys, digits, lab);
    forall k | k in Store(keys, digits)
      ensures exists i :: 0 <= i < |ps| && SortChars(ps[i]) == k
    {
      var j :| 0 <= j < |keys| && keys[j] == k && digits[j].Some?;
      assert SortChars(ps[src[j]]) == k;
    }
  }

  /** The keys of the entries are the patterns' sorted letters. */
  lemma KeysOfLine(ps: seq<string>, ds: seq<nat>, sorted: seq<string>, pi: seq<nat>,
                   es: seq<Entry>, masks: seq<bv7>, src: seq<nat>, dst: seq<nat>)
    requires Built(ps, ds, sorted, pi, es, masks, src, dst)
    ensures |ds| == |ps| && forall i :: 0 <= i < |ps| ==> ds[i] < 10
    ensures |dst| == |ps| && forall i :: 0 <= i < |ps| ==> dst[i] < |es| && Keys(es)[dst[i]] == SortChars(ps[i])
    ensures |src| == |es| && forall j :: 0 <= j < |es| ==> src[j] < |ps| && Keys(es)[j] == SortChars(ps[src[j]])
  {
  }

  /** `m` maps each pattern's sorted letters to the digit the pattern
      shows, and has no other keys. */
  ghost predicate Decoded(ps: seq<string>, ds: seq<nat>, m: map<string, char>)
    requires |ds| == |ps| && forall i :: 0 <= i < |ps| ==> ds[i] < 10
  {
    && (forall i :: 0 <= i < |ps| ==> SortChars(ps[i]) in m && m[SortChars(ps[i])] == DigitChar(ds[i]))
    && (forall k :: k in m ==> exists i :: 0 <= i < |ps| && SortChars(ps[i]) == k)
  }

  /** The map the loop fills on a valid line is the decoded one. */
  lemma MapOfLine(ps: seq<string>, ds: seq<nat>, sorted: seq<string>, pi: seq<nat>,
                  es: seq<Entry>, masks: seq<bv7>, src: seq<nat>, dst: seq<nat>)
    requires Built(ps, ds, sorted, pi, es, masks, src, dst)
    ensures |pi| == 7 && forall s :: 0 <= s < 7 ==> pi[s] < 7
    ensures |ds| == |ps| && forall i :: 0 <= i < |ps| ==> ds[i] < 10
    ensures Decoded(ps, ds, ResultMap(es, Bit(pi[0]), Bit(pi[1]), Bit(pi[2]), Bit(pi[3]), Bit(pi[4]), Bit(pi[5]), Bit(pi[6])))
  {
    var lab := LineLabels(ps, ds, sorted, pi, es, masks, src, dst);
    KeysOfLine(ps, ds, sorted, pi, es, masks, src, dst);
    StoreOfLine(ps, ds, Keys(es), Classes(es, Bit(pi[0]), Bit(pi[1]), Bit(pi[2]), Bit(pi[3]), Bit(pi[4]), Bit(pi[5]), Bit(pi[6])),
      lab, src, dst);
  }

  /** `decode` is correct: on any line whose patterns show every digit under
      some wiring of the seven segments, with letters and patterns in any
      order, it succeeds, maps each pattern's sorted letters to the digit
      the pattern shows, and has no other keys. */
  lemma DecodeCorrect(ps: seq<string>, w: seq<char>, ds: seq<nat>)
    requires ValidLine(ps, w, ds)
    ensures Decode(ps).Ok?
    ensures forall i :: 0 <= i < |ps| ==>
      SortChars(ps[i]) in Decode(ps).value && Decode(ps).value[SortChars(ps[i])] == DigitChar(ds[i])
    ensures forall k :: k in Decode(ps).value ==> exists i :: 0 <= i < |ps| && SortChars(ps[i]) == k
  {
    assert 0 in ds;
    LongestFirst(ps);
    var sorted := Reverse(SortByLen(ps));
    var pi, es, masks, src, dst := LineSetup(ps, w, ds, sorted);
    DecodeOfLine(ps, ds, pi, es, masks, src, dst);
    MapOfLine(ps, ds, sorted, pi, es, masks, src, dst);
  }

  // ---------------------------------------------------------------------------
  // A line of the decoding script

  /** The number whose decimal digits, most significant first, are `od`. */
  function DigitsValue(od: seq<nat>): nat
    requires forall i :: 0 <= i < |od| ==> od[i] < 10
  {
    if |od| == 0 then 0 else DigitsValue(od[..|od| - 1]) * 10 + od[|od| - 1]
  }

  /** Reading the characters of the digits `od` as a numeral gives the
      number they spell. */
  lemma {:induction false} DecimalOfDigits(s: string, od: seq<nat>)
    requires |s| == |od| && forall i :: 0 <= i < |od| ==> od[i] < 10 && s[i] == DigitChar(od[i])
    ensures forall i :: 0 <= i < |s| ==> IsDigit(s[i])
    ensures DecimalValue(s) == DigitsValue(od)
  {
    if |s| > 0 {
      DecimalOfDigits(s[..|s| - 1], od[..|od| - 1]);
    }
  }

  /** Two patterns that show the same digit under the same wiring share a key. */
  lemma SameDigitSameKey(p: string, q: string, w: seq<char>, d: nat)
    requires IsWiring(w) && d < 10 && Shows(p, w, d) && Shows(q, w, d)
    ensures SortChars(p) == SortChars(q)
  {
    SortCharsKey(p, q);
  }

  /** Each output word's key maps to the digit the word shows, in a map
      that maps every pattern's key to the digit it shows. */
  lemma OutputKeys(ps: seq<string>, w: seq<char>, ds: seq<nat>, m: map<string, char>, outs: seq<string>, od: seq<nat>)
    requires ValidLine(ps, w, ds) && Decoded(ps, ds, m)
    requires |od| == |outs| && forall i :: 0 <= i < |outs| ==> od[i] < 10 && Shows(outs[i], w, od[i])
    ensures forall i :: 0 <= i < |outs| ==> SortChars(outs[i]) in m && m[SortChars(outs[i])] == DigitChar(od[i])
  {
    forall i | 0 <= i < |outs|
      ensures SortChars(outs[i]) in m && m[SortChars(outs[i])] == DigitChar(od[i])
    {
      assert od[i] in ds;
      var k :| 0 <= k < |ps| && ds[k] == od[i];
      SameDigitSameKey(outs[i], ps[k], w, od[i]);
    }
  }

  /** Looking up words whose keys map to the digits `od` joins the digits'
      characters, which read back as the number `od` spells. */
  lemma LookUpDigits(m: map<string, char>, outs: seq<string>, od: seq<nat>)
    requires |outs| > 0 && |od| == |outs| && forall i :: 0 <= i < |outs| ==> od[i] < 10
    requires forall i :: 0 <= i < |outs| ==> SortChars(outs[i]) in m && m[SortChars(outs[i])] == DigitChar(od[i])
    ensures LookUp(m, outs).Ok? && IsDecimal(LookUp(m, outs).value)
    ensures DecimalValue(LookUp(m, outs).value) == DigitsValue(od)
  {
    DecimalOfDigits(LookUp(m, outs).value, od);
  }

  /** A line of the decoding script is correct: when its patterns form a
      valid line under wiring `w` and its output words show the digits `od`
      under the same wiring, the script reads the number `od` spells. */
  lemma LineValueCorrect(line: string, ps: seq<string>, outs: seq<string>, w: seq<char>, ds: seq<nat>, od: seq<nat>)
    requires SplitLine(RStrip(line)) == Ok((ps, outs))
    requires ValidLine(ps, w, ds)
    requires |outs| > 0 && |od| == |outs|
    requires forall i :: 0 <= i < |outs| ==> od[i] < 10 && Shows(outs[i], w, od[i])
    ensures LineValue(line) == Ok(DigitsValue(od))
  {
    DecodeCorrect(ps, w, ds);
    var m := Decode(ps).value;
    OutputKeys(ps, w, ds, m, outs, od);
    LookUpDigits(m, outs, od);
  }
}
