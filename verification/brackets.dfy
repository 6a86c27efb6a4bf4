/** The chunk checker of the bracket scripts: one stack scan that either stops
    at the first unexpected character (the syntax-error script scores it) or
    runs to the end of the line, leaving the unclosed openers (the completion
    script closes them and scores the closing string). */
module Brackets {
  import opened Util

  predicate IsOpener(c: char)
  {
    c == '(' || c == '[' || c == '{' || c == '<'
  }

  predicate IsCloser(c: char)
  {
    c == ')' || c == ']' || c == '}' || c == '>'
  }

  /** The `expected` table: the opener each closer must match. */
  function Partner(c: char): (o: char)
    requires IsCloser(c)
    ensures IsOpener(o)
  {
    match c
    case ')' => '('
    case ']' => '['
    case '}' => '{'
    case '>' => '<'
  }

  /** The completion script's `expected` table: the closer of each opener. */
  function CloserOf(o: char): (c: char)
    requires IsOpener(o)
    ensures IsCloser(c) && Partner(c) == o
  {
    match o
    case '(' => ')'
    case '[' => ']'
    case '{' => '}'
    case '<' => '>'
  }

  lemma CloserOfPartner(c: char)
    requires IsCloser(c)
    ensures CloserOf(Partner(c)) == c
  {
  }

  /** The scan state: the stack of open brackets (top last), or the character
      the scan stopped at. */
  datatype Scan = Open(stack: string) | Stopped(at: char)

  /** One iteration of the scan loop; a stopped scan stays stopped, as the
      script has already returned. */
  function Step(st: Scan, c: char): Scan
  {
    match st
    case Stopped(_) => st
    case Open(stack) =>
      if IsOpener(c) then Open(stack + [c])
      else if IsCloser(c) && |stack| > 0 && stack[|stack| - 1] == Partner(c) then Open(stack[..|stack| - 1])
      else Stopped(c)
  }

  function Run(st: Scan, s: string): Scan
    decreases |s|
  {
    if |s| == 0 then st else Run(Step(st, s[0]), s[1..])
  }

  /** Scanning two pieces one after the other is scanning their concatenation. */
  lemma {:induction false} RunAppend(st: Scan, a: string, b: string)
    ensures Run(st, a + b) == Run(Run(st, a), b)
    decreases |a|
  {
    if |a| > 0 {
      assert (a + b)[1..] == a[1..] + b;
      RunAppend(Step(st, a[0]), a[1..], b);
    } else {
      assert a + b == b;
    }
  }

  lemma {:induction false} RunStopped(c: char, s: string)
    ensures Run(Stopped(c), s) == Stopped(c)
    decreases |s|
  {
    if |s| > 0 {
      RunStopped(c, s[1..]);
    }
  }

  function Scanned(s: string): Scan
  {
    Run(Open([]), s)
  }

  /** `is_corrupt`: the character the scan stopped at, or the empty string. */
  function Corruption(s: string): (r: string)
    ensures |r| <= 1
    ensures r != "" <==> Scanned(s).Stopped?
  {
    match Scanned(s)
    case Stopped(c) => [c]
    case Open(_) => ""
  }

  /** `remainder`: the unclosed openers, innermost first; empty for a stopped scan. */
  function Remainder(s: string): (r: string)
  {
    match Scanned(s)
    case Stopped(_) => ""
    case Open(stack) => Reverse(stack)
  }

  predicate AllOpeners(s: string)
  {
    forall i :: 0 <= i < |s| ==> IsOpener(s[i])
  }

  /** The stack holds openers only, and a stop is at a character of the line
      that is not an opener. */
  lemma {:induction false} RunShape(st: Scan, s: string)
    requires st.Open? ==> AllOpeners(st.stack)
    ensures Run(st, s).Open? ==> AllOpeners(Run(st, s).stack)
    ensures Run(st, s).Stopped? ==> st == Run(st, s) || (Run(st, s).at in s && !IsOpener(Run(st, s).at))
    decreases |s|
  {
    if |s| > 0 {
      RunShape(Step(st, s[0]), s[1..]);
    }
  }

  /** The first unexpected character of a line is in the line, is not an
      opener, and is reported whatever follows it. */
  lemma CorruptionFacts(s: string, t: string)
    ensures Corruption(s) != "" ==> Corruption(s)[0] in s && !IsOpener(Corruption(s)[0])
    ensures Corruption(s) != "" ==> Corruption(s + t) == Corruption(s)
    ensures AllOpeners(Remainder(s))
  {
    RunShape(Open([]), s);
    RunAppend(Open([]), s, t);
    if Scanned(s).Stopped? {
      RunStopped(Scanned(s).at, t);
    } else {
      var st := Scanned(s).stack;
      assert forall i :: 0 <= i < |st| ==> Reverse(st)[i] == st[|st| - 1 - i];
    }
  }

  // ---------------------------------------------------------------------------
  // Well-nested lines

  /** Properly nested chunks, defined independently of the scan: the line
      cancels down to nothing by repeatedly deleting an adjacent matching pair. */
  ghost predicate Balanced(s: string)
    decreases |s|
  {
    |s| == 0 ||
    exists i :: 0 <= i < |s| - 1 && IsOpener(s[i]) && s[i + 1] == CloserOf(s[i])
                && Balanced(s[..i] + s[i + 2..])
  }

  /** Deleting an adjacent matching pair does not change what the scan does. */
  lemma CancelPair(st: Scan, a: string, o: char, b: string)
    requires IsOpener(o)
    ensures Run(st, a + [o, CloserOf(o)] + b) == Run(st, a + b)
  {
    RunAppend(st, a + [o, CloserOf(o)], b);
    RunAppend(st, a, [o, CloserOf(o)]);
    RunAppend(st, a, b);
    var mid := Run(st, a);
    if mid.Stopped? {
      RunStopped(mid.at, [o, CloserOf(o)]);
    } else {
      assert Run(mid, [o, CloserOf(o)]) == Run(Step(Step(mid, o), CloserOf(o)), []);
      assert (mid.stack + [o])[..|mid.stack|] == mid.stack;
    }
  }

  lemma {:induction false} BalancedRunsClean(st: string, s: string)
    requires Balanced(s)
    ensures Run(Open(st), s) == Open(st)
    decreases |s|
  {
    if |s| > 0 {
      var rest := CancelSomePair(st, s);
      BalancedRunsClean(st, rest);
    }
  }

  /** A non-empty balanced line loses an adjacent matching pair and stays
      balanced, and the scan does not notice. */
  lemma CancelSomePair(st: string, s: string) returns (rest: string)
    requires Balanced(s) && |s| > 0
    ensures |rest| < |s| && Balanced(rest)
    ensures Run(Open(st), s) == Run(Open(st), rest)
  {
    var i :| 0 <= i < |s| - 1 && IsOpener(s[i]) && s[i + 1] == CloserOf(s[i])
             && Balanced(s[..i] + s[i + 2..]);
    rest := s[..i] + s[i + 2..];
    assert s == s[..i] + [s[i], CloserOf(s[i])] + s[i + 2..];
    CancelPair(Open(st), s[..i], s[i], s[i + 2..]);
  }

  /** Index of the first character of `s` that is not an opener. */
  function FirstNonOpener(s: string): (j: nat)
    ensures j <= |s| && AllOpeners(s[..j])
    ensures j < |s| ==> !IsOpener(s[j])
  {
    if |s| == 0 || !IsOpener(s[0]) then 0
    else
      var j := 1 + FirstNonOpener(s[1..]);
      assert s[..j] == [s[0]] + s[1..][..j - 1];
      j
  }

  lemma {:induction false} OpenersPush(st: string, s: string)
    requires AllOpeners(s)
    ensures Run(Open(st), s) == Open(st + s)
    decreases |s|
  {
    if |s| > 0 {
      OpenersPush(st + [s[0]], s[1..]);
      assert st + [s[0]] + s[1..] == st + s;
    } else {
      assert st + s == st;
    }
  }

  /** A line that scans back to an empty stack has an adjacent matching pair:
      the first non-opener closes the opener just before it. */
  lemma PairExists(s: string) returns (i: int)
    requires |s| > 0 && Scanned(s) == Open([])
    ensures 0 <= i < |s| - 1 && IsOpener(s[i]) && s[i + 1] == CloserOf(s[i])
  {
    var j := FirstNonOpener(s);
    assert s == s[..j] + s[j..];
    RunAppend(Open([]), s[..j], s[j..]);
    OpenersPush([], s[..j]);
    assert [] + s[..j] == s[..j];
    assert j < |s|;
    var after := Step(Open(s[..j]), s[j]);
    assert Run(Open(s[..j]), s[j..]) == Run(after, s[j + 1..]);
    if after.Stopped? {
      RunStopped(after.at, s[j + 1..]);
    }
    assert after.Open?;
    CloserOfPartner(s[j]);
    i := j - 1;
  }

  lemma {:induction false} CleanRunBalanced(s: string)
    requires Scanned(s) == Open([])
    ensures Balanced(s)
    decreases |s|
  {
    if |s| > 0 {
      var i := PairExists(s);
      var t := s[..i] + s[i + 2..];
      assert s == s[..i] + [s[i], CloserOf(s[i])] + s[i + 2..];
      CancelPair(Open([]), s[..i], s[i], s[i + 2..]);
      CleanRunBalanced(t);
    }
  }

  /** A line is properly nested exactly when it is neither corrupted nor
      incomplete: both scripts report nothing for it. */
  lemma BalancedIffClean(s: string)
    ensures Balanced(s) <==> Corruption(s) == "" && Remainder(s) == ""
  {
    if Balanced(s) {
      BalancedRunsClean([], s);
    }
    if Corruption(s) == "" && Remainder(s) == "" {
      assert |Reverse(Scanned(s).stack)| == 0;
      CleanRunBalanced(s);
    }
  }

  // ---------------------------------------------------------------------------
  // Completion

  /** `fix`: the closer of each unclosed opener, innermost first. */
  function Closers(openers: string): (r: string)
    requires AllOpeners(openers)
    ensures |r| == |openers|
    ensures forall i :: 0 <= i < |r| ==> IsCloser(r[i]) && Partner(r[i]) == openers[i]
  {
    if |openers| == 0 then [] else [CloserOf(openers[0])] + Closers(openers[1..])
  }

  lemma {:induction false} ClosersEmptyStack(st: string)
    requires AllOpeners(st)
    ensures AllOpeners(Reverse(st))
    ensures Run(Open(st), Closers(Reverse(st))) == Open([])
    decreases |st|
  {
    var r := Reverse(st);
    assert forall i :: 0 <= i < |r| ==> r[i] == st[|st| - 1 - i];
    if |st| > 0 {
      var top := st[|st| - 1];
      assert r == [top] + Reverse(st[..|st| - 1]);
      ClosersEmptyStack(st[..|st| - 1]);
      assert Closers(r) == [CloserOf(top)] + Closers(Reverse(st[..|st| - 1]));
      assert Step(Open(st), CloserOf(top)) == Open(st[..|st| - 1]);
    }
  }

  /** Appending the completion string to a line that is not corrupted makes it
      properly nested. */
  lemma CompletionCloses(s: string)
    requires Corruption(s) == ""
    ensures AllOpeners(Remainder(s))
    ensures Balanced(s + Closers(Remainder(s)))
  {
    RunShape(Open([]), s);
    var st := Scanned(s).stack;
    ClosersEmptyStack(st);
    RunAppend(Open([]), s, Closers(Reverse(st)));
    CleanRunBalanced(s + Closers(Remainder(s)));
  }

  // ---------------------------------------------------------------------------
  // Scores

  /** The syntax-error script's `val.get(bad, 0)`. */
  function ErrorScore(c: char): (n: nat)
    ensures n == 0 <==> !IsCloser(c)
  {
    match c
    case ')' => 3
    case ']' => 57
    case '}' => 1197
    case '>' => 25137
    case _ => 0
  }

  /** The syntax-error script's answer over its (right-stripped) lines: the sum
      of the scores of the corrupted ones. */
  function SyntaxScore(lines: seq<string>): (total: nat)
    ensures total <= 25137 * |lines|
  {
    if |lines| == 0 then 0
    else
      var bad := Corruption(RStrip(lines[|lines| - 1]));
      SyntaxScore(lines[..|lines| - 1]) + (if bad != "" then ErrorScore(bad[0]) else 0)
  }

  /** Only corrupted lines contribute, and the score adds up line by line. */
  lemma {:induction false} SyntaxScoreAppend(a: seq<string>, b: seq<string>)
    ensures SyntaxScore(a + b) == SyntaxScore(a) + SyntaxScore(b)
    decreases |b|
  {
    if |b| == 0 {
      assert a + b == a;
    } else {
      assert (a + b)[..|a + b| - 1] == a + b[..|b| - 1];
      SyntaxScoreAppend(a, b[..|b| - 1]);
    }
  }

  lemma SyntaxScoreOfBalanced(s: string)
    requires Balanced(RStrip(s))
    ensures SyntaxScore([s]) == 0
  {
    BalancedIffClean(RStrip(s));
    assert [s][..0] == [];
  }

  /** The completion script's `vals` table. */
  function OpenerValue(o: char): (v: nat)
    requires IsOpener(o)
    ensures 1 <= v <= 4
  {
    match o
    case '(' => 1
    case '[' => 2
    case '{' => 3
    case '<' => 4
  }

  /** `total *= 5; total += val` over the unclosed openers, innermost first. */
  function CompletionScore(rem: string): (total: nat)
    requires AllOpeners(rem)
  {
    if |rem| == 0 then 0
    else CompletionScore(rem[..|rem| - 1]) * 5 + OpenerValue(rem[|rem| - 1])
  }

  /** The score is a base-5 numeral with digits 1 to 4: zero only for nothing,
      and its last digit is the value of the last opener. */
  lemma {:induction false} CompletionScoreDigits(rem: string)
    requires AllOpeners(rem)
    ensures CompletionScore(rem) == 0 <==> rem == ""
    ensures |rem| > 0 ==> CompletionScore(rem) % 5 == OpenerValue(rem[|rem| - 1])
    ensures |rem| > 0 ==> CompletionScore(rem) / 5 == CompletionScore(rem[..|rem| - 1])
  {
    if |rem| > 0 {
      var n := |rem| - 1;
      assert AllOpeners(rem[..n]) by {
        assert forall i :: 0 <= i < n ==> rem[..n][i] == rem[i];
      }
      Base5Digit(CompletionScore(rem[..n]), OpenerValue(rem[n]));
    }
  }

  /** Appending a digit from 1 to 4 to a base-5 numeral. */
  lemma Base5Digit(k: nat, v: nat)
    requires 1 <= v <= 4
    ensures k * 5 + v != 0 && (k * 5 + v) % 5 == v && (k * 5 + v) / 5 == k
  {
  }

  lemma OpenerValueInjective(a: char, b: char)
    requires IsOpener(a) && IsOpener(b) && OpenerValue(a) == OpenerValue(b)
    ensures a == b
  {
  }

  /** Different remainders always get different scores. */
  lemma {:induction false} CompletionScoreInjective(a: string, b: string)
    requires AllOpeners(a) && AllOpeners(b)
    requires CompletionScore(a) == CompletionScore(b)
    ensures a == b
    decreases |a|
  {
    CompletionScoreDigits(a);
    CompletionScoreDigits(b);
    if |a| > 0 && |b| > 0 {
      OpenerValueInjective(a[|a| - 1], b[|b| - 1]);
      CompletionScoreInjective(a[..|a| - 1], b[..|b| - 1]);
      assert a == a[..|a| - 1] + [a[|a| - 1]];
      assert b == b[..|b| - 1] + [b[|b| - 1]];
    }
  }

  /** `totals`: the completion score of every incomplete (right-stripped) line, in order. */
  function CompletionTotals(lines: seq<string>): (totals: seq<nat>)
    ensures |totals| <= |lines|
    ensures forall i :: 0 <= i < |totals| ==> totals[i] > 0
  {
    if |lines| == 0 then []
    else
      var rem := Remainder(RStrip(lines[|lines| - 1]));
      CorruptionFacts(RStrip(lines[|lines| - 1]), "");
      CompletionScoreDigits(rem);
      CompletionTotals(lines[..|lines| - 1]) + (if rem != "" then [CompletionScore(rem)] else [])
  }

  /** `totals.sort(); totals[len(totals) // 2]`; an empty list raises IndexError. */
  function MiddleScore(totals: seq<int>): (m: Option<int>)
    ensures m.None? <==> |totals| == 0
  {
    if |totals| == 0 then None else Some(Sort(totals)[|totals| / 2])
  }

  function AtMost(m: int): int -> bool
  {
    x => x <= m
  }

  function AtLeast(m: int): int -> bool
  {
    x => x >= m
  }

  /** In a sorted list the element at index `k` has `k + 1` elements at most it ... */
  lemma SortedRankBelow(r: seq<int>, k: int)
    requires SortedAsc(r) && 0 <= k < |r|
    ensures CountWhere(r, AtMost(r[k])) >= k + 1
  {
    var lo, hi := r[..k + 1], r[k + 1..];
    assert r == lo + hi;
    forall i | 0 <= i < |lo| ensures AtMost(r[k])(lo[i]) {
      assert lo[i] == r[i];
    }
    CountWhereAppend(lo, hi, AtMost(r[k]));
    CountWhereAll(lo, AtMost(r[k]));
  }

  /** ... and `|r| - k` elements at least it. */
  lemma SortedRankAbove(r: seq<int>, k: int)
    requires SortedAsc(r) && 0 <= k < |r|
    ensures CountWhere(r, AtLeast(r[k])) >= |r| - k
  {
    var lo, hi := r[..k], r[k..];
    assert r == lo + hi;
    forall i | 0 <= i < |hi| ensures AtLeast(r[k])(hi[i]) {
      assert hi[i] == r[k + i];
    }
    CountWhereAppend(lo, hi, AtLeast(r[k]));
    CountWhereAll(hi, AtLeast(r[k]));
  }

  /** The middle score is a median: one of the totals, with more than half of
      them at most it and at least half of them at least it. */
  lemma MiddleScoreIsMedian(totals: seq<int>)
    requires |totals| > 0
    ensures MiddleScore(totals).value in totals
    ensures CountWhere(totals, AtMost(MiddleScore(totals).value)) >= |totals| / 2 + 1
    ensures CountWhere(totals, AtLeast(MiddleScore(totals).value)) >= |totals| - |totals| / 2
  {
    var r := Sort(totals);
    var k := |totals| / 2;
    assert r[k] in multiset(r);
    SortedRankBelow(r, k);
    SortedRankAbove(r, k);
    CountWherePermutation(totals, r, AtMost(r[k]));
    CountWherePermutation(totals, r, AtLeast(r[k]));
  }
}
