/** The token counter that every size decision of the chunker rests on
    (src/transit_scholar/layer2/util.py). */
module TokenCounter {
  import opened Prelude

  predicate IsWord(c: char) {
    'A' <= c <= 'Z' || 'a' <= c <= 'z' || '0' <= c <= '9'
  }

  predicate IsJoiner(c: char) { c == '\'' || c == '-' }

  predicate IsCjk(c: char) {
    '\U{4E00}' <= c <= '\U{9FFF}' || '\U{3040}' <= c <= '\U{30FF}'
  }

  /** Neither part of a word nor able to glue two word runs together. */
  predicate IsNeutral(c: char) { !IsWord(c) && !IsJoiner(c) }

  // ------------------------------------------------------------ the regular expression

  /** End of the run of word characters that starts at i. */
  function WordEnd(t: string, i: nat): (e: nat)
    requires i <= |t|
    ensures i <= e <= |t|
    ensures forall k :: i <= k < e ==> IsWord(t[k])
    ensures e < |t| ==> !IsWord(t[e])
    decreases |t| - i
  {
    if i < |t| && IsWord(t[i]) then WordEnd(t, i + 1) else i
  }

  /** End of the greedy match of `word(joiner word)*` that starts at i. */
  function MatchEnd(t: string, i: nat): (e: nat)
    requires i < |t| && IsWord(t[i])
    ensures i < e <= |t|
    decreases |t| - i
  {
    var e := WordEnd(t, i);
    if e + 1 < |t| && IsJoiner(t[e]) && IsWord(t[e + 1]) then MatchEnd(t, e + 1) else e
  }

  /** The non-overlapping leftmost matches at or after i, as (start, end) pairs. */
  function FindAll(t: string, i: nat): seq<(nat, nat)>
    requires i <= |t|
    decreases |t| - i
  {
    if i == |t| then []
    else if IsWord(t[i]) then [(i, MatchEnd(t, i))] + FindAll(t, MatchEnd(t, i))
    else FindAll(t, i + 1)
  }

  /** The character classes of the expression, by code point. */
  lemma ClassesExactly(c: char)
    ensures IsWord(c) <==> 48 <= c as int < 58 || 65 <= c as int < 91 || 97 <= c as int < 123
    ensures IsJoiner(c) <==> c as int == 39 || c as int == 45
    ensures IsCjk(c) <==> 0x4E00 <= c as int < 0xA000 || 0x3040 <= c as int < 0x3100
  {
  }

  /** One word: runs of word characters with single joiners between them. */
  predicate WordShaped(s: string) {
    && s != "" && IsWord(s[0]) && IsWord(s[|s| - 1])
    && (forall k :: 0 <= k < |s| ==> IsWord(s[k]) || IsJoiner(s[k]))
    && forall k :: 0 < k < |s| ==> IsWord(s[k - 1]) || IsWord(s[k])
  }

  lemma RunShaped(s: string)
    requires s != "" && forall k :: 0 <= k < |s| ==> IsWord(s[k])
    ensures WordShaped(s)
  {
    hide IsWord, IsJoiner;
  }

  lemma JoinedShaped(x: string, c: char, y: string)
    requires WordShaped(x) && IsJoiner(c) && WordShaped(y)
    ensures WordShaped(x + [c] + y)
  {
    hide IsWord, IsJoiner;
    var s, n := x + [c] + y, |x|;
    forall k | 0 <= k < |s| ensures IsWord(s[k]) || IsJoiner(s[k]) {
      if k < n { assert s[k] == x[k]; } else if k > n { assert s[k] == y[k - n - 1]; }
    }
    forall k | 0 < k < |s| ensures IsWord(s[k - 1]) || IsWord(s[k]) {
      if k < n {
        assert s[k] == x[k] && s[k - 1] == x[k - 1];
      } else if k == n {
        assert s[k - 1] == x[n - 1];
      } else if k == n + 1 {
        assert s[k] == y[0];
      } else {
        assert s[k] == y[k - n - 1] && s[k - 1] == y[k - n - 2];
      }
    }
  }

  /** After a run of word characters a longer word goes on with a joiner and another word. */
  lemma PastRun(t: string, i: nat, e: nat, k: nat)
    requires i < e < k <= |t| && !IsWord(t[e]) && WordShaped(t[i..k])
    ensures IsJoiner(t[e]) && e + 1 < k && IsWord(t[e + 1])
  {
    var s := t[i..k];
    assert s[e - i] == t[e] && s[|s| - 1] == t[k - 1];
    if e + 1 < k { assert s[e + 1 - i] == t[e + 1]; }
  }

  /** A match is the longest word that starts there. */
  lemma {:induction false} MatchIsLongest(t: string, i: nat)
    requires i < |t| && IsWord(t[i])
    ensures WordShaped(t[i..MatchEnd(t, i)])
    ensures forall k :: MatchEnd(t, i) < k <= |t| ==> !WordShaped(t[i..k])
    decreases |t| - i
  {
    hide WordShaped, IsWord, IsJoiner;
    var e, end := WordEnd(t, i), MatchEnd(t, i);
    RunShaped(t[i..e]);
    if e + 1 < |t| && IsJoiner(t[e]) && IsWord(t[e + 1]) {
      MatchIsLongest(t, e + 1);
      JoinedShaped(t[i..e], t[e], t[e + 1..end]);
      assert t[i..end] == t[i..e] + [t[e]] + t[e + 1..end];
      forall k | end < k <= |t| ensures !WordShaped(t[i..k]) {
        if WordShaped(t[i..k]) { WordTail(t, i, e + 1, k); }
      }
    } else {
      forall k | end < k <= |t| ensures !WordShaped(t[i..k]) {
        if WordShaped(t[i..k]) { PastRun(t, i, e, k); }
      }
    }
  }

  lemma WordTail(t: string, i: nat, j: nat, k: nat)
    requires i <= j < k <= |t| && WordShaped(t[i..k]) && IsWord(t[j])
    ensures WordShaped(t[j..k])
  {
    var all, rest := t[i..k], t[j..k];
    forall n | 0 <= n < |rest| ensures IsWord(rest[n]) || IsJoiner(rest[n]) { assert rest[n] == all[n + (j - i)]; }
    forall n | 0 < n < |rest| ensures IsWord(rest[n - 1]) || IsWord(rest[n]) {
      assert rest[n] == all[n + (j - i)] && rest[n - 1] == all[n - 1 + (j - i)];
    }
  }

  /** A longest word. */
  predicate IsMatch(t: string, m: (nat, nat)) {
    && m.0 < m.1 <= |t| && WordShaped(t[m.0..m.1])
    && forall e :: m.1 < e <= |t| ==> !WordShaped(t[m.0..e])
  }

  predicate Within(ms: seq<(nat, nat)>, c: nat) { exists k :: 0 <= k < |ms| && ms[k].0 <= c < ms[k].1 }

  predicate InOrder(ms: seq<(nat, nat)>) { forall k, l :: 0 <= k < l < |ms| ==> ms[k].1 <= ms[l].0 }

  lemma OrderedCons(m: (nat, nat), rest: seq<(nat, nat)>)
    requires InOrder(rest) && forall k :: 0 <= k < |rest| ==> m.1 <= rest[k].0
    ensures InOrder([m] + rest)
  {
    var ms := [m] + rest;
    forall k, l | 0 <= k < l < |ms| ensures ms[k].1 <= ms[l].0 {
      assert ms[l] == rest[l - 1];
      if k > 0 { assert ms[k] == rest[k - 1]; }
    }
  }

  /** The matches are longest words in order, and every word character lies in one of them. */
  lemma {:induction false} FindAllIsLeftmost(t: string, i: nat)
    requires i <= |t|
    ensures var ms := FindAll(t, i);
      && (forall k :: 0 <= k < |ms| ==> i <= ms[k].0 && IsMatch(t, ms[k]))
      && InOrder(ms)
      && forall c :: i <= c < |t| && IsWord(t[c]) ==> Within(ms, c)
    decreases |t| - i
  {
    hide WordShaped, IsWord, MatchEnd;
    var ms := FindAll(t, i);
    if i < |t| && IsWord(t[i]) {
      MatchIsLongest(t, i);
      var e := MatchEnd(t, i);
      FindAllIsLeftmost(t, e);
      var rest := FindAll(t, e);
      assert ms == [(i, e)] + rest;
      OrderedCons((i, e), rest);
      forall c | i <= c < |t| && IsWord(t[c]) ensures Within(ms, c) {
        if c < e {
          assert ms[0].0 <= c < ms[0].1;
        } else {
          assert Within(rest, c);
          var k :| 0 <= k < |rest| && rest[k].0 <= c < rest[k].1;
          assert ms[k + 1] == rest[k];
        }
      }
    } else if i < |t| {
      FindAllIsLeftmost(t, i + 1);
      assert ms == FindAll(t, i + 1);
    }
  }

  // ------------------------------------------------------------ the local reading

  /** A match starts at i: a word character that neither continues a run nor is glued to one. */
  predicate WordStart(t: string, i: nat)
    requires i < |t|
  {
    && IsWord(t[i])
    && !(i >= 1 && IsWord(t[i - 1]))
    && !(i >= 2 && IsJoiner(t[i - 1]) && IsWord(t[i - 2]))
  }

  predicate TokenAt(t: string, i: nat)
    requires i < |t|
  {
    WordStart(t, i) || IsCjk(t[i])
  }

  /** Number of tokens that start before position n. */
  function TokensBelow(t: string, n: nat): nat
    requires n <= |t|
  {
    if n == 0 then 0 else TokensBelow(t, n - 1) + (if TokenAt(t, n - 1) then 1 else 0)
  }

  function Tokens(t: string): nat { TokensBelow(t, |t|) }

  // ------------------------------------------------------------ agreement of the two readings

  function WordStarts(t: string, lo: nat, hi: nat): nat
    requires lo <= hi <= |t|
    decreases hi - lo
  {
    if lo == hi then 0 else (if WordStart(t, lo) then 1 else 0) + WordStarts(t, lo + 1, hi)
  }

  /** Nothing to the left of i reaches over i. */
  predicate ScanPoint(t: string, i: nat)
    requires i <= |t|
  {
    && (i < |t| && IsWord(t[i]) ==> WordStart(t, i))
    && (i + 1 < |t| && IsJoiner(t[i]) && IsWord(t[i + 1]) ==> WordStart(t, i + 1))
  }

  lemma {:induction false} WordHasNoInnerStart(t: string, i: nat, e: nat)
    requires 0 < i <= e <= |t|
    requires IsWord(t[i - 1]) && forall k :: i <= k < e ==> IsWord(t[k])
    ensures WordStarts(t, i, e) == 0
    decreases e - i
  {
    if i < e { WordHasNoInnerStart(t, i + 1, e); }
  }

  lemma {:induction false} WordStartsSplit(t: string, lo: nat, mid: nat, hi: nat)
    requires lo <= mid <= hi <= |t|
    ensures WordStarts(t, lo, hi) == WordStarts(t, lo, mid) + WordStarts(t, mid, hi)
    decreases mid - lo
  {
    if lo < mid { WordStartsSplit(t, lo + 1, mid, hi); }
  }

  lemma {:induction false} MatchHasOneStart(t: string, i: nat)
    requires i < |t| && IsWord(t[i])
    ensures WordStarts(t, i + 1, MatchEnd(t, i)) == 0
    ensures ScanPoint(t, MatchEnd(t, i))
    decreases |t| - i
  {
    var e := WordEnd(t, i);
    WordHasNoInnerStart(t, i + 1, e);
    if e + 1 < |t| && IsJoiner(t[e]) && IsWord(t[e + 1]) {
      MatchHasOneStart(t, e + 1);
      WordStartsSplit(t, i + 1, e, MatchEnd(t, i));
      assert WordStarts(t, e, MatchEnd(t, i)) == WordStarts(t, e + 1, MatchEnd(t, i));
      assert !WordStart(t, e + 1);
    }
  }

  lemma {:induction false} FindAllCountsStarts(t: string, i: nat)
    requires i <= |t| && ScanPoint(t, i)
    ensures |FindAll(t, i)| == WordStarts(t, i, |t|)
    decreases |t| - i
  {
    if i < |t| {
      if IsWord(t[i]) {
        MatchHasOneStart(t, i);
        FindAllCountsStarts(t, MatchEnd(t, i));
        WordStartsSplit(t, i + 1, MatchEnd(t, i), |t|);
      } else {
        FindAllCountsStarts(t, i + 1);
      }
    }
  }

  function CjkBelow(t: string, n: nat): nat
    requires n <= |t|
  {
    if n == 0 then 0 else CjkBelow(t, n - 1) + (if IsCjk(t[n - 1]) then 1 else 0)
  }

  lemma {:induction false} TokensBelowSplits(t: string, n: nat)
    requires n <= |t|
    ensures TokensBelow(t, n) == WordStarts(t, 0, n) + CjkBelow(t, n)
  {
    if n > 0 {
      TokensBelowSplits(t, n - 1);
      WordStartsSplit(t, 0, n - 1, n);
    }
  }

  /** `count_tokens`: the matches of the word expression, plus one for each CJK character. */
  method CountTokens(t: string) returns (tokens: nat)
    ensures tokens == Tokens(t)
  {
    FindAllCountsStarts(t, 0);
    TokensBelowSplits(t, |t|);
    tokens := |FindAll(t, 0)|;
    for k := 0 to |t|
      invariant tokens == |FindAll(t, 0)| + CjkBelow(t, k)
    {
      if IsCjk(t[k]) { tokens := tokens + 1; }
    }
  }

  // ------------------------------------------------------------ laws of the counter

  lemma {:induction false} TokensBelowIsPrefix(t: string, n: nat, m: nat)
    requires m <= n <= |t|
    ensures TokensBelow(t, m) == TokensBelow(t[..n], m)
    decreases m
  {
    if m > 0 { TokensBelowIsPrefix(t, n, m - 1); }
  }

  lemma {:induction false} TokensBelowGrows(t: string, n: nat, m: nat)
    requires n <= m <= |t|
    ensures TokensBelow(t, n) <= TokensBelow(t, m) <= TokensBelow(t, n) + (m - n)
    decreases m - n
  {
    if n < m { TokensBelowGrows(t, n, m - 1); }
  }

  /** Longer prefixes never have fewer tokens. */
  lemma PrefixMonotone(t: string, n: nat, m: nat)
    requires n <= m <= |t|
    ensures Tokens(t[..n]) <= Tokens(t[..m]) <= Tokens(t)
  {
    TokensBelowIsPrefix(t, n, n);
    TokensBelowIsPrefix(t, m, m);
    TokensBelowGrows(t, n, m);
    TokensBelowGrows(t, m, |t|);
  }

  /** A text never has more tokens than characters. */
  lemma AtMostLength(t: string)
    ensures Tokens(t) <= |t|
  {
    TokensBelowGrows(t, 0, |t|);
  }

  /** What the cut between a and b can hide: at most the first token of b. */
  predicate Glued(a: string, b: string) {
    || (|a| > 0 && |b| > 0 && IsWord(a[|a| - 1]) && IsWord(b[0]))
    || (|a| > 1 && |b| > 0 && IsJoiner(a[|a| - 1]) && IsWord(a[|a| - 2]) && IsWord(b[0]))
    || (|a| > 0 && |b| > 1 && IsWord(a[|a| - 1]) && IsJoiner(b[0]) && IsWord(b[1]))
  }

  lemma {:induction false} ConcatBelow(a: string, b: string, j: nat)
    requires j <= |b|
    ensures TokensBelow(a + b, |a| + j) <= Tokens(a) + TokensBelow(b, j) <= TokensBelow(a + b, |a| + j) + 1
    ensures !Glued(a, b) ==> TokensBelow(a + b, |a| + j) == Tokens(a) + TokensBelow(b, j)
    ensures j == 0 || (j == 1 && !(|b| > 0 && IsWord(b[0]))) ==>
      TokensBelow(a + b, |a| + j) == Tokens(a) + TokensBelow(b, j)
  {
    var t := a + b;
    if j == 0 {
      assert t[..|a|] == a;
      TokensBelowIsPrefix(t, |a|, |a|);
    } else {
      ConcatBelow(a, b, j - 1);
      assert t[|a| + j - 1] == b[j - 1];
      assert j > 1 ==> t[|a| + j - 2] == b[j - 2];
      assert j > 2 ==> t[|a| + j - 3] == b[j - 3];
      assert |a| > 0 ==> t[|a| - 1] == a[|a| - 1];
      assert |a| > 1 ==> t[|a| - 2] == a[|a| - 2];
      if j > 2 {
        assert TokenAt(t, |a| + j - 1) == TokenAt(b, j - 1);
      } else if j == 2 && IsWord(b[0]) {
        assert TokenAt(t, |a| + 1) == TokenAt(b, 1);
      }
    }
  }

  /** Counting the parts of a cut text counts every token of the whole, and at most one twice. */
  lemma CutBound(a: string, b: string)
    ensures Tokens(a + b) <= Tokens(a) + Tokens(b) <= Tokens(a + b) + 1
  {
    ConcatBelow(a, b, |b|);
  }

  /** Exactly additive when the cut touches a character that is neither word nor joiner. */
  lemma CutExact(a: string, b: string)
    requires a == "" || b == "" || IsNeutral(a[|a| - 1]) || IsNeutral(b[0])
    ensures Tokens(a + b) == Tokens(a) + Tokens(b)
  {
    ConcatBelow(a, b, |b|);
  }

  lemma {:induction false} NeutralBelow(s: string, n: nat)
    requires n <= |s| && forall c <- s :: IsNeutral(c) && !IsCjk(c)
    ensures TokensBelow(s, n) == 0
  {
    if n > 0 {
      assert s[n - 1] in s;
      NeutralBelow(s, n - 1);
    }
  }

  /** A separator of neutral characters costs nothing and separates exactly. */
  lemma AcrossSeparator(a: string, sep: string, b: string)
    requires sep != "" && forall c <- sep :: IsNeutral(c) && !IsCjk(c)
    ensures Tokens(a + sep + b) == Tokens(a) + Tokens(b)
  {
    NeutralBelow(sep, |sep|);
    CutExact(a, sep);
    CutExact(a + sep, b);
  }

  /** A slice never has more tokens than the whole text. */
  lemma SliceAtMost(t: string, i: nat, j: nat)
    requires i <= j <= |t|
    ensures Tokens(t[i..j]) <= Tokens(t)
  {
    var a, b := t[..i], t[i..j];
    assert t[..j] == a + b;
    PrefixMonotone(t, j, j);
    ConcatBelow(a, b, |b|);
    if Glued(a, b) {
      var k := if IsWord(a[|a| - 1]) then |a| - 1 else |a| - 2;
      WordMeansToken(a, k);
    }
  }

  lemma {:induction false} WordMeansToken(t: string, k: nat)
    requires k < |t| && IsWord(t[k])
    ensures Tokens(t) >= 1
    decreases k
  {
    if WordStart(t, k) {
      TokensBelowGrows(t, k + 1, |t|);
    } else if IsWord(t[k - 1]) {
      WordMeansToken(t, k - 1);
    } else {
      WordMeansToken(t, k - 2);
    }
  }

  function SumTokens(parts: seq<string>): nat {
    if parts == [] then 0 else Tokens(parts[0]) + SumTokens(parts[1..])
  }

  lemma {:induction false} SumTokensAppend(a: seq<string>, b: seq<string>)
    ensures SumTokens(a + b) == SumTokens(a) + SumTokens(b)
  {
    if a == [] {
      assert a + b == b;
    } else {
      assert (a + b)[1..] == a[1..] + b;
      SumTokensAppend(a[1..], b);
    }
  }

  /** Joined parts cost exactly the sum of the parts. */
  lemma {:induction false} JoinTokens(sep: string, parts: seq<string>)
    requires sep != "" && forall c <- sep :: IsNeutral(c) && !IsCjk(c)
    ensures Tokens(Join(sep, parts)) == SumTokens(parts)
  {
    if |parts| > 1 {
      JoinTokens(sep, parts[1..]);
      AcrossSeparator(parts[0], sep, Join(sep, parts[1..]));
    } else if |parts| == 1 {
      assert SumTokens(parts) == Tokens(parts[0]) + SumTokens(parts[1..]);
    }
  }
}
