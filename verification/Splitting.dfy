/** Splitting an overlong text into character ranges
    (`_split_by_sentence_then_tokens`, `_split_by_token_proportion`). */
module Splitting {
  import opened Prelude
  import opened TokenCounter

  datatype Span = Span(start: nat, end: nat)

  function Slice(t: string, s: Span): string
    requires s.start <= s.end <= |t|
  {
    t[s.start..s.end]
  }

  /** The spans follow each other without gap or overlap, none is empty, from lo to hi. */
  predicate Covers(spans: seq<Span>, lo: nat, hi: nat) {
    if spans == [] then lo == hi
    else spans[0].start == lo && lo < spans[0].end <= hi && Covers(spans[1..], spans[0].end, hi)
  }

  lemma {:induction false} CoversAppend(a: seq<Span>, b: seq<Span>, lo: nat, mid: nat, hi: nat)
    requires Covers(a, lo, mid) && Covers(b, mid, hi)
    ensures Covers(a + b, lo, hi)
  {
    CoversOrder(b, mid, hi);
    if a == [] {
      assert a + b == b;
    } else {
      CoversOrder(a[1..], a[0].end, mid);
      assert (a + b)[1..] == a[1..] + b;
      CoversAppend(a[1..], b, a[0].end, mid, hi);
    }
  }

  lemma {:induction false} CoversOrder(spans: seq<Span>, lo: nat, hi: nat)
    requires Covers(spans, lo, hi)
    ensures lo <= hi
    ensures forall s <- spans :: lo <= s.start < s.end <= hi
  {
    if spans != [] {
      CoversOrder(spans[1..], spans[0].end, hi);
      forall s | s in spans ensures lo <= s.start < s.end <= hi {
        assert s == spans[0] || s in spans[1..];
      }
    }
  }

  /** What covering means position by position: every character lies in exactly one span. */
  lemma {:induction false} CoversOnce(spans: seq<Span>, lo: nat, hi: nat, c: nat)
    requires Covers(spans, lo, hi) && lo <= c < hi
    ensures exists i :: 0 <= i < |spans| && spans[i].start <= c < spans[i].end
    ensures forall i, j | 0 <= i < |spans| && 0 <= j < |spans| ::
      (spans[i].start <= c < spans[i].end && spans[j].start <= c < spans[j].end ==> i == j)
  {
    var rest := spans[1..];
    CoversOrder(rest, spans[0].end, hi);
    forall i | 0 < i < |spans| ensures spans[0].end <= spans[i].start && spans[i] == rest[i - 1] {
      assert spans[i] == rest[i - 1];
    }
    if c < spans[0].end {
      assert spans[0].start <= c < spans[0].end;
    } else {
      CoversOnce(rest, spans[0].end, hi, c);
      var k :| 0 <= k < |rest| && rest[k].start <= c < rest[k].end;
      assert spans[k + 1] == rest[k];
      forall i, j | 0 <= i < |spans| && 0 <= j < |spans| && spans[i].start <= c < spans[i].end
        && spans[j].start <= c < spans[j].end
        ensures i == j
      {
        assert i > 0 && j > 0;
        assert rest[i - 1] == spans[i] && rest[j - 1] == spans[j];
      }
    }
  }

  // ------------------------------------------------------------ sentences

  predicate IsTerminator(c: char) { c == '.' || c == '!' || c == '?' }

  function SkipGaps(t: string, i: nat): (e: nat)
    requires i <= |t|
    ensures i <= e <= |t|
    decreases |t| - i
  {
    if i < |t| && (t[i] == ' ' || t[i] == '\n') then SkipGaps(t, i + 1) else i
  }

  /** The pieces of t from `start` on, when the scan has reached `index`. */
  function SentencesFrom(t: string, start: nat, index: nat): seq<Span>
    requires start <= index <= |t|
    decreases |t| - index
  {
    if index == |t| then
      if start < |t| then [Span(start, |t|)] else []
    else if IsTerminator(t[index]) then
      var end := SkipGaps(t, index + 1);
      [Span(start, end)] + SentencesFrom(t, end, end)
    else
      SentencesFrom(t, start, index + 1)
  }

  function Sentences(t: string): seq<Span> {
    if t == "" then [Span(0, 0)] else SentencesFrom(t, 0, 0)
  }

  lemma {:induction false} SentencesFromCover(t: string, start: nat, index: nat)
    requires start <= index <= |t|
    ensures Covers(SentencesFrom(t, start, index), start, |t|)
    decreases |t| - index
  {
    if index < |t| {
      if IsTerminator(t[index]) {
        var end := SkipGaps(t, index + 1);
        SentencesFromCover(t, end, end);
        assert SentencesFrom(t, start, index)[1..] == SentencesFrom(t, end, end);
      } else {
        SentencesFromCover(t, start, index + 1);
      }
    }
  }

  // ------------------------------------------------------------ greedy merging of sentences

  /** Fragments from piece i on, when `cur` with `curTokens` counted tokens is still open. */
  function Merge(t: string, pieces: seq<Span>, i: nat, cur: Span, curTokens: nat, maxTokens: nat): seq<Span>
    requires i <= |pieces| && forall p <- pieces :: p.start <= p.end <= |t|
    decreases |pieces| - i
  {
    if i == |pieces| then [cur]
    else
      var n := Tokens(Slice(t, pieces[i]));
      if curTokens + n > maxTokens then [cur] + Merge(t, pieces, i + 1, pieces[i], n, maxTokens)
      else Merge(t, pieces, i + 1, Span(cur.start, pieces[i].end), curTokens + n, maxTokens)
  }

  /** A fragment either fits or is a single sentence. */
  predicate FitsOrSentence(t: string, pieces: seq<Span>, s: Span, maxTokens: nat) {
    s.start <= s.end <= |t| && (Tokens(Slice(t, s)) <= maxTokens || s in pieces)
  }

  lemma {:induction false} MergeKeeps(t: string, pieces: seq<Span>, i: nat, cur: Span, curTokens: nat, maxTokens: nat)
    requires i <= |pieces| && forall p <- pieces :: p.start <= p.end <= |t|
    requires cur.start < cur.end <= |t| && Covers(pieces[i..], cur.end, |t|)
    requires Tokens(Slice(t, cur)) <= curTokens && (curTokens <= maxTokens || cur in pieces)
    ensures var fragments := Merge(t, pieces, i, cur, curTokens, maxTokens);
      Covers(fragments, cur.start, |t|) && forall f <- fragments :: FitsOrSentence(t, pieces, f, maxTokens)
    decreases |pieces| - i
  {
    var fragments := Merge(t, pieces, i, cur, curTokens, maxTokens);
    if i < |pieces| {
      var p := pieces[i];
      var n := Tokens(Slice(t, p));
      assert pieces[i..][0] == p && pieces[i..][1..] == pieces[i + 1..];
      if curTokens + n > maxTokens {
        MergeKeeps(t, pieces, i + 1, p, n, maxTokens);
        var rest := Merge(t, pieces, i + 1, p, n, maxTokens);
        assert fragments[1..] == rest;
        CoversOrder(rest, p.start, |t|);
        assert FitsOrSentence(t, pieces, cur, maxTokens);
      } else {
        assert t[cur.start..p.end] == t[cur.start..cur.end] + t[p.start..p.end];
        CutBound(t[cur.start..cur.end], t[p.start..p.end]);
        MergeKeeps(t, pieces, i + 1, Span(cur.start, p.end), curTokens + n, maxTokens);
      }
    } else {
      assert fragments == [cur];
    }
  }

  function Fragments(t: string, maxTokens: nat): (r: seq<Span>)
  {
    var pieces := Sentences(t);
    SentencesInRange(t);
    Merge(t, pieces, 1, pieces[0], Tokens(Slice(t, pieces[0])), maxTokens)
  }

  lemma SentencesInRange(t: string)
    ensures |Sentences(t)| > 0 && forall p <- Sentences(t) :: p.start <= p.end <= |t|
    ensures t != "" ==> Covers(Sentences(t), 0, |t|)
  {
    if t != "" {
      SentencesFromCover(t, 0, 0);
      CoversOrder(Sentences(t), 0, |t|);
    }
  }

  lemma FragmentsKeep(t: string, maxTokens: nat)
    ensures t == "" ==> Fragments(t, maxTokens) == [Span(0, 0)]
    ensures t != "" ==> Covers(Fragments(t, maxTokens), 0, |t|)
    ensures forall f <- Fragments(t, maxTokens) :: FitsOrSentence(t, Sentences(t), f, maxTokens)
    ensures forall f <- Fragments(t, maxTokens) :: f.start <= f.end <= |t|
  {
    SentencesInRange(t);
    var pieces := Sentences(t);
    if t != "" {
      assert Covers(pieces[1..], pieces[0].end, |t|);
      MergeKeeps(t, pieces, 1, pieces[0], Tokens(Slice(t, pieces[0])), maxTokens);
    }
    forall f | f in Fragments(t, maxTokens) ensures f.start <= f.end <= |t| {
      assert FitsOrSentence(t, Sentences(t), f, maxTokens);
    }
  }

  // ------------------------------------------------------------ proportional splitting

  /** Ranges of parts part..parts-1 when the first still open position is pos. */
  function Parts(pos: nat, end: nat, part: nat, parts: nat, size: nat): seq<Span>
    requires part < parts
    decreases parts - part
  {
    if part == parts - 1 then [Span(pos, end)]
    else
      var next := Min(end, pos + size);
      [Span(pos, next)] + Parts(next, end, part + 1, parts, size)
  }

  function PartCount(t: string, s: Span, maxTokens: nat): (r: nat)
    requires s.start <= s.end <= |t| && maxTokens >= 1
    ensures r >= 1
  {
    Max(1, (Tokens(Slice(t, s)) + maxTokens - 1) / maxTokens)
  }

  function Proportional(t: string, s: Span, maxTokens: nat): seq<Span>
    requires s.start <= s.end <= |t| && maxTokens >= 1
  {
    var parts := PartCount(t, s, maxTokens);
    Parts(s.start, s.end, 0, parts, Max(1, (s.end - s.start) / parts))
  }

  lemma OneMoreTimes(m: nat, size: nat)
    ensures (m + 1) * size == m * size + size >= size
  {
  }

  lemma {:induction false} PartsCover(pos: nat, end: nat, part: nat, parts: nat, size: nat)
    requires part < parts && size >= 1 && pos + (parts - part) * size <= end
    ensures Covers(Parts(pos, end, part, parts, size), pos, end)
    decreases parts - part
  {
    var m: nat := parts - part - 1;
    OneMoreTimes(m, size);
    if m > 0 {
      assert parts - (part + 1) == m && parts - part == m + 1;
      PartsCover(pos + size, end, part + 1, parts, size);
      assert Parts(pos, end, part, parts, size)[1..] == Parts(pos + size, end, part + 1, parts, size);
    }
  }

  lemma CeilingAtMost(a: nat, b: nat)
    requires b >= 1 && a >= 1
    ensures 1 <= (a + b - 1) / b <= a
  {
    assert a * b >= a + b - 1 by { assert (a - 1) * (b - 1) >= 0; }
  }

  lemma AtLeastOnePart(t: string, s: Span, maxTokens: nat)
    requires s.start < s.end <= |t| && maxTokens >= 1
    ensures 1 <= PartCount(t, s, maxTokens) <= s.end - s.start
  {
    AtMostLength(Slice(t, s));
    if Tokens(Slice(t, s)) >= 1 { CeilingAtMost(Tokens(Slice(t, s)), maxTokens); }
  }

  lemma EqualShare(len: nat, parts: nat)
    requires 1 <= parts <= len
    ensures len / parts >= 1 && parts * (len / parts) <= len
  {
  }

  /** There are never more parts than characters, so no part is empty. */
  lemma ProportionalCovers(t: string, s: Span, maxTokens: nat)
    requires s.start < s.end <= |t| && maxTokens >= 1
    ensures Covers(Proportional(t, s, maxTokens), s.start, s.end)
  {
    hide PartCount;
    var parts := PartCount(t, s, maxTokens);
    AtLeastOnePart(t, s, maxTokens);
    EqualShare(s.end - s.start, parts);
    PartsCover(s.start, s.end, 0, parts, (s.end - s.start) / parts);
  }

  // ------------------------------------------------------------ the whole splitter

  function Refine(t: string, f: Span, maxTokens: nat): seq<Span>
    requires f.start <= f.end <= |t| && maxTokens >= 1
  {
    if Tokens(Slice(t, f)) <= maxTokens || f.end - f.start <= 1 then [f] else Proportional(t, f, maxTokens)
  }

  function RefineAll(t: string, fragments: seq<Span>, maxTokens: nat): seq<Span>
    requires maxTokens >= 1 && forall f <- fragments :: f.start <= f.end <= |t|
  {
    if fragments == [] then [] else Refine(t, fragments[0], maxTokens) + RefineAll(t, fragments[1..], maxTokens)
  }

  function SplitText(t: string, maxTokens: nat): seq<Span>
    requires maxTokens >= 1
  {
    FragmentsKeep(t, maxTokens);
    RefineAll(t, Fragments(t, maxTokens), maxTokens)
  }

  /** s lies inside one sentence that alone exceeds the limit. */
  predicate InsideLongSentence(t: string, pieces: seq<Span>, s: Span, maxTokens: nat) {
    exists p <- pieces :: p.start <= s.start <= s.end <= p.end <= |t| && Tokens(Slice(t, p)) > maxTokens
  }

  predicate FitsOrLongSentence(t: string, s: Span, maxTokens: nat) {
    && s.start <= s.end <= |t|
    && (Tokens(Slice(t, s)) <= maxTokens || InsideLongSentence(t, Sentences(t), s, maxTokens))
  }

  lemma RefineKeeps(t: string, f: Span, maxTokens: nat)
    requires maxTokens >= 1 && f.start < f.end <= |t|
    requires FitsOrSentence(t, Sentences(t), f, maxTokens)
    ensures Covers(Refine(t, f, maxTokens), f.start, f.end)
    ensures forall s <- Refine(t, f, maxTokens) :: FitsOrLongSentence(t, s, maxTokens)
  {
    AtMostLength(Slice(t, f));
    if Tokens(Slice(t, f)) > maxTokens {
      ProportionalCovers(t, f, maxTokens);
      CoversOrder(Proportional(t, f, maxTokens), f.start, f.end);
      forall s | s in Proportional(t, f, maxTokens) ensures FitsOrLongSentence(t, s, maxTokens) {
        assert f in Sentences(t);
      }
    }
  }

  lemma {:induction false} RefineAllKeeps(t: string, fragments: seq<Span>, lo: nat, maxTokens: nat)
    requires maxTokens >= 1 && Covers(fragments, lo, |t|)
    requires forall f <- fragments :: f.start <= f.end <= |t|
    requires forall f <- fragments :: FitsOrSentence(t, Sentences(t), f, maxTokens)
    ensures Covers(RefineAll(t, fragments, maxTokens), lo, |t|)
    ensures forall s <- RefineAll(t, fragments, maxTokens) :: FitsOrLongSentence(t, s, maxTokens)
  {
    if fragments != [] {
      var f := fragments[0];
      var rest := RefineAll(t, fragments[1..], maxTokens);
      RefineAllKeeps(t, fragments[1..], f.end, maxTokens);
      RefineKeeps(t, f, maxTokens);
      CoversAppend(Refine(t, f, maxTokens), rest, lo, f.end, |t|);
      forall s | s in RefineAll(t, fragments, maxTokens) ensures FitsOrLongSentence(t, s, maxTokens) {
        assert s in Refine(t, f, maxTokens) || s in rest;
      }
    }
  }

  /** The ranges cover the text exactly once, in order, none empty; a range above the limit lies
      inside a single sentence that alone exceeds it. An empty text gives one empty range. */
  lemma SplitTextSound(t: string, maxTokens: nat)
    requires maxTokens >= 1
    ensures t == "" ==> SplitText(t, maxTokens) == [Span(0, 0)]
    ensures t != "" ==> Covers(SplitText(t, maxTokens), 0, |t|)
    ensures forall s <- SplitText(t, maxTokens) :: FitsOrLongSentence(t, s, maxTokens)
  {
    FragmentsKeep(t, maxTokens);
    if t != "" {
      RefineAllKeeps(t, Fragments(t, maxTokens), 0, maxTokens);
    } else {
      var all := [Span(0, 0)];
      assert all[1..] == [];
      assert RefineAll(t, all, maxTokens) == Refine(t, all[0], maxTokens) + RefineAll(t, all[1..], maxTokens);
      assert Tokens(Slice(t, Span(0, 0))) == 0;
    }
  }

  /** When no sentence exceeds the limit, no range does, and every cut is at a sentence end. */
  lemma ShortSentencesFit(t: string, maxTokens: nat)
    requires maxTokens >= 1
    requires forall p <- Sentences(t) :: p.start <= p.end <= |t| && Tokens(Slice(t, p)) <= maxTokens
    ensures SplitText(t, maxTokens) == Fragments(t, maxTokens)
    ensures forall s <- SplitText(t, maxTokens) :: s.start <= s.end <= |t| && Tokens(Slice(t, s)) <= maxTokens
  {
    SplitTextSound(t, maxTokens);
    FragmentsKeep(t, maxTokens);
    RefineAllIdentity(t, Fragments(t, maxTokens), maxTokens);
  }

  lemma {:induction false} RefineAllIdentity(t: string, fragments: seq<Span>, maxTokens: nat)
    requires maxTokens >= 1
    requires forall f <- fragments :: f.start <= f.end <= |t| && Tokens(Slice(t, f)) <= maxTokens
    ensures RefineAll(t, fragments, maxTokens) == fragments
  {
    if fragments != [] { RefineAllIdentity(t, fragments[1..], maxTokens); }
  }

  // ------------------------------------------------------------ exactly when the limit is kept

  predicate SpansFit(t: string, spans: seq<Span>, maxTokens: nat) {
    forall i :: 0 <= i < |spans| ==> spans[i].start <= spans[i].end <= |t| && Tokens(Slice(t, spans[i])) <= maxTokens
  }

  /** Window k of s cut into equal parts, the last of which takes what division leaves over. */
  function Window(s: Span, parts: nat, k: nat): Span
    requires s.start <= s.end && k < parts <= s.end - s.start
  {
    var size := (s.end - s.start) / parts;
    WindowInside(s, parts, k);
    Span(s.start + k * size, if k == parts - 1 then s.end else s.start + (k + 1) * size)
  }

  lemma WindowInside(s: Span, parts: nat, k: nat)
    requires s.start <= s.end && k < parts <= s.end - s.start
    ensures var size := (s.end - s.start) / parts;
      size >= 1 && 0 <= k * size <= (k + 1) * size <= parts * size <= s.end - s.start
  {
    var len := s.end - s.start;
    EqualShare(len, parts);
    MoreTimes(0, k, len / parts);
    MoreTimes(k, k + 1, len / parts);
    MoreTimes(k + 1, parts, len / parts);
  }

  lemma MoreTimes(a: nat, b: nat, size: nat)
    requires a <= b
    ensures a * size <= b * size
  {
    assert (b - a) * size >= 0;
  }

  /** As many windows as the limit goes into the tokens of s, rounded up, each within the limit. */
  predicate WindowsFit(t: string, s: Span, maxTokens: nat)
    requires s.start < s.end <= |t| && maxTokens >= 1
  {
    AtLeastOnePart(t, s, maxTokens);
    forall k :: 0 <= k < PartCount(t, s, maxTokens) ==>
      WindowFits(t, Window(s, PartCount(t, s, maxTokens), k), maxTokens)
  }

  predicate WindowFits(t: string, s: Span, maxTokens: nat) {
    s.start <= s.end <= |t| && Tokens(Slice(t, s)) <= maxTokens
  }

  lemma {:induction false} PartsAt(pos: nat, end: nat, part: nat, parts: nat, size: nat, k: nat)
    requires part < parts && pos + (parts - part) * size <= end && k < parts - part
    ensures |Parts(pos, end, part, parts, size)| == parts - part
    ensures Parts(pos, end, part, parts, size)[k]
         == Span(pos + k * size, if k == parts - part - 1 then end else pos + (k + 1) * size)
    decreases parts - part
  {
    var m: nat := parts - part - 1;
    OneMoreTimes(m, size);
    if m > 0 {
      assert parts - (part + 1) == m && parts - part == m + 1;
      PartsAt(pos + size, end, part + 1, parts, size, if k == 0 then 0 else k - 1);
      if k > 0 {
        OneMoreTimes(k - 1, size);
        OneMoreTimes(k, size);
      }
    }
  }

  /** The proportional parts are the windows. */
  lemma ProportionalIsWindows(t: string, s: Span, maxTokens: nat)
    requires s.start < s.end <= |t| && maxTokens >= 1
    ensures SpansFit(t, Proportional(t, s, maxTokens), maxTokens) <==> WindowsFit(t, s, maxTokens)
  {
    var parts := PartCount(t, s, maxTokens);
    AtLeastOnePart(t, s, maxTokens);
    WindowInside(s, parts, 0);
    var size := (s.end - s.start) / parts;
    var all := Proportional(t, s, maxTokens);
    PartsAt(s.start, s.end, 0, parts, size, 0);
    forall k | 0 <= k < parts ensures all[k] == Window(s, parts, k) {
      PartsAt(s.start, s.end, 0, parts, size, k);
    }
    hide Tokens, Proportional, PartCount, Window;
    if SpansFit(t, all, maxTokens) {
      forall k | 0 <= k < parts ensures WindowFits(t, Window(s, parts, k), maxTokens) {
        assert all[k] == Window(s, parts, k);
      }
    }
    if WindowsFit(t, s, maxTokens) {
      forall k | 0 <= k < |all| ensures WindowFits(t, all[k], maxTokens) {
        assert all[k] == Window(s, parts, k);
      }
    }
  }

  /** Merging never hides a sentence above the limit: it is a fragment of its own. */
  lemma {:induction false} MergeShowsLong(t: string, pieces: seq<Span>, i: nat, cur: Span, curTokens: nat,
      maxTokens: nat)
    requires i <= |pieces| && forall p <- pieces :: p.start <= p.end <= |t|
    ensures curTokens > maxTokens ==> cur in Merge(t, pieces, i, cur, curTokens, maxTokens)
    ensures forall k :: i <= k < |pieces| && Tokens(Slice(t, pieces[k])) > maxTokens ==>
      pieces[k] in Merge(t, pieces, i, cur, curTokens, maxTokens)
    decreases |pieces| - i
  {
    hide Tokens;
    if i < |pieces| {
      var n := Tokens(Slice(t, pieces[i]));
      if curTokens + n > maxTokens {
        MergeShowsLong(t, pieces, i + 1, pieces[i], n, maxTokens);
      } else {
        MergeShowsLong(t, pieces, i + 1, Span(cur.start, pieces[i].end), curTokens + n, maxTokens);
      }
    }
  }

  lemma LongSentenceIsFragment(t: string, p: Span, maxTokens: nat)
    requires p in Sentences(t) && p.start <= p.end <= |t| && Tokens(Slice(t, p)) > maxTokens
    ensures p in Fragments(t, maxTokens)
  {
    SentencesInRange(t);
    var pieces := Sentences(t);
    MergeShowsLong(t, pieces, 1, pieces[0], Tokens(Slice(t, pieces[0])), maxTokens);
    var k :| 0 <= k < |pieces| && pieces[k] == p;
  }

  lemma {:induction false} RefineAllFits(t: string, fragments: seq<Span>, maxTokens: nat)
    requires maxTokens >= 1 && forall f <- fragments :: f.start <= f.end <= |t|
    ensures SpansFit(t, RefineAll(t, fragments, maxTokens), maxTokens) <==>
      forall f <- fragments :: SpansFit(t, Refine(t, f, maxTokens), maxTokens)
  {
    hide Tokens, Refine, SpansFit;
    if fragments == [] {
      assert SpansFit(t, [], maxTokens) by { NoSpansFit(t, maxTokens); }
    } else {
      RefineAllFits(t, fragments[1..], maxTokens);
      SpansFitAppend(t, Refine(t, fragments[0], maxTokens), RefineAll(t, fragments[1..], maxTokens), maxTokens);
      assert forall f :: f in fragments <==> f == fragments[0] || f in fragments[1..];
    }
  }

  lemma NoSpansFit(t: string, maxTokens: nat)
    ensures SpansFit(t, [], maxTokens)
  {
  }

  lemma SpansFitAppend(t: string, a: seq<Span>, b: seq<Span>, maxTokens: nat)
    ensures SpansFit(t, a + b, maxTokens) <==> SpansFit(t, a, maxTokens) && SpansFit(t, b, maxTokens)
  {
    hide Tokens;
    var all := a + b;
    if SpansFit(t, all, maxTokens) {
      forall i | 0 <= i < |b| ensures WindowFits(t, b[i], maxTokens) { assert all[|a| + i] == b[i]; }
      forall i | 0 <= i < |a| ensures WindowFits(t, a[i], maxTokens) { assert all[i] == a[i]; }
    }
  }

  lemma RefineFits(t: string, f: Span, maxTokens: nat)
    requires f.start <= f.end <= |t| && maxTokens >= 1
    ensures Tokens(Slice(t, f)) <= maxTokens ==> SpansFit(t, Refine(t, f, maxTokens), maxTokens)
    ensures Tokens(Slice(t, f)) > maxTokens ==>
      f.start < f.end && Refine(t, f, maxTokens) == Proportional(t, f, maxTokens)
  {
    AtMostLength(Slice(t, f));
  }

  /** A sentence above the limit splits into windows within it. */
  predicate SentenceSplits(t: string, p: Span, maxTokens: nat)
    requires maxTokens >= 1
  {
    p.start < p.end <= |t| && Tokens(Slice(t, p)) > maxTokens ==> WindowsFit(t, p, maxTokens)
  }

  /** Exactly when every range is within the limit: when each sentence above it, cut into the fewest
      equal windows that could hold its tokens, has no window above it. */
  lemma SplitFitsExactly(t: string, maxTokens: nat)
    requires maxTokens >= 1
    ensures SpansFit(t, SplitText(t, maxTokens), maxTokens) <==>
      forall p <- Sentences(t) :: SentenceSplits(t, p, maxTokens)
  {
    FragmentsKeep(t, maxTokens);
    SentencesInRange(t);
    var fragments := Fragments(t, maxTokens);
    RefineAllFits(t, fragments, maxTokens);
    hide Tokens, Fragments, Sentences, WindowsFit, SpansFit, Refine, Proportional;
    forall f | f in fragments
      ensures SpansFit(t, Refine(t, f, maxTokens), maxTokens) <==>
        (Tokens(Slice(t, f)) > maxTokens ==> f.start < f.end && WindowsFit(t, f, maxTokens))
    {
      RefineFits(t, f, maxTokens);
      if Tokens(Slice(t, f)) > maxTokens { ProportionalIsWindows(t, f, maxTokens); }
    }
    forall p | p in Sentences(t) && p.start <= p.end <= |t| && Tokens(Slice(t, p)) > maxTokens
      ensures p in fragments
    {
      LongSentenceIsFragment(t, p, maxTokens);
    }
    forall f | f in fragments && Tokens(Slice(t, f)) > maxTokens ensures f in Sentences(t) {
      assert FitsOrSentence(t, Sentences(t), f, maxTokens);
    }
  }

  // ------------------------------------------------------------ the loops

  method SplitByTokenProportion(t: string, s: Span, maxTokens: nat) returns (ranges: seq<Span>)
    requires s.start <= s.end <= |t| && maxTokens >= 1
    ensures ranges == Proportional(t, s, maxTokens)
    ensures s.start < s.end ==> Covers(ranges, s.start, s.end)
  {
    var total := CountTokens(Slice(t, s));
    var parts := Max(1, (total + maxTokens - 1) / maxTokens);
    var size := Max(1, (s.end - s.start) / parts);
    ranges := [];
    var pos: nat := s.start;
    var part: nat := 0;
    while part < parts - 1
      invariant 0 <= part < parts
      invariant ranges + Parts(pos, s.end, part, parts, size) == Parts(s.start, s.end, 0, parts, size)
    {
      var next := Min(s.end, pos + size);
      ranges := ranges + [Span(pos, next)];
      pos := next;
      part := part + 1;
    }
    ranges := ranges + [Span(pos, s.end)];
    if s.start < s.end { ProportionalCovers(t, s, maxTokens); }
  }

  method FindSentences(t: string) returns (pieces: seq<Span>)
    ensures pieces == Sentences(t)
  {
    pieces := [];
    var start, index := 0, 0;
    while index < |t|
      invariant 0 <= start <= index <= |t|
      invariant pieces + SentencesFrom(t, start, index) == SentencesFrom(t, 0, 0)
    {
      if IsTerminator(t[index]) {
        var end := index + 1;
        while end < |t| && (t[end] == ' ' || t[end] == '\n')
          invariant index < end <= |t|
          invariant SkipGaps(t, end) == SkipGaps(t, index + 1)
        {
          end := end + 1;
        }
        pieces := pieces + [Span(start, end)];
        start, index := end, end;
      } else {
        index := index + 1;
      }
    }
    if start < |t| { pieces := pieces + [Span(start, |t|)]; }
    SentencesInRange(t);
    if pieces == [] { pieces := [Span(0, |t|)]; }
  }

  method MergeSentences(t: string, pieces: seq<Span>, maxTokens: nat) returns (fragments: seq<Span>)
    requires pieces == Sentences(t)
    ensures fragments == Fragments(t, maxTokens)
  {
    hide Tokens, SentencesFrom;
    SentencesInRange(t);
    fragments := [];
    var current := pieces[0];
    var currentTokens: nat := CountTokens(Slice(t, current));
    for i := 1 to |pieces|
      invariant fragments + Merge(t, pieces, i, current, currentTokens, maxTokens) == Fragments(t, maxTokens)
    {
      var n := CountTokens(Slice(t, pieces[i]));
      if currentTokens + n > maxTokens {
        fragments := fragments + [current];
        current, currentTokens := pieces[i], n;
      } else {
        current, currentTokens := Span(current.start, pieces[i].end), currentTokens + n;
      }
    }
    fragments := fragments + [current];
  }

  method SplitBySentenceThenTokens(t: string, maxTokens: nat) returns (final: seq<Span>)
    requires maxTokens >= 1
    ensures final == SplitText(t, maxTokens)
  {
    hide Tokens, Proportional, Fragments, RefineAll;
    var pieces := FindSentences(t);
    var fragments := MergeSentences(t, pieces, maxTokens);
    FragmentsKeep(t, maxTokens);
    final := [];
    RefineAllEnd(t, maxTokens);
    for i := 0 to |fragments|
      invariant final + RefineAll(t, fragments[i..], maxTokens) == SplitText(t, maxTokens)
    {
      var f := fragments[i];
      RefineAllStep(t, fragments, i, maxTokens);
      var n := CountTokens(Slice(t, f));
      if n <= maxTokens || f.end - f.start <= 1 {
        final := final + [f];
      } else {
        var ranges := SplitByTokenProportion(t, f, maxTokens);
        final := final + ranges;
      }
    }
  }

  lemma RefineAllEnd(t: string, maxTokens: nat)
    requires maxTokens >= 1
    ensures RefineAll(t, [], maxTokens) == []
  {
  }

  lemma RefineAllStep(t: string, fragments: seq<Span>, i: nat, maxTokens: nat)
    requires maxTokens >= 1 && i < |fragments| && forall f <- fragments :: f.start <= f.end <= |t|
    ensures RefineAll(t, fragments[i..], maxTokens)
      == Refine(t, fragments[i], maxTokens) + RefineAll(t, fragments[i + 1..], maxTokens)
  {
    hide Tokens, Refine;
    assert fragments[i..][0] == fragments[i] && fragments[i..][1..] == fragments[i + 1..];
  }

  const UNEVEN := "a bcccc"

  lemma UnevenIsOneSentence()
    ensures SentencesFrom(UNEVEN, 0, 0) == [Span(0, 7)]
  {
    assert SentencesFrom(UNEVEN, 0, 5) == [Span(0, 7)];
    assert SentencesFrom(UNEVEN, 0, 3) == SentencesFrom(UNEVEN, 0, 5);
    assert SentencesFrom(UNEVEN, 0, 1) == SentencesFrom(UNEVEN, 0, 3);
  }

  lemma UnevenTokens()
    ensures TokensBelow(UNEVEN, 3) == 2 && Tokens(UNEVEN) == 2
  {
    assert TokensBelow(UNEVEN, 1) == 1;
    assert TokensBelow(UNEVEN, 2) == 1;
    assert TokensBelow(UNEVEN, 3) == 2;
    assert TokensBelow(UNEVEN, 5) == 2;
    assert TokensBelow(UNEVEN, 7) == 2;
  }

  /** The limit itself is not a promise of the proportional split: two words of uneven length at
      limit 1 leave both tokens in the first range. */
  lemma ProportionalMayExceed()
    ensures SplitText(UNEVEN, 1) == [Span(0, 3), Span(3, 7)] && Tokens(Slice(UNEVEN, Span(0, 3))) == 2
  {
    UnevenIsOneSentence();
    UnevenTokens();
    var whole := Span(0, 7);
    assert Slice(UNEVEN, whole) == UNEVEN;
    assert Slice(UNEVEN, Span(0, 3)) == UNEVEN[..3];
    TokensBelowIsPrefix(UNEVEN, 3, 3);
    assert Parts(0, 7, 0, 2, 3) == [Span(0, 3), Span(3, 7)];
    assert RefineAll(UNEVEN, [whole], 1) == Refine(UNEVEN, whole, 1) + RefineAll(UNEVEN, [whole][1..], 1);
  }
}
