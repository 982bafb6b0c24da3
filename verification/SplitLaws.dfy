/** Where texts and tables are cut: sentences, greedy fragments of sentences, equal windows and greedy
    groups of lines (src/transit_scholar/layer2/chunker.py:404-417, 666-740). */
module SplitLaws {
  import opened Prelude
  import opened TokenCounter
  import opened Splitting
  import opened Greedy
  import TableRows
  import opened Schema

  // ------------------------------------------------------------ sentences

  predicate Gap(c: char) { c == ' ' || c == '\n' }

  /** Only gaps lie between c and the last end of a sentence before it. */
  predicate AfterEnd(t: string, c: nat)
    requires c <= |t|
  {
    exists k :: 0 <= k < c && t[k] in ['.', '!', '?'] && forall j :: k < j < c ==> Gap(t[j])
  }

  /** A new sentence begins at c: something after the gaps that follow the end of the one before. */
  predicate Begins(t: string, c: nat)
    requires c < |t|
  {
    !Gap(t[c]) && AfterEnd(t, c)
  }

  predicate EndsAt(spans: seq<Span>, c: nat) { exists i :: 0 <= i < |spans| && spans[i].end == c }

  lemma {:induction false} SkipExactly(t: string, i: nat)
    requires i <= |t|
    ensures var e := SkipGaps(t, i);
      (forall j :: i <= j < e ==> Gap(t[j])) && (e < |t| ==> !Gap(t[e]))
    decreases |t| - i
  {
    if i < |t| && (t[i] == ' ' || t[i] == '\n') { SkipExactly(t, i + 1); }
  }

  lemma EndsCons(s: Span, rest: seq<Span>, c: nat)
    ensures EndsAt([s] + rest, c) <==> s.end == c || EndsAt(rest, c)
  {
    var all := [s] + rest;
    if EndsAt(rest, c) {
      var i :| 0 <= i < |rest| && rest[i].end == c;
      assert all[i + 1].end == c;
    }
    if s.end == c { assert all[0].end == c; }
  }

  /** The scan from `start` has found no end yet. */
  ghost predicate Scanning(t: string, start: nat, index: nat)
    requires start <= index <= |t|
  {
    && (forall k :: start <= k < index ==> !IsTerminator(t[k]))
    && (0 < start < |t| ==> !Gap(t[start]))
  }

  lemma NoBeginInside(t: string, start: nat, index: nat, c: nat)
    requires start <= index <= |t| && Scanning(t, start, index) && start < c <= index && c < |t|
    ensures !Begins(t, c)
  {
  }

  lemma {:induction false} SentencesFromExactly(t: string, start: nat, index: nat, c: nat)
    requires start <= index <= |t| && Scanning(t, start, index) && start < c < |t|
    ensures EndsAt(SentencesFrom(t, start, index), c) <==> Begins(t, c)
    decreases |t| - index
  {
    var all := SentencesFrom(t, start, index);
    if index == |t| {
      NoBeginInside(t, start, index, c);
      assert !EndsAt(all, c);
    } else if IsTerminator(t[index]) {
      var end := SkipGaps(t, index + 1);
      SkipExactly(t, index + 1);
      EndsCons(Span(start, end), SentencesFrom(t, end, end), c);
      SentencesFromCover(t, end, end);
      CoversOrder(SentencesFrom(t, end, end), end, |t|);
      if c <= index {
        NoBeginInside(t, start, index, c);
      } else if c < end {
        assert Gap(t[c]);
      } else if c == end {
        assert AfterEnd(t, c);
      } else {
        SentencesFromExactly(t, end, end, c);
      }
    } else {
      SentencesFromExactly(t, start, index + 1, c);
    }
  }

  /** Main result: the sentences of a text cover it in order, and one ends at a position inside it exactly when a new
      one begins there. */
  lemma SentencesExactly(t: string, c: nat)
    requires 0 < c < |t|
    ensures Covers(Sentences(t), 0, |t|)
    ensures EndsAt(Sentences(t), c) <==> Begins(t, c)
  {
    SentencesInRange(t);
    SentencesFromExactly(t, 0, 0, c);
  }

  // ------------------------------------------------------------ fragments

  function SpanTokens(t: string): Span -> nat {
    (p: Span) => if p.start <= p.end <= |t| then Tokens(t[p.start..p.end]) else 0
  }

  /** The span from the beginning of a run of sentences to its end. */
  function Joined(run: seq<Span>): Span
    requires run != []
  {
    Span(run[0].start, run[|run| - 1].end)
  }

  predicate AllJoined(spans: seq<Span>, runs: seq<seq<Span>>) {
    |spans| == |runs| && forall i :: 0 <= i < |runs| ==> runs[i] != [] && spans[i] == Joined(runs[i])
  }

  lemma JoinedSnoc(run: seq<Span>, p: Span)
    requires run != []
    ensures Joined(run + [p]) == Span(Joined(run).start, p.end)
  {
  }

  lemma {:induction false} MergeExactly(t: string, pieces: seq<Span>, i: nat, run: seq<Span>, maxTokens: nat)
    returns (runs: seq<seq<Span>>)
    requires i <= |pieces| && (forall p <- pieces :: p.start <= p.end <= |t|)
    requires run != [] && Filled(run, SpanTokens(t), 0, maxTokens)
    ensures Flatten(runs) == run + pieces[i..] && GreedyRuns(runs, SpanTokens(t), 0, maxTokens)
    ensures runs != [] && run <= runs[0]
    ensures AllJoined(Merge(t, pieces, i, Joined(run), Sum(run, SpanTokens(t)), maxTokens), runs)
    decreases |pieces| - i
  {
    hide Tokens, Filled, GreedyRuns, Sum, AllJoined, Joined;
    var w := SpanTokens(t);
    if i == |pieces| {
      runs := [run];
      JoinedCons(run, [], []);
      OneRun(run, w, 0, maxTokens);
      assert runs[1..] == [] && pieces[i..] == [];
    } else {
      var p := pieces[i];
      assert p in pieces && Slice(t, p) == t[p.start..p.end];
      assert pieces[i..] == [p] + pieces[i + 1..];
      if Sum(run, w) + w(p) > maxTokens {
        OneFilled(p, w, 0, maxTokens);
        var rest := MergeExactly(t, pieces, i + 1, [p], maxTokens);
        runs := [run] + rest;
        assert rest[0][0] == p;
        MakesOverflow(run, rest[0], w, 0, maxTokens);
        RunsCons(run, rest, w, 0, maxTokens);
        assert runs[1..] == rest;
        OneSum(p, w);
        JoinedOne(p);
        JoinedCons(run, Merge(t, pieces, i + 1, p, w(p), maxTokens), rest);
      } else {
        FilledSnoc(run, p, w, 0, maxTokens);
        SumSnoc(run, p, w);
        JoinedSnoc(run, p);
        runs := MergeExactly(t, pieces, i + 1, run + [p], maxTokens);
        assert run + pieces[i..] == (run + [p]) + pieces[i + 1..];
      }
    }
  }

  lemma JoinedCons(run: seq<Span>, spans: seq<Span>, runs: seq<seq<Span>>)
    requires run != [] && AllJoined(spans, runs)
    ensures AllJoined([Joined(run)] + spans, [run] + runs)
    ensures AllJoined([Joined(run)], [run])
  {
  }

  lemma JoinedOne(p: Span)
    ensures Joined([p]) == p
  {
  }

  lemma OneRun<T>(run: seq<T>, w: T -> nat, base: nat, limit: nat)
    requires Filled(run, w, base, limit)
    ensures GreedyRuns([run], w, base, limit) && run != []
  {
  }

  lemma OneFilled<T>(x: T, w: T -> nat, base: nat, limit: nat)
    ensures Filled([x], w, base, limit)
  {
  }

  lemma OneSum<T>(x: T, w: T -> nat)
    ensures Sum([x], w) == w(x)
  {
    SumSnoc([], x, w);
    assert [] + [x] == [x];
  }

  lemma MakesOverflow<T>(run: seq<T>, next: seq<T>, w: T -> nat, base: nat, limit: nat)
    requires next != [] && base + Sum(run, w) + w(next[0]) > limit
    ensures Overflows(run, next, w, base, limit)
  {
  }

  /** Main result: the fragments are the greedy runs of the sentences: a fragment ends before the next sentence
      exactly when the tokens of both together, counted sentence by sentence, exceed the limit. */
  lemma FragmentsExactly(t: string, maxTokens: nat) returns (runs: seq<seq<Span>>)
    ensures Flatten(runs) == Sentences(t) && GreedyRuns(runs, SpanTokens(t), 0, maxTokens)
    ensures AllJoined(Fragments(t, maxTokens), runs)
  {
    SentencesInRange(t);
    var pieces, w := Sentences(t), SpanTokens(t);
    OneFilled(pieces[0], w, 0, maxTokens);
    OneSum(pieces[0], w);
    assert pieces[0] in pieces;
    JoinedOne(pieces[0]);
    hide Tokens, Sentences;
    runs := MergeExactly(t, pieces, 1, [pieces[0]], maxTokens);
    assert [pieces[0]] + pieces[1..] == pieces;
  }

  // ------------------------------------------------------------ windows

  /** The fewest parts that could each hold their share of the tokens, and at least one. */
  predicate FewestParts(parts: nat, tokens: nat, maxTokens: nat) {
    parts >= 1 && tokens <= parts * maxTokens && (parts == 1 || (parts - 1) * maxTokens < tokens)
  }

  lemma PartCountExactly(t: string, s: Span, maxTokens: nat)
    requires s.start <= s.end <= |t| && maxTokens >= 1
    ensures FewestParts(PartCount(t, s, maxTokens), Tokens(Slice(t, s)), maxTokens)
  {
    CeilingExactly(Tokens(Slice(t, s)), maxTokens);
  }

  lemma CeilingExactly(a: nat, b: nat)
    requires b >= 1
    ensures var c := (a + b - 1) / b; a <= c * b && (a > 0 ==> c >= 1 && (c - 1) * b < a) && (a == 0 ==> c == 0)
  {
    var c := (a + b - 1) / b;
    assert a + b - 1 == c * b + (a + b - 1) % b;
    assert (c - 1) * b == c * b - b;
    if a == 0 { SmallQuotient(b - 1, b); }
    if a > 0 { AtLeastOnce(a + b - 1, b); }
  }

  lemma SmallQuotient(a: nat, b: nat)
    requires a < b
    ensures a / b == 0
  {
  }

  lemma AtLeastOnce(a: nat, b: nat)
    requires b >= 1 && a >= b
    ensures a / b >= 1
  {
  }

  /** Main result: an overlong range is cut into the fewest parts that could hold its tokens, all of the same length
      but the last, which takes the rest. */
  lemma WindowsExactly(t: string, s: Span, maxTokens: nat)
    requires s.start < s.end <= |t| && maxTokens >= 1
    ensures var all, parts := Proportional(t, s, maxTokens), |Proportional(t, s, maxTokens)|;
      && FewestParts(parts, Tokens(Slice(t, s)), maxTokens) && parts <= s.end - s.start
      && forall k :: 0 <= k < parts ==> all[k] == Window(s, parts, k)
  {
    PartCountExactly(t, s, maxTokens);
    AtLeastOnePart(t, s, maxTokens);
    var parts := PartCount(t, s, maxTokens);
    EqualShare(s.end - s.start, parts);
    var size := (s.end - s.start) / parts;
    hide Tokens, PartCount, FewestParts;
    PartsAt(s.start, s.end, 0, parts, size, 0);
    forall k | 0 <= k < parts ensures Parts(s.start, s.end, 0, parts, size)[k] == Window(s, parts, k) {
      PartsAt(s.start, s.end, 0, parts, size, k);
    }
  }

  /** What a fragment becomes: itself when it fits or is a single character, and its windows otherwise. */
  function Cut(t: string, f: Span, maxTokens: nat): seq<Span>
    requires f.start <= f.end <= |t| && maxTokens >= 1
  {
    if Tokens(t[f.start..f.end]) > maxTokens && f.end > f.start + 1 then Proportional(t, f, maxTokens) else [f]
  }

  lemma {:induction false} RefineAllExactly(t: string, fragments: seq<Span>, maxTokens: nat)
    requires maxTokens >= 1 && forall f <- fragments :: f.start <= f.end <= |t|
    ensures RefineAll(t, fragments, maxTokens)
      == Flatten(seq(|fragments|, i requires 0 <= i < |fragments| => Cut(t, fragments[i], maxTokens)))
  {
    hide Tokens, Proportional;
    var cuts := seq(|fragments|, i requires 0 <= i < |fragments| => Cut(t, fragments[i], maxTokens));
    if fragments != [] {
      RefineAllExactly(t, fragments[1..], maxTokens);
      assert cuts[1..]
        == seq(|fragments[1..]|, i requires 0 <= i < |fragments[1..]| => Cut(t, fragments[1..][i], maxTokens));
    }
  }

  /** Main result: the ranges of a text are those of its fragments in order. */
  lemma SplitExactly(t: string, maxTokens: nat)
    requires maxTokens >= 1
    ensures forall f <- Fragments(t, maxTokens) :: f.start <= f.end <= |t|
    ensures var fragments := Fragments(t, maxTokens);
      SplitText(t, maxTokens)
        == Flatten(seq(|fragments|, i requires 0 <= i < |fragments| => Cut(t, fragments[i], maxTokens)))
  {
    FragmentsKeep(t, maxTokens);
    RefineAllExactly(t, Fragments(t, maxTokens), maxTokens);
  }

  // ------------------------------------------------------------ lines of a table

  function LineTokens(): string -> nat { (line: string) => Tokens(line) }

  lemma {:induction false} GroupsFromExactly(lines: seq<string>, i: nat, run: seq<string>, fixed: nat, budget: nat)
    requires i <= |lines| && Filled(run, LineTokens(), fixed, budget)
    ensures var groups := TableRows.GroupsFrom(lines, i, run, fixed + Sum(run, LineTokens()), fixed, budget);
      groups != [] && run <= groups[0] && GreedyRuns(groups, LineTokens(), fixed, budget)
    decreases |lines| - i
  {
    hide Tokens, Filled, GreedyRuns, Sum;
    var w := LineTokens();
    OneRun(run, w, fixed, budget);
    if i < |lines| {
      var line := lines[i];
      if fixed + Sum(run, w) + w(line) > budget {
        OneFilled(line, w, fixed, budget);
        OneSum(line, w);
        GroupsFromExactly(lines, i + 1, [line], fixed, budget);
        var rest := TableRows.GroupsFrom(lines, i + 1, [line], fixed + w(line), fixed, budget);
        assert rest[0][0] == line;
        MakesOverflow(run, rest[0], w, fixed, budget);
        RunsCons(run, rest, w, fixed, budget);
      } else {
        FilledSnoc(run, line, w, fixed, budget);
        SumSnoc(run, line, w);
        GroupsFromExactly(lines, i + 1, run + [line], fixed, budget);
      }
    }
  }

  /** Main result: the row groups of a table are the greedy runs of its lines beside the fixed part, and a table without
      lines has one empty group. */
  lemma GroupsExactly(lines: seq<string>, fixed: nat, budget: nat)
    ensures var groups := TableRows.Groups(lines, fixed, budget);
      && Flatten(groups) == lines
      && (lines == [] ==> groups == [[]])
      && (lines != [] ==> GreedyRuns(groups, LineTokens(), fixed, budget))
  {
    TableRows.GroupsSound(lines, fixed, budget);
    if lines != [] {
      var w := LineTokens();
      OneFilled(lines[0], w, fixed, budget);
      OneSum(lines[0], w);
      GroupsFromExactly(lines, 1, [lines[0]], fixed, budget);
      assert [] + [lines[0]] == [lines[0]];
    }
  }

  // ------------------------------------------------------------ rows of a group

  /** The row at which a group begins whose first body line is `line`: the first group also has the header row, and
      the last row takes all lines that are left over. */
  function FirstRow(line: nat, nRows: int): int {
    if line == 0 then 0 else if line + 1 < nRows then line + 1 else nRows - 1
  }

  lemma {:induction false} RangesFromExactly(sizes: seq<TableRows.Size>, line: nat, nRows: int, i: nat)
    requires nRows >= 1 && i < |sizes|
    ensures |TableRows.RangesFrom(sizes, line, nRows)| == |sizes|
    ensures var first := line + TableRows.Total(sizes[..i]);
      var next := FirstRow(first + sizes[i], nRows);
      TableRows.RangesFrom(sizes, line, nRows)[i]
        == RowRange(FirstRow(first, nRows),
             if i == |sizes| - 1 then nRows else if next > FirstRow(first, nRows) then next
             else FirstRow(first, nRows) + 1)
    decreases |sizes|
  {
    hide TableRows.RangeOf, FirstRow;
    TableRows.RangesFromCount(sizes, line, nRows);
    if i > 0 {
      RangesFromExactly(sizes[1..], line + sizes[0], nRows, i - 1);
      assert sizes[..i][1..] == sizes[1..][..i - 1];
    } else {
      assert sizes[..0] == [];
      RangeExactly(line, sizes[0], |sizes| == 1, nRows);
    }
  }

  lemma RangeExactly(line: nat, size: nat, last: bool, nRows: int)
    requires nRows >= 1 && size >= 1
    ensures var row, next := FirstRow(line, nRows), FirstRow(line + size, nRows);
      TableRows.RangeOf(line, line + size - 1, line == 0, last, nRows)
        == RowRange(row, if last then nRows else if next > row then next else row + 1)
  {
  }

  /** Main result: a group's rows begin where its first line does and end where the next group begins, but after
      at least one row; the last group ends with the table. */
  lemma RangesExactly(groups: seq<seq<string>>, nRows: int, i: nat)
    requires TableRows.NoneEmpty(groups) && nRows >= 1 && i < |groups|
    ensures |TableRows.Ranges(groups, nRows)| == |groups|
    ensures var first := |Flatten(groups[..i])|;
      var next := FirstRow(first + |groups[i]|, nRows);
      TableRows.Ranges(groups, nRows)[i]
        == RowRange(FirstRow(first, nRows),
             if i == |groups| - 1 then nRows else if next > FirstRow(first, nRows) then next
             else FirstRow(first, nRows) + 1)
  {
    RangesFromExactly(TableRows.Sizes(groups), 0, nRows, i);
    TableRows.TotalIsLineCount(groups[..i]);
    assert TableRows.Sizes(groups)[..i] == TableRows.Sizes(groups[..i]);
    assert groups[0] != [];
  }

  lemma {:induction false} RowsExactly(cells: seq<CellRow>, r: int)
    ensures r in TableRows.Rows(cells) <==> Row(r) in cells
  {
    if cells != [] {
      RowsExactly(cells[1..], r);
      assert Row(r) in cells <==> cells[0] == Row(r) || Row(r) in cells[1..];
    }
  }

  /** A table has n rows when every stated row can be read and n - 1 is the largest. */
  lemma RowCountExactly(cells: seq<CellRow>, n: int)
    ensures TableRows.RowCount(cells) == Some(n) <==>
      && Unreadable !in cells && Row(n - 1) in cells
      && forall r :: Row(r) in cells ==> r < n
  {
    forall r ensures r in TableRows.Rows(cells) <==> Row(r) in cells { RowsExactly(cells, r); }
    assert Unreadable in cells <==> exists c <- cells :: c.Unreadable?;
    if TableRows.Rows(cells) != [] {
      var m := TableRows.Largest(TableRows.Rows(cells));
      assert Row(m) in cells;
    }
  }
}
