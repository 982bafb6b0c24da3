/** Row groups of an overlong table and the row ranges they record (`_split_table_unit`). */
module TableRows {
  import opened Prelude
  import opened TokenCounter
  import opened Schema

  /** `_table_n_rows`: one more than the largest row index, when every present index is readable. */
  function RowCount(cells: seq<CellRow>): Option<int> {
    if exists c <- cells :: c.Unreadable? then None
    else
      var rows := Rows(cells);
      if rows == [] then None else Some(Largest(rows) + 1)
  }

  function Rows(cells: seq<CellRow>): seq<int> {
    if cells == [] then []
    else (if cells[0].Row? then [cells[0].row] else []) + Rows(cells[1..])
  }

  function Largest(rows: seq<int>): (m: int)
    requires rows != []
    ensures m in rows && forall r <- rows :: r <= m
  {
    if |rows| == 1 then rows[0]
    else
      assert forall r <- rows :: r == rows[0] || r in rows[1..];
      Max(rows[0], Largest(rows[1..]))
  }

  // ------------------------------------------------------------ greedy grouping of lines

  /** Groups from line i on, while `current` with `currentTokens` counted tokens is still open. */
  function GroupsFrom(lines: seq<string>, i: nat, current: seq<string>, currentTokens: nat, fixed: nat,
      budget: nat): seq<seq<string>>
    requires i <= |lines|
    decreases |lines| - i
  {
    if i == |lines| then
      if lines == [] || current != [] then [current] else []
    else
      var n := Tokens(lines[i]);
      if current != [] && currentTokens + n > budget then
        [current] + GroupsFrom(lines, i + 1, [lines[i]], fixed + n, fixed, budget)
      else
        GroupsFrom(lines, i + 1, current + [lines[i]], currentTokens + n, fixed, budget)
  }

  function Groups(lines: seq<string>, fixed: nat, budget: nat): seq<seq<string>> {
    GroupsFrom(lines, 0, [], fixed, fixed, budget)
  }

  /** A group of two or more lines fits the budget together with the fixed part. */
  predicate GroupFits(g: seq<string>, fixed: nat, budget: nat) {
    |g| <= 1 || fixed + SumTokens(g) <= budget
  }

  lemma {:induction false} GroupsFromSound(lines: seq<string>, i: nat, current: seq<string>, currentTokens: nat,
      fixed: nat, budget: nat)
    requires i <= |lines| && (current == [] ==> i == 0)
    requires currentTokens == fixed + SumTokens(current) && GroupFits(current, fixed, budget)
    ensures var groups := GroupsFrom(lines, i, current, currentTokens, fixed, budget);
      && Flatten(groups) == current + lines[i..]
      && |groups| > 0
      && (lines != [] ==> NoneEmpty(groups))
      && (forall g <- groups :: GroupFits(g, fixed, budget))
    decreases |lines| - i
  {
    hide Tokens;
    var groups := GroupsFrom(lines, i, current, currentTokens, fixed, budget);
    if i == |lines| {
      assert groups == [current];
      assert groups[1..] == [];
    } else {
      var n := Tokens(lines[i]);
      assert lines[i..] == [lines[i]] + lines[i + 1..];
      assert SumTokens([lines[i]]) == n + SumTokens([lines[i]][1..]);
      if current != [] && currentTokens + n > budget {
        GroupsFromSound(lines, i + 1, [lines[i]], fixed + n, fixed, budget);
        var rest := GroupsFrom(lines, i + 1, [lines[i]], fixed + n, fixed, budget);
        assert groups[1..] == rest;
      } else {
        SumTokensAppend(current, [lines[i]]);
        GroupsFromSound(lines, i + 1, current + [lines[i]], currentTokens + n, fixed, budget);
      }
    }
  }

  /** No line is lost, repeated or moved; groups are non-empty unless there is no line at all. */
  lemma GroupsSound(lines: seq<string>, fixed: nat, budget: nat)
    ensures Flatten(Groups(lines, fixed, budget)) == lines
    ensures |Groups(lines, fixed, budget)| > 0
    ensures lines != [] ==> NoneEmpty(Groups(lines, fixed, budget))
    ensures lines == [] ==> Groups(lines, fixed, budget) == [[]]
    ensures forall g <- Groups(lines, fixed, budget) :: GroupFits(g, fixed, budget)
  {
    GroupsFromSound(lines, 0, [], fixed, fixed, budget);
  }

  method GroupLines(lines: seq<string>, fixed: nat, budget: nat) returns (groups: seq<seq<string>>)
    ensures groups == Groups(lines, fixed, budget)
    ensures Flatten(groups) == lines
  {
    groups := [];
    var current: seq<string> := [];
    var currentTokens: nat := fixed;
    for i := 0 to |lines|
      invariant groups + GroupsFrom(lines, i, current, currentTokens, fixed, budget) == Groups(lines, fixed, budget)
    {
      var n := CountTokens(lines[i]);
      if current != [] && currentTokens + n > budget {
        groups := groups + [current];
        current, currentTokens := [lines[i]], fixed + n;
      } else {
        current, currentTokens := current + [lines[i]], currentTokens + n;
      }
    }
    if lines == [] || current != [] { groups := groups + [current]; }
    GroupsSound(lines, fixed, budget);
  }

  // ------------------------------------------------------------ row ranges

  /** Row that body line `index` starts at: row 0 is the header, the last row absorbs the rest. */
  function RowOfLine(index: nat, nRows: int): int { Min(index + 1, nRows - 1) }

  /** Range of the group that holds body lines first..last, as the code computes it. */
  function RangeOf(first: nat, last: nat, isFirst: bool, isLast: bool, nRows: int): RowRange {
    var start0 := if isFirst then 0 else RowOfLine(first, nRows);
    var end0 := if isLast then nRows else Min(RowOfLine(last, nRows) + 1, RowOfLine(last + 1, nRows));
    var start := Min(start0, nRows);
    var end := Min(Max(end0, start + 1), nRows);
    RowRange(start, if start == end then Min(start + 1, nRows) else end)
  }

  type Size = n: nat | n > 0 witness 1

  /** Ranges of the remaining groups when the next one starts at body line `line`. */
  function RangesFrom(sizes: seq<Size>, line: nat, nRows: int): seq<RowRange>
  {
    if sizes == [] then []
    else
      [RangeOf(line, line + sizes[0] - 1, line == 0, |sizes| == 1, nRows)]
      + RangesFrom(sizes[1..], line + sizes[0], nRows)
  }

  predicate NoneEmpty(groups: seq<seq<string>>) { forall i :: 0 <= i < |groups| ==> groups[i] != [] }

  function Sizes(groups: seq<seq<string>>): seq<Size>
    requires NoneEmpty(groups)
  {
    seq(|groups|, i requires 0 <= i < |groups| => |groups[i]|)
  }

  function Ranges(groups: seq<seq<string>>, nRows: int): seq<RowRange>
    requires groups == [[]] || NoneEmpty(groups)
  {
    if groups == [[]] then [RowRange(0, nRows)] else RangesFrom(Sizes(groups), 0, nRows)
  }

  /** Every range is non-empty and inside [0, nRows); each begins at or before the end of the one
      before it, and not before its beginning; the first starts at lo and the last ends at nRows. */
  predicate GapFree(ranges: seq<RowRange>, lo: int, nRows: int) {
    && ranges != []
    && ranges[0].start == lo && 0 <= lo < ranges[0].end <= nRows
    && (|ranges| == 1 ==> ranges[0].end == nRows)
    && (|ranges| > 1 ==> lo <= ranges[1].start <= ranges[0].end && GapFree(ranges[1..], ranges[1].start, nRows))
  }

  /** Gap-free with no overlap at all: each range begins exactly where the one before it ends. */
  predicate Partition(ranges: seq<RowRange>, lo: int, nRows: int) {
    && ranges != []
    && ranges[0].start == lo && 0 <= lo < ranges[0].end <= nRows
    && (if |ranges| == 1 then ranges[0].end == nRows else Partition(ranges[1..], ranges[0].end, nRows))
  }

  function Total(sizes: seq<Size>): nat { if sizes == [] then 0 else sizes[0] + Total(sizes[1..]) }

  /** First body line of the last group but one, counted from `line`. */
  function PenultimateLine(sizes: seq<Size>, line: nat): nat
    requires |sizes| >= 2
  {
    if |sizes| == 2 then line else PenultimateLine(sizes[1..], line + sizes[0])
  }

  function StartRow(line: nat, nRows: int): int { if line == 0 then 0 else RowOfLine(line, nRows) }

  lemma {:induction false} RangesFromGapFree(sizes: seq<Size>, line: nat, nRows: int)
    requires sizes != [] && nRows >= 1
    ensures GapFree(RangesFrom(sizes, line, nRows), StartRow(line, nRows), nRows)
  {
    var ranges := RangesFrom(sizes, line, nRows);
    if |sizes| > 1 {
      var next := line + sizes[0];
      RangesFromGapFree(sizes[1..], next, nRows);
      assert ranges[1..] == RangesFrom(sizes[1..], next, nRows);
    } else {
      assert sizes[1..] == [];
    }
  }

  lemma RangesFromLength(groups: seq<seq<string>>, nRows: int)
    requires groups == [[]] || NoneEmpty(groups)
    ensures |Ranges(groups, nRows)| == |groups|
  {
    if groups != [[]] { RangesFromCount(Sizes(groups), 0, nRows); }
  }

  lemma {:induction false} RangesFromCount(sizes: seq<Size>, line: nat, nRows: int)
    ensures |RangesFrom(sizes, line, nRows)| == |sizes|
  {
    if sizes != [] { RangesFromCount(sizes[1..], line + sizes[0], nRows); }
  }

  lemma {:induction false} PenultimateAfter(sizes: seq<Size>, line: nat)
    requires |sizes| >= 2
    ensures line <= PenultimateLine(sizes, line)
    ensures PenultimateLine(sizes, line) + 2 <= line + Total(sizes)
  {
    if |sizes| > 2 {
      PenultimateAfter(sizes[1..], line + sizes[0]);
    } else {
      assert Total(sizes) == sizes[0] + (sizes[1] + Total(sizes[1..][1..]));
    }
  }

  lemma {:induction false} PartitionExact(sizes: seq<Size>, line: nat, nRows: int)
    requires sizes != [] && nRows >= 1
    ensures Partition(RangesFrom(sizes, line, nRows), StartRow(line, nRows), nRows)
       <==> |sizes| == 1 || StartRow(PenultimateLine(sizes, line), nRows) < nRows - 1
  {
    var ranges := RangesFrom(sizes, line, nRows);
    if |sizes| == 1 {
      assert RangesFrom(sizes[1..], line + sizes[0], nRows) == [];
      assert |ranges| == 1;
    } else {
      var next := line + sizes[0];
      PartitionExact(sizes[1..], next, nRows);
      RangesFromGapFree(sizes[1..], next, nRows);
      PenultimateAfter(sizes, line);
      assert ranges[1..] == RangesFrom(sizes[1..], next, nRows);
      assert ranges[1].start == StartRow(next, nRows);
      assert Partition(ranges, StartRow(line, nRows), nRows)
        <==> ranges[0].end == StartRow(next, nRows) && Partition(ranges[1..], StartRow(next, nRows), nRows);
      assert ranges[0].end == StartRow(next, nRows) <==> StartRow(line, nRows) < nRows - 1;
      if |sizes| > 2 {
        PenultimateAfter(sizes[1..], next);
      }
    }
  }

  lemma {:induction false} TotalIsLineCount(groups: seq<seq<string>>)
    requires NoneEmpty(groups)
    ensures Total(Sizes(groups)) == |Flatten(groups)|
  {
    if groups != [] {
      TotalIsLineCount(groups[1..]);
      assert Sizes(groups)[1..] == Sizes(groups[1..]);
    }
  }

  /** Row ranges never leave a gap and never leave the table, exactly for tables with a row. */
  lemma RowRangesGapFree(lines: seq<string>, fixed: nat, budget: nat, nRows: int)
    ensures var groups := Groups(lines, fixed, budget);
      && (groups == [[]] || NoneEmpty(groups))
      && |Ranges(groups, nRows)| == |groups|
      && (GapFree(Ranges(groups, nRows), 0, nRows) <==> nRows >= 1)
  {
    GroupsSound(lines, fixed, budget);
    var groups := Groups(lines, fixed, budget);
    RangesFromLength(groups, nRows);
    if lines != [] && nRows >= 1 {
      RangesFromGapFree(Sizes(groups), 0, nRows);
    }
  }

  /** The ranges partition the rows exactly when there is one group, or the last group but one
      starts above the last row; a table with fewer body lines than rows always meets this. */
  lemma RowRangesPartition(lines: seq<string>, fixed: nat, budget: nat, nRows: int)
    requires nRows >= 1 && lines != []
    ensures var groups := Groups(lines, fixed, budget);
      && NoneEmpty(groups)
      && (Partition(Ranges(groups, nRows), 0, nRows)
          <==> |groups| <= 1 || StartRow(PenultimateLine(Sizes(groups), 0), nRows) < nRows - 1)
      && (|lines| <= nRows - 1 ==> Partition(Ranges(groups, nRows), 0, nRows))
  {
    GroupsSound(lines, fixed, budget);
    var groups := Groups(lines, fixed, budget);
    PartitionExact(Sizes(groups), 0, nRows);
    TotalIsLineCount(groups);
    if |groups| > 1 { PenultimateAfter(Sizes(groups), 0); }
  }

  lemma OneTokenLines()
    ensures Tokens("a") == 1 && Tokens("b") == 1 && Tokens("c") == 1
  {
    assert TokensBelow("a", 1) == 1 && TokensBelow("b", 1) == 1 && TokensBelow("c", 1) == 1;
  }

  lemma ThreeGroups()
    ensures Groups(["a", "b", "c"], 1, 2) == [["a"], ["b"], ["c"]]
  {
    OneTokenLines();
    hide Tokens;
    var lines := ["a", "b", "c"];
    assert [] + ["a"] == ["a"];
    assert GroupsFrom(lines, 3, ["c"], 2, 1, 2) == [["c"]];
    assert GroupsFrom(lines, 2, ["b"], 2, 1, 2) == [["b"]] + GroupsFrom(lines, 3, ["c"], 2, 1, 2);
    assert GroupsFrom(lines, 1, ["a"], 2, 1, 2) == [["a"]] + GroupsFrom(lines, 2, ["b"], 2, 1, 2);
    assert GroupsFrom(lines, 0, [], 1, 1, 2) == GroupsFrom(lines, 1, ["a"], 2, 1, 2);
  }

  /** With more body lines than rows the last row can be claimed twice: three lines that each need a
      group of their own, in a table of two rows. */
  lemma LastRowMayOverlap()
    ensures var groups := Groups(["a", "b", "c"], 1, 2);
      && groups == [["a"], ["b"], ["c"]]
      && Ranges(groups, 2) == [RowRange(0, 1), RowRange(1, 2), RowRange(1, 2)]
      && !Partition(Ranges(groups, 2), 0, 2)
  {
    ThreeGroups();
    var groups := [["a"], ["b"], ["c"]];
    assert Sizes(groups) == [1, 1, 1];
    assert RangesFrom([1], 2, 2) == [RowRange(1, 2)];
    assert [1, 1][1..] == [1] && [1, 1, 1][1..] == [1, 1];
    assert RangesFrom([1, 1], 1, 2) == [RowRange(1, 2), RowRange(1, 2)];
    assert RangesFrom([1, 1, 1], 0, 2) == [RowRange(0, 1), RowRange(1, 2), RowRange(1, 2)];
    SharedRowIsNoPartition();
  }

  lemma SharedRowIsNoPartition()
    ensures !Partition([RowRange(0, 1), RowRange(1, 2), RowRange(1, 2)], 0, 2)
  {
    var ranges := [RowRange(0, 1), RowRange(1, 2), RowRange(1, 2)];
    assert ranges[1..][1..] == [RowRange(1, 2)];
    assert !Partition(ranges[1..], 1, 2);
  }
}
