/** Exactly which units keep every character of their blocks, by block, by sentence and by row
    (src/transit_scholar/layer2/chunker.py:236-267, src/transit_scholar/layer2/chunker.py:344-499). */
module UnitCoverage {
  import opened Prelude
  import opened TokenCounter
  import opened Schema
  import opened Splitting
  import opened TableRows
  import opened Units
  import opened Trimming
  import opened Chunker
  import opened ChunkGuarantees
  import opened ChunkCoverage
  import opened Tiling

  /** As units are built: whole blocks, captions last, counted by their parts, with the types of the blocks and
      the text of the captions. */
  predicate WellMade(u: Unit) {
    && u.blocks != [] && u.refs == WholeRefs(u.blocks)
    && u.tokens == Tokens(u.body) == SumTokens(BlockTexts(u.blocks))
    && Texts(u.blocks[1..]) == BlockTexts(u.blocks[1..])
    && |u.types| == |u.blocks| && (forall i :: 0 <= i < |u.blocks| ==> u.types[i] == u.blocks[i].kind)
    && u.caption == (if |u.blocks| == 1 then None else Some(Join("\n\n", Texts(u.blocks[1..]))))
    && u.rows.None?
  }

  // ------------------------------------------------------------ no two references overlap

  lemma {:induction false} CoversDisjoint(spans: seq<Span>, lo: nat, hi: nat, i: nat, j: nat)
    requires Covers(spans, lo, hi) && i < j < |spans|
    ensures spans[i].end <= spans[j].start
  {
    var rest := spans[1..];
    if i > 0 {
      CoversDisjoint(rest, spans[0].end, hi, i - 1, j - 1);
    } else {
      CoversOrder(rest, spans[0].end, hi);
      assert spans[j] == rest[j - 1];
    }
  }

  lemma {:induction false} GroupsDisjoint(groups: seq<seq<SourceRef>>, blocks: seq<Block>, i: nat, j: nat)
    requires GroupsTile(groups, blocks) && UniqueIds(blocks) && i < j < |Flatten(groups)|
    requires Flatten(groups)[i].block == Flatten(groups)[j].block
    ensures Flatten(groups)[i].end <= Flatten(groups)[j].start
  {
    var mine, b, rest := groups[0], blocks[0], Flatten(groups[1..]);
    var all := mine + rest;
    assert all == Flatten(groups) && TilesBlock(mine, b);
    if j < |mine| {
      var spans := Spans(mine);
      CoversDisjoint(spans, 0, |BlockText(b)|, i, j);
      assert all[i].end == spans[i].end && all[j].start == spans[j].start;
    } else {
      assert GroupsTile(groups[1..], blocks[1..]);
      assert TilesBlocks(rest, blocks[1..]);
      if i < |mine| {
        TilesContiguous(rest, blocks[1..]);
        assert mine[i].block == b.id;
        var d := OwnerAt(rest, j - |mine|, blocks[1..]);
      } else {
        GroupsDisjoint(groups[1..], blocks[1..], i - |mine|, j - |mine|);
      }
    }
  }

  /** References that start twice at the beginning of one block tile nothing. */
  lemma TwoStartsNeverTile(a: seq<SourceRef>, b: seq<SourceRef>, rest: seq<SourceRef>, blocks: seq<Block>)
    requires UniqueIds(blocks) && a != [] && b != [] && a[0].block == b[0].block
    requires a[0].end > 0 && b[0].start == 0
    ensures !TilesBlocks(a + (b + rest), blocks)
  {
    hide GroupsTile, UniqueIds;
    var refs := a + (b + rest);
    assert refs[0] == a[0] && refs[|a|] == b[0];
    if TilesBlocks(refs, blocks) {
      var groups: seq<seq<SourceRef>> :| Flatten(groups) == refs && GroupsTile(groups, blocks);
      GroupsDisjoint(groups, blocks, 0, |a|);
    }
  }

  // ------------------------------------------------------------ tables split by rows

  /** A fragment of a table with text: its own references, or the trimmed ones. */
  lemma FragmentStarts(x: Unit, budget: nat)
    requires budget >= 1 && x.blocks != [] && BlockText(x.blocks[0]) != ""
    requires x.refs != [] && x.refs[0] == WholeRef(x.blocks[0])
    ensures var refs := Guarded(x, budget).refs;
      refs != [] && refs[0].block == x.blocks[0].id && refs[0].start == 0 < refs[0].end
  {
    hide Tokens, BlockText, Partial;
    var b := x.blocks[0];
    if x.tokens > budget && Tokens(BlockText(b)) > budget { PartialIsLongest(b, budget); }
  }

  lemma TableText(u: Unit, budget: nat)
    requires SplitsByRows(u)
    ensures BlockText(u.blocks[0]) != ""
    ensures var frame := FrameOf(u, budget); Join("\n", frame.header + frame.lines) == BlockText(u.blocks[0])
  {
    var text := OrElse(u.blocks[0].content.markdown, "");
    JoinSplit(text, "\n");
    hide FindFrom, Tokens;
    var all := Split(text, "\n");
    assert all[..2] + all[2..] == all;
    assert Split("", "\n") == [""];
  }

  lemma SomeCaptionText(u: Unit)
    requires WellMade(u)
    ensures u.tokens == Tokens(BlockText(u.blocks[0])) + Tokens(Join(GAP, Texts(u.blocks[1..])))
    ensures SumTokens(BlockTexts(u.blocks[1..])) == Tokens(Join(GAP, Texts(u.blocks[1..])))
  {
    hide Tokens, BlockText;
    SeparatorsAreNeutral();
    JoinTokens(GAP, Texts(u.blocks[1..]));
    assert BlockTexts(u.blocks)[1..] == BlockTexts(u.blocks[1..]);
  }

  lemma FrameCaption(u: Unit, budget: nat)
    requires SplitsByRows(u)
    ensures FrameOf(u, budget).captionText == Join(GAP, Texts(u.blocks[1..]))
  {
  }

  /** A fragment with all body lines, in the terms of its frame. */
  lemma WholeFragment(u: Unit, frame: TableFrame, text: string, rows: RowRange)
    requires u.blocks != [] && Join("\n", frame.header + frame.lines) == text
    ensures var x := RowFragment(u, frame, frame.lines, rows);
      if frame.captionText == "" || frame.captionInBody then x.tokens == Tokens(text) + Tokens(frame.captionText)
      else x.refs == [WholeRef(u.blocks[0])] && x.tokens == Tokens(text)
  {
    hide Tokens, BlockText, CaptionRefs;
    NoTokens();
    SeparatorsAreNeutral();
    AcrossSeparator(text, GAP, frame.captionText);
    assert text + GAP + frame.captionText == text + (GAP + frame.captionText) && text + "" == text;
  }

  /** A single row fragment holds the whole table, so it is overlong too unless the caption is dropped. */
  lemma SingleFragment(u: Unit, rows: RowRange, budget: nat)
    requires budget >= 1 && WellMade(u) && SplitsByRows(u) && u.tokens > budget
    ensures var frame := FrameOf(u, budget); var x := RowFragment(u, frame, frame.lines, rows);
      x.tokens > budget || (x.refs == [WholeRef(u.blocks[0])] && SumTokens(BlockTexts(u.blocks[1..])) > 0)
  {
    TableText(u, budget);
    SomeCaptionText(u);
    FrameCaption(u, budget);
    var frame, text := FrameOf(u, budget), BlockText(u.blocks[0]);
    hide Tokens, BlockText, FrameOf, SplitsByRows, WellMade, RowFragment;
    WholeFragment(u, frame, text, rows);
  }

  lemma SingleNeverTiles(u: Unit, x: Unit, budget: nat)
    requires WellMade(u) && UniqueIds(u.blocks) && u.tokens > budget && x.blocks == u.blocks
    requires x.tokens > budget || (x.refs == [WholeRef(u.blocks[0])] && SumTokens(BlockTexts(u.blocks[1..])) > 0)
    ensures !TilesBlocks(Guarded(x, budget).refs, u.blocks)
  {
    hide Tokens, BlockText, TilesBlocks, Inside;
    if x.tokens > budget {
      TrimmedTilesExactly(u.blocks, budget);
    } else {
      var b, rest := u.blocks[0], u.blocks[1..];
      HeadAlone(u.blocks);
      NothingTiles(rest);
      OneInside(WholeRef(b), b);
      NoneInside(rest);
      TilesAppendExactly([WholeRef(b)], [b], [], rest);
      assert [WholeRef(b)] + [] == [WholeRef(b)];
    }
  }

  /** A table split by rows never keeps its blocks' texts exactly once: every fragment refers to the
      table from its beginning, and a single fragment loses a caption or is trimmed. */
  lemma RowSplitNeverTiles(u: Unit, budget: nat)
    requires budget >= 1 && WellMade(u) && UniqueIds(u.blocks) && SplitsByRows(u) && u.tokens > budget
    ensures !TilesBlocks(AllRefs(GuardedAll(SplitOverlong(u, budget), budget)), u.blocks)
  {
    TableText(u, budget);
    var frame, nRows := FrameOf(u, budget), RowCount(u.blocks[0].content.cells).value;
    var groups := Groups(frame.lines, frame.fixed, budget);
    GroupsSound(frame.lines, frame.fixed, budget);
    RowRangesGapFree(frame.lines, frame.fixed, budget, nRows);
    var all := SplitOverlong(u, budget);
    assert all == RowFragments(u, frame, groups, Ranges(groups, nRows));
    hide Tokens, BlockText, FrameOf, RowCount, Groups, Ranges, GapFree, TilesBlocks, SplitOverlong, Guarded, WellMade;
    assert forall i :: 0 <= i < |all| ==> all[i] == RowFragment(u, frame, groups[i], Ranges(groups, nRows)[i]);
    var g := GuardedAll(all, budget);
    if |all| == 1 {
      assert groups == [frame.lines] by { OnlyGroup(groups); }
      SingleFragment(u, Ranges(groups, nRows)[0], budget);
      SingleNeverTiles(u, all[0], budget);
      assert g == [Guarded(all[0], budget)];
      SingleContent(g[0]);
    } else {
      FragmentStarts(all[0], budget);
      FragmentStarts(all[1], budget);
      assert AllRefs(g) == g[0].refs + AllRefs(g[1..]) == g[0].refs + (g[1].refs + AllRefs(g[1..][1..]));
      TwoStartsNeverTile(g[0].refs, g[1].refs, AllRefs(g[1..][1..]), u.blocks);
    }
  }

  lemma OnlyGroup(groups: seq<seq<string>>)
    requires |groups| == 1
    ensures groups == [Flatten(groups)]
  {
    assert Flatten(groups) == groups[0] + Flatten(groups[1..]) == groups[0];
  }

  // ------------------------------------------------------------ one unit

  /** The unit fits as a whole, or it is not split by rows and the sentences of its blocks split. */
  predicate UnitKept(u: Unit, budget: nat)
    requires budget >= 1
  {
    u.tokens <= budget || (!SplitsByRows(u) && forall b <- u.blocks :: SentencesSplit(b, budget))
  }

  function UnitRefs(u: Unit, budget: nat): seq<SourceRef>
    requires budget >= 1
  {
    AllRefs(GuardedAll(PiecesOf(u, budget), budget))
  }

  lemma UnitTilesExactly(u: Unit, budget: nat)
    requires budget >= 1 && WellMade(u) && UniqueIds(u.blocks)
    ensures TilesBlocks(UnitRefs(u, budget), u.blocks) <==> UnitKept(u, budget)
  {
    hide TilesBlocks, SplitsByRows, SplitBlocks, SentencesSplit, AllShrunk, Tokens;
    if u.tokens <= budget || !SplitsByRows(u) {
      PiecesTile(u, budget);
      SplitBlocksArePieces(u.blocks, budget);
      assert AllPieces(PiecesOf(u, budget), budget);
      GuardedShrinks(PiecesOf(u, budget), budget);
      ShrunkTilesExactly(UnitRefs(u, budget), AllRefs(PiecesOf(u, budget)), u.blocks);
      if u.tokens > budget { BlocksFitExactly(u.blocks, budget); }
    } else {
      RowSplitNeverTiles(u, budget);
    }
  }

  // ------------------------------------------------------------ the units of a section

  predicate PieceInside(x: Unit, blocks: seq<Block>) {
    Inside(x.refs, blocks) && forall b <- x.blocks :: b in blocks
  }

  predicate AllInside(units: seq<Unit>, blocks: seq<Block>) {
    forall i :: 0 <= i < |units| ==> PieceInside(units[i], blocks)
  }

  lemma GuardedInside(x: Unit, blocks: seq<Block>, budget: nat)
    requires PieceInside(x, blocks)
    ensures Inside(Guarded(x, budget).refs, blocks)
  {
    KeptInside(x.blocks, budget);
    hide Kept;
  }

  lemma {:induction false} GuardedAllInside(units: seq<Unit>, blocks: seq<Block>, budget: nat)
    requires AllInside(units, blocks)
    ensures Inside(AllRefs(GuardedAll(units, budget)), blocks)
  {
    hide Guarded, PieceInside, Ids;
    if units != [] {
      assert PieceInside(units[0], blocks);
      GuardedInside(units[0], blocks, budget);
      GuardedAllInside(units[1..], blocks, budget);
      assert GuardedAll(units, budget)[1..] == GuardedAll(units[1..], budget);
    }
  }

  lemma {:induction false} SplitBlocksInside(part: seq<Block>, budget: nat, blocks: seq<Block>)
    requires budget >= 1 && forall b <- part :: b in blocks
    ensures AllInside(SplitBlocks(part, budget), blocks)
  {
    if part != [] {
      SplitBlockInside(part[0], budget, blocks);
      SplitBlocksInside(part[1..], budget, blocks);
      hide SplitBlock, PieceInside;
    }
  }

  lemma SplitBlockInside(b: Block, budget: nat, blocks: seq<Block>)
    requires budget >= 1 && b in blocks
    ensures AllInside(SplitBlock(b, budget), blocks)
  {
    hide Tokens, BlockText, SplitText;
  }

  lemma RowFragmentInside(u: Unit, frame: TableFrame, group: seq<string>, rows: RowRange)
    requires u.blocks != []
    ensures PieceInside(RowFragment(u, frame, group, rows), u.blocks)
  {
    hide Tokens, BlockText;
  }

  lemma PiecesInside(u: Unit, budget: nat)
    requires budget >= 1 && WellMade(u)
    ensures AllInside(PiecesOf(u, budget), u.blocks)
  {
    if u.tokens > budget {
      hide Tokens, Groups, Ranges, FrameOf, RowCount, PieceInside, RowFragment;
      if SplitsByRows(u) {
        var all := SplitOverlong(u, budget);
        forall i | 0 <= i < |all| ensures PieceInside(all[i], u.blocks) {
          var frame := FrameOf(u, budget);
          var groups := Groups(frame.lines, frame.fixed, budget);
          RowRangesGapFree(frame.lines, frame.fixed, budget, RowCount(u.blocks[0].content.cells).value);
          var ranges := Ranges(groups, RowCount(u.blocks[0].content.cells).value);
          RowFragmentInside(u, frame, groups[i], ranges[i]);
        }
      } else {
        SplitBlocksInside(u.blocks, budget, u.blocks);
      }
    } else {
      hide Tokens, BlockText;
    }
  }

  lemma UnitInside(u: Unit, budget: nat)
    requires budget >= 1 && WellMade(u)
    ensures Inside(UnitRefs(u, budget), u.blocks)
  {
    hide Tokens, Inside;
    PiecesInside(u, budget);
    GuardedAllInside(PiecesOf(u, budget), u.blocks, budget);
  }

  lemma InsideMore(refs: seq<SourceRef>, a: seq<Block>, b: seq<Block>)
    requires Inside(refs, a) || Inside(refs, b)
    ensures Inside(refs, a + b)
  {
    assert Ids(a + b) == Ids(a) + Ids(b);
  }

  lemma InsideAppend(c: seq<SourceRef>, a: seq<Block>, d: seq<SourceRef>, b: seq<Block>)
    requires Inside(c, a) && Inside(d, b)
    ensures Inside(c + d, a + b)
  {
    InsideMore(c, a, b);
    InsideMore(d, a, b);
  }

  predicate AllWellMade(units: seq<Unit>) { forall u <- units :: WellMade(u) }

  lemma {:induction false} UnitsTileExactly(units: seq<Unit>, budget: nat)
    requires budget >= 1 && AllWellMade(units) && UniqueIds(AllBlocks(units))
    ensures var refs := AllRefs(GuardedAll(Pieces(units, budget), budget));
      && Inside(refs, AllBlocks(units))
      && (TilesBlocks(refs, AllBlocks(units)) <==> forall u <- units :: UnitKept(u, budget))
  {
    hide TilesBlocks, WellMade, UnitKept, PiecesOf, Guarded, Inside, UniqueIds;
    if units == [] {
      TilesNone();
      NoneInside([]);
    } else {
      var u, rest := units[0], units[1..];
      assert u in units;
      UniqueParts(u.blocks, AllBlocks(rest));
      UnitsTileExactly(rest, budget);
      UnitTilesExactly(u, budget);
      UnitInside(u, budget);
      var mine, others := UnitRefs(u, budget), AllRefs(GuardedAll(Pieces(rest, budget), budget));
      GuardedAppend(PiecesOf(u, budget), Pieces(rest, budget), budget);
      TilesAppendExactly(mine, u.blocks, others, AllBlocks(rest));
      InsideAppend(mine, u.blocks, others, AllBlocks(rest));
      assert forall v :: v in units <==> v == u || v in rest;
    }
  }

  lemma WellMadeCounted(units: seq<Unit>)
    requires AllWellMade(units)
    ensures AllCounted(units)
  {
    forall i | 0 <= i < |units| ensures units[i].tokens == Tokens(units[i].body) { assert WellMade(units[i]); }
  }

  /** The chunks of a section keep every block's whole text exactly once if and only if every unit fits,
      or is not split by rows and its sentences split. */
  lemma SectionTilesExactly(units: seq<Unit>, base: nat, f: Frame)
    requires AllWellMade(units) && UniqueIds(AllBlocks(units))
    ensures Inside(ChunkRefs(ChunkUnits(units, base, f)), AllBlocks(units))
    ensures TilesBlocks(ChunkRefs(ChunkUnits(units, base, f)), AllBlocks(units)) <==>
      forall u <- units :: UnitKept(u, BodyBudget(f))
  {
    hide TilesBlocks, WellMade, UnitKept, ChunkUnits, Inside, UniqueIds;
    BudgetPositive(f);
    WellMadeCounted(units);
    SectionRefs(units, base, f);
    UnitsTileExactly(units, BodyBudget(f));
  }
}
