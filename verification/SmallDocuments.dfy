/** Documents of a single item, from the parser's result to the chunks, on which a promise of the
    chunker's documentation fails. */
module SmallDocuments {
  import opened Prelude
  import opened TokenCounter
  import opened Schema
  import Splitting
  import TableRows
  import opened Units
  import opened Trimming
  import opened Chunker
  import opened ChunkCoverage
  import opened Normalizer

  // ------------------------------------------------------------ one item, one block, one unit

  function BlockFor(item: Item): Block { MakeBlock(item, 1, None).(order := 1) }

  function Parsed(item: Item): ParserResult { ParserResult(true, [item], Some(1)) }

  lemma OneGroup(item: Item, heights: map<int, real>)
    requires item.kind.Paragraph? || item.kind.Table?
    ensures SortItems([item]) == [item] && Groups([item], heights) == [[item]]
  {
    var items := [item];
    assert items[..0] == [];
    assert SortItems(items) == InsertItem(SortItems([]), item) == [item];
    assert GroupsFrom(items, 1, [item], heights) == [[item]];
    assert GroupsFrom(items, 0, [], heights) == Close([]) + GroupsFrom(items, 1, [item], heights);
  }

  lemma OneLinked(b: Block)
    requires !b.kind.Caption? && b.captionIds == []
    ensures Numbered(Linked([b])) == [b.(order := 1)]
  {
    var blocks := [b];
    assert BlockIds(blocks[1..RunEnd(blocks, 1)]) == [];
    assert Linked(blocks)[0] == b;
  }

  lemma OneBlock(item: Item, heights: map<int, real>)
    requires (item.kind.Paragraph? || item.kind.Table?) && item.page > 0
    ensures Normalize(Parsed(item), heights) == Output(1, [], [BlockFor(item)])
  {
    OneGroup(item, heights);
    var groups := [[item]];
    assert groups[..0] == [];
    var made := MakeBlock(item, 1, None);
    assert [item][1..] == [];
    var merged := MergedBlock([item], 1, None);
    assert ProvenancePages(made.provenance) == {item.page};
    assert merged == made;
    assert AddAll(groups) == AddGroup(AddAll(groups[..0]), [item]) == State([merged], [], [], None);
    OneLinked(merged);
  }

  lemma OneUnit(b: Block)
    requires !b.kind.Caption? && b.captionIds == []
    ensures BuildUnits([b]) == [TextUnit(b)]
  {
    var blocks := [b];
    assert blocks[..0] == [];
    assert Captions(blocks) == [];
    var children := ChildrenById(blocks, []);
    assert Listed([], b.captionIds) == [] && Children(b, []) == [];
    assert ChildrenById(blocks[..0], []) == map[];
    assert ChildrenOf(b, children) == [];
    assert [b] + [] == [b] && [b.kind] + Kinds([]) == [b.kind] && [WholeRef(b)] + CaptionRefs([]) == [WholeRef(b)];
    assert StructuredUnit(b, []) == TextUnit(b);
    assert MainUnits(blocks, children) == MainUnits([], children) + [TextUnit(b)];
    assert LooseCaptions(blocks, BoundIds(blocks, children)) == LooseCaptions([], BoundIds(blocks, children));
  }

  /** The frame of blocks outside all sections. */
  function BareFrame(config: ChunkConfig): Frame { Frame(config, None, [], [], false) }

  lemma OneBuild(b: Block, config: ChunkConfig)
    requires !b.kind.Caption? && b.captionIds == [] && b.section == None
    ensures Acyclic(ById([])) && Build([b], [], config) == ChunkUnits([TextUnit(b)], 0, BareFrame(config))
  {
    var byId := ById([]);
    assert Ranked(byId, map[]);
    var blocks := [b];
    assert blocks[..0] == [];
    assert Order(blocks) == [None] && Bucket(blocks, None) == blocks;
    OneUnit(b);
    assert SectionFrame(None, byId, config) == BareFrame(config);
    hide Acyclic, ChunkUnits, BuildUnits, SectionFrame;
    assert BuildFrom([None], blocks, byId, config, 0)
      == SectionChunks(None, blocks, byId, config, 0) + BuildFrom([None][1..], blocks, byId, config,
           0 + |SectionChunks(None, blocks, byId, config, 0)|);
  }

  // ------------------------------------------------------------ a fragment that starts again

  const LOPSIDED := "aaaa b c d"
  const CAP_OF_TWO := ChunkConfig(1, 2, 2, "1")

  const PARAGRAPH := Item(Paragraph, LOPSIDED, 1, 1, None, None, "item-1", 0, None, NO_CONTENT)

  lemma LopsidedSentence()
    ensures Splitting.Sentences(LOPSIDED) == [Splitting.Span(0, 10)]
  {
    assert Splitting.SentencesFrom(LOPSIDED, 0, 8) == [Splitting.Span(0, 10)];
    assert Splitting.SentencesFrom(LOPSIDED, 0, 6) == Splitting.SentencesFrom(LOPSIDED, 0, 8);
    assert Splitting.SentencesFrom(LOPSIDED, 0, 4) == Splitting.SentencesFrom(LOPSIDED, 0, 6);
    assert Splitting.SentencesFrom(LOPSIDED, 0, 2) == Splitting.SentencesFrom(LOPSIDED, 0, 4);
  }

  lemma LopsidedTokens()
    ensures Tokens(LOPSIDED) == 4 && Tokens(LOPSIDED[..7]) == 2 && Tokens(LOPSIDED[..8]) == 3
    ensures Tokens(LOPSIDED[0..5]) == 1 && Tokens(LOPSIDED[5..10]) == 3
  {
    var t := LOPSIDED;
    assert TokensBelow(t, 2) == 1;
    assert TokensBelow(t, 4) == 1;
    assert TokensBelow(t, 5) == 1;
    assert TokensBelow(t, 7) == 2;
    assert TokensBelow(t, 8) == 3;
    assert TokensBelow(t, 10) == 4;
    TokensBelowIsPrefix(t, 5, 5);
    TokensBelowIsPrefix(t, 7, 7);
    TokensBelowIsPrefix(t, 8, 8);
    assert t[0..5] == t[..5] == "aaaa ";
    assert t[..5] + t[5..10] == t;
    CutExact(t[..5], t[5..10]);
  }

  /** Four tokens at a limit of two make two windows of equal length, one token and three. */
  lemma LopsidedSplit()
    ensures Splitting.SplitText(LOPSIDED, 2) == [Splitting.Span(0, 5), Splitting.Span(5, 10)]
  {
    LopsidedSentence();
    LopsidedTokens();
    var t, whole := LOPSIDED, Splitting.Span(0, 10);
    assert Splitting.Slice(t, whole) == t;
    hide Tokens;
    assert Splitting.Parts(0, 10, 0, 2, 5) == [Splitting.Span(0, 5), Splitting.Span(5, 10)];
    assert Splitting.Fragments(t, 2) == [whole];
    assert Splitting.RefineAll(t, [whole], 2)
      == Splitting.Refine(t, whole, 2) + Splitting.RefineAll(t, [whole][1..], 2);
  }

  lemma LopsidedPieces(b: Block)
    requires b.kind.Paragraph? && b.text == LOPSIDED
    ensures var pieces := Pieces([TextUnit(b)], 2);
      && |pieces| == 2 && pieces[0].refs == [SourceRef(b.id, 0, 5)] && pieces[0].tokens == 1
      && pieces[1] == FragmentUnit(b, Splitting.Span(5, 10)) && pieces[1].tokens == 3
  {
    LopsidedSplit();
    LopsidedTokens();
    hide Tokens, Splitting.SplitText;
    var u := TextUnit(b);
    var spans := [Splitting.Span(0, 5), Splitting.Span(5, 10)];
    assert SplitBlock(b, 2) == FragmentUnits(b, spans);
    assert SplitBlocks([b], 2) == SplitBlock(b, 2) + SplitBlocks([b][1..], 2) == SplitBlock(b, 2);
    assert PiecesOf(u, 2) == SplitBlock(b, 2);
    assert Pieces([u], 2) == PiecesOf(u, 2) + Pieces([u][1..], 2) == PiecesOf(u, 2);
  }

  lemma LopsidedPrefix()
    ensures LongestFitting(LOPSIDED, 10, 2) == 7
  {
    LopsidedTokens();
    hide Tokens;
    var k := LongestFitting(LOPSIDED, 10, 2);
    if k > 7 { PrefixMonotone(LOPSIDED, 8, k); }
  }

  /** The guard trims the second fragment to the longest beginning of the whole block. */
  lemma LopsidedTrimmed(b: Block)
    requires b.kind.Paragraph? && b.text == LOPSIDED
    ensures TrimUnit(FragmentUnit(b, Splitting.Span(5, 10)), 2).refs == [SourceRef(b.id, 0, 7)]
  {
    LopsidedTokens();
    LopsidedPrefix();
    hide Tokens, LongestFitting;
    assert Kept([b], 2) == Partial(b, 2) == [(b, 7)];
  }

  lemma LopsidedChunks(b: Block)
    requires b.kind.Paragraph? && b.text == LOPSIDED
    ensures ChunkRefs(ChunkUnits([TextUnit(b)], 0, BareFrame(CAP_OF_TWO)))
      == [SourceRef(b.id, 0, 5), SourceRef(b.id, 0, 7)]
  {
    hide Tokens, ChunkUnits, ChunkRefs, TrimUnit, Pieces, FragmentUnit;
    var f := BareFrame(CAP_OF_TWO);
    LopsidedPieces(b);
    LopsidedTrimmed(b);
    NoTokens();
    SectionRefs([TextUnit(b)], 0, f);
    var pieces := Pieces([TextUnit(b)], 2);
    var g := GuardedAll(pieces, 2);
    assert g == [Guarded(pieces[0], 2), Guarded(pieces[1], 2)];
    assert AllRefs(g) == g[0].refs + AllRefs(g[1..]) == g[0].refs + (g[1].refs + AllRefs(g[1..][1..]));
  }

  /** A paragraph of four words at a cap of two tokens: the second chunk starts again at the beginning
      of the block, so the first word is in both chunks and the last two are in none. */
  lemma FragmentStartsAgain(heights: map<int, real>)
    ensures var out := Normalize(Parsed(PARAGRAPH), heights);
      && |out.blocks| == 1 && out.blocks[0].text == LOPSIDED && Acyclic(ById(out.sections))
      && ChunkRefs(Build(out.blocks, out.sections, CAP_OF_TWO)) == [SourceRef(1, 0, 5), SourceRef(1, 0, 7)]
  {
    hide Normalize, Build, Acyclic, ChunkUnits, ChunkRefs, ById;
    OneBlock(PARAGRAPH, heights);
    OneBuild(BlockFor(PARAGRAPH), CAP_OF_TWO);
    LopsidedChunks(BlockFor(PARAGRAPH));
  }

  lemma NoTokens()
    ensures Tokens(Join(ARROW, [])) == 0
  {
  }

  // ------------------------------------------------------------ a row in two chunks

  const GRID := Item(Table, "", 1, 1, None, None, "item-1", 0, None,
    Schema.Content(Some("h\n-\na\nb\nc"), None, [Row(0), Row(1)]))

  lemma FirstLine(s: string)
    requires |s| >= 2 && s[0] != '\n' && s[1] == '\n'
    ensures Split(s, "\n") == [[s[0]]] + Split(s[2..], "\n")
  {
    assert s[0..1][0] != '\n' && s[1..2] == "\n";
    assert FindFrom(s, "\n", 0) == FindFrom(s, "\n", 1) == 1;
    assert s[..1] == [s[0]] && s[1 + |"\n"|..] == s[2..];
  }

  lemma LastLine(c: char)
    requires c != '\n'
    ensures Split([c], "\n") == [[c]]
  {
    var s := [c];
    assert s[0..1][0] != '\n';
    assert FindFrom(s, "\n", 0) == 1;
  }

  lemma GridLines()
    ensures Split("h\n-\na\nb\nc", "\n") == ["h", "-", "a", "b", "c"]
  {
    hide Split;
    FirstLine("h\n-\na\nb\nc");
    assert "h\n-\na\nb\nc"[2..] == "-\na\nb\nc";
    FirstLine("-\na\nb\nc");
    assert "-\na\nb\nc"[2..] == "a\nb\nc";
    FirstLine("a\nb\nc");
    assert "a\nb\nc"[2..] == "b\nc";
    FirstLine("b\nc");
    assert "b\nc"[2..] == "c";
    LastLine('c');
  }

  lemma GridTokens()
    ensures Tokens("h\n-\na\nb\nc") == 4 && Tokens("h\n-") == 1 && Tokens("") == 0
  {
    var t := "h\n-\na\nb\nc";
    assert TokensBelow(t, 2) == 1;
    assert TokensBelow(t, 4) == 1;
    assert TokensBelow(t, 6) == 2;
    assert TokensBelow(t, 8) == 3;
    assert TokensBelow(t, 9) == 4;
    assert TokensBelow("h\n-", 2) == 1;
  }

  lemma GridFrame(b: Block)
    requires b.kind.Table? && b.text == GRID.content.markdown.value && b.content == GRID.content
    ensures TextUnit(b).tokens == 4 && SplitsByRows(TextUnit(b))
    ensures FrameOf(TextUnit(b), 2) == TableFrame(["h", "-"], ["a", "b", "c"], "", true, 1)
    ensures TableRows.RowCount(b.content.cells) == Some(2)
  {
    GridLines();
    GridTokens();
    hide Tokens, Split;
    assert [Row(0), Row(1)][1..] == [Row(1)];
    assert TableRows.Rows([Row(1)]) == [1];
    assert TableRows.Rows([Row(0), Row(1)]) == [0] + [1] == [0, 1];
    var all := ["h", "-", "a", "b", "c"];
    assert all[..2] == ["h", "-"] && all[2..] == ["a", "b", "c"];
    assert Join("\n", ["h", "-"]) == "h" + "\n" + Join("\n", ["h", "-"][1..]) == "h\n-";
    assert [b][1..] == [] && Join(GAP, Texts([])) == "";
  }

  lemma GridFragments(b: Block)
    requires b.kind.Table? && b.text == GRID.content.markdown.value && b.content == GRID.content
    ensures TextUnit(b).tokens == 4
    ensures var fragments := SplitOverlong(TextUnit(b), 2);
      && |fragments| == 3 && fragments[0].rows == Some(RowRange(0, 1))
      && fragments[1].rows == Some(RowRange(1, 2)) && fragments[2].rows == Some(RowRange(1, 2))
  {
    GridFrame(b);
    TableRows.LastRowMayOverlap();
    hide Tokens, Split, FrameOf, SplitsByRows, TableRows.Groups, TableRows.Ranges, TableRows.RowCount;
  }

  lemma GridChunks(b: Block)
    requires b.kind.Table? && b.text == GRID.content.markdown.value && b.content == GRID.content
    ensures var chunks := ChunkUnits([TextUnit(b)], 0, BareFrame(CAP_OF_TWO));
      && |chunks| == 3 && chunks[0].rows == Some(RowRange(0, 1))
      && chunks[1].rows == Some(RowRange(1, 2)) && chunks[2].rows == Some(RowRange(1, 2))
  {
    hide Tokens, EmitEach, SplitOverlong, TextUnit;
    var u, f := TextUnit(b), BareFrame(CAP_OF_TWO);
    GridFragments(b);
    NoTokens();
    var fragments := SplitOverlong(u, 2);
    var none: seq<Chunk> := [];
    EmitEachRows(none, fragments, 0, f);
    assert BodyBudget(f) == 2;
    var p := Packing([], [], 0);
    var all := EmitEach([], fragments, 0, f);
    assert PackOne(p, u, 0, f) == Packing(all, [], 0);
    assert PackAll(p, [u], 0, f) == PackAll(PackOne(p, u, 0, f), [u][1..], 0, f) == all;
    assert all[0].rows == all[|none| + 0].rows == fragments[0].rows;
    assert all[1].rows == all[|none| + 1].rows == fragments[1].rows;
    assert all[2].rows == all[|none| + 2].rows == fragments[2].rows;
  }

  /** A table of two rows printed on three lines, at a cap of two tokens: three chunks, of which the
      last two claim the same row. */
  lemma RowInTwoChunks(heights: map<int, real>)
    ensures var out := Normalize(Parsed(GRID), heights);
      Acyclic(ById(out.sections))
      && var chunks := Build(out.blocks, out.sections, CAP_OF_TWO);
         && |chunks| == 3 && chunks[0].rows == Some(RowRange(0, 1))
         && chunks[1].rows == Some(RowRange(1, 2)) && chunks[2].rows == Some(RowRange(1, 2))
  {
    hide Normalize, Build, Acyclic, ChunkUnits, ById;
    OneBlock(GRID, heights);
    OneBuild(BlockFor(GRID), CAP_OF_TWO);
    GridChunks(BlockFor(GRID));
  }
}
