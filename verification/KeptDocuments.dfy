/** Exactly which documents keep every character in their chunks, read off the canonical blocks: their
    sentences, and the tables with their captions (src/transit_scholar/layer2/chunker.py:200-267). */
module KeptDocuments {
  import opened Prelude
  import opened TokenCounter
  import opened Schema
  import opened Splitting
  import opened Units
  import opened Trimming
  import opened Chunker
  import opened ChunkGuarantees
  import opened ChunkCoverage
  import opened UnitCoverage
  import opened Normalizer
  import opened NormalizerGuarantees
  import opened CaptionBinding
  import opened Composition

  /** The block has a header and readable rows to be split by. */
  predicate RowTable(b: Block) { SplitsByRows(TextUnit(b)) }

  /** The table fits together with the captions that follow it. */
  predicate TableFits(seg: seq<Block>, i: nat, budget: nat)
    requires i < |seg|
  {
    Tokens(BlockText(seg[i])) + SumTokens(Texts(Run(seg, i))) <= budget
  }

  /** The sentences of the block split into windows within the budget, and as a table with rows it fits
      as a whole. */
  predicate BlockKept(seg: seq<Block>, i: nat, budget: nat)
    requires i < |seg| && budget >= 1
  {
    SentencesSplit(seg[i], budget) && (RowTable(seg[i]) ==> TableFits(seg, i, budget))
  }

  predicate SegmentKept(seg: seq<Block>, budget: nat)
    requires budget >= 1
  {
    forall i :: 0 <= i < |seg| ==> BlockKept(seg, i, budget)
  }

  // ------------------------------------------------------------ from units to blocks

  lemma {:induction false} PartAtMost(blocks: seq<Block>, b: Block)
    requires b in blocks
    ensures Tokens(BlockText(b)) <= SumTokens(BlockTexts(blocks))
  {
    hide Tokens, BlockText;
    assert BlockTexts(blocks)[1..] == BlockTexts(blocks[1..]);
    if b != blocks[0] { PartAtMost(blocks[1..], b); }
  }

  lemma KeptByBlocks(u: Unit, budget: nat)
    requires budget >= 1 && WellMade(u)
    ensures UnitKept(u, budget) <==>
      (SplitsByRows(u) ==> u.tokens <= budget) && forall b <- u.blocks :: SentencesSplit(b, budget)
  {
    hide Tokens, BlockText, SplitsByRows, SentencesSplit;
    if u.tokens <= budget {
      forall b | b in u.blocks ensures SentencesSplit(b, budget) {
        PartAtMost(u.blocks, b);
        ShortTextSplits(b, budget);
      }
    }
  }

  predicate RowUnitsFit(units: seq<Unit>, budget: nat) { forall u <- units :: SplitsByRows(u) ==> u.tokens <= budget }

  lemma {:induction false} InAllBlocks(units: seq<Unit>, b: Block)
    ensures b in AllBlocks(units) <==> exists u :: u in units && b in u.blocks
  {
    if units != [] {
      InAllBlocks(units[1..], b);
      assert forall v :: v in units <==> v == units[0] || v in units[1..];
    }
  }

  lemma UnitsKeptByBlocks(units: seq<Unit>, budget: nat)
    requires budget >= 1 && AllWellMade(units)
    ensures (forall u <- units :: UnitKept(u, budget)) <==>
      RowUnitsFit(units, budget) && forall b <- AllBlocks(units) :: SentencesSplit(b, budget)
  {
    hide WellMade, UnitKept, SplitsByRows, SentencesSplit, AllBlocks;
    forall u | u in units
      ensures UnitKept(u, budget) <==>
        (SplitsByRows(u) ==> u.tokens <= budget) && forall b <- u.blocks :: SentencesSplit(b, budget)
    {
      KeptByBlocks(u, budget);
    }
    forall b ensures b in AllBlocks(units) <==> exists u :: u in units && b in u.blocks { InAllBlocks(units, b); }
  }

  // ------------------------------------------------------------ the tables of a section

  predicate TablesFit(seg: seq<Block>, n: nat, budget: nat)
    requires n <= |seg|
  {
    forall i :: 0 <= i < n && RowTable(seg[i]) ==> TableFits(seg, i, budget)
  }

  lemma StructuredRows(seg: seq<Block>, m: nat, budget: nat)
    requires m < |seg|
    ensures var u := StructuredUnit(seg[m], Run(seg, m));
      (SplitsByRows(u) <==> RowTable(seg[m])) && (u.tokens <= budget <==> TableFits(seg, m, budget))
  {
    var run := Run(seg, m);
    assert StructuredUnit(seg[m], run).blocks[0] == TextUnit(seg[m]).blocks[0];
    hide BlockText, Tokens;
    SeparatorsAreNeutral();
    if run != [] {
      JoinTokens(GAP, Texts(run));
      AcrossSeparator(BlockText(seg[m]), GAP, Join(GAP, Texts(run)));
    }
  }

  lemma {:induction false} MainRows(seg: seq<Block>, n: nat, budget: nat)
    requires SelfLinked(seg) && n <= |seg|
    ensures RowUnitsFit(MainUnits(seg[..n], ChildrenById(seg, Captions(seg))), budget) <==> TablesFit(seg, n, budget)
  {
    hide ChildrenById, Captions, SelfLinked, StructuredUnit, TextUnit, TableFits, SplitsByRows, RowTable;
    var children := ChildrenById(seg, Captions(seg));
    if n > 0 {
      var m := n - 1;
      MainRows(seg, m, budget);
      assert seg[..n][..m] == seg[..m];
      if IsStructured(seg[m].kind) {
        BoundChildren(seg, m);
        StructuredRows(seg, m, budget);
      } else {
        NotRowTable(seg[m]);
      }
    }
  }

  lemma NotRowTable(b: Block)
    requires !b.kind.Table?
    ensures !RowTable(b) && !SplitsByRows(TextUnit(b))
  {
  }

  lemma {:induction false} LooseRows(bs: seq<Block>, bound: set<nat>, budget: nat)
    ensures RowUnitsFit(LooseCaptions(bs, bound), budget)
  {
    if bs != [] { LooseRows(bs[..|bs| - 1], bound, budget); }
  }

  lemma SectionRows(seg: seq<Block>, budget: nat)
    requires SelfLinked(seg)
    ensures RowUnitsFit(BuildUnits(seg), budget) <==> TablesFit(seg, |seg|, budget)
  {
    hide SelfLinked, MainUnits, LooseCaptions, SplitsByRows, TableFits, RowTable;
    assert seg[..|seg|] == seg;
    MainRows(seg, |seg|, budget);
    LooseRows(seg, BoundIds(seg, ChildrenById(seg, Captions(seg))), budget);
  }

  lemma SegmentParts(seg: seq<Block>, budget: nat)
    requires budget >= 1
    ensures SegmentKept(seg, budget) <==>
      TablesFit(seg, |seg|, budget) && forall b <- seg :: SentencesSplit(b, budget)
  {
    if SegmentKept(seg, budget) {
      forall i | 0 <= i < |seg|
        ensures SentencesSplit(seg[i], budget) && (RowTable(seg[i]) ==> TableFits(seg, i, budget))
      {
        assert BlockKept(seg, i, budget);
      }
    }
  }

  lemma SegmentKeptExactly(seg: seq<Block>, budget: nat)
    requires budget >= 1 && SelfLinked(seg)
    ensures (forall u <- BuildUnits(seg) :: UnitKept(u, budget)) <==> SegmentKept(seg, budget)
  {
    hide SelfLinked, BuildUnits, UnitKept, SentencesSplit, AllWellMade, RowUnitsFit, TablesFit, SegmentKept;
    SegmentParts(seg, budget);
    UnitsWellMade(seg);
    UnitsKeptByBlocks(BuildUnits(seg), budget);
    EveryBlockInOneUnit(seg);
    SectionRows(seg, budget);
    var placed := AllBlocks(BuildUnits(seg));
    forall b ensures b in placed <==> b in seg { assert b in multiset(placed) <==> b in multiset(seg); }
  }

  // ------------------------------------------------------------ whole documents

  /** Section s keeps its blocks within what its prefix leaves of the cap. */
  ghost predicate BlocksKept(s: Option<nat>, blocks: seq<Block>, byId: map<nat, Section>, config: ChunkConfig)
    requires Acyclic(byId)
  {
    SegmentKept(Bucket(blocks, s), Budget(s, byId, config))
  }

  lemma SectionKeptByBlocks(s: Option<nat>, blocks: seq<Block>, byId: map<nat, Section>, config: ChunkConfig)
    requires Acyclic(byId) && SelfLinked(Bucket(blocks, s))
    ensures SectionKept(s, blocks, byId, config) <==> BlocksKept(s, blocks, byId, config)
  {
    SegmentKeptExactly(Bucket(blocks, s), Budget(s, byId, config));
  }

  /** Main result: for every parser result, the references of the chunks tile the whole text of every
      block exactly once if and only if, in every section, each sentence above what the prefix leaves
      cuts into windows within it and each table with rows fits together with its captions. */
  lemma DocumentKeptExactly(result: ParserResult, heights: map<int, real>, config: ChunkConfig)
    ensures var out := Normalize(result, heights);
      var byId := ById(out.sections);
      var placed := UnitBlocksOf(Order(out.blocks), out.blocks);
      && Acyclic(byId) && multiset(placed) == multiset(out.blocks)
      && (TilesBlocks(ChunkRefs(Build(out.blocks, out.sections, config)), placed) <==>
        forall s <- Order(out.blocks) :: BlocksKept(s, out.blocks, byId, config))
  {
    NormalizedNothingLost(result, heights, config);
    DocumentShape(result, heights);
    DocumentLinked(result, heights);
    var out := Normalize(result, heights);
    hide Normalize, Acyclic, SectionKept, BlocksKept, TilesBlocks, UnitBlocksOf, Concatenated, Build, Order, ById,
         Sectioned, Ordered, FullyLinked, SelfLinked, Bucket;
    forall s | s in Order(out.blocks)
      ensures SectionKept(s, out.blocks, ById(out.sections), config)
        <==> BlocksKept(s, out.blocks, ById(out.sections), config)
    {
      SectionNotZero(out.blocks, s);
      SectionSelfLinked(out.blocks, s);
      SectionKeptByBlocks(s, out.blocks, ById(out.sections), config);
    }
  }
}
