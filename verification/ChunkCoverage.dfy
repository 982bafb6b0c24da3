/** What chunks reference: every piece of every unit in order, an overlong one trimmed from the beginning
    of its blocks. So nothing is lost exactly when every piece fits. */
module ChunkCoverage {
  import opened Prelude
  import opened TokenCounter
  import opened Schema
  import opened Splitting
  import opened TableRows
  import opened Units
  import opened Trimming
  import opened Chunker

  /** What a unit contributes: itself when it fits, otherwise its fragments. */
  function PiecesOf(u: Unit, budget: nat): seq<Unit>
    requires budget >= 1
  {
    if u.tokens <= budget then [u] else SplitOverlong(u, budget)
  }

  function Pieces(units: seq<Unit>, budget: nat): seq<Unit>
    requires budget >= 1
  {
    if units == [] then [] else PiecesOf(units[0], budget) + Pieces(units[1..], budget)
  }

  function ChunkRefs(chunks: seq<Chunk>): seq<SourceRef> {
    if chunks == [] then [] else chunks[0].refs + ChunkRefs(chunks[1..])
  }

  lemma {:induction false} ChunkRefsAppend(a: seq<Chunk>, b: seq<Chunk>)
    ensures ChunkRefs(a + b) == ChunkRefs(a) + ChunkRefs(b)
  {
    if a == [] {
      assert a + b == b;
    } else {
      assert (a + b)[1..] == a[1..] + b;
      ChunkRefsAppend(a[1..], b);
    }
  }

  /** Every unit is counted correctly and fits. */
  predicate AllFit(units: seq<Unit>, budget: nat) {
    forall i :: 0 <= i < |units| ==> units[i].tokens == Tokens(units[i].body) <= budget
  }

  lemma {:induction false} AllRefsAppend(a: seq<Unit>, b: seq<Unit>)
    ensures AllRefs(a + b) == AllRefs(a) + AllRefs(b)
  {
    if a == [] {
      assert a + b == b;
    } else {
      assert (a + b)[1..] == a[1..] + b;
      AllRefsAppend(a[1..], b);
    }
  }

  // ------------------------------------------------------------ the guard stays silent

  function SumUnits(units: seq<Unit>): nat {
    if units == [] then 0 else SumUnits(units[..|units| - 1]) + units[|units| - 1].tokens
  }

  lemma {:induction false} SumUnitsIsBody(units: seq<Unit>, budget: nat)
    requires AllFit(units, budget)
    ensures SumTokens(Bodies(units)) == SumUnits(units)
  {
    if units != [] {
      var n := |units| - 1;
      SumUnitsIsBody(units[..n], budget);
      assert Bodies(units) == Bodies(units[..n]) + [units[n].body];
      SumTokensAppend(Bodies(units[..n]), [units[n].body]);
      assert [units[n].body][1..] == [];
    }
  }

  /** The prefix leaves room for a body. */
  predicate Roomy(f: Frame) { Tokens(Join(ARROW, f.items)) < f.config.hardMax }

  /** Units within the body budget are kept as they are, and beside a prefix that leaves room the
      guard does not even fire. */
  lemma FittingIsUntrimmed(units: seq<Unit>, id: nat, f: Frame)
    requires units != [] && AllFit(units, BodyBudget(f)) && SumUnits(units) <= BodyBudget(f)
    ensures Roomy(f) ==> !GuardFires(units, f)
    ensures Assemble(units, id, f).refs == AllRefs(units)
    ensures Assemble(units, id, f).body == Join(GAP, Bodies(units))
  {
    hide Tokens, Distinct;
    SumUnitsIsBody(units, BodyBudget(f));
    SeparatorsAreNeutral();
    JoinTokens(GAP, Bodies(units));
    WithPrefixTokens(Join(ARROW, f.items), Join(GAP, Bodies(units)));
    assert DropTail(units, BodyBudget(f)) == units;
  }

  // ------------------------------------------------------------ what packing does with each piece

  /** A piece within the budget is kept, any other is trimmed from the beginning of its blocks. */
  function Guarded(u: Unit, budget: nat): Unit { if u.tokens <= budget then u else TrimUnit(u, budget) }

  function GuardedAll(units: seq<Unit>, budget: nat): seq<Unit> {
    seq(|units|, i requires 0 <= i < |units| => Guarded(units[i], budget))
  }

  lemma GuardedAppend(a: seq<Unit>, b: seq<Unit>, budget: nat)
    ensures AllRefs(GuardedAll(a + b, budget)) == AllRefs(GuardedAll(a, budget)) + AllRefs(GuardedAll(b, budget))
  {
    hide Guarded;
    AllRefsAppend(GuardedAll(a, budget), GuardedAll(b, budget));
    assert GuardedAll(a + b, budget) == GuardedAll(a, budget) + GuardedAll(b, budget);
  }

  lemma SingleTrimmed(u: Unit, budget: nat)
    requires u.tokens == Tokens(u.body) > budget
    ensures TrimBody([u], budget) == [TrimUnit(u, budget)]
  {
    hide Tokens, TrimUnit;
    assert Bodies([u]) == [u.body];
    assert DropTail([u], budget) == [u] && [u][..0] == [];
  }

  lemma SingleContent(u: Unit)
    ensures AllRefs([u]) == u.refs && Join(GAP, Bodies([u])) == u.body
  {
    assert AllRefs([u]) == u.refs + AllRefs([u][1..]);
  }

  lemma OverlongContent(u: Unit, f: Frame)
    requires u.tokens == Tokens(u.body) > BodyBudget(f)
    ensures var t := TrimUnit(u, BodyBudget(f));
      Chunker.Content([u], f).refs == t.refs && Chunker.Content([u], f).body == t.body
  {
    hide Tokens, TrimUnit, TrimBody, Bodies, AllRefs, ShortenPrefix;
    var prefix := Join(ARROW, f.items);
    SingleContent(u);
    SingleTrimmed(u, BodyBudget(f));
    SingleContent(TrimUnit(u, BodyBudget(f)));
    WithPrefixTokens(prefix, u.body);
    hide WithPrefix, Join;
    assert GuardFires([u], f);
    assert TrimBudget(prefix, f.config.hardMax) == BodyBudget(f);
  }

  lemma AssembledContent(units: seq<Unit>, id: nat, f: Frame)
    requires units != []
    ensures Assemble(units, id, f).refs == Chunker.Content(units, f).refs
    ensures Assemble(units, id, f).body == Chunker.Content(units, f).body
  {
    hide Chunker.Content, PagesOf, Distinct, Tokens;
  }

  /** The chunk of a single unit holds the guarded unit: all of it exactly when it is within the
      body budget. */
  lemma SingleExact(u: Unit, id: nat, f: Frame)
    requires u.tokens == Tokens(u.body)
    ensures var c, g := Assemble([u], id, f), Guarded(u, BodyBudget(f)); c.refs == g.refs && c.body == g.body
    ensures Assemble([u], id, f).body == u.body <==> u.tokens <= BodyBudget(f)
  {
    hide Tokens, BodyBudget, Assemble, Chunker.Content, TrimUnit;
    if u.tokens <= BodyBudget(f) {
      SingleContent(u);
      assert SumUnits([u]) == SumUnits([u][..0]) + u.tokens;
      FittingIsUntrimmed([u], id, f);
    } else {
      TrimUnitFits(u, BodyBudget(f));
      OverlongContent(u, f);
      AssembledContent([u], id, f);
    }
  }

  /** The buffer is within budget and counted. */
  predicate BufferOk(p: Packing, budget: nat) {
    AllFit(p.buffer, budget) && p.bufferTokens == SumUnits(p.buffer) && p.bufferTokens <= budget
  }

  predicate AllCounted(units: seq<Unit>) { forall i :: 0 <= i < |units| ==> units[i].tokens == Tokens(units[i].body) }

  lemma ChunkRefsSnoc(chunks: seq<Chunk>, c: Chunk)
    ensures ChunkRefs(chunks + [c]) == ChunkRefs(chunks) + c.refs
  {
    ChunkRefsAppend(chunks, [c]);
    assert ChunkRefs([c]) == c.refs + ChunkRefs([c][1..]) == c.refs;
  }

  lemma FlushKeeps(p: Packing, base: nat, f: Frame)
    requires BufferOk(p, BodyBudget(f))
    ensures var q := Flush(p, base, f);
      q.buffer == [] && BufferOk(q, BodyBudget(f)) && ChunkRefs(q.chunks) == ChunkRefs(p.chunks) + AllRefs(p.buffer)
  {
    hide Assemble, BodyBudget, ChunkRefs;
    if p.buffer != [] {
      FittingIsUntrimmed(p.buffer, base + |p.chunks| + 1, f);
      ChunkRefsSnoc(p.chunks, Assemble(p.buffer, base + |p.chunks| + 1, f));
    }
  }

  lemma {:induction false} EmitEachRefs(chunks: seq<Chunk>, fragments: seq<Unit>, base: nat, f: Frame)
    requires AllCounted(fragments)
    ensures ChunkRefs(EmitEach(chunks, fragments, base, f))
      == ChunkRefs(chunks) + AllRefs(GuardedAll(fragments, BodyBudget(f)))
    decreases |fragments|
  {
    hide Assemble, BodyBudget, ChunkRefs, Guarded, Tokens;
    var budget := BodyBudget(f);
    if fragments != [] {
      SingleExact(fragments[0], base + |chunks| + 1, f);
      var c := Assemble([fragments[0]], base + |chunks| + 1, f);
      ChunkRefsSnoc(chunks, c);
      EmitEachRefs(chunks + [c], fragments[1..], base, f);
      assert GuardedAll(fragments, budget)[1..] == GuardedAll(fragments[1..], budget);
    }
  }

  lemma MakeRoomKeeps(p: Packing, tokens: nat, base: nat, f: Frame)
    requires BufferOk(p, BodyBudget(f)) && tokens <= BodyBudget(f)
    ensures var q := MakeRoom(p, tokens, base, f);
      && BufferOk(q, BodyBudget(f)) && q.bufferTokens + tokens <= BodyBudget(f)
      && ChunkRefs(q.chunks) + AllRefs(q.buffer) == ChunkRefs(p.chunks) + AllRefs(p.buffer)
  {
    hide BodyBudget, ChunkRefs, AllFit;
    FlushKeeps(p, base, f);
    FlushKeeps(Flush(p, base, f), base, f);
  }

  lemma BufferSnoc(p: Packing, u: Unit, budget: nat)
    requires BufferOk(p, budget) && p.bufferTokens + u.tokens <= budget && u.tokens == Tokens(u.body)
    ensures BufferOk(Packing(p.chunks, p.buffer + [u], p.bufferTokens + u.tokens), budget)
    ensures AllRefs(p.buffer + [u]) == AllRefs(p.buffer) + u.refs
  {
    assert (p.buffer + [u])[..|p.buffer|] == p.buffer;
    AllRefsAppend(p.buffer, [u]);
    assert AllRefs([u]) == u.refs + AllRefs([u][1..]);
  }

  lemma {:induction false} SplitBlocksCounted(blocks: seq<Block>, budget: nat)
    requires budget >= 1
    ensures AllCounted(SplitBlocks(blocks, budget))
  {
    hide Tokens, BlockText, SplitText;
    if blocks != [] { SplitBlocksCounted(blocks[1..], budget); }
  }

  lemma SplitCounted(u: Unit, budget: nat)
    requires budget >= 1
    ensures AllCounted(SplitOverlong(u, budget))
  {
    hide Tokens, Groups, Ranges, FrameOf, RowCount;
    SplitBlocksCounted(u.blocks, budget);
  }

  lemma PackOneRefs(p: Packing, u: Unit, base: nat, f: Frame)
    requires BufferOk(p, BodyBudget(f)) && u.tokens == Tokens(u.body)
    ensures var q := PackOne(p, u, base, f);
      && BufferOk(q, BodyBudget(f))
      && ChunkRefs(q.chunks) + AllRefs(q.buffer)
         == ChunkRefs(p.chunks) + AllRefs(p.buffer) + AllRefs(GuardedAll(PiecesOf(u, BodyBudget(f)), BodyBudget(f)))
  {
    BudgetPositive(f);
    hide BodyBudget, ChunkRefs, AllFit, Flush, MakeRoom, SplitOverlong, Tokens;
    var budget := BodyBudget(f);
    if u.tokens > budget {
      SplitCounted(u, budget);
      FlushKeeps(p, base, f);
      EmitEachRefs(Flush(p, base, f).chunks, SplitOverlong(u, budget), base, f);
    } else {
      MakeRoomKeeps(p, u.tokens, base, f);
      BufferSnoc(MakeRoom(p, u.tokens, base, f), u, budget);
      assert GuardedAll([u], budget) == [u];
      assert AllRefs([u]) == u.refs + AllRefs([u][1..]);
    }
  }

  lemma {:induction false} PackAllRefs(p: Packing, units: seq<Unit>, base: nat, f: Frame)
    requires BufferOk(p, BodyBudget(f)) && AllCounted(units)
    ensures ChunkRefs(PackAll(p, units, base, f))
      == ChunkRefs(p.chunks) + AllRefs(p.buffer) + AllRefs(GuardedAll(Pieces(units, BodyBudget(f)), BodyBudget(f)))
    decreases |units|
  {
    hide ChunkRefs, Flush, PackOne, PiecesOf, Tokens, GuardedAll, AllRefs, BufferOk, BodyBudget;
    BudgetPositive(f);
    var budget := BodyBudget(f);
    if units == [] {
      FlushKeeps(p, base, f);
      NothingGuarded(budget);
    } else {
      var mine, rest := PiecesOf(units[0], budget), Pieces(units[1..], budget);
      var q := PackOne(p, units[0], base, f);
      PackOneRefs(p, units[0], base, f);
      PackAllRefs(q, units[1..], base, f);
      GuardedAppend(mine, rest, budget);
      var before := ChunkRefs(p.chunks) + AllRefs(p.buffer);
      var m, r := AllRefs(GuardedAll(mine, budget)), AllRefs(GuardedAll(rest, budget));
      assert before + m + r == before + (m + r);
    }
  }

  lemma NothingGuarded(budget: nat)
    ensures AllRefs(GuardedAll([], budget)) == []
  {
  }

  /** For any units: the chunks of a section reference the guarded pieces of its units, each once and
      in order. */
  lemma SectionRefs(units: seq<Unit>, base: nat, f: Frame)
    requires AllCounted(units)
    ensures ChunkRefs(ChunkUnits(units, base, f))
      == AllRefs(GuardedAll(Pieces(units, BodyBudget(f)), BodyBudget(f)))
  {
    PackAllRefs(Packing([], [], 0), units, base, f);
  }

  // ------------------------------------------------------------ exactly when everything is kept

  /** The reference a chunk records for a piece: the piece's own, or a shorter one that starts at the
      beginning of the block. */
  predicate Shrunk(c: SourceRef, p: SourceRef) {
    c == p || (c.block == p.block && c.start == 0 && 0 < c.end < p.end)
  }

  predicate AllShrunk(c: seq<SourceRef>, p: seq<SourceRef>) {
    |c| == |p| && forall i :: 0 <= i < |c| ==> Shrunk(c[i], p[i])
  }

  /** A piece within the budget, or a fragment of one block. */
  predicate Piece(u: Unit, budget: nat) {
    && u.tokens == Tokens(u.body)
    && (u.tokens <= budget
        || (|u.blocks| == 1 && |u.refs| == 1
            && var b, r := u.blocks[0], u.refs[0];
               && r.block == b.id && r.start <= r.end <= |BlockText(b)| && u.body == BlockText(b)[r.start..r.end]
               && u.types == [b.kind] && u.caption.None? && u.rows.None?))
  }

  /** An overlong fragment restarts from the beginning of its block and ends before its own end. */
  lemma OverlongRestarts(u: Unit, budget: nat)
    requires budget >= 1 && Piece(u, budget) && u.tokens > budget
    ensures var refs := TrimUnit(u, budget).refs;
      |refs| == 1 && Shrunk(refs[0], u.refs[0]) && refs != u.refs
  {
    var b, r := u.blocks[0], u.refs[0];
    var text := BlockText(b);
    hide Tokens, BlockText, Partial;
    SliceAtMost(text, r.start, r.end);
    AtMostLength(text);
    assert Kept([b], budget) == Partial(b, budget);
    PartialIsLongest(b, budget);
    var k := Partial(b, budget)[0].1;
    if r.end <= k {
      PrefixMonotone(text, r.end, k);
      assert text[..r.end][r.start..r.end] == text[r.start..r.end];
      SliceAtMost(text[..r.end], r.start, r.end);
      assert false;
    }
    assert u.blocks == [b];
  }

  predicate AllPieces(units: seq<Unit>, budget: nat) { forall i :: 0 <= i < |units| ==> Piece(units[i], budget) }

  lemma {:induction false} GuardedShrinks(units: seq<Unit>, budget: nat)
    requires budget >= 1 && AllPieces(units, budget)
    ensures AllShrunk(AllRefs(GuardedAll(units, budget)), AllRefs(units))
    ensures AllRefs(GuardedAll(units, budget)) == AllRefs(units) <==> AllFit(units, budget)
  {
    hide Piece, Tokens, TrimUnit;
    if units != [] {
      var u, rest := units[0], units[1..];
      assert Piece(u, budget) && u.tokens == Tokens(u.body) by { PieceCounted(units, budget); }
      GuardedShrinks(rest, budget);
      assert GuardedAll(units, budget)[1..] == GuardedAll(rest, budget);
      if u.tokens > budget {
        OneRef(u, budget);
        OverlongRestarts(u, budget);
      }
      var mine, theirs := Guarded(u, budget).refs, u.refs;
      ShrunkAppend(mine, theirs, AllRefs(GuardedAll(rest, budget)), AllRefs(rest));
    }
  }

  lemma PieceCounted(units: seq<Unit>, budget: nat)
    requires AllPieces(units, budget)
    ensures AllCounted(units)
  {
  }

  lemma OneRef(u: Unit, budget: nat)
    requires Piece(u, budget) && u.tokens > budget
    ensures |u.refs| == 1
  {
  }

  lemma ShrunkAppend(c: seq<SourceRef>, p: seq<SourceRef>, d: seq<SourceRef>, q: seq<SourceRef>)
    requires AllShrunk(c, p) && AllShrunk(d, q)
    ensures AllShrunk(c + d, p + q)
    ensures c + d == p + q <==> c == p && d == q
  {
    var cd, pq := c + d, p + q;
    if cd == pq {
      assert c == cd[..|c|] && p == pq[..|c|] && d == cd[|c|..] && q == pq[|c|..];
    }
  }

  lemma WholePiece(b: Block, budget: nat)
    requires Tokens(BlockText(b)) <= budget
    ensures Piece(TextUnit(b), budget)
  {
  }

  lemma FragmentPiece(b: Block, s: Span, budget: nat)
    requires s.start <= s.end <= |BlockText(b)|
    ensures Piece(FragmentUnit(b, s), budget)
  {
  }

  lemma SplitBlockPieces(b: Block, budget: nat)
    requires budget >= 1
    ensures AllPieces(SplitBlock(b, budget), budget)
  {
    hide Tokens, BlockText, SplitText, Piece;
    SplitTextSound(BlockText(b), budget);
    if Tokens(BlockText(b)) <= budget {
      WholePiece(b, budget);
    } else {
      var spans := SplitText(BlockText(b), budget);
      forall i | 0 <= i < |spans| ensures Piece(SplitBlock(b, budget)[i], budget) {
        assert FitsOrLongSentence(BlockText(b), spans[i], budget);
        FragmentPiece(b, spans[i], budget);
      }
    }
  }

  lemma {:induction false} SplitBlocksArePieces(blocks: seq<Block>, budget: nat)
    requires budget >= 1
    ensures AllPieces(SplitBlocks(blocks, budget), budget)
  {
    hide Piece, SplitBlock;
    if blocks != [] {
      SplitBlockPieces(blocks[0], budget);
      SplitBlocksArePieces(blocks[1..], budget);
    }
  }

  /** No overlong unit is split by rows. */
  predicate NoRowSplit(units: seq<Unit>, budget: nat) {
    forall i :: 0 <= i < |units| ==> units[i].tokens <= budget || !SplitsByRows(units[i])
  }

  lemma {:induction false} PiecesArePieces(units: seq<Unit>, budget: nat)
    requires budget >= 1 && AllCounted(units) && NoRowSplit(units, budget)
    ensures AllPieces(Pieces(units, budget), budget)
  {
    hide Tokens, SplitBlocks, SplitsByRows, BlockText;
    if units != [] {
      SplitBlocksArePieces(units[0].blocks, budget);
      PiecesArePieces(units[1..], budget);
    }
  }

  /** Where no table is split by rows, the chunks of a section reference exactly the pieces of its
      units, each once and in order, exactly when every piece fits beside the prefix. */
  lemma SectionKeepsExactly(units: seq<Unit>, base: nat, f: Frame)
    requires AllCounted(units) && NoRowSplit(units, BodyBudget(f))
    ensures var pieces := Pieces(units, BodyBudget(f));
      && AllShrunk(ChunkRefs(ChunkUnits(units, base, f)), AllRefs(pieces))
      && (ChunkRefs(ChunkUnits(units, base, f)) == AllRefs(pieces) <==> AllFit(pieces, BodyBudget(f)))
  {
    BudgetPositive(f);
    SectionRefs(units, base, f);
    hide BodyBudget, ChunkUnits, ChunkRefs, Tokens, SplitsByRows, AllFit, AllShrunk;
    PiecesArePieces(units, BodyBudget(f));
    GuardedShrinks(Pieces(units, BodyBudget(f)), BodyBudget(f));
  }

  // ------------------------------------------------------------ pieces tile their blocks

  /** The references of one block: its whole range, or ranges that cover it once and in order. */
  ghost predicate TilesBlock(refs: seq<SourceRef>, b: Block) {
    && (forall i :: 0 <= i < |refs| ==> refs[i].block == b.id)
    && (refs == [WholeRef(b)] || Covers(Spans(refs), 0, |BlockText(b)|))
  }

  function Spans(refs: seq<SourceRef>): seq<Span> {
    seq(|refs|, i requires 0 <= i < |refs| => Span(refs[i].start, refs[i].end))
  }

  ghost predicate GroupsTile(groups: seq<seq<SourceRef>>, blocks: seq<Block>) {
    |groups| == |blocks| && forall i :: 0 <= i < |groups| ==> TilesBlock(groups[i], blocks[i])
  }

  /** The references fall into one consecutive group per block, and each group tiles its block. */
  ghost predicate TilesBlocks(refs: seq<SourceRef>, blocks: seq<Block>) {
    exists groups: seq<seq<SourceRef>> :: Flatten(groups) == refs && GroupsTile(groups, blocks)
  }

  lemma GroupsTileAppend(g: seq<seq<SourceRef>>, bs: seq<Block>, h: seq<seq<SourceRef>>, ds: seq<Block>)
    requires GroupsTile(g, bs) && GroupsTile(h, ds)
    ensures GroupsTile(g + h, bs + ds)
  {
    hide TilesBlock;
    var gh, all := g + h, bs + ds;
    forall i | 0 <= i < |gh| ensures TilesBlock(gh[i], all[i]) {
      if i < |g| {
        assert TilesBlock(g[i], bs[i]);
      } else {
        assert TilesBlock(h[i - |g|], ds[i - |g|]);
      }
    }
  }

  lemma TilesAppend(a: seq<SourceRef>, bs: seq<Block>, c: seq<SourceRef>, ds: seq<Block>)
    requires TilesBlocks(a, bs) && TilesBlocks(c, ds)
    ensures TilesBlocks(a + c, bs + ds)
  {
    hide GroupsTile;
    var g: seq<seq<SourceRef>> :| Flatten(g) == a && GroupsTile(g, bs);
    var h: seq<seq<SourceRef>> :| Flatten(h) == c && GroupsTile(h, ds);
    FlattenAppend(g, h);
    GroupsTileAppend(g, bs, h, ds);
  }

  lemma TilesOne(refs: seq<SourceRef>, b: Block)
    requires TilesBlock(refs, b)
    ensures TilesBlocks(refs, [b])
  {
    var groups := [refs];
    assert groups[1..] == [];
    assert Flatten(groups) == refs && GroupsTile(groups, [b]);
  }

  lemma TilesNone()
    ensures TilesBlocks([], [])
  {
    var groups: seq<seq<SourceRef>> := [];
    assert Flatten(groups) == [] && GroupsTile(groups, []);
  }

  function WholeRefs(blocks: seq<Block>): seq<SourceRef> {
    seq(|blocks|, i requires 0 <= i < |blocks| => WholeRef(blocks[i]))
  }

  lemma {:induction false} WholeTiles(blocks: seq<Block>)
    ensures TilesBlocks(WholeRefs(blocks), blocks)
  {
    if blocks == [] {
      TilesNone();
    } else {
      hide TilesBlocks;
      WholeTiles(blocks[1..]);
      TilesOne([WholeRef(blocks[0])], blocks[0]);
      TilesAppend([WholeRef(blocks[0])], [blocks[0]], WholeRefs(blocks[1..]), blocks[1..]);
      assert WholeRefs(blocks) == [WholeRef(blocks[0])] + WholeRefs(blocks[1..]);
      assert blocks == [blocks[0]] + blocks[1..];
    }
  }

  lemma {:induction false} FragmentRefs(b: Block, spans: seq<Span>)
    requires forall i :: 0 <= i < |spans| ==> spans[i].start <= spans[i].end <= |BlockText(b)|
    ensures Spans(AllRefs(FragmentUnits(b, spans))) == spans
    ensures forall i :: 0 <= i < |AllRefs(FragmentUnits(b, spans))| ==>
      AllRefs(FragmentUnits(b, spans))[i].block == b.id
  {
    if spans != [] {
      hide BlockText;
      FragmentRefs(b, spans[1..]);
      var units, rest := FragmentUnits(b, spans), FragmentUnits(b, spans[1..]);
      assert units[1..] == rest;
      assert AllRefs(units) == units[0].refs + AllRefs(rest);
      assert Spans(AllRefs(units)) == [spans[0]] + Spans(AllRefs(rest));
    }
  }

  lemma SplitBlockTiles(b: Block, budget: nat)
    requires budget >= 1
    ensures TilesBlock(AllRefs(SplitBlock(b, budget)), b)
  {
    hide BlockText, SplitText;
    var text := BlockText(b);
    SplitTextSound(text, budget);
    if Tokens(text) <= budget {
      var one := [TextUnit(b)];
      assert AllRefs(one) == one[0].refs + AllRefs(one[1..]) == [WholeRef(b)];
    } else {
      AtMostLength(text);
      var spans := SplitText(text, budget);
      forall i | 0 <= i < |spans| ensures spans[i].start <= spans[i].end <= |text| {
        assert FitsOrLongSentence(text, spans[i], budget);
      }
      FragmentRefs(b, spans);
    }
  }

  lemma {:induction false} SplitBlocksTile(blocks: seq<Block>, budget: nat)
    requires budget >= 1
    ensures TilesBlocks(AllRefs(SplitBlocks(blocks, budget)), blocks)
  {
    hide SplitBlock, TilesBlocks, TilesBlock;
    if blocks == [] {
      TilesNone();
    } else {
      SplitBlockTiles(blocks[0], budget);
      TilesOne(AllRefs(SplitBlock(blocks[0], budget)), blocks[0]);
      SplitBlocksTile(blocks[1..], budget);
      AllRefsAppend(SplitBlock(blocks[0], budget), SplitBlocks(blocks[1..], budget));
      TilesAppend(AllRefs(SplitBlock(blocks[0], budget)), [blocks[0]], AllRefs(SplitBlocks(blocks[1..], budget)),
        blocks[1..]);
      assert blocks == [blocks[0]] + blocks[1..];
    }
  }

  /** The unit references each of its blocks as a whole, and is not to be split by rows. */
  predicate PlainUnit(u: Unit, budget: nat) {
    u.refs == WholeRefs(u.blocks) && (u.tokens <= budget || !SplitsByRows(u))
  }

  lemma PiecesTile(u: Unit, budget: nat)
    requires budget >= 1 && PlainUnit(u, budget)
    ensures TilesBlocks(AllRefs(PiecesOf(u, budget)), u.blocks)
  {
    hide TilesBlocks, SplitBlocks, SplitsByRows;
    if u.tokens <= budget {
      WholeTiles(u.blocks);
      assert [u][1..] == [];
      assert AllRefs([u]) == u.refs + AllRefs([u][1..]) == u.refs;
    } else {
      SplitBlocksTile(u.blocks, budget);
    }
  }

  /** Taken together, the pieces of all units tile all their blocks. */
  lemma {:induction false} AllPiecesTile(units: seq<Unit>, budget: nat)
    requires budget >= 1 && forall i :: 0 <= i < |units| ==> PlainUnit(units[i], budget)
    ensures TilesBlocks(AllRefs(Pieces(units, budget)), AllBlocks(units))
  {
    hide TilesBlocks, PiecesOf, PlainUnit;
    if units == [] {
      TilesNone();
    } else {
      var u, rest := units[0], units[1..];
      PiecesTile(u, budget);
      AllPiecesTile(rest, budget);
      AllRefsAppend(PiecesOf(u, budget), Pieces(rest, budget));
      TilesAppend(AllRefs(PiecesOf(u, budget)), u.blocks, AllRefs(Pieces(rest, budget)), AllBlocks(rest));
    }
  }

  // ------------------------------------------------------------ the rows of a split table

  predicate AllRanged(units: seq<Unit>) { forall i :: 0 <= i < |units| ==> units[i].rows.Some? }

  function RowsOf(units: seq<Unit>): seq<RowRange>
    requires AllRanged(units)
  {
    seq(|units|, i requires 0 <= i < |units| => units[i].rows.value)
  }

  /** A row fragment of the table: the header, its lines, and the caption and its blocks where there is room for
      it; it counts its text and always records the caption. */
  predicate FragmentOf(x: Unit, u: Unit, group: seq<string>, header: seq<string>, caption: string, inBody: bool)
    requires u.blocks != []
  {
    && x.blocks == u.blocks && x.tokens == Tokens(x.body)
    && x.caption == (if caption == "" then None else Some(caption))
    && if caption != "" && inBody then
         && x.body == Join("\n", header + group) + "\n\n" + caption
         && x.refs == [WholeRef(u.blocks[0])] + CaptionRefs(u.blocks[1..]) && x.types == [Table, Caption]
       else x.body == Join("\n", header + group) && x.refs == [WholeRef(u.blocks[0])] && x.types == [Table]
  }

  lemma RowFragmentExactly(u: Unit, frame: TableFrame, group: seq<string>, rows: RowRange)
    requires u.blocks != []
    ensures var x := RowFragment(u, frame, group, rows);
      FragmentOf(x, u, group, frame.header, frame.captionText, frame.captionInBody) && x.rows == Some(rows)
  {
    hide Tokens, CaptionRefs;
    var text := Join("\n", frame.header + group);
    assert text + "\n\n" + frame.captionText == text + (GAP + frame.captionText) && text + "" == text;
    assert [WholeRef(u.blocks[0])] + [] == [WholeRef(u.blocks[0])];
  }

  /** What the row fragments of a table have in common: the first two lines of its markdown as the header, the
      remaining ones as body lines, and the caption, which is repeated in the body where header and caption
      are within the budget; the tokens set aside are those of the header and the caption, or of as much of
      the header as the budget holds. */
  lemma FrameExactly(u: Unit, budget: nat)
    requires SplitsByRows(u)
    ensures var frame, markdown := FrameOf(u, budget), u.blocks[0].content.markdown;
      && markdown.Some? && Join("\n", frame.header + frame.lines) == markdown.value && |frame.header| == 2
      && frame.captionText == Join("\n\n", Texts(u.blocks[1..]))
      && var header := Tokens(Join("\n", frame.header));
         var whole := header + Tokens(frame.captionText);
         && (frame.captionInBody <==> whole <= budget)
         && frame.fixed == if whole <= budget then whole else if header <= budget then header else budget
  {
    var text := OrElse(u.blocks[0].content.markdown, "");
    JoinSplit(text, "\n");
    var all := Split(text, "\n");
    assert all[..2] + all[2..] == all;
    SomeMarkdown(u.blocks[0].content.markdown);
    hide Tokens, Split;
    SeparatorsAreNeutral();
    var frame := FrameOf(u, budget);
    AcrossSeparator("", GAP, frame.captionText);
    assert "" + GAP + frame.captionText == GAP + frame.captionText;
    EmptyTokens();
  }

  lemma SomeMarkdown(m: Option<string>)
    requires |Split(OrElse(m, ""), "\n")| >= 2
    ensures m.Some? && m.value == OrElse(m, "")
  {
    assert FindFrom("", "\n", 0) == 0;
  }

  lemma EmptyTokens()
    ensures Tokens("") == 0
  {
  }

  /** The row fragments of a table hold its body lines, each once and in order. Their row ranges leave
      no gap exactly when the table has a row, and partition its rows exactly when there is one fragment
      or the last but one starts above the last row, as with fewer lines than rows. */
  lemma TableFragments(u: Unit, budget: nat) returns (groups: seq<seq<string>>)
    requires budget >= 1 && SplitsByRows(u)
    ensures var fragments, frame := SplitOverlong(u, budget), FrameOf(u, budget);
      && |groups| == |fragments| > 0 && Flatten(groups) == frame.lines
      && (forall i :: 0 <= i < |fragments| ==>
          FragmentOf(fragments[i], u, groups[i], frame.header, frame.captionText, frame.captionInBody))
    ensures var fragments, nRows := SplitOverlong(u, budget), RowCount(u.blocks[0].content.cells).value;
      && AllRanged(fragments)
      && (GapFree(RowsOf(fragments), 0, nRows) <==> nRows >= 1)
      && (|groups| > 1 ==> NoneEmpty(groups))
      && (nRows >= 1 ==>
        (Partition(RowsOf(fragments), 0, nRows) <==>
          |groups| <= 1 || StartRow(PenultimateLine(Sizes(groups), 0), nRows) < nRows - 1))
      && (nRows >= 1 && |FrameOf(u, budget).lines| < nRows ==> Partition(RowsOf(fragments), 0, nRows))
  {
    var frame, nRows := FrameOf(u, budget), RowCount(u.blocks[0].content.cells).value;
    groups := Groups(frame.lines, frame.fixed, budget);
    GroupsSound(frame.lines, frame.fixed, budget);
    RowRangesGapFree(frame.lines, frame.fixed, budget, nRows);
    if nRows >= 1 {
      if frame.lines != [] { RowRangesPartition(frame.lines, frame.fixed, budget, nRows); }
    }
    hide Groups, Ranges, FrameOf, RowCount, GapFree, Partition, Tokens, RowFragment, FragmentOf;
    var fragments, ranges := SplitOverlong(u, budget), Ranges(groups, nRows);
    forall i | 0 <= i < |fragments|
      ensures fragments[i].rows == Some(ranges[i])
      ensures FragmentOf(fragments[i], u, groups[i], frame.header, frame.captionText, frame.captionInBody)
    {
      RowFragmentExactly(u, frame, groups[i], ranges[i]);
    }
    assert RowsOf(fragments) == ranges;
  }

  lemma {:induction false} EmitEachRows(chunks: seq<Chunk>, fragments: seq<Unit>, base: nat, f: Frame)
    ensures var all := EmitEach(chunks, fragments, base, f);
      && |all| == |chunks| + |fragments| && all[..|chunks|] == chunks
      && forall i :: 0 <= i < |fragments| ==>
        all[|chunks| + i].rows == fragments[i].rows
        && (fragments[i].tokens == Tokens(fragments[i].body) ==>
          (all[|chunks| + i].body == fragments[i].body <==> fragments[i].tokens <= BodyBudget(f)))
    decreases |fragments|
  {
    hide Assemble, Tokens, BodyBudget;
    if fragments != [] {
      var c := Assemble([fragments[0]], base + |chunks| + 1, f);
      SingleRows(fragments[0], base + |chunks| + 1, f);
      if fragments[0].tokens == Tokens(fragments[0].body) { SingleExact(fragments[0], base + |chunks| + 1, f); }
      EmitEachRows(chunks + [c], fragments[1..], base, f);
      var all := EmitEach(chunks, fragments, base, f);
      assert all[|chunks|] == all[..|chunks| + 1][|chunks|] == c;
      assert all[..|chunks|] == all[..|chunks| + 1][..|chunks|];
      forall i | 0 < i < |fragments|
        ensures all[|chunks| + i].rows == fragments[i].rows
        ensures fragments[i].tokens == Tokens(fragments[i].body) ==>
          (all[|chunks| + i].body == fragments[i].body <==> fragments[i].tokens <= BodyBudget(f))
      {
        assert all[|chunks + [c]| + (i - 1)].rows == fragments[1..][i - 1].rows;
      }
    }
  }

  /** A chunk of one unit records its row range, also when it is trimmed. */
  lemma SingleRows(u: Unit, id: nat, f: Frame)
    ensures Assemble([u], id, f).rows == u.rows
  {
    hide Chunker.Content, PagesOf, Distinct;
    assert [u][1..] == [];
    assert AllRows([u]) == (if u.rows.Some? then [u.rows.value] else []) + AllRows([]);
  }

  predicate RangedFrom(chunks: seq<Chunk>, n: nat) {
    n <= |chunks| && forall i :: n <= i < |chunks| ==> chunks[i].rows.Some?
  }

  /** The row ranges of the chunks from the n-th on. */
  function ChunkRows(chunks: seq<Chunk>, n: nat): seq<RowRange>
    requires RangedFrom(chunks, n)
  {
    seq(|chunks| - n, i requires 0 <= i < |chunks| - n => chunks[n + i].rows.value)
  }

  lemma FragmentChunkRows(chunks: seq<Chunk>, fragments: seq<Unit>, base: nat, f: Frame)
    requires AllRanged(fragments)
    ensures var all := EmitEach(chunks, fragments, base, f);
      RangedFrom(all, |chunks|) && all[..|chunks|] == chunks && ChunkRows(all, |chunks|) == RowsOf(fragments)
  {
    EmitEachRows(chunks, fragments, base, f);
    var all := EmitEach(chunks, fragments, base, f);
    hide EmitEach;
    forall i | |chunks| <= i < |all| ensures all[i].rows == fragments[i - |chunks|].rows {
      assert all[|chunks| + (i - |chunks|)].rows == fragments[i - |chunks|].rows;
    }
  }

  lemma PackOverlong(p: Packing, u: Unit, base: nat, f: Frame)
    requires u.tokens > BodyBudget(f)
    ensures PackOne(p, u, base, f).chunks
      == EmitEach(Flush(p, base, f).chunks, SplitOverlong(u, BodyBudget(f)), base, f)
  {
    hide SplitOverlong, Flush, EmitEach;
  }

  /** The chunks of a table split by rows record ranges that leave no gap in its rows. */
  lemma TableChunksGapFree(p: Packing, u: Unit, base: nat, f: Frame)
    requires SplitsByRows(u) && u.tokens > BodyBudget(f)
    ensures var before, after := Flush(p, base, f).chunks, PackOne(p, u, base, f).chunks;
      var nRows := RowCount(u.blocks[0].content.cells).value;
      && |before| < |after| && after[..|before|] == before && RangedFrom(after, |before|)
      && (GapFree(ChunkRows(after, |before|), 0, nRows) <==> nRows >= 1)
  {
    BudgetPositive(f);
    PackOverlong(p, u, base, f);
    var groups := TableFragments(u, BodyBudget(f));
    var fragments := SplitOverlong(u, BodyBudget(f));
    var before := Flush(p, base, f).chunks;
    FragmentChunkRows(before, fragments, base, f);
    EmitEachRows(before, fragments, base, f);
    hide SplitOverlong, Flush, EmitEach, PackOne, BodyBudget, GapFree, Partition, RowCount, FrameOf, ChunkRows, RowsOf,
      FragmentOf, StartRow, PenultimateLine, NoneEmpty, Sizes, Tokens;
  }

  /** Such a chunk holds the rows it records exactly when its fragment is within the body budget. */
  lemma FragmentChunkBodies(p: Packing, u: Unit, base: nat, f: Frame)
    requires u.tokens > BodyBudget(f)
    ensures var before, after := Flush(p, base, f).chunks, PackOne(p, u, base, f).chunks;
      var fragments := SplitOverlong(u, BodyBudget(f));
      && |after| == |before| + |fragments|
      && forall i :: 0 <= i < |fragments| ==>
        (after[|before| + i].body == fragments[i].body <==> fragments[i].tokens <= BodyBudget(f))
  {
    hide SplitOverlong, Flush, EmitEach, PackOne, Tokens;
    PackOverlong(p, u, base, f);
    SplitCounted(u, BodyBudget(f));
    EmitEachRows(Flush(p, base, f).chunks, SplitOverlong(u, BodyBudget(f)), base, f);
  }

  // ------------------------------------------------------------ fitting pieces

  /** Every sentence of the block above the budget splits into windows within it. */
  predicate SentencesSplit(b: Block, budget: nat)
    requires budget >= 1
  {
    forall p <- Sentences(BlockText(b)) :: SentenceSplits(BlockText(b), p, budget)
  }

  lemma ShortTextSplits(b: Block, budget: nat)
    requires budget >= 1 && Tokens(BlockText(b)) <= budget
    ensures SentencesSplit(b, budget)
  {
    var text := BlockText(b);
    hide Tokens, BlockText, Sentences, WindowsFit;
    forall p | p in Sentences(text) ensures SentenceSplits(text, p, budget) {
      if p.start < p.end <= |text| { SliceAtMost(text, p.start, p.end); }
    }
  }

  lemma FragmentsFitExactly(b: Block, spans: seq<Span>, budget: nat)
    requires forall i :: 0 <= i < |spans| ==> spans[i].start <= spans[i].end <= |BlockText(b)|
    ensures AllFit(FragmentUnits(b, spans), budget) <==> SpansFit(BlockText(b), spans, budget)
  {
    hide Tokens, BlockText;
    var units := FragmentUnits(b, spans);
    if AllFit(units, budget) {
      forall i | 0 <= i < |spans| ensures WindowFits(BlockText(b), spans[i], budget) {
        assert units[i].tokens <= budget;
      }
    }
    if SpansFit(BlockText(b), spans, budget) {
      forall i | 0 <= i < |units| ensures units[i].tokens == Tokens(units[i].body) <= budget {
        assert WindowFits(BlockText(b), spans[i], budget);
      }
    }
  }

  /** The pieces of a block fit exactly when its sentences split. */
  lemma BlockFitsExactly(b: Block, budget: nat)
    requires budget >= 1
    ensures AllFit(SplitBlock(b, budget), budget) <==> SentencesSplit(b, budget)
  {
    hide BlockText, SplitText, Tokens, SpansFit, FragmentUnits;
    var text := BlockText(b);
    SplitTextSound(text, budget);
    SplitFitsExactly(text, budget);
    if Tokens(text) <= budget {
      ShortTextSplits(b, budget);
    } else {
      var spans := SplitText(text, budget);
      forall i | 0 <= i < |spans| ensures spans[i].start <= spans[i].end <= |text| {
        assert FitsOrLongSentence(text, spans[i], budget);
      }
      FragmentsFitExactly(b, spans, budget);
    }
  }

  lemma FitAppend(a: seq<Unit>, b: seq<Unit>, budget: nat)
    ensures AllFit(a + b, budget) <==> AllFit(a, budget) && AllFit(b, budget)
  {
    hide Tokens;
    var ab := a + b;
    if AllFit(ab, budget) {
      forall i | 0 <= i < |a| ensures a[i].tokens == Tokens(a[i].body) <= budget { assert ab[i] == a[i]; }
      forall i | 0 <= i < |b| ensures b[i].tokens == Tokens(b[i].body) <= budget { assert ab[|a| + i] == b[i]; }
    }
  }

  lemma {:induction false} BlocksFitExactly(blocks: seq<Block>, budget: nat)
    requires budget >= 1
    ensures AllFit(SplitBlocks(blocks, budget), budget) <==> forall b <- blocks :: SentencesSplit(b, budget)
  {
    hide SplitBlock, SentencesSplit, AllFit;
    if blocks == [] {
      assert AllFit([], budget) by { NothingFits(budget); }
    } else {
      BlockFitsExactly(blocks[0], budget);
      BlocksFitExactly(blocks[1..], budget);
      FitAppend(SplitBlock(blocks[0], budget), SplitBlocks(blocks[1..], budget), budget);
      assert forall b :: b in blocks <==> b == blocks[0] || b in blocks[1..];
    }
  }

  lemma NothingFits(budget: nat)
    ensures AllFit([], budget)
  {
  }

  /** The unit fits, or else its blocks split into pieces that do. */
  predicate UnitSplits(u: Unit, budget: nat)
    requires budget >= 1
  {
    u.tokens <= budget || forall b <- u.blocks :: SentencesSplit(b, budget)
  }

  lemma {:induction false} PiecesFitExactly(units: seq<Unit>, budget: nat)
    requires budget >= 1 && AllCounted(units) && NoRowSplit(units, budget)
    ensures AllFit(Pieces(units, budget), budget) <==> forall u <- units :: UnitSplits(u, budget)
  {
    hide SplitBlocks, SplitsByRows, SentencesSplit, Tokens;
    if units != [] {
      var u := units[0];
      PiecesFitExactly(units[1..], budget);
      FitAppend(PiecesOf(u, budget), Pieces(units[1..], budget), budget);
      if u.tokens > budget { BlocksFitExactly(u.blocks, budget); }
      assert AllFit(PiecesOf(u, budget), budget) <==> UnitSplits(u, budget);
      assert forall v :: v in units <==> v == u || v in units[1..];
    }
  }
}
