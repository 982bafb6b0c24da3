/** Exactly which units keep every character of their blocks once the guard has trimmed what does not
    fit: tilings fall apart block by block, and shrinking any reference breaks them. */
module Tiling {
  import opened Prelude
  import opened TokenCounter
  import opened Schema
  import opened Splitting
  import opened TableRows
  import opened Units
  import opened Trimming
  import opened Chunker
  import opened ChunkGuarantees
  import opened ChunkCoverage

  /** Inside a block the next reference starts where this one ends; the last one ends with the text. */
  predicate Continues(refs: seq<SourceRef>, i: nat, b: Block)
    requires i < |refs|
  {
    if i + 1 < |refs| && refs[i + 1].block == b.id then refs[i + 1].start == refs[i].end
    else refs[i].end == |BlockText(b)|
  }

  ghost predicate ContinuesInside(refs: seq<SourceRef>, i: nat, blocks: seq<Block>)
    requires i < |refs|
  {
    exists b :: b in blocks && b.id == refs[i].block && Continues(refs, i, b)
  }

  ghost predicate Contiguous(refs: seq<SourceRef>, blocks: seq<Block>) {
    forall i :: 0 <= i < |refs| ==> ContinuesInside(refs, i, blocks)
  }

  lemma {:induction false} CoversAdjacent(spans: seq<Span>, lo: nat, hi: nat, i: nat)
    requires Covers(spans, lo, hi) && i < |spans|
    ensures spans[i].end == if i + 1 < |spans| then spans[i + 1].start else hi
  {
    var rest := spans[1..];
    if i > 0 {
      CoversAdjacent(rest, spans[0].end, hi, i - 1);
    } else if rest != [] {
      assert rest[0] == spans[1];
    } else {
      assert Covers([], spans[0].end, hi);
    }
  }

  lemma BlockContinues(refs: seq<SourceRef>, b: Block)
    requires TilesBlock(refs, b)
    ensures forall i :: 0 <= i < |refs| ==> refs[i].block == b.id && Continues(refs, i, b)
  {
    if refs != [WholeRef(b)] {
      var spans := Spans(refs);
      forall i | 0 <= i < |refs| ensures Continues(refs, i, b) {
        CoversAdjacent(spans, 0, |BlockText(b)|, i);
        assert refs[i].end == spans[i].end;
        if i + 1 < |refs| { assert refs[i + 1].block == b.id && refs[i + 1].start == spans[i + 1].start; }
      }
    }
  }

  lemma OwnerAt(refs: seq<SourceRef>, i: nat, blocks: seq<Block>) returns (b: Block)
    requires Contiguous(refs, blocks) && i < |refs|
    ensures b in blocks && b.id == refs[i].block && Continues(refs, i, b)
  {
    assert ContinuesInside(refs, i, blocks);
    b :| b in blocks && b.id == refs[i].block && Continues(refs, i, b);
  }

  lemma ContiguousCons(mine: seq<SourceRef>, rest: seq<SourceRef>, blocks: seq<Block>)
    requires blocks != [] && UniqueIds(blocks) && Contiguous(rest, blocks[1..])
    requires forall i :: 0 <= i < |mine| ==> mine[i].block == blocks[0].id && Continues(mine, i, blocks[0])
    ensures Contiguous(mine + rest, blocks)
  {
    var all, b := mine + rest, blocks[0];
    forall i | 0 <= i < |all| ensures ContinuesInside(all, i, blocks) {
      if i < |mine| {
        if i + 1 == |mine| && rest != [] {
          var d := OwnerAt(rest, 0, blocks[1..]);
          assert d.id != b.id;
        }
        assert all[i] == mine[i] && Continues(mine, i, b);
        assert Continues(all, i, b);
      } else {
        var k := i - |mine|;
        var d := OwnerAt(rest, k, blocks[1..]);
        assert all[i] == rest[k] && Continues(all, i, d);
      }
    }
  }

  lemma {:induction false} GroupsContiguous(groups: seq<seq<SourceRef>>, blocks: seq<Block>)
    requires GroupsTile(groups, blocks) && UniqueIds(blocks)
    ensures Contiguous(Flatten(groups), blocks)
  {
    if groups != [] {
      hide TilesBlock, Contiguous, Continues;
      assert TilesBlock(groups[0], blocks[0]);
      BlockContinues(groups[0], blocks[0]);
      GroupsContiguous(groups[1..], blocks[1..]);
      ContiguousCons(groups[0], Flatten(groups[1..]), blocks);
    } else {
      assert Flatten(groups) == [];
    }
  }

  lemma TilesContiguous(refs: seq<SourceRef>, blocks: seq<Block>)
    requires TilesBlocks(refs, blocks) && UniqueIds(blocks)
    ensures Contiguous(refs, blocks)
  {
    hide GroupsTile, UniqueIds, Contiguous;
    var groups: seq<seq<SourceRef>> :| Flatten(groups) == refs && GroupsTile(groups, blocks);
    GroupsContiguous(groups, blocks);
  }

  lemma SameBlock(blocks: seq<Block>, b: Block, d: Block)
    requires UniqueIds(blocks) && b in blocks && d in blocks && b.id == d.id
    ensures b == d
  {
  }

  /** Of references shrunk from a tiling, only the tiling itself tiles the blocks. */
  lemma ShrunkTilesExactly(c: seq<SourceRef>, p: seq<SourceRef>, blocks: seq<Block>)
    requires AllShrunk(c, p) && TilesBlocks(p, blocks) && UniqueIds(blocks)
    ensures TilesBlocks(c, blocks) <==> c == p
  {
    hide TilesBlocks, UniqueIds, BlockText;
    TilesContiguous(p, blocks);
    if TilesBlocks(c, blocks) {
      TilesContiguous(c, blocks);
      forall i | 0 <= i < |c| ensures c[i] == p[i] {
        var b := OwnerAt(c, i, blocks);
        var d := OwnerAt(p, i, blocks);
        SameBlock(blocks, b, d);
        assert Shrunk(c[i], p[i]);
        if i + 1 < |c| { assert Shrunk(c[i + 1], p[i + 1]); }
      }
    }
  }

  // ------------------------------------------------------------ tilings fall apart

  predicate Inside(refs: seq<SourceRef>, blocks: seq<Block>) {
    forall i :: 0 <= i < |refs| ==> refs[i].block in Ids(blocks)
  }

  predicate Apart(a: seq<Block>, b: seq<Block>) { Ids(a) !! Ids(b) }

  lemma TilesInside(refs: seq<SourceRef>, blocks: seq<Block>)
    requires TilesBlocks(refs, blocks) && UniqueIds(blocks)
    ensures Inside(refs, blocks)
  {
    TilesContiguous(refs, blocks);
    forall i | 0 <= i < |refs| ensures refs[i].block in Ids(blocks) {
      var b := OwnerAt(refs, i, blocks);
    }
  }

  lemma PartAt(x: seq<SourceRef>, y: seq<SourceRef>, a: seq<Block>, b: seq<Block>, i: nat)
    requires Apart(a, b) && Inside(x, a) && Inside(y, b) && i < |x + y|
    ensures (x + y)[i].block in Ids(a) <==> i < |x|
  {
  }

  lemma SameSplit(x: seq<SourceRef>, y: seq<SourceRef>, c: seq<SourceRef>, d: seq<SourceRef>, a: seq<Block>,
      b: seq<Block>)
    requires x + y == c + d && Apart(a, b)
    requires Inside(x, a) && Inside(c, a) && Inside(y, b) && Inside(d, b)
    ensures x == c && y == d
  {
    hide Inside, Apart;
    var all := x + y;
    var k := if |x| < |c| then |x| else |c|;
    if |x| != |c| {
      PartAt(x, y, a, b, k);
      PartAt(c, d, a, b, k);
    }
    assert x == all[..|x|] && c == all[..|c|] && y == all[|x|..] && d == all[|c|..];
  }

  lemma UniqueParts(a: seq<Block>, b: seq<Block>)
    requires UniqueIds(a + b)
    ensures UniqueIds(a) && UniqueIds(b) && Apart(a, b)
  {
    var ab := a + b;
    forall i, j | 0 <= i < j < |a| ensures a[i].id != a[j].id { assert ab[i] == a[i] && ab[j] == a[j]; }
    forall i, j | 0 <= i < j < |b| ensures b[i].id != b[j].id {
      assert ab[|a| + i] == b[i] && ab[|a| + j] == b[j];
    }
    forall x, y | x in a && y in b ensures x.id != y.id {
      var i :| 0 <= i < |a| && a[i] == x;
      var j :| 0 <= j < |b| && b[j] == y;
      assert ab[i] == x && ab[|a| + j] == y;
    }
  }

  /** References of separate blocks tile them together exactly when each part tiles its own. */
  lemma TilesAppendExactly(c: seq<SourceRef>, a: seq<Block>, d: seq<SourceRef>, b: seq<Block>)
    requires UniqueIds(a + b) && Inside(c, a) && Inside(d, b)
    ensures TilesBlocks(c + d, a + b) <==> TilesBlocks(c, a) && TilesBlocks(d, b)
  {
    UniqueParts(a, b);
    hide GroupsTile, UniqueIds, Inside, Apart;
    if TilesBlocks(c, a) && TilesBlocks(d, b) { TilesAppend(c, a, d, b); }
    if TilesBlocks(c + d, a + b) {
      var groups: seq<seq<SourceRef>> :| Flatten(groups) == c + d && GroupsTile(groups, a + b);
      var g, h := SplitGroups(groups, a, b);
      FlattenAppend(g, h);
      assert TilesBlocks(Flatten(g), a) && TilesBlocks(Flatten(h), b);
      TilesInside(Flatten(g), a);
      TilesInside(Flatten(h), b);
      SameSplit(Flatten(g), Flatten(h), c, d, a, b);
    }
  }

  lemma SplitGroups(groups: seq<seq<SourceRef>>, a: seq<Block>, b: seq<Block>)
    returns (g: seq<seq<SourceRef>>, h: seq<seq<SourceRef>>)
    requires GroupsTile(groups, a + b)
    ensures groups == g + h && GroupsTile(g, a) && GroupsTile(h, b)
  {
    hide TilesBlock;
    g, h := groups[..|a|], groups[|a|..];
    forall i | 0 <= i < |a| ensures TilesBlock(g[i], a[i]) { assert TilesBlock(groups[i], (a + b)[i]); }
    forall i | 0 <= i < |b| ensures TilesBlock(h[i], b[i]) {
      assert TilesBlock(groups[|a| + i], (a + b)[|a| + i]);
    }
  }

  lemma TilesOneExactly(refs: seq<SourceRef>, b: Block)
    ensures TilesBlocks(refs, [b]) <==> TilesBlock(refs, b)
  {
    hide TilesBlock;
    if TilesBlock(refs, b) { TilesOne(refs, b); }
    if TilesBlocks(refs, [b]) {
      var groups: seq<seq<SourceRef>> :| Flatten(groups) == refs && GroupsTile(groups, [b]);
      assert |groups| == 1 && TilesBlock(groups[0], [b][0]);
      assert groups[1..] == [];
      assert refs == groups[0] + Flatten(groups[1..]) == groups[0];
    }
  }

  // ------------------------------------------------------------ trimmed units

  lemma HeadAlone(blocks: seq<Block>)
    requires blocks != [] && UniqueIds(blocks)
    ensures [blocks[0]] + blocks[1..] == blocks && UniqueIds([blocks[0]] + blocks[1..]) && UniqueIds(blocks[1..])
  {
    assert [blocks[0]] + blocks[1..] == blocks;
  }

  lemma NothingTiles(blocks: seq<Block>)
    requires UniqueIds(blocks)
    ensures TilesBlocks([], blocks) ==> SumTokens(BlockTexts(blocks)) == 0
    decreases |blocks|
  {
    if blocks != [] {
      var b, rest := blocks[0], blocks[1..];
      HeadAlone(blocks);
      hide TilesBlocks, BlockText;
      var none: seq<SourceRef> := [];
      assert none + none == none;
      TilesAppendExactly(none, [b], none, rest);
      TilesOneExactly(none, b);
      NothingTiles(rest);
      assert BlockTexts(blocks)[1..] == BlockTexts(rest);
      if TilesBlock(none, b) {
        assert Spans(none) == [];
        AtMostLength(BlockText(b));
      }
    }
  }

  /** The longest fitting part of a block that does not fit never tiles it. */
  lemma PartialNeverTiles(b: Block, left: nat)
    requires Tokens(BlockText(b)) > left
    ensures !TilesBlock(KeptRefs(Partial(b, left)), b)
  {
    hide Tokens, BlockText, Partial;
    PartialIsLongest(b, left);
    AtMostLength(BlockText(b));
    var refs := KeptRefs(Partial(b, left));
    if left == 0 {
      assert Spans(refs) == [];
    } else {
      var k := Partial(b, left)[0].1;
      assert refs == [SourceRef(b.id, 0, k)] && refs[0].end == k;
      if TilesBlock(refs, b) { BlockContinues(refs, b); }
    }
  }

  lemma KeptRefsInside(blocks: seq<Block>, budget: nat)
    ensures Inside(KeptRefs(Kept(blocks, budget)), blocks)
  {
    KeptInside(blocks, budget);
  }

  /** A trimmed unit keeps everything exactly when nothing had to be trimmed. */
  lemma {:induction false} TrimmedTilesExactly(blocks: seq<Block>, budget: nat)
    requires UniqueIds(blocks)
    ensures TilesBlocks(KeptRefs(Kept(blocks, budget)), blocks) <==> SumTokens(BlockTexts(blocks)) <= budget
  {
    hide TilesBlocks, TilesBlock, Tokens, BlockText, Partial, UniqueIds, Inside;
    if blocks == [] {
      TilesNone();
    } else {
      var b, rest := blocks[0], blocks[1..];
      var text := BlockText(b);
      HeadAlone(blocks);
      assert BlockTexts(blocks)[1..] == BlockTexts(rest);
      KeptRefsInside(blocks, budget);
      if text == "" {
        NoTokens();
        EmptyBlockTiles(b);
        KeptRefsInside(rest, budget);
        NoneInside([b]);
        TilesAppendExactly([], [b], KeptRefs(Kept(rest, budget)), rest);
        assert [] + KeptRefs(Kept(rest, budget)) == KeptRefs(Kept(rest, budget));
        TrimmedTilesExactly(rest, budget);
      } else if Tokens(text) <= budget {
        var less := budget - Tokens(text);
        KeptRefsInside(rest, less);
        OneInside(WholeRef(b), b);
        WholeBlockTiles(b);
        assert KeptRefs(Kept(blocks, budget)) == [WholeRef(b)] + KeptRefs(Kept(rest, less));
        TilesAppendExactly([WholeRef(b)], [b], KeptRefs(Kept(rest, less)), rest);
        TrimmedTilesExactly(rest, less);
      } else {
        PartialNeverTiles(b, budget);
        PartialInside(b, budget);
        NoneInside(rest);
        TilesAppendExactly(KeptRefs(Partial(b, budget)), [b], [], rest);
        assert KeptRefs(Partial(b, budget)) + [] == KeptRefs(Partial(b, budget));
        TilesOneExactly(KeptRefs(Partial(b, budget)), b);
      }
    }
  }

  lemma EmptyBlockTiles(b: Block)
    requires BlockText(b) == ""
    ensures TilesBlocks([], [b])
  {
    var none: seq<SourceRef> := [];
    assert Spans(none) == [];
    TilesOne(none, b);
  }

  lemma WholeBlockTiles(b: Block)
    ensures TilesBlocks([WholeRef(b)], [b])
  {
    TilesOne([WholeRef(b)], b);
  }

  lemma NoTokens()
    ensures Tokens("") == 0
  {
  }

  lemma NoneInside(blocks: seq<Block>)
    ensures Inside([], blocks)
  {
  }

  lemma OneInside(r: SourceRef, b: Block)
    requires r.block == b.id
    ensures Inside([r], [b])
  {
  }

  lemma PartialInside(b: Block, left: nat)
    ensures Inside(KeptRefs(Partial(b, left)), [b])
  {
    PartialSound(b, left);
  }
}
