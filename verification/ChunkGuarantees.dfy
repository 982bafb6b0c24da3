/** What every chunk of a build promises: the hard token cap, exact source references inside one
    section, and a context prefix that is a prefix of the section path. */
module ChunkGuarantees {
  import opened Prelude
  import opened TokenCounter
  import opened Schema
  import opened Splitting
  import opened TableRows
  import opened Units
  import opened Trimming
  import opened Chunker

  // ------------------------------------------------------------ exact references

  predicate UniqueIds(blocks: seq<Block>) {
    forall i, j :: 0 <= i < j < |blocks| ==> blocks[i].id != blocks[j].id
  }

  /** Canonical text by block id. */
  function TextsOf(blocks: seq<Block>): map<nat, string> {
    if blocks == [] then map[]
    else TextsOf(blocks[..|blocks| - 1])[blocks[|blocks| - 1].id := BlockText(blocks[|blocks| - 1])]
  }

  predicate Known(b: Block, texts: map<nat, string>) { b.id in texts && texts[b.id] == BlockText(b) }

  predicate RefIn(r: SourceRef, texts: map<nat, string>) {
    r.block in texts && r.start <= r.end <= |texts[r.block]|
  }

  predicate RefsIn(refs: seq<SourceRef>, texts: map<nat, string>) {
    forall i :: 0 <= i < |refs| ==> RefIn(refs[i], texts)
  }

  function Slices(refs: seq<SourceRef>, texts: map<nat, string>): seq<string>
    requires RefsIn(refs, texts)
  {
    seq(|refs|, i requires 0 <= i < |refs| => texts[refs[i].block][refs[i].start..refs[i].end])
  }

  /** The body is the join of the referenced slices of canonical text, in order. */
  predicate RefsExact(refs: seq<SourceRef>, body: string, texts: map<nat, string>) {
    RefsIn(refs, texts) && body == Join(GAP, Slices(refs, texts))
  }

  predicate UnitExact(u: Unit, texts: map<nat, string>) {
    && (forall i :: 0 <= i < |u.blocks| ==> Known(u.blocks[i], texts))
    && (forall i :: 0 < i < |u.blocks| ==> u.blocks[i].kind.Caption?)
    && u.tokens == Tokens(u.body) && RefsIn(u.refs, texts)
    && (u.rows.None? ==> u.refs != [] && RefsExact(u.refs, u.body, texts))
  }

  lemma {:induction false} TextsKnown(blocks: seq<Block>, i: nat)
    requires UniqueIds(blocks) && i < |blocks|
    ensures Known(blocks[i], TextsOf(blocks))
  {
    if i < |blocks| - 1 {
      TextsKnown(blocks[..|blocks| - 1], i);
    }
  }

  lemma TextUnitExact(b: Block, texts: map<nat, string>)
    requires Known(b, texts)
    ensures UnitExact(TextUnit(b), texts)
  {
    var text := BlockText(b);
    assert text[0..|text|] == text;
    assert Slices([WholeRef(b)], texts) == [text];
  }

  /** The reference to a whole text gives that text. */
  lemma WholeSlice(r: SourceRef, text: string, texts: map<nat, string>)
    requires r.block in texts && texts[r.block] == text && r.start == 0 && r.end == |text|
    ensures RefIn(r, texts) && texts[r.block][r.start..r.end] == text
  {
  }

  lemma StructuredRefs(b: Block, captions: seq<Block>, texts: map<nat, string>)
    requires Known(b, texts)
    requires forall i :: 0 <= i < |captions| ==> captions[i].kind.Caption? && Known(captions[i], texts)
    ensures var refs := [WholeRef(b)] + CaptionRefs(captions);
      RefsIn(refs, texts) && Slices(refs, texts) == [BlockText(b)] + Texts(captions)
  {
    var refs := [WholeRef(b)] + CaptionRefs(captions);
    var bodies := [BlockText(b)] + Texts(captions);
    forall i | 0 <= i < |refs|
      ensures RefIn(refs[i], texts) && texts[refs[i].block][refs[i].start..refs[i].end] == bodies[i]
    {
      if i > 0 {
        var c := captions[i - 1];
        assert c.kind.Caption? && Known(c, texts);
        assert BlockText(c) == c.text;
        hide BlockText;
        assert refs[i] == SourceRef(c.id, 0, |c.text|) && bodies[i] == c.text;
        WholeSlice(refs[i], c.text, texts);
      } else {
        hide BlockText;
        WholeSlice(refs[0], BlockText(b), texts);
      }
    }
    hide BlockText, RefIn;
    assert RefsIn(refs, texts);
    assert Slices(refs, texts) == bodies;
  }

  lemma StructuredUnitExact(b: Block, captions: seq<Block>, texts: map<nat, string>)
    requires Known(b, texts)
    requires forall i :: 0 <= i < |captions| ==> captions[i].kind.Caption? && Known(captions[i], texts)
    ensures UnitExact(StructuredUnit(b, captions), texts)
  {
    hide Tokens, BlockText, Slices, RefsIn;
    var u := StructuredUnit(b, captions);
    StructuredRefs(b, captions, texts);
    forall i | 0 <= i < |u.blocks| ensures Known(u.blocks[i], texts) && (i > 0 ==> u.blocks[i].kind.Caption?) {
      assert i > 0 ==> u.blocks[i] == captions[i - 1];
    }
    assert ([BlockText(b)] + Texts(captions))[1..] == Texts(captions);
  }

  // ------------------------------------------------------------ captions come from the bucket

  /** Every element of xs is a caption among the blocks. */
  predicate CaptionsOf(xs: seq<Block>, blocks: seq<Block>) {
    forall x <- xs :: x.kind.Caption? && x in blocks
  }

  lemma {:induction false} PutCaptionKeeps(dict: seq<Block>, b: Block, blocks: seq<Block>)
    requires CaptionsOf(dict, blocks) && b.kind.Caption? && b in blocks
    ensures CaptionsOf(PutCaption(dict, b), blocks)
  {
    if dict != [] && dict[0].id != b.id {
      PutCaptionKeeps(dict[1..], b, blocks);
      forall x | x in PutCaption(dict, b) ensures x.kind.Caption? && x in blocks {
        assert x == dict[0] || x in PutCaption(dict[1..], b);
      }
    }
  }

  lemma {:induction false} CaptionsInside(blocks: seq<Block>)
    ensures CaptionsOf(Captions(blocks), blocks)
  {
    if blocks != [] {
      var n := |blocks| - 1;
      CaptionsInside(blocks[..n]);
      if blocks[n].kind.Caption? { PutCaptionKeeps(Captions(blocks[..n]), blocks[n], blocks); }
    }
  }

  lemma {:induction false} LookupInside(dict: seq<Block>, id: nat)
    ensures forall x <- Lookup(dict, id) :: x in dict && x.id == id
  {
    if dict != [] && dict[0].id != id { LookupInside(dict[1..], id); }
  }

  lemma {:induction false} ListedInside(dict: seq<Block>, ids: seq<nat>)
    ensures forall x <- Listed(dict, ids) :: x in dict && x.id in ids
  {
    if ids != [] {
      LookupInside(dict, ids[0]);
      ListedInside(dict, ids[1..]);
      forall x | x in Listed(dict, ids) ensures x in dict && x.id in ids {
        assert x in Lookup(dict, ids[0]) || x in Listed(dict, ids[1..]);
      }
    }
  }

  lemma {:induction false} ClaimingInside(dict: seq<Block>, id: nat)
    ensures forall x <- Claiming(dict, id) :: x in dict && x.parentId == Some(id)
  {
    if dict != [] {
      ClaimingInside(dict[1..], id);
      forall x | x in Claiming(dict, id) ensures x in dict && x.parentId == Some(id) {
        assert x == dict[0] || x in Claiming(dict[1..], id);
      }
    }
  }

  lemma {:induction false} InsertIsPermutation(sorted: seq<Block>, b: Block)
    ensures multiset(InsertByOrder(sorted, b)) == multiset(sorted) + multiset{b}
  {
    if sorted != [] && b.order >= sorted[0].order {
      InsertIsPermutation(sorted[1..], b);
      assert sorted == [sorted[0]] + sorted[1..];
    }
  }

  lemma {:induction false} SortIsPermutation(bs: seq<Block>)
    ensures multiset(SortByOrder(bs)) == multiset(bs)
  {
    if bs != [] {
      SortIsPermutation(bs[..|bs| - 1]);
      InsertIsPermutation(SortByOrder(bs[..|bs| - 1]), bs[|bs| - 1]);
      assert bs == bs[..|bs| - 1] + [bs[|bs| - 1]];
    }
  }

  lemma SortSameElements(bs: seq<Block>)
    ensures forall x :: x in SortByOrder(bs) <==> x in bs
  {
    SortIsPermutation(bs);
    forall x ensures x in SortByOrder(bs) <==> x in bs {
      assert x in SortByOrder(bs) <==> x in multiset(SortByOrder(bs));
      assert x in bs <==> x in multiset(bs);
    }
  }

  lemma ChildrenInside(b: Block, dict: seq<Block>)
    ensures forall x <- Children(b, dict) :: x in dict && (x.id in b.captionIds || x.parentId == Some(b.id))
  {
    ListedInside(dict, b.captionIds);
    ClaimingInside(dict, b.id);
    SortSameElements(Listed(dict, b.captionIds));
    SortSameElements(Claiming(dict, b.id));
  }

  lemma {:induction false} ChildrenByIdInside(blocks: seq<Block>, dict: seq<Block>, id: nat)
    requires id in ChildrenById(blocks, dict)
    ensures forall x <- ChildrenById(blocks, dict)[id] :: x in dict
  {
    var n := |blocks| - 1;
    if IsStructured(blocks[n].kind) && blocks[n].id == id {
      ChildrenInside(blocks[n], dict);
    } else {
      ChildrenByIdInside(blocks[..n], dict, id);
    }
  }

  // ------------------------------------------------------------ units of a bucket are exact

  predicate AllExact(units: seq<Unit>, texts: map<nat, string>) {
    forall i :: 0 <= i < |units| ==> UnitExact(units[i], texts) && units[i].rows.None?
  }

  predicate AllKnown(blocks: seq<Block>, texts: map<nat, string>) {
    forall i :: 0 <= i < |blocks| ==> Known(blocks[i], texts)
  }

  predicate GoodChildren(children: map<nat, seq<Block>>, texts: map<nat, string>) {
    forall id <- children :: forall i :: 0 <= i < |children[id]| ==>
      children[id][i].kind.Caption? && Known(children[id][i], texts)
  }

  lemma {:induction false} MainUnitsExact(blocks: seq<Block>, children: map<nat, seq<Block>>, texts: map<nat, string>)
    requires AllKnown(blocks, texts) && GoodChildren(children, texts)
    ensures AllExact(MainUnits(blocks, children), texts)
  {
    if blocks != [] {
      var n := |blocks| - 1;
      hide TextUnit, StructuredUnit, UnitExact;
      MainUnitsExact(blocks[..n], children, texts);
      assert Known(blocks[n], texts);
      if IsStructured(blocks[n].kind) {
        StructuredUnitExact(blocks[n], ChildrenOf(blocks[n], children), texts);
        StructuredNoRows(blocks[n], ChildrenOf(blocks[n], children));
      } else {
        TextUnitExact(blocks[n], texts);
        TextNoRows(blocks[n]);
      }
    }
  }

  lemma StructuredNoRows(b: Block, captions: seq<Block>)
    ensures StructuredUnit(b, captions).rows.None? && StructuredUnit(b, captions).blocks == [b] + captions
  {
  }

  lemma TextNoRows(b: Block)
    ensures TextUnit(b).rows.None? && TextUnit(b).blocks == [b]
  {
  }

  lemma {:induction false} LooseCaptionsExact(blocks: seq<Block>, bound: set<nat>, texts: map<nat, string>)
    requires AllKnown(blocks, texts)
    ensures AllExact(LooseCaptions(blocks, bound), texts)
  {
    if blocks != [] {
      var n := |blocks| - 1;
      LooseCaptionsExact(blocks[..n], bound, texts);
      assert Known(blocks[n], texts);
      TextUnitExact(blocks[n], texts);
      TextNoRows(blocks[n]);
    }
  }

  lemma BuildUnitsExact(blocks: seq<Block>, texts: map<nat, string>)
    requires AllKnown(blocks, texts)
    ensures AllExact(BuildUnits(blocks), texts)
  {
    var dict := Captions(blocks);
    var children: map<nat, seq<Block>> := ChildrenById(blocks, dict);
    CaptionsInside(blocks);
    forall id: nat, i: nat | id in children && i < |children[id]|
      ensures children[id][i].kind.Caption? && Known(children[id][i], texts)
    {
      ChildrenByIdInside(blocks, dict, id);
      assert children[id][i] in dict;
    }
    MainUnitsExact(blocks, children, texts);
    LooseCaptionsExact(blocks, BoundIds(blocks, children), texts);
  }

  // ------------------------------------------------------------ pieces of an overlong unit are exact

  predicate PiecesExact(units: seq<Unit>, texts: map<nat, string>) {
    forall i :: 0 <= i < |units| ==> UnitExact(units[i], texts)
  }

  lemma SplitBlockExact(b: Block, budget: nat, texts: map<nat, string>)
    requires budget >= 1 && Known(b, texts)
    ensures PiecesExact(SplitBlock(b, budget), texts)
  {
    var text := BlockText(b);
    SplitTextSound(text, budget);
    if Tokens(text) <= budget {
      TextUnitExact(b, texts);
    } else {
      var spans := SplitText(text, budget);
      forall i | 0 <= i < |spans| ensures UnitExact(SplitBlock(b, budget)[i], texts) {
        assert FitsOrLongSentence(text, spans[i], budget);
        var u := FragmentUnit(b, spans[i]);
        assert SplitBlock(b, budget)[i] == u;
        assert Slices(u.refs, texts) == [u.body];
      }
    }
  }

  lemma {:induction false} SplitBlocksExact(blocks: seq<Block>, budget: nat, texts: map<nat, string>)
    requires budget >= 1 && AllKnown(blocks, texts)
    ensures PiecesExact(SplitBlocks(blocks, budget), texts)
  {
    if blocks != [] {
      SplitBlockExact(blocks[0], budget, texts);
      SplitBlocksExact(blocks[1..], budget, texts);
    }
  }

  lemma SplitOverlongExact(u: Unit, budget: nat, texts: map<nat, string>)
    requires budget >= 1 && UnitExact(u, texts)
    ensures PiecesExact(SplitOverlong(u, budget), texts)
  {
    if SplitsByRows(u) {
      var frame, fragments := FrameOf(u, budget), SplitOverlong(u, budget);
      hide SplitsByRows, Tokens, Groups, FrameOf, UnitExact;
      forall i | 0 <= i < |fragments| ensures UnitExact(fragments[i], texts) {
        RowFragmentExact(u, frame, fragments[i], texts);
      }
    } else {
      SplitBlocksExact(u.blocks, budget, texts);
    }
  }

  /** A row fragment references the whole table and, where it repeats the caption, the whole captions. */
  lemma RowFragmentExact(u: Unit, frame: TableFrame, fragment: Unit, texts: map<nat, string>)
    requires u.blocks != [] && UnitExact(u, texts)
    requires exists group: seq<string>, rows: RowRange :: fragment == RowFragment(u, frame, group, rows)
    ensures UnitExact(fragment, texts) && fragment.rows.Some?
  {
    hide Tokens, BlockText;
    StructuredRefs(u.blocks[0], u.blocks[1..], texts);
    var refs := [WholeRef(u.blocks[0])] + CaptionRefs(u.blocks[1..]);
    assert RefIn(refs[0], texts);
  }

  // ------------------------------------------------------------ one assembled chunk

  ghost predicate ChunkGood(c: Chunk, f: Frame, texts: map<nat, string>) {
    && c.tokenCount == Tokens(c.text)
    && c.text == WithPrefix(c.prefix, c.body)
    && (f.config.hardMax >= 2 ==> c.tokenCount <= f.config.hardMax)
    && c.section == f.section && c.sectionPath == f.path && c.version == f.config.version
    && c.prefix <= Join(ARROW, f.path)
    && (!c.compacted ==> c.prefix == Join(ARROW, f.path))
    && RefsIn(c.refs, texts)
    && (c.rows.None? ==> RefsExact(c.refs, c.body, texts))
  }

  /** The frame's prefix items are leading items of its path. */
  predicate FrameOk(f: Frame) { f.items <= f.path && (!f.compacted ==> f.items == f.path) }

  lemma {:induction false} BodiesExact(units: seq<Unit>, texts: map<nat, string>)
    requires forall i :: 0 <= i < |units| ==> RefsExact(units[i].refs, units[i].body, texts)
    requires |units| > 1 ==> forall i :: 0 <= i < |units| ==> units[i].refs != []
    ensures RefsExact(AllRefs(units), Join(GAP, Bodies(units)), texts)
  {
    if |units| > 1 {
      var rest := units[1..];
      BodiesExact(rest, texts);
      assert Bodies(units)[1..] == Bodies(rest);
      assert AllRefs(units) == units[0].refs + AllRefs(rest);
      assert Slices(AllRefs(units), texts) == Slices(units[0].refs, texts) + Slices(AllRefs(rest), texts);
      assert rest[0].refs != [];
      JoinAppend(GAP, Slices(units[0].refs, texts), Slices(AllRefs(rest), texts));
    } else if |units| == 1 {
      assert AllRefs(units[1..]) == [];
      assert AllRefs(units) == units[0].refs;
    }
  }

  lemma TrimUnitExact(u: Unit, budget: nat, texts: map<nat, string>)
    requires forall i :: 0 <= i < |u.blocks| ==> Known(u.blocks[i], texts)
    ensures RefsExact(TrimUnit(u, budget).refs, TrimUnit(u, budget).body, texts)
  {
    KeptSound(u.blocks, budget);
    var kept := Kept(u.blocks, budget);
    var refs := KeptRefs(kept);
    forall i | 0 <= i < |refs|
      ensures RefIn(refs[i], texts) && texts[refs[i].block][refs[i].start..refs[i].end] == KeptTexts(kept)[i]
    {
      assert kept[i].0 in u.blocks;
      var k :| 0 <= k < |u.blocks| && u.blocks[k] == kept[i].0;
      assert Known(u.blocks[k], texts);
    }
    assert Slices(refs, texts) == KeptTexts(kept);
  }

  lemma TrimBodyExact(units: seq<Unit>, budget: nat, texts: map<nat, string>)
    requires units != [] && AllExact(units, texts)
    ensures RefsExact(AllRefs(TrimBody(units, budget)), Join(GAP, Bodies(TrimBody(units, budget))), texts)
  {
    hide UnitExact, TrimUnit, Tokens, RefsExact;
    var kept := DropTail(units, budget);
    var trimmed := TrimBody(units, budget);
    if Tokens(Join(GAP, Bodies(kept))) > budget {
      assert |kept| == 1 && trimmed == [TrimUnit(kept[0], budget)];
      UnitExactParts(units[0], texts);
      TrimUnitExact(kept[0], budget, texts);
    } else {
      forall i | 0 <= i < |trimmed| ensures RefsExact(trimmed[i].refs, trimmed[i].body, texts) && trimmed[i].refs != []
      {
        assert trimmed[i] == units[i];
        UnitExactParts(units[i], texts);
      }
    }
    BodiesExact(trimmed, texts);
  }

  lemma UnitExactParts(u: Unit, texts: map<nat, string>)
    requires UnitExact(u, texts) && u.rows.None?
    ensures u.refs != [] && RefsExact(u.refs, u.body, texts)
    ensures forall i :: 0 <= i < |u.blocks| ==> Known(u.blocks[i], texts)
  {
  }

  lemma {:induction false} NoRowsIn(units: seq<Unit>)
    ensures AllRows(units) == [] <==> forall i :: 0 <= i < |units| ==> units[i].rows.None?
  {
    if units != [] {
      NoRowsIn(units[1..]);
      if forall i :: 0 <= i < |units| ==> units[i].rows.None? {
        assert forall i :: 0 <= i < |units[1..]| ==> units[1..][i] == units[i + 1];
      }
      if AllRows(units) == [] {
        forall i | 0 <= i < |units| ensures units[i].rows.None? {
          assert i > 0 ==> units[i] == units[1..][i - 1];
        }
      }
    }
  }

  lemma ContentExact(units: seq<Unit>, f: Frame, texts: map<nat, string>)
    requires units != [] && AllExact(units, texts)
    ensures RefsExact(Chunker.Content(units, f).refs, Chunker.Content(units, f).body, texts)
  {
    hide UnitExact, TrimBody, RefsExact, Tokens;
    if GuardFires(units, f) {
      var prefix := Join(ARROW, f.items);
      TrimBodyExact(units, TrimBudget(prefix, f.config.hardMax), texts);
    } else {
      forall i | 0 <= i < |units| ensures RefsExact(units[i].refs, units[i].body, texts) && units[i].refs != [] {
        UnitExactParts(units[i], texts);
      }
      BodiesExact(units, texts);
    }
  }

  /** Also where a table is split by rows every reference stays in bounds. */
  lemma ContentRefsIn(units: seq<Unit>, f: Frame, texts: map<nat, string>)
    requires units != [] && PiecesExact(units, texts)
    ensures RefsIn(Chunker.Content(units, f).refs, texts)
  {
    hide TrimUnit, Tokens, RefsExact, Kept;
    if GuardFires(units, f) {
      var budget := TrimBudget(Join(ARROW, f.items), f.config.hardMax);
      var kept, trimmed := DropTail(units, budget), TrimBody(units, budget);
      forall i | 0 <= i < |trimmed| ensures RefsIn(trimmed[i].refs, texts) {
        assert UnitExact(units[i], texts) && kept[i] == units[i];
        TrimUnitRefsIn(units[i], budget, texts);
      }
      AllRefsIn(trimmed, texts);
    } else {
      forall i | 0 <= i < |units| ensures RefsIn(units[i].refs, texts) { assert UnitExact(units[i], texts); }
      AllRefsIn(units, texts);
    }
  }

  lemma TrimUnitRefsIn(u: Unit, budget: nat, texts: map<nat, string>)
    requires UnitExact(u, texts)
    ensures RefsIn(TrimUnit(u, budget).refs, texts)
  {
    TrimUnitExact(u, budget, texts);
  }

  lemma {:induction false} AllRefsIn(units: seq<Unit>, texts: map<nat, string>)
    requires forall i :: 0 <= i < |units| ==> RefsIn(units[i].refs, texts)
    ensures RefsIn(AllRefs(units), texts)
  {
    if units != [] { AllRefsIn(units[1..], texts); }
  }

  lemma ContentPrefix(units: seq<Unit>, f: Frame)
    requires units != [] && FrameOk(f)
    ensures var t := Chunker.Content(units, f);
      t.prefix <= Join(ARROW, f.path) && (!t.compacted ==> t.prefix == Join(ARROW, f.path))
  {
    hide TrimBody, ShortenPrefix, Tokens;
    JoinPrefix(ARROW, f.path, |f.items|);
    assert f.items == f.path[..|f.items|];
    TrimAssembledFits(units, Join(ARROW, f.items), f.compacted, f.config.hardMax);
  }

  lemma AssembleGood(units: seq<Unit>, id: nat, f: Frame, texts: map<nat, string>)
    requires units != [] && FrameOk(f) && PiecesExact(units, texts)
    requires |units| > 1 ==> AllExact(units, texts)
    ensures ChunkGood(Assemble(units, id, f), f, texts) && Assemble(units, id, f).id == id
  {
    hide UnitExact, Chunker.Content, RefsExact, RefsIn, Tokens, Distinct;
    AssembleFits(units, id, f);
    ContentRefsIn(units, f, texts);
    ContentPrefix(units, f);
    NoRowsIn(units);
    if Assemble(units, id, f).rows.None? {
      assert AllExact(units, texts);
      ContentExact(units, f, texts);
    }
  }

  // ------------------------------------------------------------ every chunk of a section

  ghost predicate ChunksGood(chunks: seq<Chunk>, base: nat, f: Frame, texts: map<nat, string>) {
    forall i :: 0 <= i < |chunks| ==> ChunkGood(chunks[i], f, texts) && chunks[i].id == base + i + 1
  }

  lemma {:induction false} EmitEachGood(chunks: seq<Chunk>, fragments: seq<Unit>, base: nat, f: Frame,
      texts: map<nat, string>)
    requires FrameOk(f) && PiecesExact(fragments, texts) && ChunksGood(chunks, base, f, texts)
    ensures ChunksGood(EmitEach(chunks, fragments, base, f), base, f, texts)
    decreases |fragments|
  {
    hide Assemble, ChunkGood, UnitExact;
    if fragments != [] {
      AssembleGood([fragments[0]], base + |chunks| + 1, f, texts);
      EmitEachGood(chunks + [Assemble([fragments[0]], base + |chunks| + 1, f)], fragments[1..], base, f, texts);
    }
  }

  lemma FlushGood(p: Packing, base: nat, f: Frame, texts: map<nat, string>)
    requires FrameOk(f) && AllExact(p.buffer, texts) && ChunksGood(p.chunks, base, f, texts)
    ensures ChunksGood(Flush(p, base, f).chunks, base, f, texts) && Flush(p, base, f).buffer == []
  {
    hide Assemble, ChunkGood, UnitExact;
    if p.buffer != [] { AssembleGood(p.buffer, base + |p.chunks| + 1, f, texts); }
  }

  lemma PackOneGood(p: Packing, u: Unit, base: nat, f: Frame, texts: map<nat, string>)
    requires FrameOk(f) && AllExact(p.buffer, texts) && ChunksGood(p.chunks, base, f, texts)
    requires UnitExact(u, texts) && u.rows.None?
    ensures var q := PackOne(p, u, base, f); AllExact(q.buffer, texts) && ChunksGood(q.chunks, base, f, texts)
  {
    hide Flush, ChunkGood, UnitExact, BodyBudget, ChunksGood, SplitOverlong;
    FlushGood(p, base, f, texts);
    if u.tokens > BodyBudget(f) {
      BudgetPositive(f);
      SplitOverlongExact(u, BodyBudget(f), texts);
      EmitEachGood(Flush(p, base, f).chunks, SplitOverlong(u, BodyBudget(f)), base, f, texts);
    } else {
      FlushGood(Flush(p, base, f), base, f, texts);
    }
  }

  lemma {:induction false} PackAllGood(p: Packing, units: seq<Unit>, base: nat, f: Frame, texts: map<nat, string>)
    requires FrameOk(f) && AllExact(p.buffer, texts) && ChunksGood(p.chunks, base, f, texts)
    requires AllExact(units, texts)
    ensures ChunksGood(PackAll(p, units, base, f), base, f, texts)
    decreases |units|
  {
    hide PackOne, Flush, UnitExact, ChunksGood;
    if units == [] {
      FlushGood(p, base, f, texts);
    } else {
      PackOneGood(p, units[0], base, f, texts);
      PackAllGood(PackOne(p, units[0], base, f), units[1..], base, f, texts);
    }
  }

  lemma SectionChunksGood(blocks: seq<Block>, base: nat, config: ChunkConfig, s: Option<nat>, path: seq<string>)
    requires UniqueIds(blocks)
    ensures var f := MakeFrame(config, s, path);
      ChunksGood(ChunkUnits(BuildUnits(blocks), base, f), base, f, TextsOf(blocks))
  {
    hide BuildUnits, PackAll, EffectivePrefix;
    var texts := TextsOf(blocks);
    forall i | 0 <= i < |blocks| ensures Known(blocks[i], texts) { TextsKnown(blocks, i); }
    BuildUnitsExact(blocks, texts);
    FrameIsOk(config, s, path);
    PackAllGood(Packing([], [], 0), BuildUnits(blocks), base, MakeFrame(config, s, path), texts);
  }

  lemma FrameIsOk(config: ChunkConfig, s: Option<nat>, path: seq<string>)
    ensures FrameOk(MakeFrame(config, s, path))
  {
    if path != [] { EffectivePrefixLongest(path, config.hardMax); }
  }

  // ------------------------------------------------------------ every chunk of a build

  /** Everything a reader of a chunk may rely on, for the blocks and sections it was built from. */
  ghost predicate Sound(c: Chunk, blocks: seq<Block>, byId: map<nat, Section>, config: ChunkConfig)
    requires Acyclic(byId)
  {
    ChunkGood(c, MakeFrame(config, c.section, PathOf(c.section, byId)), TextsOf(Bucket(blocks, c.section)))
  }

  lemma {:induction false} BucketIsSublist(blocks: seq<Block>, s: Option<nat>)
    ensures forall b <- Bucket(blocks, s) :: b in blocks && b.section == s
    ensures UniqueIds(blocks) ==> UniqueIds(Bucket(blocks, s))
  {
    if blocks != [] {
      var n := |blocks| - 1;
      BucketIsSublist(blocks[..n], s);
      var before := Bucket(blocks[..n], s);
      if UniqueIds(blocks) && blocks[n].section == s {
        forall i | 0 <= i < |before| ensures before[i].id != blocks[n].id {
          assert before[i] in blocks[..n];
          var k :| 0 <= k < n && blocks[..n][k] == before[i];
          assert blocks[k].id != blocks[n].id;
        }
      }
    }
  }

  ghost predicate AllSound(chunks: seq<Chunk>, base: nat, blocks: seq<Block>, byId: map<nat, Section>,
      config: ChunkConfig)
    requires Acyclic(byId)
  {
    forall i :: 0 <= i < |chunks| ==> Sound(chunks[i], blocks, byId, config) && chunks[i].id == base + i + 1
  }

  lemma AllSoundAppend(a: seq<Chunk>, b: seq<Chunk>, base: nat, blocks: seq<Block>, byId: map<nat, Section>,
      config: ChunkConfig)
    requires Acyclic(byId)
    requires AllSound(a, base, blocks, byId, config) && AllSound(b, base + |a|, blocks, byId, config)
    ensures AllSound(a + b, base, blocks, byId, config)
  {
    hide Sound, Acyclic;
    forall i | 0 <= i < |a + b| ensures Sound((a + b)[i], blocks, byId, config) && (a + b)[i].id == base + i + 1 {
      if i >= |a| { assert (a + b)[i] == b[i - |a|]; }
    }
  }

  lemma NoChunksSound(base: nat, blocks: seq<Block>, byId: map<nat, Section>, config: ChunkConfig)
    requires Acyclic(byId)
    ensures AllSound([], base, blocks, byId, config)
  {
  }

  lemma SectionSound(blocks: seq<Block>, s: Option<nat>, byId: map<nat, Section>, config: ChunkConfig, base: nat)
    requires Acyclic(byId) && UniqueIds(blocks)
    ensures AllSound(SectionChunks(s, blocks, byId, config, base), base, blocks, byId, config)
  {
    hide ChunkUnits, BuildUnits, TextsOf, PathOf, Acyclic, EffectivePrefix, Bucket;
    var f := SectionFrame(s, byId, config);
    var mine := SectionChunks(s, blocks, byId, config, base);
    BucketIsSublist(blocks, s);
    SectionChunksGood(Bucket(blocks, s), base, config, s, PathOf(s, byId));
    forall i | 0 <= i < |mine| ensures Sound(mine[i], blocks, byId, config) && mine[i].id == base + i + 1 {
      assert ChunkGood(mine[i], f, TextsOf(Bucket(blocks, s)));
      assert mine[i].section == f.section == s;
    }
  }

  lemma {:induction false} BuildFromSound(order: seq<Option<nat>>, blocks: seq<Block>, byId: map<nat, Section>,
      config: ChunkConfig, base: nat)
    requires Acyclic(byId) && UniqueIds(blocks)
    ensures AllSound(BuildFrom(order, blocks, byId, config, base), base, blocks, byId, config)
    decreases |order|
  {
    hide SectionChunks, Acyclic, AllSound, UniqueIds;
    if order == [] {
      NoChunksSound(base, blocks, byId, config);
    } else {
      var mine := SectionChunks(order[0], blocks, byId, config, base);
      var rest := BuildFrom(order[1..], blocks, byId, config, base + |mine|);
      SectionSound(blocks, order[0], byId, config, base);
      BuildFromSound(order[1..], blocks, byId, config, base + |mine|);
      AllSoundAppend(mine, rest, base, blocks, byId, config);
    }
  }

  /** Main result: for any blocks with distinct ids, any acyclic sections and any configuration,
      every chunk is sound and the chunk ids count from one. */
  lemma BuildSound(blocks: seq<Block>, sections: seq<Section>, config: ChunkConfig)
    requires Acyclic(ById(sections)) && UniqueIds(blocks)
    ensures AllSound(Build(blocks, sections, config), 0, blocks, ById(sections), config)
  {
    hide BuildFrom, Order, AllSound, UniqueIds;
    BuildFromSound(Order(blocks), blocks, ById(sections), config, 0);
  }

  // ------------------------------------------------------------ the cap is exactly as strong as claimed

  const SMALL_BLOCK := Block(1, Paragraph, Some(1), 1, "a", {}, [], [], [], None, NO_CONTENT)
  const SMALL_SECTION := Section(1, "a", 1, None, 1, 1)

  lemma OneWord()
    ensures Tokens("a") == 1
    ensures Split("a", ARROW) == ["a"]
  {
    assert TokensBelow("a", 1) == 1;
    assert FindFrom("a", ARROW, 0) == 1;
  }

  lemma SmallChunk(hardMax: int, config: ChunkConfig, f: Frame)
    requires hardMax <= 1 && config.hardMax == hardMax && f == MakeFrame(config, Some(1), ["a"])
    ensures Assemble([TextUnit(SMALL_BLOCK)], 1, f).tokenCount == 2
  {
    OneWord();
    var units := [TextUnit(SMALL_BLOCK)];
    assert KeepItems(["a"], 0, hardMax) == KeepItems(["a"], 1, hardMax) == 1;
    assert f.items == ["a"] && Join(ARROW, f.items) == "a";
    assert Bodies(units) == ["a"];
    WithPrefixTokens("a", "a");
    assert GuardFires(units, f);
    assert TrimBody(units, 1) == units;
    assert ShortenPrefix("a", 1, hardMax) == "a" by {
      assert DropItems(["a"], hardMax - 1) == ["a"];
    }
  }

  lemma SmallBuild(config: ChunkConfig)
    requires config.hardMax <= 1
    ensures Acyclic(ById([SMALL_SECTION]))
    ensures var chunks := Build([SMALL_BLOCK], [SMALL_SECTION], config);
      |chunks| == 1 && chunks[0].tokenCount == 2
  {
    var byId := ById([SMALL_SECTION]);
    var sections := [SMALL_SECTION];
    assert sections[..0] == [];
    assert ById(sections) == ById(sections[..0])[1 := SMALL_SECTION] == map[1 := SMALL_SECTION];
    assert Ranked(byId, map[1 := 0]);
    var blocks := [SMALL_BLOCK];
    assert blocks[..0] == [];
    assert Order(blocks) == [Some(1)] && Bucket(blocks, Some(1)) == blocks;
    SmallSection(byId, config);
    hide Acyclic, SectionChunks;
    var order := Order(blocks);
    assert BuildFrom(order, blocks, byId, config, 0)
      == SectionChunks(Some(1), blocks, byId, config, 0) + BuildFrom(order[1..], blocks, byId, config, 1);
  }

  lemma SmallSection(byId: map<nat, Section>, config: ChunkConfig)
    requires config.hardMax <= 1 && byId == map[1 := SMALL_SECTION] && Acyclic(byId)
    ensures var chunks := SectionChunks(Some(1), [SMALL_BLOCK], byId, config, 0);
      |chunks| == 1 && chunks[0].tokenCount == 2
  {
    hide Bucket, BuildUnits, MakeFrame, ChunkUnits, Assemble, TextUnit, Path;
    SmallBucket();
    SmallUnits();
    SmallPath(byId);
    var f := SectionFrame(Some(1), byId, config);
    SmallChunk(config.hardMax, config, f);
    SmallPacking(config, f);
  }

  lemma SmallBucket()
    ensures Bucket([SMALL_BLOCK], Some(1)) == [SMALL_BLOCK]
  {
    var blocks := [SMALL_BLOCK];
    assert blocks[..0] == [];
  }

  lemma SmallUnits()
    ensures BuildUnits([SMALL_BLOCK]) == [TextUnit(SMALL_BLOCK)]
  {
    var blocks := [SMALL_BLOCK];
    assert blocks[..0] == [];
    var children := ChildrenById(blocks, Captions(blocks));
    var u := TextUnit(SMALL_BLOCK);
    hide TextUnit;
    assert MainUnits(blocks[..0], children) == [];
    assert MainUnits(blocks, children) == MainUnits(blocks[..0], children) + [u] == [u];
    assert LooseCaptions(blocks[..0], BoundIds(blocks, children)) == [];
    var loose := LooseCaptions(blocks, BoundIds(blocks, children));
    assert loose == [];
    assert BuildUnits(blocks) == MainUnits(blocks, children) + loose == [u];
  }

  lemma SmallPath(byId: map<nat, Section>)
    requires byId == map[1 := SMALL_SECTION] && Acyclic(byId)
    ensures PathOf(Some(1), byId) == ["a"]
  {
    var rank :| Ranked(byId, rank) && Path(1, byId) == PathFrom(Some(1), byId, rank);
    assert PathFrom(None, byId, rank) == [];
    assert PathFrom(Some(1), byId, rank) == PathFrom(None, byId, rank) + ["a"] == ["a"];
  }

  lemma SmallPacking(config: ChunkConfig, f: Frame)
    requires config.hardMax <= 1 && f == MakeFrame(config, Some(1), ["a"])
    ensures ChunkUnits([TextUnit(SMALL_BLOCK)], 0, f) == [Assemble([TextUnit(SMALL_BLOCK)], 1, f)]
  {
    hide Assemble;
    OneWord();
    var u := TextUnit(SMALL_BLOCK);
    var p := Packing([], [], 0);
    assert u.tokens == 1 <= BodyBudget(f);
    var q := PackOne(p, u, 0, f);
    assert q == Packing([], [u], 1);
    assert PackAll(p, [u], 0, f) == PackAll(q, [u][1..], 0, f) == Flush(q, 0, f).chunks;
  }

  ghost predicate CapHolds(config: ChunkConfig) {
    forall blocks: seq<Block>, sections: seq<Section> ::
      Acyclic(ById(sections)) ==> AllCapped(Build(blocks, sections, config), config.hardMax)
  }

  ghost predicate AllCapped(chunks: seq<Chunk>, hardMax: int) {
    forall i :: 0 <= i < |chunks| ==> chunks[i].tokenCount <= hardMax
  }

  lemma {:induction false} EmitEachCapped(chunks: seq<Chunk>, fragments: seq<Unit>, base: nat, f: Frame)
    requires f.config.hardMax >= 2 && AllCapped(chunks, f.config.hardMax)
    ensures AllCapped(EmitEach(chunks, fragments, base, f), f.config.hardMax)
    decreases |fragments|
  {
    hide Assemble;
    if fragments != [] {
      AssembleFits([fragments[0]], base + |chunks| + 1, f);
      EmitEachCapped(chunks + [Assemble([fragments[0]], base + |chunks| + 1, f)], fragments[1..], base, f);
    }
  }

  lemma FlushCapped(p: Packing, base: nat, f: Frame)
    requires f.config.hardMax >= 2 && AllCapped(p.chunks, f.config.hardMax)
    ensures AllCapped(Flush(p, base, f).chunks, f.config.hardMax)
  {
    hide Assemble;
    if p.buffer != [] { AssembleFits(p.buffer, base + |p.chunks| + 1, f); }
  }

  lemma PackOneCapped(p: Packing, u: Unit, base: nat, f: Frame)
    requires f.config.hardMax >= 2 && AllCapped(p.chunks, f.config.hardMax)
    ensures AllCapped(PackOne(p, u, base, f).chunks, f.config.hardMax)
  {
    hide Flush, AllCapped, BodyBudget, SplitOverlong;
    FlushCapped(p, base, f);
    if u.tokens > BodyBudget(f) {
      BudgetPositive(f);
      EmitEachCapped(Flush(p, base, f).chunks, SplitOverlong(u, BodyBudget(f)), base, f);
    } else {
      FlushCapped(Flush(p, base, f), base, f);
    }
  }

  lemma {:induction false} PackAllCapped(p: Packing, units: seq<Unit>, base: nat, f: Frame)
    requires f.config.hardMax >= 2 && AllCapped(p.chunks, f.config.hardMax)
    ensures AllCapped(PackAll(p, units, base, f), f.config.hardMax)
    decreases |units|
  {
    hide PackOne, Flush, AllCapped;
    if units == [] {
      FlushCapped(p, base, f);
    } else {
      PackOneCapped(p, units[0], base, f);
      PackAllCapped(PackOne(p, units[0], base, f), units[1..], base, f);
    }
  }

  lemma {:induction false} BuildFromCapped(order: seq<Option<nat>>, blocks: seq<Block>, byId: map<nat, Section>,
      config: ChunkConfig, base: nat)
    requires Acyclic(byId) && config.hardMax >= 2
    ensures AllCapped(BuildFrom(order, blocks, byId, config, base), config.hardMax)
    decreases |order|
  {
    hide Acyclic, PackAll, BuildUnits, Bucket, PathOf, EffectivePrefix;
    if order != [] {
      var first := SectionChunks(order[0], blocks, byId, config, base);
      PackAllCapped(Packing([], [], 0), BuildUnits(Bucket(blocks, order[0])), base,
        MakeFrame(config, order[0], PathOf(order[0], byId)));
      BuildFromCapped(order[1..], blocks, byId, config, base + |first|);
    }
  }

  /** Main result: whatever the blocks, also with repeated ids, a cap of at least two tokens holds. */
  lemma BuildCapped(blocks: seq<Block>, sections: seq<Section>, config: ChunkConfig)
    requires config.hardMax >= 2 && Acyclic(ById(sections))
    ensures AllCapped(Build(blocks, sections, config), config.hardMax)
  {
    BuildFromCapped(Order(blocks), blocks, ById(sections), config, 0);
  }

  /** The hard cap holds for all documents exactly when it allows at least two tokens: a section
      title and a body of one word each already need two. */
  lemma CapExactlyFromTwo(config: ChunkConfig)
    ensures CapHolds(config) <==> config.hardMax >= 2
  {
    hide Build, Acyclic, ById, AllCapped;
    if config.hardMax >= 2 {
      forall blocks: seq<Block>, sections: seq<Section> | Acyclic(ById(sections))
        ensures AllCapped(Build(blocks, sections, config), config.hardMax)
      {
        BuildCapped(blocks, sections, config);
      }
    } else {
      SmallBuild(config);
      SmallNotCapped(Build([SMALL_BLOCK], [SMALL_SECTION], config), config.hardMax);
    }
  }

  lemma SmallNotCapped(chunks: seq<Chunk>, hardMax: int)
    requires |chunks| == 1 && chunks[0].tokenCount == 2 && hardMax <= 1
    ensures !AllCapped(chunks, hardMax)
  {
  }
}
