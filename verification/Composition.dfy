/** Normalizer and chunker together: normalized documents meet everything the chunk builder relies
    on, and exactly when every section keeps its units the chunks reference every block's whole text. */
module Composition {
  import opened Prelude
  import opened TokenCounter
  import opened Schema
  import opened Units
  import opened Trimming
  import opened Chunker
  import opened ChunkGuarantees
  import opened ChunkCoverage
  import opened Normalizer
  import opened NormalizerGuarantees
  import opened CaptionBinding
  import opened Tiling
  import opened UnitCoverage

  // ------------------------------------------------------------ shape of a normalized document

  function Rank(s: Option<nat>): nat { match s case None => 0 case Some(k) => k }

  /** Sections never come back, and a new one starts with its heading. */
  ghost predicate Sectioned(blocks: seq<Block>) {
    && (forall k :: 0 <= k < |blocks| ==> blocks[k].section != Some(0))
    && (forall i, j :: 0 <= i <= j < |blocks| ==> Rank(blocks[i].section) <= Rank(blocks[j].section))
    && (forall k :: 0 < k < |blocks| && blocks[k].section != blocks[k - 1].section ==> blocks[k].kind.Heading?)
  }

  ghost predicate Ordered(blocks: seq<Block>) {
    forall k :: 0 <= k < |blocks| ==> blocks[k].id == k + 1 == blocks[k].order
  }

  ghost predicate FullyLinked(blocks: seq<Block>) { forall k :: 0 <= k < |blocks| ==> LinkOk(blocks, k) }

  /** Canonical text is chunk text. */
  predicate TextIsCanonical(b: Block) { BlockText(b) == b.text }

  lemma {:induction false} HeadingsGrow(groups: seq<seq<Item>>, i: nat, j: nat)
    requires GroupsOk(groups) && i <= j <= |groups|
    ensures HeadingCount(groups[..i]) <= HeadingCount(groups[..j])
    decreases j - i
  {
    if i < j {
      HeadingsGrow(groups, i, j - 1);
      assert groups[..j][..j - 1] == groups[..j - 1];
    }
  }

  lemma GroupedIsSectioned(blocks: seq<Block>, groups: seq<seq<Item>>)
    requires GroupsOk(groups) && |blocks| == |groups|
    requires forall k :: 0 <= k < |blocks| ==>
      blocks[k].section == SectionAt(groups, k + 1) && blocks[k].kind == groups[k][0].kind
    ensures Sectioned(blocks)
  {
    forall i, j | 0 <= i <= j < |blocks| ensures Rank(blocks[i].section) <= Rank(blocks[j].section) {
      HeadingsGrow(groups, i + 1, j + 1);
    }
    forall k | 0 < k < |blocks| && blocks[k].section != blocks[k - 1].section ensures blocks[k].kind.Heading? {
      assert groups[..k + 1][..k] == groups[..k];
    }
  }

  lemma DocumentShape(result: ParserResult, heights: map<int, real>)
    ensures var blocks := Normalize(result, heights).blocks; Sectioned(blocks) && Ordered(blocks) && UniqueIds(blocks)
  {
    var groups := Groups(SortItems(result.items), heights);
    OutputBlocks(result, heights);
    hide Normalize, GroupsFrom, SortItems, Sectioned, SectionAt;
    var blocks := Normalize(result, heights).blocks;
    forall k | 0 <= k < |blocks|
      ensures blocks[k].section == SectionAt(groups, k + 1) && blocks[k].id == k + 1 == blocks[k].order
        && blocks[k].kind == groups[k][0].kind
    {
      assert MadeFrom(blocks[k], k, groups);
    }
    GroupedIsSectioned(blocks, groups);
  }

  // ------------------------------------------------------------ links and texts survive

  predicate SameKinds(a: seq<Block>, b: seq<Block>) {
    |a| == |b| && forall k :: 0 <= k < |a| ==> a[k].kind == b[k].kind && a[k].id == b[k].id
  }

  lemma {:induction false} OwnerByKinds(a: seq<Block>, b: seq<Block>, i: nat)
    requires SameKinds(a, b) && i <= |a|
    ensures Owner(a, i) == Owner(b, i)
  {
    if i > 0 { OwnerByKinds(a, b, i - 1); }
  }

  lemma {:induction false} RunEndByKinds(a: seq<Block>, b: seq<Block>, i: nat)
    requires SameKinds(a, b) && i <= |a|
    ensures RunEnd(a, i) == RunEnd(b, i)
    decreases |a| - i
  {
    if i < |a| && a[i].kind.Caption? { RunEndByKinds(a, b, i + 1); }
  }

  lemma LinkedBlockOk(made: seq<Block>, blocks: seq<Block>, k: nat)
    requires k < |made| && blocks == Numbered(Linked(made)) && SameKinds(made, blocks)
    requires made[k].captionIds == [] && made[k].parentId == None
    ensures LinkOk(blocks, k)
  {
    hide Owner, RunEnd, SameKinds;
    OwnerByKinds(made, blocks, k);
    RunEndByKinds(made, blocks, k + 1);
    LinkedKeeps(made, k);
    var e := RunEnd(made, k + 1);
    var now, before := blocks[k + 1..e], made[k + 1..e];
    forall i | 0 <= i < |now| ensures now[i].id == before[i].id { LinkedKeeps(made, k + 1 + i); }
    assert BlockIds(now) == BlockIds(before);
  }

  lemma LinkedIsLinked(made: seq<Block>)
    requires Unlinked(made)
    ensures FullyLinked(Numbered(Linked(made)))
  {
    hide LinkOk;
    var blocks := Numbered(Linked(made));
    assert SameKinds(made, blocks);
    hide Linked, Numbered, SameKinds;
    forall k | 0 <= k < |blocks| ensures LinkOk(blocks, k) { LinkedBlockOk(made, blocks, k); }
  }

  lemma DocumentLinked(result: ParserResult, heights: map<int, real>)
    ensures FullyLinked(Normalize(result, heights).blocks)
  {
    var groups := Groups(SortItems(result.items), heights);
    GroupsSound(SortItems(result.items), heights);
    GroupsNotEmpty(SortItems(result.items), 0, [], heights);
    hide GroupsFrom, SortItems, AddAll, Linked, Numbered, FullyLinked;
    FreshBlocksUnlinked(groups);
    LinkedIsLinked(AddAll(groups).blocks);
  }

  lemma MergedTextCanonical(group: seq<Item>, id: nat, section: Option<nat>)
    requires GroupOk(group)
    ensures TextIsCanonical(MergedBlock(group, id, section))
  {
    var first := MakeBlock(group[0], id, section);
    AppendAllKeeps(first, group[1..]);
    if |group| > 1 { assert group[0].kind.Paragraph?; }
  }

  /** What the chunker cuts is the canonical block text, for every block the normalizer makes. */
  lemma DocumentTexts(result: ParserResult, heights: map<int, real>)
    ensures forall k :: 0 <= k < |Normalize(result, heights).blocks| ==>
      TextIsCanonical(Normalize(result, heights).blocks[k])
  {
    var items := SortItems(result.items);
    var groups := Groups(items, heights);
    GroupsSound(items, heights);
    GroupsNotEmpty(items, 0, [], heights);
    AddAllBlocks(groups);
    hide GroupsFrom, SortItems, AddAll, MergedBlock, BlockText;
    var made := AddAll(groups).blocks;
    forall k | 0 <= k < |made| ensures TextIsCanonical(Numbered(Linked(made))[k]) {
      MergedTextCanonical(groups[k], k + 1, SectionAt(groups, k + 1));
      LinkedKeeps(made, k);
      TextUnchanged(made[k], Numbered(Linked(made))[k]);
    }
  }

  lemma TextUnchanged(a: Block, b: Block)
    requires a.kind == b.kind && a.text == b.text && a.content == b.content && TextIsCanonical(a)
    ensures TextIsCanonical(b)
  {
  }

  // ------------------------------------------------------------ a section is a stretch of blocks

  lemma SectionedPrefix(blocks: seq<Block>, n: nat)
    requires Sectioned(blocks) && n <= |blocks|
    ensures Sectioned(blocks[..n])
  {
  }

  /** Between two blocks of a section there is nothing else. */
  lemma Between(blocks: seq<Block>, i: nat, j: nat, k: nat)
    requires Sectioned(blocks) && i <= j <= k < |blocks| && blocks[i].section == blocks[k].section
    ensures blocks[j].section == blocks[i].section
  {
    assert Rank(blocks[i].section) <= Rank(blocks[j].section) <= Rank(blocks[k].section);
  }

  /** Section s occupies exactly the stretch lo..hi. */
  ghost predicate Stretch(blocks: seq<Block>, s: Option<nat>, lo: nat, hi: nat) {
    && lo <= hi <= |blocks|
    && Bucket(blocks, s) == blocks[lo..hi]
    && forall k :: 0 <= k < |blocks| ==> (blocks[k].section == s <==> lo <= k < hi)
  }

  lemma StretchSkip(before: seq<Block>, b: Block, s: Option<nat>, lo: nat, hi: nat)
    requires Stretch(before, s, lo, hi) && b.section != s
    ensures Stretch(before + [b], s, lo, hi)
  {
    assert (before + [b])[..|before|] == before;
    assert (before + [b])[lo..hi] == before[lo..hi];
    assert before[lo..hi] + [] == before[lo..hi];
  }

  lemma StretchOpen(before: seq<Block>, b: Block, s: Option<nat>, lo: nat)
    requires Stretch(before, s, lo, lo) && b.section == s
    ensures Stretch(before + [b], s, |before|, |before| + 1)
  {
    assert (before + [b])[..|before|] == before;
    assert [] + [b] == (before + [b])[|before|..|before| + 1];
  }

  lemma StretchGrow(before: seq<Block>, b: Block, s: Option<nat>, lo: nat)
    requires lo < |before| && Stretch(before, s, lo, |before|) && b.section == s
    ensures Stretch(before + [b], s, lo, |before| + 1)
  {
    assert (before + [b])[..|before|] == before;
    assert (before + [b])[lo..|before| + 1] == before[lo..|before|] + [b];
  }

  lemma StretchReachesEnd(before: seq<Block>, b: Block, s: Option<nat>, lo: nat, hi: nat)
    requires Sectioned(before + [b]) && Stretch(before, s, lo, hi) && lo < hi && b.section == s
    ensures hi == |before|
  {
    var blocks := before + [b];
    if hi < |before| {
      assert blocks[hi - 1].section == s;
      Between(blocks, hi - 1, hi, |before|);
    }
  }

  lemma {:induction false} BucketStretch(blocks: seq<Block>, s: Option<nat>) returns (lo: nat, hi: nat)
    requires Sectioned(blocks) && s != Some(0)
    ensures Stretch(blocks, s, lo, hi)
  {
    if blocks == [] {
      lo, hi := 0, 0;
    } else {
      hide Sectioned, Stretch;
      var n := |blocks| - 1;
      var before, b := blocks[..n], blocks[n];
      assert blocks == before + [b];
      SectionedPrefix(blocks, n);
      lo, hi := BucketStretch(before, s);
      if b.section != s {
        StretchSkip(before, b, s, lo, hi);
      } else if lo == hi {
        StretchOpen(before, b, s, lo);
        lo, hi := n, n + 1;
      } else {
        StretchBounds(before, s, lo, hi);
        StretchReachesEnd(before, b, s, lo, hi);
        StretchGrow(before, b, s, lo);
        hi := n + 1;
      }
    }
  }

  lemma StretchBounds(blocks: seq<Block>, s: Option<nat>, lo: nat, hi: nat)
    requires Stretch(blocks, s, lo, hi)
    ensures lo <= hi <= |blocks|
  {
  }

  lemma {:induction false} OwnerInStretch(blocks: seq<Block>, lo: nat, hi: nat, i: nat)
    requires lo <= hi <= |blocks| && i <= hi - lo
    requires lo == 0 || (lo < hi ==> blocks[lo].kind.Heading?)
    ensures i > 0 || lo == 0 ==>
      Owner(blocks, lo + i) == (match Owner(blocks[lo..hi], i) case None => None case Some(j) => Some(lo + j))
  {
    if i > 0 {
      OwnerInStretch(blocks, lo, hi, i - 1);
      assert blocks[lo..hi][i - 1] == blocks[lo + i - 1];
    }
  }

  lemma {:induction false} RunEndInStretch(blocks: seq<Block>, lo: nat, hi: nat, i: nat)
    requires lo <= hi <= |blocks| && i <= hi - lo
    requires hi < |blocks| ==> blocks[hi].kind.Heading?
    ensures RunEnd(blocks, lo + i) == lo + RunEnd(blocks[lo..hi], i)
    decreases hi - lo - i
  {
    if i < hi - lo && blocks[lo + i].kind.Caption? { RunEndInStretch(blocks, lo, hi, i + 1); }
  }

  lemma StretchRun(blocks: seq<Block>, lo: nat, hi: nat, i: nat)
    requires lo <= hi <= |blocks| && i < hi - lo && (hi < |blocks| ==> blocks[hi].kind.Heading?)
    ensures Run(blocks[lo..hi], i) == Run(blocks, lo + i)
  {
    RunEndInStretch(blocks, lo, hi, i + 1);
    hide RunEnd;
    var e := RunEnd(blocks[lo..hi], i + 1);
    assert RunEnd(blocks, lo + i + 1) == lo + e;
    SliceOfSlice(blocks, lo, hi, i + 1, e);
  }

  lemma StretchLinkOk(blocks: seq<Block>, lo: nat, hi: nat, i: nat)
    requires FullyLinked(blocks) && lo <= hi <= |blocks| && i < hi - lo
    requires lo == 0 || blocks[lo].kind.Heading?
    requires hi < |blocks| ==> blocks[hi].kind.Heading?
    ensures LinkOk(blocks[lo..hi], i)
  {
    assert LinkOk(blocks, lo + i);
    hide FullyLinked;
    OwnerInStretch(blocks, lo, hi, i);
    StretchRun(blocks, lo, hi, i);
    hide Run, Owner, BlockIds;
    var seg := blocks[lo..hi];
    var b, o := blocks[lo + i], Owner(seg, i);
    assert seg[i] == b;
    if o.Some? { assert seg[o.value] == blocks[lo + o.value]; }
  }

  lemma StretchSelfLinked(blocks: seq<Block>, lo: nat, hi: nat)
    requires Ordered(blocks) && FullyLinked(blocks) && lo <= hi <= |blocks|
    requires lo == 0 || (lo < hi ==> blocks[lo].kind.Heading?)
    requires hi < |blocks| ==> blocks[hi].kind.Heading?
    ensures SelfLinked(blocks[lo..hi])
  {
    var seg := blocks[lo..hi];
    forall i | 0 <= i < |seg| ensures seg[i].id == seg[i].order == lo + i + 1 {
      assert seg[i] == blocks[lo + i];
    }
    forall i | 0 <= i < |seg| ensures LinkOk(seg, i) {
      StretchLinkOk(blocks, lo, hi, i);
    }
  }

  lemma NothingSelfLinked()
    ensures SelfLinked([])
  {
  }

  lemma SectionSelfLinked(blocks: seq<Block>, s: Option<nat>)
    requires Sectioned(blocks) && Ordered(blocks) && FullyLinked(blocks) && s != Some(0)
    ensures SelfLinked(Bucket(blocks, s))
  {
    hide SelfLinked, FullyLinked, Ordered, Bucket;
    var lo, hi := BucketStretch(blocks, s);
    if lo < hi {
      assert lo > 0 ==> blocks[lo].section != blocks[lo - 1].section;
      assert hi < |blocks| ==> blocks[hi].section != blocks[hi - 1].section;
      StretchSelfLinked(blocks, lo, hi);
    } else {
      assert blocks[lo..hi] == [];
      NothingSelfLinked();
    }
  }

  // ------------------------------------------------------------ buckets concatenate to the reading order

  function Concatenated(order: seq<Option<nat>>, blocks: seq<Block>): seq<Block> {
    if order == [] then [] else Concatenated(order[..|order| - 1], blocks) + Bucket(blocks, order[|order| - 1])
  }

  lemma {:induction false} OrderIsSections(blocks: seq<Block>)
    ensures forall s :: s in Order(blocks) <==> exists k :: 0 <= k < |blocks| && blocks[k].section == s
    ensures forall i, j :: 0 <= i < j < |Order(blocks)| ==> Order(blocks)[i] != Order(blocks)[j]
  {
    if blocks != [] {
      var n := |blocks| - 1;
      OrderIsSections(blocks[..n]);
      forall s ensures s in Order(blocks) <==> exists k :: 0 <= k < |blocks| && blocks[k].section == s {
        if exists k :: 0 <= k < n && blocks[..n][k].section == s {
          var k :| 0 <= k < n && blocks[..n][k].section == s;
          assert blocks[k].section == s;
        }
        if exists k :: 0 <= k < |blocks| && blocks[k].section == s {
          var k :| 0 <= k < |blocks| && blocks[k].section == s;
          assert k < n ==> blocks[..n][k].section == s;
        }
      }
    }
  }

  lemma {:induction false} LastSectionLast(blocks: seq<Block>)
    requires Sectioned(blocks) && blocks != []
    ensures Order(blocks) != [] && Order(blocks)[|Order(blocks)| - 1] == blocks[|blocks| - 1].section
  {
    var n := |blocks| - 1;
    var before, s := blocks[..n], blocks[n].section;
    if s in Order(before) {
      OrderIsSections(before);
      var k :| 0 <= k < n && before[k].section == s;
      assert Rank(blocks[k].section) <= Rank(blocks[n - 1].section) <= Rank(blocks[n].section);
      LastSectionLast(before);
    }
  }

  lemma {:induction false} OthersUnchanged(order: seq<Option<nat>>, before: seq<Block>, b: Block)
    requires b.section !in order
    ensures Concatenated(order, before + [b]) == Concatenated(order, before)
  {
    if order != [] {
      OthersUnchanged(order[..|order| - 1], before, b);
      assert (before + [b])[..|before|] == before;
    }
  }

  lemma SameSectionStep(before: seq<Block>, b: Block, front: seq<Option<nat>>)
    requires b.section !in front
    ensures var order := front + [b.section];
      Concatenated(order, before + [b]) == Concatenated(order, before) + [b]
  {
    var order := front + [b.section];
    assert order[..|front|] == front;
    OthersUnchanged(front, before, b);
    assert (before + [b])[..|before|] == before;
    assert Bucket(before + [b], b.section) == Bucket(before, b.section) + [b];
  }

  /** The section buckets, in order of first appearance, give back the reading order. */
  lemma {:induction false} BucketsGiveReadingOrder(blocks: seq<Block>)
    requires Sectioned(blocks)
    ensures Concatenated(Order(blocks), blocks) == blocks
  {
    hide Sectioned, Bucket;
    if blocks != [] {
      var n := |blocks| - 1;
      var before, b := blocks[..n], blocks[n];
      var earlier := Order(before);
      assert blocks == before + [b];
      SectionedPrefix(blocks, n);
      BucketsGiveReadingOrder(before);
      OrderIsSections(before);
      if b.section in earlier {
        LastSectionLast(blocks);
        var m := |earlier| - 1;
        assert earlier == earlier[..m] + [b.section];
        SameSectionStep(before, b, earlier[..m]);
      } else {
        SameSectionStep(before, b, earlier);
        assert (earlier + [b.section])[..|earlier|] == earlier;
        SectionAbsent(before, b.section);
      }
    }
  }

  lemma SectionAbsent(before: seq<Block>, s: Option<nat>)
    requires s !in Order(before)
    ensures Bucket(before, s) == []
  {
    OrderIsSections(before);
    EmptyBucket(before, s);
  }

  // ------------------------------------------------------------ nothing is lost

  /** What the guard leaves for a body in section s. */
  ghost function Budget(s: Option<nat>, byId: map<nat, Section>, config: ChunkConfig): (r: nat)
    requires Acyclic(byId)
    ensures r >= 1
  {
    BodyBudget(SectionFrame(s, byId, config))
  }

  /** Every unit of section s fits beside its prefix, or its pieces do. */
  ghost predicate SectionKept(s: Option<nat>, blocks: seq<Block>, byId: map<nat, Section>, config: ChunkConfig)
    requires Acyclic(byId)
  {
    forall u <- BuildUnits(Bucket(blocks, s)) :: UnitKept(u, Budget(s, byId, config))
  }

  lemma TextWellMade(b: Block)
    ensures WellMade(TextUnit(b))
  {
    hide Tokens, BlockText;
    assert BlockTexts([b])[1..] == [];
    assert SumTokens(BlockTexts([b])) == Tokens(BlockText(b)) + SumTokens([]);
  }

  lemma StructuredWellMade(b: Block, captions: seq<Block>)
    requires forall i :: 0 <= i < |captions| ==> captions[i].kind.Caption?
    ensures WellMade(StructuredUnit(b, captions))
  {
    hide Tokens;
    var u := StructuredUnit(b, captions);
    SeparatorsAreNeutral();
    assert Texts(captions) == BlockTexts(captions) && CaptionRefs(captions) == WholeRefs(captions);
    assert u.blocks[1..] == captions && BlockTexts(u.blocks)[1..] == BlockTexts(captions);
    assert WholeRefs([b] + captions) == [WholeRef(b)] + WholeRefs(captions);
    assert SumTokens(BlockTexts(u.blocks)) == Tokens(BlockText(b)) + SumTokens(Texts(captions));
    if captions != [] {
      JoinTokens(GAP, Texts(captions));
      AcrossSeparator(BlockText(b), GAP, Join(GAP, Texts(captions)));
    }
    assert u.tokens == SumTokens(BlockTexts(u.blocks));
  }

  lemma {:induction false} MainWellMade(bs: seq<Block>, children: map<nat, seq<Block>>)
    requires forall id <- children :: forall i :: 0 <= i < |children[id]| ==> children[id][i].kind.Caption?
    ensures AllWellMade(MainUnits(bs, children))
  {
    hide WellMade, StructuredUnit, TextUnit;
    if bs != [] {
      var n := |bs| - 1;
      MainWellMade(bs[..n], children);
      StructuredWellMade(bs[n], ChildrenOf(bs[n], children));
      TextWellMade(bs[n]);
    }
  }

  lemma {:induction false} LooseWellMade(bs: seq<Block>, bound: set<nat>)
    ensures AllWellMade(LooseCaptions(bs, bound))
  {
    hide WellMade, TextUnit;
    if bs != [] {
      LooseWellMade(bs[..|bs| - 1], bound);
      TextWellMade(bs[|bs| - 1]);
    }
  }

  /** Every unit starts out referencing each of its blocks as a whole and counted by its blocks. */
  lemma UnitsWellMade(bs: seq<Block>)
    ensures AllWellMade(BuildUnits(bs))
  {
    hide MainUnits, LooseCaptions, WellMade;
    var dict := Captions(bs);
    var children: map<nat, seq<Block>> := ChildrenById(bs, dict);
    CaptionsInside(bs);
    forall id: nat, i: nat | id in children && i < |children[id]| ensures children[id][i].kind.Caption? {
      ChildrenByIdInside(bs, dict, id);
      assert children[id][i] in dict;
    }
    MainWellMade(bs, children);
    LooseWellMade(bs, BoundIds(bs, children));
  }

  /** The blocks of all units of all listed sections, in chunk order. */
  function UnitBlocksOf(order: seq<Option<nat>>, blocks: seq<Block>): seq<Block> {
    if order == [] then [] else AllBlocks(BuildUnits(Bucket(blocks, order[0]))) + UnitBlocksOf(order[1..], blocks)
  }

  lemma {:induction false} BuildTilesExactly(order: seq<Option<nat>>, blocks: seq<Block>, byId: map<nat, Section>,
      config: ChunkConfig, base: nat)
    requires Acyclic(byId) && UniqueIds(UnitBlocksOf(order, blocks))
    ensures var refs, placed := ChunkRefs(BuildFrom(order, blocks, byId, config, base)), UnitBlocksOf(order, blocks);
      && Inside(refs, placed)
      && (TilesBlocks(refs, placed) <==> forall s <- order :: SectionKept(s, blocks, byId, config))
    decreases |order|
  {
    hide TilesBlocks, ChunkUnits, Acyclic, SectionFrame, BuildUnits, Bucket, UniqueIds, Inside, UnitKept, ChunkRefs,
      SectionKept;
    if order == [] {
      TilesNone();
      NoneInside([]);
      assert ChunkRefs([]) == [] by { NoChunkRefs(); }
    } else {
      var s := order[0];
      var f := SectionFrame(s, byId, config);
      var units := BuildUnits(Bucket(blocks, s));
      var mine := SectionChunks(s, blocks, byId, config, base);
      var rest := BuildFrom(order[1..], blocks, byId, config, base + |mine|);
      var others := UnitBlocksOf(order[1..], blocks);
      UniqueParts(AllBlocks(units), others);
      UnitsWellMade(Bucket(blocks, s));
      SectionTilesExactly(units, base, f);
      KeptByUnits(s, blocks, byId, config);
      BuildTilesExactly(order[1..], blocks, byId, config, base + |mine|);
      ChunkRefsAppend(mine, rest);
      TilesAppendExactly(ChunkRefs(mine), AllBlocks(units), ChunkRefs(rest), others);
      InsideAppend(ChunkRefs(mine), AllBlocks(units), ChunkRefs(rest), others);
      assert forall t :: t in order <==> t == s || t in order[1..];
    }
  }

  lemma KeptByUnits(s: Option<nat>, blocks: seq<Block>, byId: map<nat, Section>, config: ChunkConfig)
    requires Acyclic(byId)
    ensures SectionKept(s, blocks, byId, config) <==>
      forall u <- BuildUnits(Bucket(blocks, s)) :: UnitKept(u, BodyBudget(SectionFrame(s, byId, config)))
  {
  }

  lemma NoChunkRefs()
    ensures ChunkRefs([]) == []
  {
  }

  lemma {:induction false} UnitBlocksPermute(order: seq<Option<nat>>, blocks: seq<Block>)
    requires forall s <- order :: SelfLinked(Bucket(blocks, s))
    ensures multiset(UnitBlocksOf(order, blocks)) == multiset(ConcatenatedFront(order, blocks))
  {
    hide SelfLinked, BuildUnits, Bucket;
    if order != [] {
      assert order[0] in order;
      EveryBlockInOneUnit(Bucket(blocks, order[0]));
      UnitBlocksPermute(order[1..], blocks);
    }
  }

  function ConcatenatedFront(order: seq<Option<nat>>, blocks: seq<Block>): seq<Block> {
    if order == [] then [] else Bucket(blocks, order[0]) + ConcatenatedFront(order[1..], blocks)
  }

  lemma {:induction false} FrontIsBack(order: seq<Option<nat>>, blocks: seq<Block>)
    ensures Concatenated(order, blocks) == ConcatenatedFront(order, blocks)
  {
    hide Bucket;
    if order != [] {
      var n := |order| - 1;
      FrontIsBack(order[..n], blocks);
      FrontSnoc(order[..n], order[n], blocks);
      assert order == order[..n] + [order[n]];
    }
  }

  lemma {:induction false} FrontSnoc(order: seq<Option<nat>>, s: Option<nat>, blocks: seq<Block>)
    ensures ConcatenatedFront(order + [s], blocks) == ConcatenatedFront(order, blocks) + Bucket(blocks, s)
  {
    hide Bucket;
    if order == [] {
      assert (order + [s])[1..] == [];
    } else {
      assert (order + [s])[1..] == order[1..] + [s];
      FrontSnoc(order[1..], s, blocks);
    }
  }

  lemma NormalizedIsChunkable(result: ParserResult, heights: map<int, real>)
    ensures var out := Normalize(result, heights);
      && UniqueIds(out.blocks)
      && Acyclic(ById(out.sections))
      && Concatenated(Order(out.blocks), out.blocks) == out.blocks
      && multiset(UnitBlocksOf(Order(out.blocks), out.blocks)) == multiset(out.blocks)
  {
    var out := Normalize(result, heights);
    DocumentShape(result, heights);
    DocumentLinked(result, heights);
    SectionTreeSound(result, heights);
    hide Normalize, Sectioned, Ordered, FullyLinked, UniqueIds, Acyclic, TreeOk, Titles, Bucket, SelfLinked,
      UnitBlocksOf;
    BucketsGiveReadingOrder(out.blocks);
    FrontIsBack(Order(out.blocks), out.blocks);
    forall s | s in Order(out.blocks) ensures SelfLinked(Bucket(out.blocks, s)) {
      SectionNotZero(out.blocks, s);
      SectionSelfLinked(out.blocks, s);
    }
    UnitBlocksPermute(Order(out.blocks), out.blocks);
  }

  lemma SectionNotZero(blocks: seq<Block>, s: Option<nat>)
    requires Sectioned(blocks) && s in Order(blocks)
    ensures s != Some(0)
  {
    OrderIsSections(blocks);
  }

  /** Rearranging blocks keeps their ids distinct. */
  lemma PermutedUnique(a: seq<Block>, b: seq<Block>)
    requires UniqueIds(b) && multiset(a) == multiset(b)
    ensures UniqueIds(a)
  {
    forall i, j | 0 <= i < j < |a| ensures a[i].id != a[j].id {
      assert a[i] in multiset(a) && a[j] in multiset(a);
      var k :| 0 <= k < |b| && b[k] == a[i];
      var l :| 0 <= l < |b| && b[l] == a[j];
      if a[i].id == a[j].id {
        assert k == l;
        CountsTwice(a, i, j);
        CountsOnce(b, k);
      }
    }
  }

  lemma CountsTwice(a: seq<Block>, i: nat, j: nat)
    requires i < j < |a| && a[i] == a[j]
    ensures multiset(a)[a[i]] >= 2
  {
    assert a == a[..j] + [a[j]] + a[j + 1..];
    assert a[i] in a[..j];
    assert multiset(a) == multiset(a[..j]) + multiset{a[j]} + multiset(a[j + 1..]);
  }

  lemma CountsOnce(b: seq<Block>, k: nat)
    requires k < |b| && UniqueIds(b)
    ensures multiset(b)[b[k]] == 1
  {
    assert b == b[..k] + [b[k]] + b[k + 1..];
    assert b[k] !in b[..k] && b[k] !in b[k + 1..];
    assert multiset(b) == multiset(b[..k]) + multiset{b[k]} + multiset(b[k + 1..]);
  }

  /** Main result: any parser result, normalized and chunked. The section buckets give back the reading
      order, every block lands in exactly one unit, and the chunks' references tile each block's whole
      text exactly once if and only if every section keeps its units. */
  lemma NormalizedNothingLost(result: ParserResult, heights: map<int, real>, config: ChunkConfig)
    ensures var out := Normalize(result, heights);
      var byId := ById(out.sections);
      var placed := UnitBlocksOf(Order(out.blocks), out.blocks);
      && Acyclic(byId)
      && Concatenated(Order(out.blocks), out.blocks) == out.blocks
      && multiset(placed) == multiset(out.blocks)
      && (TilesBlocks(ChunkRefs(Build(out.blocks, out.sections, config)), placed) <==>
        forall s <- Order(out.blocks) :: SectionKept(s, out.blocks, byId, config))
  {
    NormalizedIsChunkable(result, heights);
    hide Normalize, Acyclic, SectionKept, TilesBlocks, UnitBlocksOf, Concatenated, BuildFrom, Order, ById, UniqueIds;
    var out := Normalize(result, heights);
    PermutedUnique(UnitBlocksOf(Order(out.blocks), out.blocks), out.blocks);
    BuildTilesExactly(Order(out.blocks), out.blocks, ById(out.sections), config, 0);
  }

  /** Every normalized document satisfies the premises of the chunk guarantees. */
  lemma NormalizedChunksSound(result: ParserResult, heights: map<int, real>, config: ChunkConfig)
    ensures var out := Normalize(result, heights);
      Acyclic(ById(out.sections))
        && AllSound(Build(out.blocks, out.sections, config), 0, out.blocks, ById(out.sections), config)
  {
    NormalizedIsChunkable(result, heights);
    hide Normalize, Acyclic, Build, AllSound, UnitBlocksOf, Concatenated, ById;
    var out := Normalize(result, heights);
    BuildSound(out.blocks, out.sections, config);
  }
}
