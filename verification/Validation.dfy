/** Hard checks over a canonical parse (src/transit_scholar/layer2/validation.py). Whether some
    quality signal is merely degraded comes in as a parameter. */
module Validation {
  import opened Prelude
  import opened Schema
  import opened Normalizer
  import opened NormalizerGuarantees

  datatype Verdict = Failed | Degraded | Passed

  datatype Thresholds = Thresholds(failedBelow: real, minChars: nat)

  /** The five hard signals, true when the check is met. */
  datatype Signals = Signals(pageCount: bool, body: bool, order: bool, provenance: bool, structure: bool)

  predicate AllMet(s: Signals) { s.pageCount && s.body && s.order && s.provenance && s.structure }

  // ------------------------------------------------------------ the checks

  predicate PageCountMatches(result: ParserResult, pageCount: int) {
    result.pageCount.None? || result.pageCount.value == 0 || pageCount == result.pageCount.value
  }

  predicate StrictlyOrdered(blocks: seq<Block>) {
    forall i, j :: 0 <= i < j < |blocks| ==> blocks[i].order < blocks[j].order
  }

  predicate LegalPage(page: int, pageCount: int) { page >= 1 && (pageCount == 0 || page <= pageCount) }

  predicate ProvenanceLegal(blocks: seq<Block>, pageCount: int) {
    forall b <- blocks :: forall p <- b.provenance :: LegalPage(p.page, pageCount)
  }

  predicate Allowed(t: BlockType) { !t.Unlisted? }

  predicate StructureValid(sections: seq<Section>, blocks: seq<Block>) {
    && (forall b <- blocks :: b.id != 0 && Allowed(b.kind))
    && (forall s <- sections :: exists b <- blocks :: b.id == s.heading)
    && (forall s <- sections :: s.parent.Some? ==> exists t <- sections :: t.id == s.parent.value)
  }

  // ------------------------------------------------------------ meaningful pages

  /** Characters of blocks that name `page` in their provenance, once per entry. */
  function PageChars(blocks: seq<Block>, page: int): nat {
    if blocks == [] then 0
    else
      PageChars(blocks[..|blocks| - 1], page)
      + EntryChars(blocks[|blocks| - 1].provenance, page, |blocks[|blocks| - 1].text|)
  }

  function EntryChars(ps: seq<Provenance>, page: int, chars: nat): nat {
    if ps == [] then 0
    else EntryChars(ps[..|ps| - 1], page, chars) + (if ps[|ps| - 1].page == page then chars else 0)
  }

  /** How many of pages 1..n carry at least minChars characters. */
  function MeaningfulPages(blocks: seq<Block>, n: nat, minChars: nat): (r: nat)
    ensures r <= n
  {
    if n == 0 then 0
    else MeaningfulPages(blocks, n - 1, minChars) + (if PageChars(blocks, n) >= minChars then 1 else 0)
  }

  predicate Sourceless(blocks: seq<Block>) { forall b <- blocks :: b.provenance == [] }

  function MeaningfulRatio(blocks: seq<Block>, pageCount: int, minChars: nat): Option<real> {
    if pageCount <= 0 then Some(if blocks != [] then 1.0 else 0.0)
    else if blocks != [] && Sourceless(blocks) then None
    else Some(MeaningfulPages(blocks, pageCount, minChars) as real / pageCount as real)
  }

  predicate BodyPresent(blocks: seq<Block>, pageCount: int, t: Thresholds) {
    blocks != [] &&
    (MeaningfulRatio(blocks, pageCount, t.minChars).Some? ==>
      MeaningfulRatio(blocks, pageCount, t.minChars).value >= t.failedBelow)
  }

  function Check(result: ParserResult, pageCount: int, sections: seq<Section>, blocks: seq<Block>,
      t: Thresholds): Signals {
    Signals(PageCountMatches(result, pageCount), BodyPresent(blocks, pageCount, t), StrictlyOrdered(blocks),
            ProvenanceLegal(blocks, pageCount), StructureValid(sections, blocks))
  }

  function Validate(result: ParserResult, out: Option<Output>, t: Thresholds, degraded: bool): Verdict {
    if !result.ok || out.None? then Failed
    else if !AllMet(Check(result, out.value.pageCount, out.value.sections, out.value.blocks, t)) then Failed
    else if degraded then Degraded else Passed
  }

  // ------------------------------------------------------------ the loops

  /** The dictionary holds exactly the pages seen so far with their character sums. */
  ghost predicate Counted(perPage: map<int, nat>, seen: seq<Block>, entries: seq<Provenance>, chars: nat) {
    && (forall p :: (if p in perPage then perPage[p] else 0) == PageChars(seen, p) + EntryChars(entries, p, chars))
    && (perPage == map[] <==> Sourceless(seen) && entries == [])
  }

  method CountPages(blocks: seq<Block>) returns (perPage: map<int, nat>)
    ensures forall p :: (if p in perPage then perPage[p] else 0) == PageChars(blocks, p)
    ensures perPage == map[] <==> Sourceless(blocks)
  {
    perPage := map[];
    for i := 0 to |blocks|
      invariant Counted(perPage, blocks[..i], [], 0)
    {
      var ps, chars := blocks[i].provenance, |blocks[i].text|;
      assert Counted(perPage, blocks[..i], ps[..0], chars);
      for k := 0 to |ps|
        invariant Counted(perPage, blocks[..i], ps[..k], chars)
      {
        var page := ps[k].page;
        assert ps[..k + 1][..k] == ps[..k];
        perPage := perPage[page := (if page in perPage then perPage[page] else 0) + chars];
        assert page in perPage;
      }
      assert ps[..|ps|] == ps;
      assert blocks[..i + 1][..i] == blocks[..i];
      SourcelessSnoc(blocks[..i], blocks[i]);
      assert blocks[..i + 1] == blocks[..i] + [blocks[i]];
    }
    assert blocks[..|blocks|] == blocks;
  }

  lemma SourcelessSnoc(blocks: seq<Block>, b: Block)
    ensures Sourceless(blocks + [b]) <==> Sourceless(blocks) && b.provenance == []
  {
    assert b in blocks + [b];
    if Sourceless(blocks + [b]) {
      forall x | x in blocks ensures x.provenance == [] { assert x in blocks + [b]; }
    }
  }

  method MeaningfulTextPageRatio(blocks: seq<Block>, pageCount: int, minChars: nat) returns (ratio: Option<real>)
    ensures ratio == MeaningfulRatio(blocks, pageCount, minChars)
  {
    if pageCount <= 0 { return Some(if blocks != [] then 1.0 else 0.0); }
    var perPage := CountPages(blocks);
    if blocks != [] && perPage == map[] { return None; }
    var meaningful: nat := 0;
    for page: int := 1 to pageCount + 1
      invariant meaningful == MeaningfulPages(blocks, page - 1, minChars)
    {
      if (if page in perPage then perPage[page] else 0) >= minChars { meaningful := meaningful + 1; }
    }
    ratio := Some(meaningful as real / pageCount as real);
  }

  method CheckProvenance(blocks: seq<Block>, pageCount: int) returns (ok: bool)
    ensures ok <==> ProvenanceLegal(blocks, pageCount)
  {
    ok := true;
    for i := 0 to |blocks|
      invariant ok <==> forall k :: 0 <= k < i ==> forall p <- blocks[k].provenance :: LegalPage(p.page, pageCount)
    {
      var ps := blocks[i].provenance;
      ghost var before := ok;
      for k := 0 to |ps|
        invariant ok <==> before && forall j :: 0 <= j < k ==> LegalPage(ps[j].page, pageCount)
      {
        if ps[k].page < 1 || (pageCount != 0 && ps[k].page > pageCount) { ok := false; }
      }
    }
  }

  method CheckStructure(sections: seq<Section>, blocks: seq<Block>) returns (ok: bool)
    ensures ok <==> StructureValid(sections, blocks)
  {
    ok := true;
    for i := 0 to |blocks|
      invariant ok <==> forall k :: 0 <= k < i ==> blocks[k].id != 0 && Allowed(blocks[k].kind)
    {
      if blocks[i].id == 0 || !Allowed(blocks[i].kind) { ok := false; }
    }
    var blockIds := set b <- blocks :: b.id;
    ghost var afterBlocks := ok;
    for i := 0 to |sections|
      invariant ok <==> afterBlocks && forall k :: 0 <= k < i ==> sections[k].heading in blockIds
    {
      if sections[i].heading !in blockIds { ok := false; }
    }
    var sectionIds := set s <- sections :: s.id;
    ghost var afterHeadings := ok;
    for i := 0 to |sections|
      invariant ok <==> afterHeadings && forall k :: 0 <= k < i ==> sections[k].parent.Some? ==>
        sections[k].parent.value in sectionIds
    {
      if sections[i].parent.Some? && sections[i].parent.value !in sectionIds { ok := false; }
    }
  }

  method ValidateParse(result: ParserResult, out: Option<Output>, t: Thresholds, degraded: bool) returns (v: Verdict)
    ensures v == Validate(result, out, t, degraded)
  {
    if !result.ok || out.None? { return Failed; }
    var blocks, sections, pageCount := out.value.blocks, out.value.sections, out.value.pageCount;
    var ratio := MeaningfulTextPageRatio(blocks, pageCount, t.minChars);
    var body := !(blocks == [] || (ratio.Some? && ratio.value < t.failedBelow));
    var provenance := CheckProvenance(blocks, pageCount);
    var structure := CheckStructure(sections, blocks);
    var hard := PageCountMatches(result, pageCount) && body && StrictlyOrdered(blocks) && provenance && structure;
    v := if !hard then Failed else if degraded then Degraded else Passed;
  }

  // ------------------------------------------------------------ normalizer output under the checks

  /** What a parser must deliver: allowed item types, and no page beyond a declared page count. */
  predicate WellTyped(result: ParserResult) { forall x <- result.items :: Allowed(x.kind) }

  predicate PagesInRange(result: ParserResult) {
    result.pageCount.Some? && result.pageCount.value != 0 ==>
      forall x <- result.items :: x.page > 0 ==> x.page <= result.pageCount.value
  }

  lemma {:induction false} LargestInBounds(ps: seq<Provenance>)
    ensures forall p <- ps :: p.page <= LargestIn(ps)
    ensures LargestIn(ps) >= 0
  {
    if ps != [] {
      LargestInBounds(ps[1..]);
      forall p | p in ps ensures p.page <= LargestIn(ps) { assert p == ps[0] || p in ps[1..]; }
    }
  }

  lemma {:induction false} LargestPageBounds(blocks: seq<Block>)
    ensures forall b <- blocks :: forall p <- b.provenance :: p.page <= LargestPage(blocks)
  {
    if blocks != [] {
      LargestInBounds(blocks[0].provenance);
      LargestPageBounds(blocks[1..]);
      forall b, p | b in blocks && p in b.provenance ensures p.page <= LargestPage(blocks) {
        assert b == blocks[0] || b in blocks[1..];
      }
    }
  }

  lemma PageOfItem(groups: seq<seq<Item>>, k: nat, x: Item)
    requires k < |groups| && x in groups[k] && x.page > 0
    ensures x.page in PageSet(groups[k])
  {
  }

  /** Every item sits in some group, and every group holds items of the parser result. */
  lemma ItemsAndGroups(result: ParserResult, heights: map<int, real>)
    ensures var groups := Groups(SortItems(result.items), heights);
      && (forall k :: 0 <= k < |groups| ==> forall x <- groups[k] :: x in result.items)
      && (forall x <- result.items :: exists k :: 0 <= k < |groups| && x in groups[k])
  {
    var items := SortItems(result.items);
    var groups := Groups(items, heights);
    SortSound(result.items);
    GroupsSound(items, heights);
    hide SortItems, GroupsFrom;
    forall k, x | 0 <= k < |groups| && x in groups[k] ensures x in result.items {
      InFlatten(groups, k, x);
      assert x in multiset(items);
    }
    forall x | x in result.items ensures exists k :: 0 <= k < |groups| && x in groups[k] {
      assert x in multiset(result.items);
      assert x in items;
      FromFlatten(groups, x);
    }
  }

  lemma {:induction false} FromFlatten<T>(xss: seq<seq<T>>, x: T)
    requires x in Flatten(xss)
    ensures exists k :: 0 <= k < |xss| && x in xss[k]
  {
    if x in xss[0] {
    } else {
      FromFlatten(xss[1..], x);
      var k :| 0 <= k < |xss[1..]| && x in xss[1..][k];
      assert xss[k + 1] == xss[1..][k];
    }
  }

  lemma ProvenanceExact(result: ParserResult, heights: map<int, real>)
    ensures var out := Normalize(result, heights); ProvenanceLegal(out.blocks, out.pageCount) <==> PagesInRange(result)
  {
    var groups := Groups(SortItems(result.items), heights);
    OutputBlocks(result, heights);
    ItemsAndGroups(result, heights);
    OutputPageCount(result, heights);
    hide Normalize, GroupsFrom, SortItems, SectionAt, Origins, Tiles;
    var out := Normalize(result, heights);
    var declared := result.pageCount.Some? && result.pageCount.value != 0;
    LargestPageBounds(out.blocks);
    if PagesInRange(result) {
      forall b, p | b in out.blocks && p in b.provenance ensures LegalPage(p.page, out.pageCount) {
        var k :| 0 <= k < |out.blocks| && out.blocks[k] == b;
        assert MadeFrom(b, k, groups);
        assert p.page in PageSet(groups[k]);
      }
    }
    if ProvenanceLegal(out.blocks, out.pageCount) && declared {
      forall x | x in result.items && x.page > 0 ensures x.page <= result.pageCount.value {
        var k :| 0 <= k < |groups| && x in groups[k];
        assert MadeFrom(out.blocks[k], k, groups);
        PageOfItem(groups, k, x);
        var p :| p in out.blocks[k].provenance && p.page == x.page;
        assert out.blocks[k] in out.blocks;
      }
    }
  }

  lemma OutputPageCount(result: ParserResult, heights: map<int, real>)
    ensures var out := Normalize(result, heights); out.pageCount == PageCount(result, out.blocks)
  {
  }

  // ------------------------------------------------------------ sections name existing blocks

  ghost predicate HeadingsExist(st: State) {
    forall j :: 0 <= j < |st.sections| ==> 1 <= st.sections[j].heading <= |st.blocks|
  }

  lemma {:induction false} AddAllHeadings(groups: seq<seq<Item>>)
    requires GroupsOk(groups)
    ensures HeadingsExist(AddAll(groups))
  {
    hide MergedBlock, PopTo;
    if groups != [] {
      var n := |groups| - 1;
      AddAllHeadings(groups[..n]);
      assert GroupOk(groups[n]);
    }
  }

  lemma SectionsName(result: ParserResult, heights: map<int, real>)
    ensures var out := Normalize(result, heights);
      && (forall j :: 0 <= j < |out.sections| ==> 1 <= out.sections[j].heading <= |out.blocks|)
      && TreeOk(out.sections)
  {
    var groups := Groups(SortItems(result.items), heights);
    GroupsSound(SortItems(result.items), heights);
    GroupsNotEmpty(SortItems(result.items), 0, [], heights);
    hide GroupsFrom, SortItems, AddAll, LinkedBlock;
    AddAllHeadings(groups);
    AddAllTree(groups);
  }

  lemma ParentExists(sections: seq<Section>, s: Section)
    requires TreeOk(sections) && s in sections && s.parent.Some?
    ensures exists t <- sections :: t.id == s.parent.value
  {
    var k :| 0 <= k < |sections| && sections[k] == s;
    assert SectionOk(sections, k);
    var j := NearestSmaller(sections, k, s.level).value;
    assert SectionOk(sections, j);
    assert sections[j] in sections;
  }

  lemma StructureExact(result: ParserResult, heights: map<int, real>)
    ensures var out := Normalize(result, heights); StructureValid(out.sections, out.blocks) <==> WellTyped(result)
  {
    var groups := Groups(SortItems(result.items), heights);
    OutputBlocks(result, heights);
    ItemsAndGroups(result, heights);
    SectionsName(result, heights);
    hide Normalize, GroupsFrom, SortItems, SectionAt, Origins, Tiles, PageSet, TreeOk;
    var out := Normalize(result, heights);
    forall s | s in out.sections ensures exists b <- out.blocks :: b.id == s.heading {
      var j :| 0 <= j < |out.sections| && out.sections[j] == s;
      assert MadeFrom(out.blocks[s.heading - 1], s.heading - 1, groups);
      assert out.blocks[s.heading - 1] in out.blocks;
    }
    forall s | s in out.sections && s.parent.Some? ensures exists t <- out.sections :: t.id == s.parent.value {
      ParentExists(out.sections, s);
    }
    KindsExact(result, out.blocks, groups);
  }

  lemma KindsExact(result: ParserResult, blocks: seq<Block>, groups: seq<seq<Item>>)
    requires GroupsOk(groups) && |blocks| == |groups| && forall k :: 0 <= k < |blocks| ==>
      MadeFrom(blocks[k], k, groups)
    requires forall k :: 0 <= k < |groups| ==> forall x <- groups[k] :: x in result.items
    requires forall x <- result.items :: exists k :: 0 <= k < |groups| && x in groups[k]
    ensures (forall b <- blocks :: b.id != 0 && Allowed(b.kind)) <==> WellTyped(result)
  {
    hide SectionAt, Origins, Tiles, PageSet;
    if WellTyped(result) {
      forall b | b in blocks ensures b.id != 0 && Allowed(b.kind) {
        var k :| 0 <= k < |blocks| && blocks[k] == b;
        assert MadeFrom(b, k, groups) && GroupOk(groups[k]);
        assert groups[k][0] in groups[k];
      }
    }
    if forall b <- blocks :: b.id != 0 && Allowed(b.kind) {
      forall x | x in result.items ensures Allowed(x.kind) {
        var k :| 0 <= k < |groups| && x in groups[k];
        assert MadeFrom(blocks[k], k, groups) && GroupOk(groups[k]);
        assert blocks[k] in blocks;
        if |groups[k]| > 1 {
          var i :| 0 <= i < |groups[k]| && groups[k][i] == x;
        }
      }
    }
  }

  /** Main result: for an ok parser result the page count and the reading order always pass; legal
      provenance and valid structure hold exactly when the parser kept its page range and used
      allowed types. For such a result validation can only fail on a near-empty body. */
  lemma NormalizedPassesHardChecks(result: ParserResult, heights: map<int, real>, t: Thresholds, degraded: bool)
    requires result.ok
    ensures var out := Normalize(result, heights);
      var signals := Check(result, out.pageCount, out.sections, out.blocks, t);
      && signals.pageCount && signals.order
      && (signals.provenance <==> PagesInRange(result))
      && (signals.structure <==> WellTyped(result))
      && (WellTyped(result) && PagesInRange(result) ==>
          (Validate(result, Some(out), t, degraded) == Failed <==> !BodyPresent(out.blocks, out.pageCount, t)))
  {
    var groups := Groups(SortItems(result.items), heights);
    OutputBlocks(result, heights);
    ProvenanceExact(result, heights);
    StructureExact(result, heights);
    OutputPageCount(result, heights);
    hide Normalize, GroupsFrom, SortItems, SectionAt, Origins, Tiles, PageSet, BodyPresent, StructureValid,
      ProvenanceLegal;
    var blocks := Normalize(result, heights).blocks;
    forall i, j | 0 <= i < j < |blocks| ensures blocks[i].order < blocks[j].order {
      assert MadeFrom(blocks[i], i, groups) && MadeFrom(blocks[j], j, groups);
    }
  }

  // ------------------------------------------------------------ the verdict, spelled out

  /** The entries that name the page. */
  function Naming(ps: seq<Provenance>, page: int): set<int> { set k | 0 <= k < |ps| && ps[k].page == page }

  lemma OneMoreTime(n: nat, chars: nat)
    ensures (n + 1) * chars == n * chars + chars
  {
  }

  lemma NamingSnoc(ps: seq<Provenance>, p: Provenance, page: int)
    ensures |Naming(ps + [p], page)| == |Naming(ps, page)| + (if p.page == page then 1 else 0)
  {
    var all := ps + [p];
    assert forall k :: 0 <= k < |ps| ==> all[k] == ps[k];
    assert Naming(all, page) == if p.page == page then Naming(ps, page) + {|ps|} else Naming(ps, page);
  }

  lemma {:induction false} EntriesCounted(ps: seq<Provenance>, page: int, chars: nat)
    ensures EntryChars(ps, page, chars) == |Naming(ps, page)| * chars
  {
    if ps != [] {
      var before, p := ps[..|ps| - 1], ps[|ps| - 1];
      EntriesCounted(before, page, chars);
      assert EntryChars(ps, page, chars) == EntryChars(before, page, chars) + (if p.page == page then chars else 0);
      hide EntryChars, Naming;
      NamingSnoc(before, p, page);
      assert before + [p] == ps;
      OneMoreTime(|Naming(before, page)|, chars);
    }
  }

  /** A page's characters: nothing without blocks, and each block adds its length once for every entry
      that names the page. */
  lemma PageCharsExactly(blocks: seq<Block>, b: Block, page: int)
    ensures PageChars([], page) == 0
    ensures PageChars(blocks + [b], page) == PageChars(blocks, page) + |Naming(b.provenance, page)| * |b.text|
  {
    assert (blocks + [b])[..|blocks|] == blocks;
    EntriesCounted(b.provenance, page, |b.text|);
  }

  /** The pages from 1 to n with at least minChars characters. */
  function TextPages(blocks: seq<Block>, n: int, minChars: nat): set<int> {
    set p: int | 1 <= p <= n && PageChars(blocks, p) >= minChars
  }

  lemma {:induction false} TextPagesCounted(blocks: seq<Block>, n: nat, minChars: nat)
    ensures MeaningfulPages(blocks, n, minChars) == |TextPages(blocks, n, minChars)|
  {
    if n > 0 {
      TextPagesCounted(blocks, n - 1, minChars);
      var before := TextPages(blocks, n - 1, minChars);
      assert TextPages(blocks, n, minChars) == if PageChars(blocks, n) >= minChars then before + {n} else before;
    } else {
      assert TextPages(blocks, n, minChars) == {};
    }
  }

  /** There is a block, and enough of the pages carry text: the share is full without a page count, and
      unknown, which is enough, when no block names a page. */
  ghost predicate EnoughText(blocks: seq<Block>, pageCount: int, t: Thresholds) {
    && blocks != []
    && (pageCount <= 0 ==> 1.0 >= t.failedBelow)
    && (pageCount > 0 && (exists b :: b in blocks && b.provenance != []) ==>
        |TextPages(blocks, pageCount, t.minChars)| as real >= t.failedBelow * pageCount as real)
  }

  lemma BodyExactly(blocks: seq<Block>, pageCount: int, t: Thresholds)
    ensures BodyPresent(blocks, pageCount, t) <==> EnoughText(blocks, pageCount, t)
  {
    if pageCount > 0 {
      TextPagesCounted(blocks, pageCount, t.minChars);
      QuotientAtLeast(MeaningfulPages(blocks, pageCount, t.minChars) as real, pageCount as real, t.failedBelow);
    }
  }

  lemma QuotientAtLeast(x: real, y: real, z: real)
    requires y > 0.0
    ensures x / y >= z <==> x >= z * y
  {
    assert x == (x / y) * y;
    if x / y < z { assert (z - x / y) * y > 0.0; }
    if x / y >= z { assert (x / y - z) * y >= 0.0; }
  }

  /** What an accepted result has to meet. */
  ghost predicate Meets(result: ParserResult, out: Output, t: Thresholds) {
    && result.ok
    && (match result.pageCount case Some(n) => n == 0 || n == out.pageCount case None => true)
    && EnoughText(out.blocks, out.pageCount, t)
    && (forall i, j :: 0 <= i < j < |out.blocks| ==> out.blocks[i].order < out.blocks[j].order)
    && (forall b, p :: b in out.blocks && p in b.provenance ==>
        1 <= p.page && (out.pageCount == 0 || p.page <= out.pageCount))
    && (forall b :: b in out.blocks ==> b.id > 0 && (match b.kind case Unlisted(_) => false case _ => true))
    && (forall s :: s in out.sections ==>
        (exists b :: b in out.blocks && b.id == s.heading)
        && (s.parent.Some? ==> exists t :: t in out.sections && Some(t.id) == s.parent))
  }

  /** Main result: the verdict of any result: failed without an output or with one that misses a check, and
      otherwise degraded or passed as the signals say. */
  lemma VerdictExactly(result: ParserResult, out: Option<Output>, t: Thresholds, degraded: bool)
    ensures var v := Validate(result, out, t, degraded);
      && (v.Failed? <==> out.None? || !Meets(result, out.value, t))
      && (v.Degraded? <==> out.Some? && Meets(result, out.value, t) && degraded)
      && (v.Passed? <==> out.Some? && Meets(result, out.value, t) && !degraded)
  {
    if out.Some? {
      BodyExactly(out.value.blocks, out.value.pageCount, t);
      SectionsExactly(out.value.sections, out.value.blocks);
    }
    hide BodyPresent, EnoughText, StructureValid;
  }

  lemma SectionsExactly(sections: seq<Section>, blocks: seq<Block>)
    ensures StructureValid(sections, blocks) <==>
      && (forall b :: b in blocks ==> b.id > 0 && (match b.kind case Unlisted(_) => false case _ => true))
      && (forall s :: s in sections ==>
          (exists b :: b in blocks && b.id == s.heading)
          && (s.parent.Some? ==> exists t :: t in sections && Some(t.id) == s.parent))
  {
    if StructureValid(sections, blocks) {
      forall s | s in sections && s.parent.Some? ensures exists t :: t in sections && Some(t.id) == s.parent {
        var t :| t in sections && t.id == s.parent.value;
        assert Some(t.id) == s.parent;
      }
    }
  }
}
