/** The remaining fields of a normalized document: the order of the items, the sections their headings open,
    the payload of each block and the page count (src/transit_scholar/layer2/normalizer.py:100-311). */
module DocumentFields {
  import opened Prelude
  import opened Schema
  import opened Normalizer
  import opened NormalizerGuarantees

  // ------------------------------------------------------------ the order of the items

  /** The items of one position, in the order in which they stand. */
  function OfKey(items: seq<Item>, order: int, page: int): seq<Item> {
    if items == [] then []
    else (if items[0].order == order && items[0].page == page then [items[0]] else []) + OfKey(items[1..], order, page)
  }

  lemma {:induction false} NoneOfKey(items: seq<Item>, order: int, page: int)
    requires forall x <- items :: x.order != order || x.page != page
    ensures OfKey(items, order, page) == []
  {
    if items != [] { NoneOfKey(items[1..], order, page); }
  }

  lemma OfKeyCons(items: seq<Item>, order: int, page: int)
    requires items != []
    ensures OfKey(items, order, page)
      == (if items[0].order == order && items[0].page == page then [items[0]] else []) + OfKey(items[1..], order, page)
  {
  }

  lemma {:induction false} OfKeySnoc(items: seq<Item>, x: Item, order: int, page: int)
    ensures OfKey(items + [x], order, page)
      == OfKey(items, order, page) + (if x.order == order && x.page == page then [x] else [])
  {
    var all := items + [x];
    OfKeyCons(all, order, page);
    if items == [] {
      assert all[1..] == [];
    } else {
      assert all[1..] == items[1..] + [x];
      OfKeySnoc(items[1..], x, order, page);
      OfKeyCons(items, order, page);
      hide OfKey;
    }
  }

  lemma {:induction false} InsertStable(sorted: seq<Item>, x: Item, order: int, page: int)
    requires InOrder(sorted)
    ensures OfKey(InsertItem(sorted, x), order, page)
      == OfKey(sorted, order, page) + (if x.order == order && x.page == page then [x] else [])
  {
    var all := InsertItem(sorted, x);
    if sorted == [] || Before(x, sorted[0]) {
      assert all[1..] == sorted;
      if x.order == order && x.page == page {
        forall y | y in sorted ensures y.order != order || y.page != page {
          var j :| 0 <= j < |sorted| && sorted[j] == y;
          assert j == 0 || !Before(sorted[j], sorted[0]);
        }
        NoneOfKey(sorted, order, page);
      }
    } else {
      assert all[1..] == InsertItem(sorted[1..], x);
      InsertStable(sorted[1..], x, order, page);
    }
  }

  lemma SortStep(items: seq<Item>)
    requires items != []
    ensures SortItems(items) == InsertItem(SortItems(items[..|items| - 1]), items[|items| - 1])
  {
  }

  lemma {:induction false} SortStable(items: seq<Item>, order: int, page: int)
    ensures OfKey(SortItems(items), order, page) == OfKey(items, order, page)
  {
    hide *;
    if items != [] {
      var n := |items| - 1;
      var before, x := items[..n], items[n];
      SortStep(items);
      SortStable(before, order, page);
      SortSound(before);
      InsertStable(SortItems(before), x, order, page);
      OfKeySnoc(before, x, order, page);
      assert items == before + [x];
    } else {
      NothingSorted();
      assert items == [];
    }
  }

  lemma NothingSorted()
    ensures SortItems([]) == []
  {
  }

  /** Main result: the items are read by order and then by page, and items of the same position keep the
      parser's order. */
  lemma SortExactly(items: seq<Item>, order: int, page: int)
    ensures var sorted := SortItems(items);
      && multiset(sorted) == multiset(items)
      && (forall i, j :: 0 <= i < j < |sorted| ==>
          sorted[i].order < sorted[j].order
          || (sorted[i].order == sorted[j].order && sorted[i].page <= sorted[j].page))
      && OfKey(sorted, order, page) == OfKey(items, order, page)
  {
    SortSound(items);
    SortStable(items, order, page);
    var sorted := SortItems(items);
    forall i, j | 0 <= i < j < |sorted|
      ensures sorted[i].order < sorted[j].order
        || (sorted[i].order == sorted[j].order && sorted[i].page <= sorted[j].page)
    {
      assert !Before(sorted[j], sorted[i]);
    }
  }

  // ------------------------------------------------------------ the sections of the headings

  /** Section k is opened by the heading of group h. */
  ghost predicate OpenedBy(sections: seq<Section>, k: nat, groups: seq<seq<Item>>, h: nat)
    requires GroupsOk(groups) && k < |sections| && h < |groups|
  {
    && groups[h][0].kind.Heading? && SectionAt(groups, h + 1) == Some(k + 1)
    && sections[k].id == k + 1 == sections[k].order && sections[k].heading == h + 1
    && sections[k].title == groups[h][0].cleaned
    && sections[k].level == (if groups[h][0].level < 1 then 1 else groups[h][0].level)
  }

  lemma SectionAtPrefix(groups: seq<seq<Item>>, n: nat, k: nat)
    requires GroupsOk(groups) && k <= n <= |groups|
    ensures SectionAt(groups[..n], k) == SectionAt(groups, k)
  {
    assert groups[..n][..k] == groups[..k];
  }

  ghost predicate OpenedBySome(sections: seq<Section>, k: nat, groups: seq<seq<Item>>)
    requires GroupsOk(groups) && k < |sections|
  {
    exists h :: 0 <= h < |groups| && OpenedBy(sections, k, groups, h)
  }

  lemma HeadingOpens(st: State, g: seq<Item>)
    requires GroupOk(g)
    ensures var e := AddGroup(st, g);
      if g[0].kind.Heading? then
        && e.sections[..|e.sections| - 1] == st.sections
        && var x := e.sections[|e.sections| - 1];
           x.id == |e.sections| == x.order && x.heading == |st.blocks| + 1 && x.title == g[0].cleaned
           && x.level == if g[0].level < 1 then 1 else g[0].level
      else e.sections == st.sections
  {
    hide MergedBlock, PopTo;
  }

  lemma LastOpened(groups: seq<seq<Item>>)
    requires GroupsOk(groups) && groups != [] && groups[|groups| - 1][0].kind.Heading?
    ensures var sections := AddAll(groups).sections;
      |sections| > 0 && OpenedBy(sections, |sections| - 1, groups, |groups| - 1)
  {
    hide MergedBlock, AddGroup;
    var n := |groups| - 1;
    assert groups[..n + 1] == groups;
    assert GroupOk(groups[n]) && GroupsOk(groups[..n]);
    AddAllBlocks(groups[..n]);
    AddAllBlocks(groups);
    HeadingOpens(AddAll(groups[..n]), groups[n]);
    assert AddAll(groups) == AddGroup(AddAll(groups[..n]), groups[n]);
  }

  lemma EarlierOpened(sections: seq<Section>, more: seq<Section>, k: nat, groups: seq<seq<Item>>, n: nat, h: nat)
    requires GroupsOk(groups) && n <= |groups| && h < n && k < |sections| && sections <= more
    requires OpenedBy(sections, k, groups[..n], h)
    ensures OpenedBy(more, k, groups, h)
  {
    SectionAtPrefix(groups, n, h + 1);
    hide SectionAt;
  }

  lemma {:induction false} AddAllOpened(groups: seq<seq<Item>>, k: nat)
    requires GroupsOk(groups) && k < |AddAll(groups).sections|
    ensures OpenedBySome(AddAll(groups).sections, k, groups)
  {
    var n := |groups| - 1;
    var st := AddAll(groups[..n]);
    assert GroupOk(groups[n]);
    HeadingOpens(st, groups[n]);
    assert AddAll(groups) == AddGroup(st, groups[n]);
    hide MergedBlock, AddGroup, AddAll, OpenedBy;
    if k < |st.sections| {
      AddAllOpened(groups[..n], k);
      var h :| 0 <= h < |groups[..n]| && OpenedBy(st.sections, k, groups[..n], h);
      EarlierOpened(st.sections, AddAll(groups).sections, k, groups, n, h);
    } else {
      LastOpened(groups);
    }
  }

  /** Main result: every section comes from a heading group, with its title, level, position and block, and every
      heading group opens one. */
  lemma SectionsExactly(result: ParserResult, heights: map<int, real>)
    ensures var out, groups := Normalize(result, heights), Groups(SortItems(result.items), heights);
      && GroupsOk(groups) && |out.blocks| == |groups|
      && |out.sections| == HeadingCount(groups)
      && (forall k :: 0 <= k < |out.sections| ==>
          OpenedBySome(out.sections, k, groups))
      && forall h :: 0 <= h < |groups| ==> out.blocks[h].section == SectionAt(groups, h + 1)
  {
    var groups := Groups(SortItems(result.items), heights);
    GroupsSound(SortItems(result.items), heights);
    NormalizeSections(result, heights);
    OutputBlocks(result, heights);
    AddAllBlocks(groups);
    hide Normalize, SortItems, GroupsFrom, AddAll, SectionAt, Assembled, Tiles, PageSet, OpenedBySome;
    forall k | 0 <= k < |AddAll(groups).sections|
      ensures OpenedBySome(AddAll(groups).sections, k, groups)
    {
      AddAllOpened(groups, k);
    }
    forall h | 0 <= h < |groups| ensures Normalize(result, heights).blocks[h].section == SectionAt(groups, h + 1) {
      assert MadeFrom(Normalize(result, heights).blocks[h], h, groups);
    }
  }

  // ------------------------------------------------------------ payload and page count

  /** The payload an item's type keeps: the markdown and the cells of a table, the formula of an equation. */
  predicate Carries(content: Content, item: Item) {
    match item.kind
    case Table =>
      && content.markdown == Some(match item.content.markdown case Some(m) => m case None => item.cleaned)
      && content.latex.None? && content.cells == item.content.cells
    case Equation =>
      && content.latex == Some(match item.content.latex case Some(x) => x case None => item.cleaned)
      && content.markdown.None? && content.cells == []
    case _ => content == NO_CONTENT
  }

  lemma TypeContentExactly(item: Item)
    ensures Carries(TypeContent(item), item)
  {
  }

  lemma {:induction false} AddAllContent(groups: seq<seq<Item>>, k: nat)
    requires GroupsOk(groups) && k < |groups|
    ensures |AddAll(groups).blocks| == |groups| && Carries(AddAll(groups).blocks[k].content, groups[k][0])
  {
    AddAllBlocks(groups);
    MergedBlockSound(groups[k], k + 1, SectionAt(groups, k + 1));
    TypeContentExactly(groups[k][0]);
    hide AddAll, MergedBlock, SectionAt, Carries, TypeContent;
  }

  /** Main result: every block carries the payload of the item that begins it, and the page count is the declared
      one or else the largest page named. */
  lemma PayloadExactly(result: ParserResult, heights: map<int, real>)
    ensures var out, groups := Normalize(result, heights), Groups(SortItems(result.items), heights);
      && |out.blocks| == |groups|
      && (forall k :: 0 <= k < |groups| ==> groups[k] != [] && Carries(out.blocks[k].content, groups[k][0]))
      && (match result.pageCount
          case Some(n) => (n != 0 ==> out.pageCount == n) && (n == 0 ==> LargestNamed(out.blocks, out.pageCount))
          case None => LargestNamed(out.blocks, out.pageCount))
  {
    var groups := Groups(SortItems(result.items), heights);
    GroupsSound(SortItems(result.items), heights);
    OutputBlocks(result, heights);
    LargestExactly(Normalize(result, heights).blocks);
    OutputContent(result, heights);
    forall k | 0 <= k < |groups|
      ensures groups[k] != [] && Carries(Normalize(result, heights).blocks[k].content, groups[k][0])
    {
      AddAllContent(groups, k);
    }
    hide SortItems, GroupsFrom, AddAll, Carries, LargestNamed;
  }

  lemma OutputContent(result: ParserResult, heights: map<int, real>)
    ensures var out, groups := Normalize(result, heights), Groups(SortItems(result.items), heights);
      && (forall i :: 0 <= i < |groups| ==> groups[i] != [])
      && |out.blocks| == |AddAll(groups).blocks|
      && forall k :: 0 <= k < |out.blocks| ==> out.blocks[k].content == AddAll(groups).blocks[k].content
  {
    GroupsNotEmpty(SortItems(result.items), 0, [], heights);
    hide SortItems, GroupsFrom, AddAll;
  }

  /** n is the largest page an entry names, or zero when none names a positive one. */
  ghost predicate LargestNamed(blocks: seq<Block>, n: int) {
    && n >= 0 && (forall b, p :: b in blocks && p in b.provenance ==> p.page <= n)
    && (n > 0 ==> exists b, p :: b in blocks && p in b.provenance && p.page == n)
  }

  lemma {:induction false} LargestInExactly(ps: seq<Provenance>)
    ensures LargestIn(ps) >= 0 && forall p <- ps :: p.page <= LargestIn(ps)
    ensures LargestIn(ps) > 0 ==> exists p :: p in ps && p.page == LargestIn(ps)
  {
    if ps != [] {
      LargestInExactly(ps[1..]);
      assert forall p :: p in ps <==> p == ps[0] || p in ps[1..];
    }
  }

  lemma {:induction false} LargestExactly(blocks: seq<Block>)
    ensures LargestNamed(blocks, LargestPage(blocks))
  {
    if blocks != [] {
      LargestExactly(blocks[1..]);
      LargestInExactly(blocks[0].provenance);
      hide LargestIn;
      var n := LargestPage(blocks);
      assert forall b :: b in blocks <==> b == blocks[0] || b in blocks[1..];
      if n > 0 {
        if n == LargestIn(blocks[0].provenance) {
          var p :| p in blocks[0].provenance && p.page == n;
          assert blocks[0] in blocks;
        } else {
          var b, p :| b in blocks[1..] && p in b.provenance && p.page == n;
          assert b in blocks;
        }
      }
    }
  }
}
