/** What normalization promises: no item is lost or repeated, provenance tiles the text, and the
    section stack computes nearest enclosing sections. */
module NormalizerGuarantees {
  import opened Prelude
  import opened Schema
  import opened Splitting
  import opened Normalizer
  import Chunker

  // ------------------------------------------------------------ reading order

  lemma {:induction false} InsertIsPermutation(sorted: seq<Item>, x: Item)
    ensures multiset(InsertItem(sorted, x)) == multiset(sorted) + multiset{x}
  {
    if sorted != [] && !Before(x, sorted[0]) {
      InsertIsPermutation(sorted[1..], x);
      assert sorted == [sorted[0]] + sorted[1..];
    }
  }

  /** No later item comes strictly before an earlier one. */
  predicate InOrder(items: seq<Item>) {
    forall i, j :: 0 <= i < j < |items| ==> !Before(items[j], items[i])
  }

  lemma {:induction false} InsertKeepsOrder(sorted: seq<Item>, x: Item)
    requires InOrder(sorted)
    ensures InOrder(InsertItem(sorted, x))
  {
    if sorted != [] && !Before(x, sorted[0]) {
      InsertKeepsOrder(sorted[1..], x);
      InsertIsPermutation(sorted[1..], x);
      var rest := InsertItem(sorted[1..], x);
      forall j | 0 <= j < |rest| ensures !Before(rest[j], sorted[0]) {
        assert rest[j] in multiset(rest);
        assert rest[j] == x || rest[j] in sorted[1..];
      }
    }
  }

  /** Sorting keeps every item exactly once, in (order, page) order. */
  lemma {:induction false} SortSound(items: seq<Item>)
    ensures multiset(SortItems(items)) == multiset(items) && InOrder(SortItems(items))
  {
    if items != [] {
      var n := |items| - 1;
      SortSound(items[..n]);
      InsertIsPermutation(SortItems(items[..n]), items[n]);
      InsertKeepsOrder(SortItems(items[..n]), items[n]);
      assert items == items[..n] + [items[n]];
    }
  }

  // ------------------------------------------------------------ groups

  /** A merged group holds paragraphs only; everything else stands alone. */
  predicate GroupOk(g: seq<Item>) {
    g != [] && (|g| > 1 ==> forall i :: 0 <= i < |g| ==> g[i].kind.Paragraph?)
  }

  predicate GroupsOk(groups: seq<seq<Item>>) { forall k :: 0 <= k < |groups| ==> GroupOk(groups[k]) }

  lemma {:induction false} GroupsFromSound(items: seq<Item>, i: nat, current: seq<Item>, heights: map<int, real>)
    requires i <= |items| && (current != [] ==> GroupOk(current))
    ensures Flatten(GroupsFrom(items, i, current, heights)) == current + items[i..]
    ensures GroupsOk(GroupsFrom(items, i, current, heights))
    decreases |items| - i
  {
    hide ShouldMerge, Close, Flatten;
    CloseFacts(current);
    if i < |items| {
      var item := items[i];
      assert items[i..] == [item] + items[i + 1..];
      if item.kind.Heading? {
        GroupsFromSound(items, i + 1, [], heights);
        var rest := GroupsFrom(items, i + 1, [], heights);
        FlattenAppend(Close(current), [[item]] + rest);
        FlattenAppend([[item]], rest);
        FlattenOne(item);
      } else if current != [] && ShouldMerge(current[|current| - 1], item, heights) {
        MergeKeepsGroup(current, item, heights);
        GroupsFromSound(items, i + 1, current + [item], heights);
      } else {
        GroupsFromSound(items, i + 1, [item], heights);
        FlattenAppend(Close(current), GroupsFrom(items, i + 1, [item], heights));
      }
    }
  }

  lemma CloseFacts(current: seq<Item>)
    requires current != [] ==> GroupOk(current)
    ensures Flatten(Close(current)) == current && GroupsOk(Close(current))
  {
    if current != [] { assert [current][1..] == []; }
  }

  lemma FlattenOne(item: Item)
    ensures Flatten([[item]]) == [item]
  {
    assert [[item]][1..] == [];
  }

  lemma MergeKeepsGroup(current: seq<Item>, item: Item, heights: map<int, real>)
    requires current != [] && GroupOk(current) && ShouldMerge(current[|current| - 1], item, heights)
    ensures GroupOk(current + [item])
  {
  }

  /** The groups concatenate to the items in reading order. */
  lemma GroupsSound(items: seq<Item>, heights: map<int, real>)
    ensures Flatten(Groups(items, heights)) == items && GroupsOk(Groups(items, heights))
  {
    GroupsFromSound(items, 0, [], heights);
  }

  // ------------------------------------------------------------ exactly which items share a group

  predicate White(c: char) { c == ' ' || c == '\t' || c == '\n' || c == '\r' }

  /** e is t without the white space at its end. */
  predicate Stripped(t: string, e: string) {
    && e <= t && (forall k :: |e| <= k < |t| ==> White(t[k])) && (e != "" ==> !White(e[|e| - 1]))
  }

  lemma {:induction false} StripExactly(t: string)
    ensures Stripped(t, RightStrip(t)) && forall e :: Stripped(t, e) ==> e == RightStrip(t)
  {
    if t != "" && t[|t| - 1] in " \t\n\r" {
      var s := t[..|t| - 1];
      StripExactly(s);
      forall e | Stripped(t, e) ensures e == RightStrip(t) {
        assert |e| < |t|;
        assert Stripped(s, e);
      }
    } else {
      forall e | Stripped(t, e) ensures e == t {}
    }
  }

  predicate Near(x: real, y: real, bound: real) { x - y <= bound && y - x <= bound }

  /** Two font sizes agree when one is unknown or zero, or they differ by at most 0.8 points or by at most
      15 percent of one of them. */
  predicate FontsAgree(a: Option<real>, b: Option<real>) {
    match (a, b)
    case (Some(x), Some(y)) => x == 0.0 || y == 0.0 || Near(x, y, 0.8) || Near(x, y, 0.15 * x) || Near(x, y, 0.15 * y)
    case _ => true
  }

  /** b begins within 20 points of a's left edge: on the same page at most 40 points, or three and a half
      font sizes, below it; on another page unless a ends in the upper or b begins in the lower half. */
  predicate BoxesAgree(a: Item, b: Item, heights: map<int, real>) {
    match (a.box, b.box)
    case (Some(x), Some(y)) =>
      && Near(x.x0, y.x0, 20.0)
      && (a.page == b.page ==>
          var size := match a.font case Some(f) => (if f == 0.0 then 11.0 else f) case None => 11.0;
          y.y0 <= x.y1 + 40.0 || y.y0 <= x.y1 + 3.5 * size)
      && (a.page != b.page ==>
          && (a.page in heights && heights[a.page] != 0.0 ==> x.y1 >= heights[a.page] / 2.0)
          && (b.page in heights && heights[b.page] != 0.0 ==> y.y0 <= heights[b.page] / 2.0))
    case _ => true
  }

  /** The text goes on: it ends in a hyphen after something else, or not at the end of a sentence. */
  ghost predicate TextGoesOn(t: string) {
    forall e :: Stripped(t, e) ==>
      (|e| > 1 && e[|e| - 1] == '-') || e == "" || e[|e| - 1] !in ['.', '!', '?', ':', ';']
  }

  /** b continues the paragraph a. */
  ghost predicate Continues(a: Item, b: Item, heights: map<int, real>) {
    && a.kind.Paragraph? && b.kind.Paragraph?
    && FontsAgree(a.font, b.font) && BoxesAgree(a, b, heights) && TextGoesOn(a.cleaned)
  }

  lemma MergesExactly(a: Item, b: Item, heights: map<int, real>)
    ensures ShouldMerge(a, b, heights) <==> Continues(a, b, heights)
  {
    StripExactly(a.cleaned);
  }

  /** Neighbours in the open group continue each other. */
  ghost predicate Chained(g: seq<Item>, heights: map<int, real>) {
    forall i :: 0 <= i < |g| - 1 ==> Continues(g[i], g[i + 1], heights)
  }

  /** No group continues the one before it. */
  ghost predicate Parted(g: seq<Item>, h: seq<Item>, heights: map<int, real>) {
    g != [] && h != [] && !Continues(g[|g| - 1], h[0], heights)
  }

  ghost predicate Separate(groups: seq<seq<Item>>, heights: map<int, real>) {
    && (forall k :: 0 <= k < |groups| ==> groups[k] != [] && Chained(groups[k], heights))
    && forall k :: 0 <= k < |groups| - 1 ==> Parted(groups[k], groups[k + 1], heights)
  }

  lemma SeparateCons(g: seq<Item>, rest: seq<seq<Item>>, heights: map<int, real>)
    requires g != [] && Chained(g, heights) && Separate(rest, heights)
    requires rest != [] ==> Parted(g, rest[0], heights)
    ensures Separate([g] + rest, heights)
  {
    hide Chained, Parted;
    var all := [g] + rest;
    forall k | 0 <= k < |all| - 1 ensures Parted(all[k], all[k + 1], heights) {
      if k > 0 { assert Parted(rest[k - 1], rest[k - 1 + 1], heights); }
    }
  }

  lemma ChainedSnoc(g: seq<Item>, x: Item, heights: map<int, real>)
    requires g != [] && Chained(g, heights) && Continues(g[|g| - 1], x, heights)
    ensures Chained(g + [x], heights)
  {
    hide Continues;
    var all := g + [x];
    forall i | 0 <= i < |all| - 1 ensures Continues(all[i], all[i + 1], heights) {
      if i + 1 < |g| { assert Continues(g[i], g[i + 1], heights); }
    }
  }

  /** The open group, when there is one, ends with the item before i. */
  ghost predicate Open(items: seq<Item>, i: nat, current: seq<Item>, heights: map<int, real>)
    requires i <= |items|
  {
    current != [] ==> i > 0 && current[|current| - 1] == items[i - 1] && Chained(current, heights)
  }

  /** Groups begin with the open group, or else with the next item. */
  ghost predicate BeginsWith(groups: seq<seq<Item>>, items: seq<Item>, i: nat, current: seq<Item>)
    requires i <= |items|
  {
    groups != [] && groups[0] != [] ==>
      if current != [] then groups[0][0] == current[0] else i < |items| && groups[0][0] == items[i]
  }

  lemma HeadingParts(a: Item, b: Item, heights: map<int, real>)
    requires a.kind.Heading? || b.kind.Heading?
    ensures !Continues(a, b, heights)
  {
  }

  lemma CloseSeparate(current: seq<Item>, rest: seq<seq<Item>>, heights: map<int, real>)
    requires current != [] ==> Chained(current, heights)
    requires Separate(rest, heights) && (current != [] && rest != [] ==> Parted(current, rest[0], heights))
    ensures Separate(Close(current) + rest, heights)
  {
    if current != [] { SeparateCons(current, rest, heights); } else { assert Close(current) + rest == rest; }
  }

  lemma {:induction false} GroupsFromExactly(items: seq<Item>, i: nat, current: seq<Item>, heights: map<int, real>)
    requires i <= |items| && Open(items, i, current, heights)
    ensures Separate(GroupsFrom(items, i, current, heights), heights)
    ensures BeginsWith(GroupsFrom(items, i, current, heights), items, i, current)
    decreases |items| - i
  {
    hide Continues, ShouldMerge, Chained;
    OneChained(heights);
    if i == |items| {
      CloseSeparate(current, [], heights);
      assert Close(current) + [] == Close(current);
    } else {
      var x := items[i];
      if current != [] { MergesExactly(current[|current| - 1], x, heights); }
      if x.kind.Heading? {
        GroupsFromExactly(items, i + 1, [], heights);
        var rest := GroupsFrom(items, i + 1, [], heights);
        if rest != [] { HeadingParts(x, rest[0][0], heights); }
        SeparateCons([x], rest, heights);
        if current != [] { HeadingParts(current[|current| - 1], x, heights); }
        CloseSeparate(current, [[x]] + rest, heights);
      } else if current != [] && ShouldMerge(current[|current| - 1], x, heights) {
        ChainedSnoc(current, x, heights);
        GroupsFromExactly(items, i + 1, current + [x], heights);
      } else {
        GroupsFromExactly(items, i + 1, [x], heights);
        CloseSeparate(current, GroupsFrom(items, i + 1, [x], heights), heights);
      }
    }
  }

  lemma OneChained(heights: map<int, real>)
    ensures Chained([], heights) && forall x :: Chained([x], heights)
  {
  }

  /** Main result: two neighbouring items share a group exactly when the later one continues the earlier:
      inside a group every item continues the one before it, and no group continues the group before. */
  lemma GroupsExactly(items: seq<Item>, heights: map<int, real>)
    ensures Flatten(Groups(items, heights)) == items && Separate(Groups(items, heights), heights)
  {
    GroupsSound(items, heights);
    GroupsFromExactly(items, 0, [], heights);
  }

  // ------------------------------------------------------------ blocks

  function HeadingCount(groups: seq<seq<Item>>): nat
    requires GroupsOk(groups)
  {
    if groups == [] then 0
    else
      var n := |groups| - 1;
      HeadingCount(groups[..n]) + (if groups[n][0].kind.Heading? then 1 else 0)
  }

  /** The section of the k-th block: the number of headings up to and including it. */
  function SectionAt(groups: seq<seq<Item>>, k: nat): Option<nat>
    requires GroupsOk(groups) && k <= |groups|
  {
    var c := HeadingCount(groups[..k]);
    if c == 0 then None else Some(c)
  }

  lemma HeadingIsMerged(item: Item, id: nat, section: Option<nat>)
    ensures MakeBlock(item, id, None).(section := section) == MergedBlock([item], id, section)
  {
    var b := MakeBlock(item, id, section);
    assert [item][1..] == [];
    assert AppendAll(b, [item][1..]) == b;
    assert ProvenancePages(b.provenance) == b.pages;
  }

  /** One group adds one block, and a heading group one section, which becomes the current one. */
  lemma AddGroupFacts(st: State, g: seq<Item>)
    requires GroupOk(g)
    ensures var next := AddGroup(st, g);
      && next.blocks == st.blocks + [MergedBlock(g, |st.blocks| + 1, next.current)]
      && |next.sections| == |st.sections| + (if g[0].kind.Heading? then 1 else 0)
      && next.current == (if g[0].kind.Heading? then Some(|st.sections| + 1) else st.current)
  {
    hide MergedBlock, MakeBlock, PopTo;
    if g[0].kind.Heading? {
      assert g == [g[0]];
      HeadingIsMerged(g[0], |st.blocks| + 1, Some(|st.sections| + 1));
    }
  }

  lemma {:induction false} AddAllBlocks(groups: seq<seq<Item>>)
    requires GroupsOk(groups)
    ensures var st := AddAll(groups);
      && |st.blocks| == |groups|
      && |st.sections| == HeadingCount(groups)
      && st.current == SectionAt(groups, |groups|)
      && (forall k :: 0 <= k < |groups| ==> st.blocks[k] == MergedBlock(groups[k], k + 1, SectionAt(groups, k + 1)))
  {
    hide MergedBlock, AddGroup;
    assert groups[..|groups|] == groups;
    if groups != [] {
      var n := |groups| - 1;
      var before := groups[..n];
      AddAllBlocks(before);
      AddGroupFacts(AddAll(before), groups[n]);
      assert before[..n] == before;
      var blocks := AddAll(groups).blocks;
      forall k | 0 <= k < |groups| ensures blocks[k] == MergedBlock(groups[k], k + 1, SectionAt(groups, k + 1)) {
        if k < n { assert before[..k + 1] == groups[..k + 1]; }
      }
    }
  }

  // ------------------------------------------------------------ one merged block

  function Origins(items: seq<Item>): seq<string> { seq(|items|, i requires 0 <= i < |items| => items[i].origin) }

  /** The provenance ranges follow each other without gap or overlap from lo to hi. */
  predicate Tiles(ps: seq<Provenance>, lo: nat, hi: nat) {
    if ps == [] then lo == hi
    else ps[0].charStart == lo <= ps[0].charEnd <= hi && Tiles(ps[1..], ps[0].charEnd, hi)
  }

  lemma {:induction false} TilesSnoc(ps: seq<Provenance>, p: Provenance, lo: nat, mid: nat)
    requires Tiles(ps, lo, mid) && p.charStart == mid <= p.charEnd
    ensures Tiles(ps + [p], lo, p.charEnd)
  {
    if ps == [] {
      assert (ps + [p])[1..] == [];
    } else {
      assert (ps + [p])[1..] == ps[1..] + [p];
      TilesSnoc(ps[1..], p, ps[0].charEnd, mid);
    }
  }

  predicate AllPaged(items: seq<Item>) { forall i :: 0 <= i < |items| ==> items[i].page > 0 }

  /** The pages the items really come from; page 0 or below means no page. */
  function PageSet(items: seq<Item>): set<int> { set x | x in items && x.page > 0 :: x.page }

  lemma PageSetSnoc(items: seq<Item>, x: Item)
    ensures PageSet(items + [x]) == PageSet(items) + (if x.page > 0 then {x.page} else {})
  {
    forall p | p in PageSet(items) ensures p in PageSet(items + [x]) {
      var y :| y in items && y.page > 0 && y.page == p;
      assert y in items + [x];
    }
    assert x in items + [x];
  }

  lemma ProvenancePagesAppend(a: seq<Provenance>, b: seq<Provenance>)
    ensures ProvenancePages(a + b) == ProvenancePages(a) + ProvenancePages(b)
  {
    forall p | p in ProvenancePages(a) ensures p in ProvenancePages(a + b) {
      var x :| x in a && x.page == p;
      assert x in a + b;
    }
    forall p | p in ProvenancePages(b) ensures p in ProvenancePages(a + b) {
      var x :| x in b && x.page == p;
      assert x in a + b;
    }
  }

  lemma ItemPages(item: Item, start: nat, end: nat)
    ensures ProvenancePages(ItemProvenance(item, start, end)) == if item.page > 0 then {item.page} else {}
  {
    if item.page > 0 {
      assert Provenance(item.page, item.box, item.source, start, end) in ItemProvenance(item, start, end);
    }
  }

  lemma {:induction false} AppendAllPages(b: Block, items: seq<Item>, seen: seq<Item>)
    requires ProvenancePages(b.provenance) == PageSet(seen)
    ensures ProvenancePages(AppendAll(b, items).provenance) == PageSet(seen + items)
    decreases |items|
  {
    if items == [] {
      assert seen + items == seen;
    } else {
      hide ProvenancePages, PageSet, ItemProvenance;
      var next := AppendItem(b, items[0]);
      assert (seen + [items[0]]) + items[1..] == seen + items;
      PageSetSnoc(seen, items[0]);
      ItemPages(items[0], |b.text|, |next.text|);
      ProvenancePagesAppend(b.provenance, ItemProvenance(items[0], |b.text|, |next.text|));
      AppendAllPages(next, items[1..], seen + [items[0]]);
    }
  }

  lemma {:induction false} AppendAllTiles(b: Block, items: seq<Item>)
    requires AllPaged(items) && Tiles(b.provenance, 0, |b.text|)
    ensures Tiles(AppendAll(b, items).provenance, 0, |AppendAll(b, items).text|)
    decreases |items|
  {
    if items != [] {
      var next := AppendItem(b, items[0]);
      TilesSnoc(b.provenance, ItemProvenance(items[0], |b.text|, |next.text|)[0], 0, |b.text|);
      AppendAllTiles(next, items[1..]);
    }
  }

  lemma {:induction false} AppendAllKeeps(b: Block, items: seq<Item>)
    ensures var r := AppendAll(b, items);
      && r.sourceItems == b.sourceItems + Origins(items)
      && r.id == b.id && r.kind == b.kind && r.section == b.section
      && r.captionIds == b.captionIds && r.parentId == b.parentId && r.content == b.content
      && (items == [] ==> r == b)
    decreases |items|
  {
    if items != [] {
      AppendAllKeeps(AppendItem(b, items[0]), items[1..]);
      assert Origins(items) == [items[0].origin] + Origins(items[1..]);
    }
  }

  /** A block's source items are exactly its group's, and its provenance tiles its text when every
      item of the group has a page. */
  lemma MergedBlockSound(group: seq<Item>, id: nat, section: Option<nat>)
    requires group != []
    ensures var b := MergedBlock(group, id, section);
      && b.sourceItems == Origins(group)
      && b.pages == ProvenancePages(b.provenance) == PageSet(group)
      && b.id == id && b.section == section && b.kind == group[0].kind
      && b.captionIds == [] && b.parentId == None && b.content == TypeContent(group[0])
    ensures var b := MergedBlock(group, id, section);
      AllPaged(group) ==> Tiles(b.provenance, 0, |b.text|)
  {
    var first := MakeBlock(group[0], id, section);
    var rest := group[1..];
    hide TypeText, TypeContent, ItemProvenance, AppendAll, ProvenancePages, PageSet;
    AppendAllKeeps(first, rest);
    assert Origins(group) == [group[0].origin] + Origins(rest);
    FirstPages(group[0], |first.text|);
    AppendAllPages(first, rest, [group[0]]);
    assert [group[0]] + rest == group;
    if AllPaged(group) {
      FirstTiles(group[0], |first.text|);
      AppendAllTiles(first, rest);
    }
  }

  // ------------------------------------------------------------ the text of a merged block

  /** The text of a single item, by its type. */
  predicate ShowsItem(text: string, item: Item) {
    match item.kind
    case Figure => text == ""
    case Table =>
      text == if item.content.markdown.Some? && |item.content.markdown.value| > 0 then item.content.markdown.value
              else item.cleaned
    case Equation => text == if item.content.latex.Some? then item.content.latex.value else item.cleaned
    case _ => text == item.cleaned
  }

  /** The source ranges of the paged items, item i from cuts[i] to cuts[i + 1]. */
  function Located(group: seq<Item>, cuts: seq<nat>): seq<Provenance>
    requires |cuts| == |group| + 1
  {
    if group == [] then []
    else
      var n := |group| - 1;
      var x := group[n];
      Located(group[..n], cuts[..n + 1])
      + (if x.page > 0 then [Provenance(x.page, x.box, x.source, cuts[n], cuts[n + 1])] else [])
  }

  /** An item joins the text before it after a space, or directly after a hyphen that is not the only
      character there. */
  predicate ContinuesAt(text: string, x: Item, from: nat, to: nat) {
    && from <= to <= |text|
    && text[from..to] == (if from > 1 && text[from - 1] == '-' then "" else " ") + x.cleaned
  }

  /** cuts divides the block's text into one slice for each item of its group: the text of the first, then
      each later one joined to what comes before it. */
  predicate Assembled(b: Block, group: seq<Item>, cuts: seq<nat>) {
    && |cuts| == |group| + 1 && |group| > 0 && cuts[0] == 0 && cuts[|group|] == |b.text|
    && cuts[1] <= |b.text| && ShowsItem(b.text[..cuts[1]], group[0])
    && (forall i :: 0 < i < |group| ==> ContinuesAt(b.text, group[i], cuts[i], cuts[i + 1]))
    && b.provenance == Located(group, cuts)
  }

  lemma LocatedSnoc(group: seq<Item>, cuts: seq<nat>, x: Item, end: nat)
    requires |cuts| == |group| + 1
    ensures Located(group + [x], cuts + [end])
      == Located(group, cuts) + (if x.page > 0 then [Provenance(x.page, x.box, x.source, cuts[|group|], end)] else [])
  {
    assert (group + [x])[..|group|] == group && (cuts + [end])[..|group| + 1] == cuts;
  }

  lemma ContinuesLonger(a: string, b: string, x: Item, from: nat, to: nat)
    requires ContinuesAt(a, x, from, to) && a <= b
    ensures ContinuesAt(b, x, from, to)
  {
    assert b[from..to] == a[from..to];
  }

  lemma AppendText(b: Block, x: Item)
    ensures var next := AppendItem(b, x); b.text <= next.text && ContinuesAt(next.text, x, |b.text|, |next.text|)
  {
  }

  lemma AppendAssembled(b: Block, group: seq<Item>, cuts: seq<nat>, x: Item)
    requires Assembled(b, group, cuts)
    ensures var next := AppendItem(b, x); Assembled(next, group + [x], cuts + [|next.text|])
  {
    var next := AppendItem(b, x);
    var all, more := group + [x], cuts + [|next.text|];
    LocatedSnoc(group, cuts, x, |next.text|);
    AppendText(b, x);
    hide Located, ShowsItem, ContinuesAt;
    assert next.text[..more[1]] == b.text[..cuts[1]];
    forall i | 0 < i < |all| ensures ContinuesAt(next.text, all[i], more[i], more[i + 1]) {
      if i < |group| { ContinuesLonger(b.text, next.text, group[i], cuts[i], cuts[i + 1]); }
    }
  }

  lemma {:induction false} AppendAllAssembled(b: Block, group: seq<Item>, cuts: seq<nat>, items: seq<Item>)
    returns (all: seq<nat>)
    requires Assembled(b, group, cuts)
    ensures Assembled(AppendAll(b, items), group + items, all)
    decreases |items|
  {
    hide Assembled, AppendItem;
    if items == [] {
      all := cuts;
      assert group + items == group;
    } else {
      var next := AppendItem(b, items[0]);
      AppendAssembled(b, group, cuts, items[0]);
      all := AppendAllAssembled(next, group + [items[0]], cuts + [|next.text|], items[1..]);
      assert (group + [items[0]]) + items[1..] == group + items;
    }
  }

  lemma FirstAssembled(item: Item, id: nat, section: Option<nat>)
    ensures var b := MakeBlock(item, id, section); Assembled(b, [item], [0, |b.text|])
  {
    var b := MakeBlock(item, id, section);
    LocatedSnoc([], [0], item, |b.text|);
    assert [] + [item] == [item] && [0] + [|b.text|] == [0, |b.text|];
  }

  /** Main result: the text and the provenance of a merged block, item by item. */
  lemma MergedBlockText(group: seq<Item>, id: nat, section: Option<nat>) returns (cuts: seq<nat>)
    requires group != []
    ensures Assembled(MergedBlock(group, id, section), group, cuts)
  {
    var first := MakeBlock(group[0], id, section);
    FirstAssembled(group[0], id, section);
    cuts := AppendAllAssembled(first, [group[0]], [0, |first.text|], group[1..]);
    assert [group[0]] + group[1..] == group;
  }

  lemma FirstPages(item: Item, end: nat)
    ensures ProvenancePages(ItemProvenance(item, 0, end)) == PageSet([item])
  {
    ItemPages(item, 0, end);
    PageSetSnoc([], item);
    assert [] + [item] == [item];
  }

  lemma FirstTiles(item: Item, end: nat)
    requires item.page > 0
    ensures Tiles(ItemProvenance(item, 0, end), 0, end)
  {
    assert ItemProvenance(item, 0, end)[1..] == [];
  }

  // ------------------------------------------------------------ conservation over the whole document

  function SourceItems(blocks: seq<Block>): seq<string> {
    if blocks == [] then [] else SourceItems(blocks[..|blocks| - 1]) + blocks[|blocks| - 1].sourceItems
  }

  lemma {:induction false} SourceItemsOfGroups(blocks: seq<Block>, groups: seq<seq<Item>>)
    requires |blocks| == |groups| && forall k :: 0 <= k < |groups| ==> blocks[k].sourceItems == Origins(groups[k])
    ensures SourceItems(blocks) == Origins(Flatten(groups))
  {
    if groups != [] {
      var n := |groups| - 1;
      SourceItemsOfGroups(blocks[..n], groups[..n]);
      assert groups == groups[..n] + [groups[n]];
      FlattenSnoc(groups[..n], groups[n]);
    }
  }

  /** The group a block of the output was made from. */
  ghost predicate MadeFrom(b: Block, k: nat, groups: seq<seq<Item>>)
    requires GroupsOk(groups)
  {
    && k < |groups|
    && b.id == k + 1 == b.order
    && b.kind == groups[k][0].kind
    && b.section == SectionAt(groups, k + 1)
    && b.sourceItems == Origins(groups[k])
    && b.pages == ProvenancePages(b.provenance) == PageSet(groups[k])
    && (AllPaged(groups[k]) ==> Tiles(b.provenance, 0, |b.text|))
    && exists cuts :: Assembled(b, groups[k], cuts)
  }

  lemma AssembledKeeps(b: Block, e: Block, group: seq<Item>, cuts: seq<nat>)
    requires Assembled(b, group, cuts) && e.text == b.text && e.provenance == b.provenance
    ensures Assembled(e, group, cuts)
  {
    hide Located, ShowsItem;
  }

  lemma OutputBlocks(result: ParserResult, heights: map<int, real>)
    ensures var groups := Groups(SortItems(result.items), heights);
      var blocks := Normalize(result, heights).blocks;
      && GroupsOk(groups)
      && |blocks| == |groups|
      && forall k :: 0 <= k < |blocks| ==> MadeFrom(blocks[k], k, groups)
  {
    var items := SortItems(result.items);
    var groups := Groups(items, heights);
    GroupsSound(items, heights);
    AddAllBlocks(groups);
    GroupsNotEmpty(items, 0, [], heights);
    hide SortItems, GroupsFrom, MergedBlock, AddAll, Assembled, Tiles, PageSet, ProvenancePages;
    var made := AddAll(groups).blocks;
    forall k | 0 <= k < |groups| ensures MadeFrom(Numbered(Linked(made))[k], k, groups) {
      MergedBlockSound(groups[k], k + 1, SectionAt(groups, k + 1));
      LinkedKeeps(made, k);
      var cuts := MergedBlockText(groups[k], k + 1, SectionAt(groups, k + 1));
      AssembledKeeps(made[k], Numbered(Linked(made))[k], groups[k], cuts);
    }
  }

  lemma LinkedKeeps(blocks: seq<Block>, k: nat)
    requires k < |blocks|
    ensures var b := Numbered(Linked(blocks))[k];
      b == blocks[k].(captionIds := b.captionIds, parentId := b.parentId, order := k + 1)
  {
  }

  /** Conservation: the blocks' source items are those of the sorted parser items, none lost,
      repeated or reordered. Each block comes from one group of them, its text is theirs joined, and its
      provenance tiles it wherever every item of the group has a page. */
  lemma NothingLost(result: ParserResult, heights: map<int, real>)
    ensures var out, groups := Normalize(result, heights), Groups(SortItems(result.items), heights);
      && multiset(SortItems(result.items)) == multiset(result.items) && InOrder(SortItems(result.items))
      && SourceItems(out.blocks) == Origins(SortItems(result.items))
      && |out.blocks| == |groups| && Flatten(groups) == SortItems(result.items)
      && forall k :: 0 <= k < |out.blocks| ==>
        out.blocks[k].sourceItems == Origins(groups[k])
        && (AllPaged(groups[k]) ==> Tiles(out.blocks[k].provenance, 0, |out.blocks[k].text|))
        && exists cuts :: Assembled(out.blocks[k], groups[k], cuts)
  {
    var items := SortItems(result.items);
    var groups := Groups(items, heights);
    SortSound(result.items);
    OutputBlocks(result, heights);
    GroupsSound(items, heights);
    hide SortItems, GroupsFrom, Normalize;
    var blocks := Normalize(result, heights).blocks;
    SourceItemsOfGroups(blocks, groups);
    forall k | 0 <= k < |blocks|
      ensures blocks[k].sourceItems == Origins(groups[k])
      ensures AllPaged(groups[k]) ==> Tiles(blocks[k].provenance, 0, |blocks[k].text|)
      ensures exists cuts :: Assembled(blocks[k], groups[k], cuts)
    {
      assert MadeFrom(blocks[k], k, groups);
    }
  }

  lemma {:induction false} InFlatten<T>(xss: seq<seq<T>>, k: nat, x: T)
    requires k < |xss| && x in xss[k]
    ensures x in Flatten(xss)
  {
    if k > 0 { InFlatten(xss[1..], k - 1, x); }
  }

  // ------------------------------------------------------------ the section tree

  /** The nearest of the first n sections with a level strictly below `level`. */
  function NearestSmaller(sections: seq<Section>, n: nat, level: int): (r: Option<nat>)
    requires n <= |sections|
    ensures r.Some? ==> r.value < n && sections[r.value].level < level
    ensures r.Some? ==> forall j :: r.value < j < n ==> sections[j].level >= level
    ensures r.None? ==> forall j :: 0 <= j < n ==> sections[j].level >= level
  {
    if n == 0 then None
    else if sections[n - 1].level < level then Some(n - 1)
    else NearestSmaller(sections, n - 1, level)
  }

  /** First section index that stack entry k accounts for. */
  function Low(stack: Stack, k: nat): nat
    requires k <= |stack|
  {
    if k == 0 then 0 else stack[k - 1].1
  }

  /** Every section since the entry below is at least as deep as the entry itself. */
  ghost predicate EntryOk(stack: Stack, k: nat, sections: seq<Section>)
    requires k < |stack|
  {
    && Low(stack, k) < stack[k].1 <= |sections|
    && sections[stack[k].1 - 1].level == stack[k].0
    && (forall j :: Low(stack, k) <= j < stack[k].1 - 1 ==> sections[j].level >= stack[k].0)
  }

  ghost predicate StackOk(stack: Stack, sections: seq<Section>) {
    && Low(stack, |stack|) == |sections|
    && forall k :: 0 <= k < |stack| ==> EntryOk(stack, k, sections)
  }

  lemma {:induction false} PopFindsNearest(stack: Stack, sections: seq<Section>, level: int)
    requires forall k :: 0 <= k < |stack| ==> EntryOk(stack, k, sections)
    requires Low(stack, |stack|) <= |sections|
    requires forall j :: Low(stack, |stack|) <= j < |sections| ==> sections[j].level >= level
    ensures var r := PopTo(stack, level);
      && Low(r, |r|) <= |sections|
      && (forall j :: Low(r, |r|) <= j < |sections| ==> sections[j].level >= level)
      && (r == [] ==> NearestSmaller(sections, |sections|, level) == None)
      && (r != [] ==> r[|r| - 1].1 > 0 && NearestSmaller(sections, |sections|, level) == Some(r[|r| - 1].1 - 1))
    decreases |stack|
  {
    if stack != [] {
      var n := |stack| - 1;
      assert EntryOk(stack, n, sections);
      if stack[n].0 >= level {
        var rest := stack[..n];
        assert Low(rest, |rest|) == Low(stack, n);
        forall k | 0 <= k < |rest| ensures EntryOk(rest, k, sections) {
          assert EntryOk(stack, k, sections);
          assert Low(rest, k) == Low(stack, k);
        }
        forall j | Low(rest, |rest|) <= j < |sections| ensures sections[j].level >= level {}
        PopFindsNearest(rest, sections, level);
      }
    }
  }

  lemma PushKeepsStack(stack: Stack, sections: seq<Section>, s: Section)
    requires StackOk(stack, sections)
    ensures StackOk(PopTo(stack, s.level) + [(s.level, |sections| + 1)], sections + [s])
  {
    PopFindsNearest(stack, sections, s.level);
    var r := PopTo(stack, s.level);
    var next := r + [(s.level, |sections| + 1)];
    forall k | 0 <= k < |next| ensures EntryOk(next, k, sections + [s]) {
      assert Low(next, k) == Low(r, k);
      if k < |r| {
        assert EntryOk(stack, k, sections);
        assert Low(stack, k) == Low(r, k);
      }
    }
  }

  /** What a section's fields mean: ids count up, the level is at least one, the parent is the
      nearest earlier section of strictly smaller level. */
  ghost predicate SectionOk(sections: seq<Section>, k: nat)
    requires k < |sections|
  {
    && sections[k].id == k + 1
    && sections[k].level >= 1
    && sections[k].parent
       == (match NearestSmaller(sections, k, sections[k].level) case None => None case Some(j) => Some(j + 1))
  }

  ghost predicate TreeOk(sections: seq<Section>) { forall k :: 0 <= k < |sections| ==> SectionOk(sections, k) }

  lemma {:induction false} NearestIgnoresRest(sections: seq<Section>, more: seq<Section>, n: nat, level: int)
    requires n <= |sections| && sections <= more
    ensures NearestSmaller(sections, n, level) == NearestSmaller(more, n, level)
  {
    if n > 0 && sections[n - 1].level >= level { NearestIgnoresRest(sections, more, n - 1, level); }
  }

  lemma OpenKeepsTree(st: State, item: Item, heading: Block)
    requires StackOk(st.stack, st.sections) && TreeOk(st.sections)
    ensures var next := OpenSection(st, item, heading); StackOk(next.stack, next.sections) && TreeOk(next.sections)
  {
    var next := OpenSection(st, item, heading);
    var n := |st.sections|;
    PushKeepsStack(st.stack, st.sections, next.sections[n]);
    PopFindsNearest(st.stack, st.sections, next.sections[n].level);
    forall k | 0 <= k <= n ensures SectionOk(next.sections, k) {
      NearestIgnoresRest(st.sections, next.sections, k, next.sections[k].level);
      if k < n { assert SectionOk(st.sections, k); }
    }
  }

  lemma {:induction false} AddAllTree(groups: seq<seq<Item>>)
    requires GroupsOk(groups)
    ensures StackOk(AddAll(groups).stack, AddAll(groups).sections) && TreeOk(AddAll(groups).sections)
  {
    hide MergedBlock, StackOk, TreeOk, OpenSection;
    if groups == [] {
      NoSections();
    } else {
      var n := |groups| - 1;
      AddAllTree(groups[..n]);
      var st := AddAll(groups[..n]);
      assert GroupOk(groups[n]);
      if groups[n][0].kind.Heading? {
        OpenKeepsTree(st, groups[n][0], MakeBlock(groups[n][0], |st.blocks| + 1, None));
      }
    }
  }

  lemma NoSections()
    ensures StackOk([], []) && TreeOk([])
  {
  }

  // ------------------------------------------------------------ section paths

  /** The chain of enclosing sections that ends at section k. */
  function Ancestors(sections: seq<Section>, k: nat): (chain: seq<nat>)
    requires k < |sections|
    ensures chain != [] && chain[|chain| - 1] == k
    ensures forall i :: 0 <= i < |chain| ==> chain[i] <= k
    ensures forall i, j :: 0 <= i < j < |chain| ==>
      chain[i] < chain[j] && sections[chain[i]].level < sections[chain[j]].level
  {
    match NearestSmaller(sections, k, sections[k].level)
    case None => [k]
    case Some(j) => Ancestors(sections, j) + [k]
  }

  function Titles(sections: seq<Section>, chain: seq<nat>): seq<string>
    requires forall i :: 0 <= i < |chain| ==> chain[i] < |sections|
  {
    seq(|chain|, i requires 0 <= i < |chain| => sections[chain[i]].title)
  }

  lemma {:induction false} ByIdIs(sections: seq<Section>)
    requires forall k :: 0 <= k < |sections| ==> sections[k].id == k + 1
    ensures forall id :: id in Chunker.ById(sections) <==> 1 <= id <= |sections|
    ensures forall id :: 1 <= id <= |sections| ==> Chunker.ById(sections)[id] == sections[id - 1]
  {
    if sections != [] { ByIdIs(sections[..|sections| - 1]); }
  }

  lemma TreeIsAcyclic(sections: seq<Section>)
    requires TreeOk(sections)
    ensures Chunker.Acyclic(Chunker.ById(sections))
  {
    forall k | 0 <= k < |sections| ensures sections[k].id == k + 1 { assert SectionOk(sections, k); }
    ByIdIs(sections);
    var byId := Chunker.ById(sections);
    var rank := map id | id in byId :: id;
    forall id | id in byId ensures Chunker.Falls(byId, rank, id) {
      assert SectionOk(sections, id - 1);
    }
    assert Chunker.Ranked(byId, rank);
  }

  lemma ByIdAt(sections: seq<Section>, k: nat)
    requires TreeOk(sections) && k < |sections|
    ensures k + 1 in Chunker.ById(sections) && Chunker.ById(sections)[k + 1] == sections[k]
    ensures SectionOk(sections, k)
  {
    forall i | 0 <= i < |sections| ensures sections[i].id == i + 1 { assert SectionOk(sections, i); }
    ByIdIs(sections);
  }

  lemma TitlesSnoc(sections: seq<Section>, chain: seq<nat>, k: nat)
    requires k < |sections| && forall i :: 0 <= i < |chain| ==> chain[i] < |sections|
    ensures Titles(sections, chain + [k]) == Titles(sections, chain) + [sections[k].title]
  {
  }

  lemma {:induction false} PathFromChain(sections: seq<Section>, k: nat, rank: map<nat, nat>)
    requires TreeOk(sections) && k < |sections| && Chunker.Ranked(Chunker.ById(sections), rank)
    ensures Chunker.PathFrom(Some(k + 1), Chunker.ById(sections), rank) == Titles(sections, Ancestors(sections, k))
    decreases k
  {
    hide Chunker.ById, TreeOk, Titles, Chunker.Ranked;
    var byId := Chunker.ById(sections);
    ByIdAt(sections, k);
    var nearest := NearestSmaller(sections, k, sections[k].level);
    if nearest.Some? {
      var j := nearest.value;
      PathFromChain(sections, j, rank);
      TitlesSnoc(sections, Ancestors(sections, j), k);
    } else {
      TitlesSnoc(sections, [], k);
      assert [] + [k] == [k];
      NoTitles(sections);
    }
  }

  lemma NoTitles(sections: seq<Section>)
    ensures Titles(sections, []) == []
  {
  }

  /** The stack refines its meaning: parents are nearest enclosing sections, so walking up always
      ends, and the path of a section lists the titles of its strictly deepening ancestor chain. */
  lemma SectionTreeSound(result: ParserResult, heights: map<int, real>)
    ensures var sections := Normalize(result, heights).sections;
      && TreeOk(sections)
      && Chunker.Acyclic(Chunker.ById(sections))
      && forall k :: 0 <= k < |sections| ==>
          Chunker.Path(k + 1, Chunker.ById(sections)) == Titles(sections, Ancestors(sections, k))
  {
    var items := SortItems(result.items);
    GroupsSound(items, heights);
    AddAllTree(Groups(items, heights));
    hide Normalize, GroupsFrom, SortItems, TreeOk;
    NormalizeSections(result, heights);
    var sections := Normalize(result, heights).sections;
    TreeIsAcyclic(sections);
    var byId := Chunker.ById(sections);
    forall k | 0 <= k < |sections| ensures Chunker.Path(k + 1, byId) == Titles(sections, Ancestors(sections, k)) {
      var rank :| Chunker.Ranked(byId, rank) && Chunker.Path(k + 1, byId) == Chunker.PathFrom(Some(k + 1), byId, rank);
      PathFromChain(sections, k, rank);
    }
  }

  lemma NormalizeSections(result: ParserResult, heights: map<int, real>)
    ensures var groups := Groups(SortItems(result.items), heights);
      (forall i :: 0 <= i < |groups| ==> groups[i] != [])
        && Normalize(result, heights).sections == AddAll(groups).sections
  {
    GroupsNotEmpty(SortItems(result.items), 0, [], heights);
  }

  // ------------------------------------------------------------ the whole normalizer

  method NormalizeItems(result: ParserResult, heights: map<int, real>) returns (out: Output)
    ensures out == Normalize(result, heights)
  {
    var items := SortItems(result.items);
    var groups := GroupItems(items, heights);
    hide SortItems, GroupsFrom, AddAll, Linked, Numbered;
    GroupsSound(items, heights);
    GroupsNotEmpty(items, 0, [], heights);
    var blocks, sections := BuildBlocks(groups);
    FreshBlocksUnlinked(groups);
    var linked := LinkCaptions(blocks);
    var numbered := NumberBlocks(linked);
    out := Output(PageCount(result, numbered), sections, numbered);
  }

  lemma FreshBlocksUnlinked(groups: seq<seq<Item>>)
    requires GroupsOk(groups)
    ensures Unlinked(AddAll(groups).blocks)
  {
    hide AddAll, MergedBlock;
    AddAllBlocks(groups);
    var blocks := AddAll(groups).blocks;
    forall k | 0 <= k < |blocks|
      ensures blocks[k].captionIds == [] && blocks[k].parentId == None && blocks[k].id == k + 1
    {
      hide Origins, TypeContent, Tiles, AllPaged, ProvenancePages, PageSet;
      MergedBlockSound(groups[k], k + 1, SectionAt(groups, k + 1));
    }
  }
}
