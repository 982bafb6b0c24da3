/** From parser items to canonical blocks and sections: grouping, paragraph merging with provenance,
    the section stack and caption linking (src/transit_scholar/layer2/normalizer.py). */
module Normalizer {
  import opened Prelude
  import opened Schema

  // ------------------------------------------------------------ merge decision

  function Abs(x: real): real { if x < 0.0 then -x else x }

  function MaxReal(a: real, b: real): real { if a >= b then a else b }

  function RightStrip(t: string): string {
    if t != "" && t[|t| - 1] in " \t\n\r" then RightStrip(t[..|t| - 1]) else t
  }

  predicate EndsWithHyphen(t: string) { |t| > 1 && t[|t| - 1] == '-' }

  predicate EndsSentence(t: string) { t != "" && t[|t| - 1] in ".!?:;" }

  predicate FontCompatible(a: Item, b: Item) {
    || a.font.None? || a.font.value == 0.0 || b.font.None? || b.font.value == 0.0
    || Abs(a.font.value - b.font.value) <= MaxReal(0.8, 0.15 * MaxReal(a.font.value, b.font.value))
  }

  predicate GeometryCompatible(a: Item, b: Item, heights: map<int, real>) {
    a.box.None? || b.box.None? ||
    (Abs(a.box.value.x0 - b.box.value.x0) <= 20.0 &&
     if a.page == b.page then
       var size := if a.font.None? || a.font.value == 0.0 then 11.0 else a.font.value;
       b.box.value.y0 - a.box.value.y1 <= MaxReal(40.0, 3.5 * size)
     else
       && !(a.page in heights && heights[a.page] != 0.0 && a.box.value.y1 < heights[a.page] * 0.5)
       && !(b.page in heights && heights[b.page] != 0.0 && b.box.value.y0 > heights[b.page] * 0.5))
  }

  /** A hyphen always continues; a sentence end never does. */
  predicate TextAllows(a: Item) {
    var end := RightStrip(a.cleaned);
    EndsWithHyphen(end) || !EndsSentence(end)
  }

  predicate ShouldMerge(a: Item, b: Item, heights: map<int, real>) {
    a.kind.Paragraph? && b.kind.Paragraph? && FontCompatible(a, b) && GeometryCompatible(a, b, heights) && TextAllows(a)
  }

  // ------------------------------------------------------------ reading order and groups

  predicate Before(a: Item, b: Item) { a.order < b.order || (a.order == b.order && a.page < b.page) }

  function InsertItem(sorted: seq<Item>, x: Item): seq<Item> {
    if sorted == [] || Before(x, sorted[0]) then [x] + sorted else [sorted[0]] + InsertItem(sorted[1..], x)
  }

  /** Stable sort by (order, page). */
  function SortItems(items: seq<Item>): seq<Item> {
    if items == [] then [] else InsertItem(SortItems(items[..|items| - 1]), items[|items| - 1])
  }

  function Close(current: seq<Item>): seq<seq<Item>> { if current != [] then [current] else [] }

  /** Groups from item i on, while `current` is still open. */
  function GroupsFrom(items: seq<Item>, i: nat, current: seq<Item>, heights: map<int, real>): seq<seq<Item>>
    requires i <= |items|
    decreases |items| - i
  {
    if i == |items| then Close(current)
    else if items[i].kind.Heading? then
      Close(current) + ([[items[i]]] + GroupsFrom(items, i + 1, [], heights))
    else if current != [] && ShouldMerge(current[|current| - 1], items[i], heights) then
      GroupsFrom(items, i + 1, current + [items[i]], heights)
    else
      Close(current) + GroupsFrom(items, i + 1, [items[i]], heights)
  }

  function Groups(items: seq<Item>, heights: map<int, real>): seq<seq<Item>> {
    GroupsFrom(items, 0, [], heights)
  }

  method GroupItems(items: seq<Item>, heights: map<int, real>) returns (groups: seq<seq<Item>>)
    ensures groups == Groups(items, heights)
  {
    hide ShouldMerge, Close;
    groups := [];
    var current: seq<Item> := [];
    for i := 0 to |items|
      invariant groups + GroupsFrom(items, i, current, heights) == Groups(items, heights)
    {
      var item := items[i];
      ghost var before := groups;
      if item.kind.Heading? {
        var closed := CloseGroup(current);
        groups := groups + closed + [[item]];
        ghost var rest := GroupsFrom(items, i + 1, [], heights);
        assert groups + rest == before + (closed + ([[item]] + rest));
        current := [];
      } else if current != [] && ShouldMerge(current[|current| - 1], item, heights) {
        current := current + [item];
      } else {
        var closed := CloseGroup(current);
        groups := groups + closed;
        ghost var rest := GroupsFrom(items, i + 1, [item], heights);
        assert groups + rest == before + (closed + rest);
        current := [item];
      }
    }
    var closed := CloseGroup(current);
    groups := groups + closed;
  }

  method CloseGroup(current: seq<Item>) returns (closed: seq<seq<Item>>)
    ensures closed == Close(current)
  {
    closed := [];
    if current != [] { closed := [current]; }
  }

  // ------------------------------------------------------------ one block

  function TypeText(item: Item): string {
    match item.kind
    case Table => OrElse(item.content.markdown, item.cleaned)
    case Equation => if item.content.latex.Some? then item.content.latex.value else item.cleaned
    case Figure => ""
    case _ => item.cleaned
  }

  function TypeContent(item: Item): Content {
    match item.kind
    case Table =>
      Content(Some(if item.content.markdown.Some? then item.content.markdown.value else item.cleaned), None,
              item.content.cells)
    case Equation => Content(None, Some(TypeText(item)), [])
    case _ => NO_CONTENT
  }

  function ItemProvenance(item: Item, start: nat, end: nat): seq<Provenance> {
    if item.page > 0 then [Provenance(item.page, item.box, item.source, start, end)] else []
  }

  function MakeBlock(item: Item, id: nat, section: Option<nat>): Block {
    var text := TypeText(item);
    Block(id, item.kind, section, 0, text, if item.page > 0 then {item.page} else {}, ItemProvenance(item, 0, |text|),
          [item.origin], [], None, TypeContent(item))
  }

  function AppendItem(b: Block, item: Item): Block {
    var text := b.text + (if EndsWithHyphen(b.text) then "" else " ") + item.cleaned;
    b.(text := text,
       provenance := b.provenance + ItemProvenance(item, |b.text|, |text|),
       sourceItems := b.sourceItems + [item.origin])
  }

  function AppendAll(b: Block, items: seq<Item>): Block
    decreases |items|
  {
    if items == [] then b else AppendAll(AppendItem(b, items[0]), items[1..])
  }

  function ProvenancePages(ps: seq<Provenance>): set<int> { set p <- ps :: p.page }

  function MergedBlock(group: seq<Item>, id: nat, section: Option<nat>): Block
    requires group != []
  {
    var b := AppendAll(MakeBlock(group[0], id, section), group[1..]);
    b.(pages := ProvenancePages(b.provenance))
  }

  method MergeGroup(group: seq<Item>, id: nat, section: Option<nat>) returns (b: Block)
    requires group != []
    ensures b == MergedBlock(group, id, section)
  {
    b := MakeBlock(group[0], id, section);
    for i := 1 to |group|
      invariant AppendAll(b, group[i..]) == AppendAll(MakeBlock(group[0], id, section), group[1..])
    {
      hide AppendItem, MakeBlock;
      assert group[i..][0] == group[i] && group[i..][1..] == group[i + 1..];
      b := AppendItem(b, group[i]);
    }
    b := b.(pages := ProvenancePages(b.provenance));
  }

  // ------------------------------------------------------------ sections

  /** One entry of the section stack: level and section id. */
  type Stack = seq<(int, nat)>

  function PopTo(stack: Stack, level: int): (r: Stack)
    ensures r <= stack
    ensures r != [] ==> r[|r| - 1].0 < level
    ensures forall k :: |r| <= k < |stack| ==> stack[k].0 >= level
  {
    if stack != [] && stack[|stack| - 1].0 >= level then PopTo(stack[..|stack| - 1], level) else stack
  }

  datatype State = State(blocks: seq<Block>, sections: seq<Section>, stack: Stack, current: Option<nat>)

  function OpenSection(st: State, item: Item, heading: Block): State {
    var level := Max(1, item.level);
    var stack := PopTo(st.stack, level);
    var id := |st.sections| + 1;
    var parent := if stack == [] then None else Some(stack[|stack| - 1].1);
    State(st.blocks, st.sections + [Section(id, heading.text, level, parent, id, heading.id)],
          stack + [(level, id)], Some(id))
  }

  function AddGroup(st: State, group: seq<Item>): State
    requires group != []
  {
    var id := |st.blocks| + 1;
    if group[0].kind.Heading? then
      var b := MakeBlock(group[0], id, None);
      var next := OpenSection(st, group[0], b);
      next.(blocks := st.blocks + [b.(section := next.current)])
    else
      st.(blocks := st.blocks + [MergedBlock(group, id, st.current)])
  }

  function AddAll(groups: seq<seq<Item>>): State
    requires forall i :: 0 <= i < |groups| ==> groups[i] != []
  {
    if groups == [] then State([], [], [], None)
    else AddGroup(AddAll(groups[..|groups| - 1]), groups[|groups| - 1])
  }

  // ------------------------------------------------------------ captions

  /** The structured block a caption at i follows, with nothing but captions in between. */
  function Owner(blocks: seq<Block>, i: nat): (r: Option<nat>)
    requires i <= |blocks|
    ensures r.Some? ==> r.value < i && IsStructured(blocks[r.value].kind)
  {
    if i == 0 then None
    else if blocks[i - 1].kind.Caption? then Owner(blocks, i - 1)
    else if IsStructured(blocks[i - 1].kind) then Some(i - 1)
    else None
  }

  /** End of the unbroken run of captions that starts at i. */
  function RunEnd(blocks: seq<Block>, i: nat): (e: nat)
    requires i <= |blocks|
    ensures i <= e <= |blocks|
    ensures forall k :: i <= k < e ==> blocks[k].kind.Caption?
    ensures e < |blocks| ==> !blocks[e].kind.Caption?
    decreases |blocks| - i
  {
    if i < |blocks| && blocks[i].kind.Caption? then RunEnd(blocks, i + 1) else i
  }

  function BlockIds(bs: seq<Block>): seq<nat> { seq(|bs|, i requires 0 <= i < |bs| => bs[i].id) }

  /** Captions point to the structured block they follow; it lists exactly those captions. */
  function LinkedBlock(blocks: seq<Block>, i: nat): Block
    requires i < |blocks|
  {
    var b := blocks[i];
    if b.kind.Caption? then
      b.(parentId := if Owner(blocks, i).Some? then Some(blocks[Owner(blocks, i).value].id) else None)
    else if IsStructured(b.kind) then
      b.(captionIds := BlockIds(blocks[i + 1..RunEnd(blocks, i + 1)]))
    else b
  }

  function Linked(blocks: seq<Block>): seq<Block> {
    seq(|blocks|, i requires 0 <= i < |blocks| => LinkedBlock(blocks, i))
  }

  function Numbered(blocks: seq<Block>): seq<Block> {
    seq(|blocks|, i requires 0 <= i < |blocks| => blocks[i].(order := i + 1))
  }

  // ------------------------------------------------------------ the document

  datatype ParserResult = ParserResult(ok: bool, items: seq<Item>, pageCount: Option<int>)

  datatype Output = Output(pageCount: int, sections: seq<Section>, blocks: seq<Block>)

  function LargestPage(blocks: seq<Block>): int {
    if blocks == [] then 0 else Max(LargestIn(blocks[0].provenance), LargestPage(blocks[1..]))
  }

  function LargestIn(ps: seq<Provenance>): int {
    if ps == [] then 0 else Max(ps[0].page, LargestIn(ps[1..]))
  }

  function PageCount(result: ParserResult, blocks: seq<Block>): int {
    if result.pageCount.Some? && result.pageCount.value != 0 then result.pageCount.value else LargestPage(blocks)
  }

  lemma {:induction false} GroupsNotEmpty(items: seq<Item>, i: nat, current: seq<Item>, heights: map<int, real>)
    requires i <= |items|
    ensures forall k :: 0 <= k < |GroupsFrom(items, i, current, heights)| ==>
      GroupsFrom(items, i, current, heights)[k] != []
    decreases |items| - i
  {
    hide ShouldMerge;
    if i < |items| {
      GroupsNotEmpty(items, i + 1, [], heights);
      GroupsNotEmpty(items, i + 1, [items[i]], heights);
      GroupsNotEmpty(items, i + 1, current + [items[i]], heights);
    }
  }

  function Normalize(result: ParserResult, heights: map<int, real>): Output {
    var groups := Groups(SortItems(result.items), heights);
    GroupsNotEmpty(SortItems(result.items), 0, [], heights);
    var st := AddAll(groups);
    var blocks := Numbered(Linked(st.blocks));
    Output(PageCount(result, blocks), st.sections, blocks)
  }

  // ------------------------------------------------------------ the loops

  method PopSections(stack: Stack, level: int) returns (popped: Stack)
    ensures popped == PopTo(stack, level)
  {
    popped := stack;
    while popped != [] && popped[|popped| - 1].0 >= level
      invariant PopTo(popped, level) == PopTo(stack, level)
      decreases |popped|
    {
      popped := popped[..|popped| - 1];
    }
  }

  method BuildBlocks(groups: seq<seq<Item>>) returns (blocks: seq<Block>, sections: seq<Section>)
    requires forall i :: 0 <= i < |groups| ==> groups[i] != []
    ensures blocks == AddAll(groups).blocks && sections == AddAll(groups).sections
  {
    hide MakeBlock, MergedBlock, PopTo;
    blocks, sections := [], [];
    var stack: Stack := [];
    var current: Option<nat> := None;
    for i := 0 to |groups|
      invariant State(blocks, sections, stack, current) == AddAll(groups[..i])
    {
      assert groups[..i + 1][..i] == groups[..i] && groups[..i + 1][i] == groups[i];
      var first := groups[i][0];
      if first.kind.Heading? {
        var b := MakeBlock(first, |blocks| + 1, None);
        var level := Max(1, first.level);
        stack := PopSections(stack, level);
        var parent := if stack == [] then None else Some(stack[|stack| - 1].1);
        var id := |sections| + 1;
        sections := sections + [Section(id, b.text, level, parent, id, b.id)];
        stack := stack + [(level, id)];
        current := Some(id);
        blocks := blocks + [b.(section := current)];
      } else {
        var b := MergeGroup(groups[i], |blocks| + 1, current);
        blocks := blocks + [b];
      }
    }
    assert groups[..|groups|] == groups;
  }

  predicate Unlinked(blocks: seq<Block>) {
    && (forall i :: 0 <= i < |blocks| ==> blocks[i].captionIds == [] && blocks[i].parentId == None)
    && (forall i, j :: 0 <= i < j < |blocks| ==> blocks[i].id != blocks[j].id)
  }

  /** Block k when the linking loop has seen the first n blocks: final, except that a structured
      block lists only the captions seen so far. */
  function LinkedAt(blocks: seq<Block>, n: nat, k: nat): Block
    requires n <= |blocks| && k < |blocks|
  {
    if n <= k then blocks[k]
    else if IsStructured(blocks[k].kind)
      then blocks[k].(captionIds := BlockIds(blocks[k + 1..Min(n, RunEnd(blocks, k + 1))]))
    else LinkedBlock(blocks, k)
  }

  lemma {:induction false} OwnerRuns(blocks: seq<Block>, n: nat, k: nat)
    requires k < n <= |blocks| && IsStructured(blocks[k].kind)
    ensures Owner(blocks, n) == Some(k) <==> n <= RunEnd(blocks, k + 1)
    decreases n
  {
    if n > k + 1 { OwnerRuns(blocks, n - 1, k); }
  }

  /** An owned caption joins the list of its owner. */
  lemma OwnerStep(blocks: seq<Block>, n: nat, k: nat)
    requires n < |blocks| && blocks[n].kind.Caption? && Owner(blocks, n) == Some(k)
    ensures var b := LinkedAt(blocks, n, k);
      LinkedAt(blocks, n + 1, k) == b.(captionIds := b.captionIds + [blocks[n].id])
  {
    OwnerRuns(blocks, n, k);
    OwnerRuns(blocks, n + 1, k);
    assert blocks[k + 1..n + 1] == blocks[k + 1..n] + [blocks[n]];
    assert BlockIds(blocks[k + 1..n + 1]) == BlockIds(blocks[k + 1..n]) + [blocks[n].id];
  }

  /** No other earlier or later block changes. */
  lemma OtherStep(blocks: seq<Block>, n: nat, k: nat)
    requires n < |blocks| && k < |blocks| && k != n
    requires !(blocks[n].kind.Caption? && Owner(blocks, n) == Some(k))
    ensures LinkedAt(blocks, n + 1, k) == LinkedAt(blocks, n, k)
  {
    if k < n && IsStructured(blocks[k].kind) {
      OwnerRuns(blocks, n, k);
      OwnerRuns(blocks, n + 1, k);
      assert Min(n + 1, RunEnd(blocks, k + 1)) == Min(n, RunEnd(blocks, k + 1));
    }
  }

  /** Block n itself gets its parent, if it is an owned caption, and no captions yet. */
  lemma SelfStep(blocks: seq<Block>, n: nat)
    requires n < |blocks| && blocks[n].captionIds == [] && blocks[n].parentId == None
    ensures LinkedAt(blocks, n + 1, n) ==
      if blocks[n].kind.Caption? && Owner(blocks, n).Some?
      then blocks[n].(parentId := Some(blocks[Owner(blocks, n).value].id)) else blocks[n]
  {
    if IsStructured(blocks[n].kind) { assert BlockIds(blocks[n + 1..n + 1]) == []; }
  }

  ghost predicate LinkedUpTo(now: seq<Block>, blocks: seq<Block>, n: nat) {
    n <= |blocks| == |now| && forall k :: 0 <= k < |blocks| ==> now[k] == LinkedAt(blocks, n, k)
  }

  method LinkCaptions(blocks: seq<Block>) returns (now: seq<Block>)
    requires Unlinked(blocks)
    ensures now == Linked(blocks)
  {
    hide LinkedAt;
    StartLinking(blocks);
    now := blocks;
    var last: Option<nat> := None;
    for n := 0 to |blocks|
      invariant LinkedUpTo(now, blocks, n)
      invariant last == Owner(blocks, n)
    {
      AheadUntouched(blocks, n);
      SelfStep(blocks, n);
      if blocks[n].kind.Caption? && Owner(blocks, n).Some? { OwnerStep(blocks, n, Owner(blocks, n).value); }
      forall k | 0 <= k < |blocks| && k != n && !(blocks[n].kind.Caption? && Owner(blocks, n) == Some(k))
        ensures LinkedAt(blocks, n + 1, k) == LinkedAt(blocks, n, k)
      {
        OtherStep(blocks, n, k);
      }
      if now[n].kind.Caption? {
        if last.Some? {
          var j := last.value;
          now := now[n := now[n].(parentId := Some(now[j].id))];
          now := now[j := now[j].(captionIds := now[j].captionIds + [now[n].id])];
        }
      } else {
        last := if IsStructured(now[n].kind) then Some(n) else None;
      }
    }
    LinkingDone(now, blocks);
  }

  lemma StartLinking(blocks: seq<Block>)
    ensures LinkedUpTo(blocks, blocks, 0)
  {
  }

  lemma AheadUntouched(blocks: seq<Block>, n: nat)
    requires n < |blocks|
    ensures LinkedAt(blocks, n, n) == blocks[n]
    ensures forall k :: 0 <= k < |blocks| ==> LinkedAt(blocks, n, k).id == blocks[k].id
  {
  }

  lemma LinkingDone(now: seq<Block>, blocks: seq<Block>)
    requires LinkedUpTo(now, blocks, |blocks|)
    ensures now == Linked(blocks)
  {
    forall k | 0 <= k < |blocks| ensures now[k] == LinkedBlock(blocks, k) {
      assert now[k] == LinkedAt(blocks, |blocks|, k);
    }
  }

  method NumberBlocks(blocks: seq<Block>) returns (now: seq<Block>)
    ensures now == Numbered(blocks)
  {
    now := blocks;
    for i := 0 to |blocks|
      invariant |now| == |blocks|
      invariant forall k :: 0 <= k < |blocks| ==> now[k] == if k < i then blocks[k].(order := k + 1) else blocks[k]
    {
      now := now[i := now[i].(order := i + 1)];
    }
  }
}
