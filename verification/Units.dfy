/** Retrieval units: blocks with their bound captions, and the pieces an overlong unit is cut into
    (`_build_units`, `_text_unit`, `_structured_unit`, `_split_overlong_unit`, `_split_table_unit`). */
module Units {
  import opened Prelude
  import opened TokenCounter
  import opened Schema
  import opened Splitting
  import opened TableRows

  const GAP := "\n\n"

  datatype Unit = Unit(
    blocks: seq<Block>,
    body: string,
    refs: seq<SourceRef>,
    tokens: nat,
    types: seq<BlockType>,
    caption: Option<string>,
    rows: Option<RowRange>)

  // ------------------------------------------------------------ building one unit

  function WholeRef(b: Block): SourceRef { SourceRef(b.id, 0, |BlockText(b)|) }

  function TextUnit(b: Block): Unit {
    Unit([b], BlockText(b), [WholeRef(b)], Tokens(BlockText(b)), [b.kind], None, None)
  }

  function Texts(blocks: seq<Block>): seq<string> { seq(|blocks|, i requires 0 <= i < |blocks| => blocks[i].text) }

  function Kinds(blocks: seq<Block>): seq<BlockType> { seq(|blocks|, i requires 0 <= i < |blocks| => blocks[i].kind) }

  function CaptionRefs(captions: seq<Block>): seq<SourceRef> {
    seq(|captions|, i requires 0 <= i < |captions| => SourceRef(captions[i].id, 0, |captions[i].text|))
  }

  function StructuredUnit(b: Block, captions: seq<Block>): Unit {
    var body := if captions == [] then BlockText(b) else BlockText(b) + GAP + Join(GAP, Texts(captions));
    Unit([b] + captions, body, [WholeRef(b)] + CaptionRefs(captions), Tokens(body), [b.kind] + Kinds(captions),
         if captions == [] then None else Some(Join(GAP, Texts(captions))), None)
  }

  // ------------------------------------------------------------ binding captions

  /** Insertion into a dictionary of captions that remembers insertion order. */
  function PutCaption(dict: seq<Block>, b: Block): seq<Block> {
    if dict == [] then [b]
    else if dict[0].id == b.id then [b] + dict[1..]
    else [dict[0]] + PutCaption(dict[1..], b)
  }

  function Captions(blocks: seq<Block>): seq<Block> {
    if blocks == [] then []
    else
      var n := |blocks| - 1;
      if blocks[n].kind.Caption? then PutCaption(Captions(blocks[..n]), blocks[n]) else Captions(blocks[..n])
  }

  function Lookup(dict: seq<Block>, id: nat): seq<Block> {
    if dict == [] then [] else if dict[0].id == id then [dict[0]] else Lookup(dict[1..], id)
  }

  /** The captions a parent lists, in its own order, skipping dangling ids. */
  function Listed(dict: seq<Block>, ids: seq<nat>): seq<Block> {
    if ids == [] then [] else Lookup(dict, ids[0]) + Listed(dict, ids[1..])
  }

  /** The captions that name `id` as their parent. */
  function Claiming(dict: seq<Block>, id: nat): seq<Block> {
    if dict == [] then []
    else (if dict[0].parentId == Some(id) then [dict[0]] else []) + Claiming(dict[1..], id)
  }

  function InsertByOrder(sorted: seq<Block>, b: Block): seq<Block> {
    if sorted == [] || b.order < sorted[0].order then [b] + sorted
    else [sorted[0]] + InsertByOrder(sorted[1..], b)
  }

  /** Stable sort by reading order. */
  function SortByOrder(bs: seq<Block>): seq<Block> {
    if bs == [] then [] else InsertByOrder(SortByOrder(bs[..|bs| - 1]), bs[|bs| - 1])
  }

  function Children(b: Block, dict: seq<Block>): seq<Block> {
    var listed := Listed(dict, b.captionIds);
    SortByOrder(if listed == [] then Claiming(dict, b.id) else listed)
  }

  /** children_by_parent: for a repeated block id the later block wins. */
  function ChildrenById(blocks: seq<Block>, dict: seq<Block>): map<nat, seq<Block>> {
    if blocks == [] then map[]
    else
      var n := |blocks| - 1;
      var rest := ChildrenById(blocks[..n], dict);
      if IsStructured(blocks[n].kind) then rest[blocks[n].id := Children(blocks[n], dict)] else rest
  }

  function Ids(bs: seq<Block>): set<nat> { set b <- bs :: b.id }

  function ChildrenOf(b: Block, children: map<nat, seq<Block>>): seq<Block> {
    if b.id in children then children[b.id] else []
  }

  /** Units of the non-caption blocks, in reading order. */
  function MainUnits(blocks: seq<Block>, children: map<nat, seq<Block>>): seq<Unit> {
    if blocks == [] then []
    else
      var n := |blocks| - 1;
      var rest := MainUnits(blocks[..n], children);
      if blocks[n].kind.Caption? then rest
      else if IsStructured(blocks[n].kind) then rest + [StructuredUnit(blocks[n], ChildrenOf(blocks[n], children))]
      else rest + [TextUnit(blocks[n])]
  }

  function BoundIds(blocks: seq<Block>, children: map<nat, seq<Block>>): set<nat> {
    if blocks == [] then {}
    else
      var n := |blocks| - 1;
      var rest := BoundIds(blocks[..n], children);
      if IsStructured(blocks[n].kind) then rest + Ids(ChildrenOf(blocks[n], children)) else rest
  }

  /** Captions without a parent become plain text units after all others. */
  function LooseCaptions(blocks: seq<Block>, bound: set<nat>): seq<Unit> {
    if blocks == [] then []
    else
      var n := |blocks| - 1;
      LooseCaptions(blocks[..n], bound)
      + (if blocks[n].kind.Caption? && blocks[n].id !in bound then [TextUnit(blocks[n])] else [])
  }

  function BuildUnits(blocks: seq<Block>): seq<Unit> {
    var children := ChildrenById(blocks, Captions(blocks));
    MainUnits(blocks, children) + LooseCaptions(blocks, BoundIds(blocks, children))
  }

  method CollectCaptions(blocks: seq<Block>) returns (dict: seq<Block>)
    ensures dict == Captions(blocks)
  {
    dict := [];
    for i := 0 to |blocks|
      invariant dict == Captions(blocks[..i])
    {
      assert blocks[..i + 1][..i] == blocks[..i];
      if blocks[i].kind.Caption? { dict := PutCaption(dict, blocks[i]); }
    }
    assert blocks[..|blocks|] == blocks;
  }

  method CollectChildren(blocks: seq<Block>, dict: seq<Block>) returns (children: map<nat, seq<Block>>)
    ensures children == ChildrenById(blocks, dict)
  {
    children := map[];
    for i := 0 to |blocks|
      invariant children == ChildrenById(blocks[..i], dict)
    {
      assert blocks[..i + 1][..i] == blocks[..i];
      if IsStructured(blocks[i].kind) { children := children[blocks[i].id := Children(blocks[i], dict)]; }
    }
    assert blocks[..|blocks|] == blocks;
  }

  method CollectMain(blocks: seq<Block>, children: map<nat, seq<Block>>) returns (units: seq<Unit>, bound: set<nat>)
    ensures units == MainUnits(blocks, children) && bound == BoundIds(blocks, children)
  {
    units, bound := [], {};
    for i := 0 to |blocks|
      invariant units == MainUnits(blocks[..i], children)
      invariant bound == BoundIds(blocks[..i], children)
    {
      assert blocks[..i + 1][..i] == blocks[..i];
      if blocks[i].kind.Caption? {
      } else if IsStructured(blocks[i].kind) {
        var mine := ChildrenOf(blocks[i], children);
        bound := bound + Ids(mine);
        units := units + [StructuredUnit(blocks[i], mine)];
      } else {
        units := units + [TextUnit(blocks[i])];
      }
    }
    assert blocks[..|blocks|] == blocks;
  }

  method MakeUnits(blocks: seq<Block>) returns (units: seq<Unit>)
    ensures units == BuildUnits(blocks)
  {
    var dict := CollectCaptions(blocks);
    var children := CollectChildren(blocks, dict);
    var bound;
    units, bound := CollectMain(blocks, children);
    for i := 0 to |blocks|
      invariant units == MainUnits(blocks, children) + LooseCaptions(blocks[..i], bound)
    {
      assert blocks[..i + 1][..i] == blocks[..i];
      if blocks[i].kind.Caption? && blocks[i].id !in bound { units := units + [TextUnit(blocks[i])]; }
    }
    assert blocks[..|blocks|] == blocks;
  }

  // ------------------------------------------------------------ splitting an overlong unit

  function FragmentUnit(b: Block, s: Span): Unit
    requires s.start <= s.end <= |BlockText(b)|
  {
    var text := Slice(BlockText(b), s);
    Unit([b], text, [SourceRef(b.id, s.start, s.end)], Tokens(text), [b.kind], None, None)
  }

  function FragmentUnits(b: Block, spans: seq<Span>): seq<Unit>
    requires forall i :: 0 <= i < |spans| ==> spans[i].start <= spans[i].end <= |BlockText(b)|
  {
    seq(|spans|, i requires 0 <= i < |spans| => FragmentUnit(b, spans[i]))
  }

  function SplitBlock(b: Block, budget: nat): seq<Unit>
    requires budget >= 1
  {
    SplitTextSound(BlockText(b), budget);
    if Tokens(BlockText(b)) <= budget then [TextUnit(b)]
    else
      var spans := SplitText(BlockText(b), budget);
      assert forall i :: 0 <= i < |spans| ==> FitsOrLongSentence(BlockText(b), spans[i], budget);
      FragmentUnits(b, spans)
  }

  function SplitBlocks(blocks: seq<Block>, budget: nat): seq<Unit>
    requires budget >= 1
  {
    if blocks == [] then [] else SplitBlock(blocks[0], budget) + SplitBlocks(blocks[1..], budget)
  }

  /** What every row fragment of a table shares. */
  datatype TableFrame = TableFrame(
    header: seq<string>, lines: seq<string>, captionText: string, captionInBody: bool, fixed: nat)

  function FrameOf(unit: Unit, budget: nat): TableFrame
    requires unit.blocks != [] && |Split(OrElse(unit.blocks[0].content.markdown, ""), "\n")| >= 2
  {
    var all := Split(OrElse(unit.blocks[0].content.markdown, ""), "\n");
    var captionText := Join(GAP, Texts(unit.blocks[1..]));
    var headerTokens := Tokens(Join("\n", all[..2]));
    var fixed := headerTokens + Tokens(if captionText == "" then "" else GAP + captionText);
    TableFrame(all[..2], all[2..], captionText, fixed <= budget,
               if fixed <= budget then fixed else Min(headerTokens, budget))
  }

  function RowFragment(unit: Unit, frame: TableFrame, group: seq<string>, rows: RowRange): Unit
    requires unit.blocks != []
  {
    var table, captions := unit.blocks[0], unit.blocks[1..];
    var withCaption := frame.captionText != "" && frame.captionInBody;
    var body := Join("\n", frame.header + group) + (if withCaption then GAP + frame.captionText else "");
    Unit(unit.blocks, body,
         [WholeRef(table)] + (if withCaption then CaptionRefs(captions) else []),
         Tokens(body),
         [Table] + (if withCaption then [Caption] else []),
         if frame.captionText != "" then Some(frame.captionText) else None,
         Some(rows))
  }

  function RowFragments(unit: Unit, frame: TableFrame, groups: seq<seq<string>>, ranges: seq<RowRange>): seq<Unit>
    requires unit.blocks != [] && |groups| == |ranges|
  {
    seq(|groups|, i requires 0 <= i < |groups| => RowFragment(unit, frame, groups[i], ranges[i]))
  }

  /** A table is split by rows only when it has readable cells and a two-line header. */
  predicate SplitsByRows(unit: Unit) {
    && unit.blocks != []
    && unit.blocks[0].kind.Table?
    && RowCount(unit.blocks[0].content.cells).Some?
    && |Split(OrElse(unit.blocks[0].content.markdown, ""), "\n")| >= 2
  }

  function SplitOverlong(unit: Unit, budget: nat): seq<Unit>
    requires budget >= 1
  {
    if SplitsByRows(unit) then
      var frame := FrameOf(unit, budget);
      var nRows := RowCount(unit.blocks[0].content.cells).value;
      var groups := Groups(frame.lines, frame.fixed, budget);
      RowRangesGapFree(frame.lines, frame.fixed, budget, nRows);
      RowFragments(unit, frame, groups, Ranges(groups, nRows))
    else
      SplitBlocks(unit.blocks, budget)
  }

  // ------------------------------------------------------------ the splitting loops

  method CutBlock(b: Block, budget: nat) returns (fragments: seq<Unit>)
    requires budget >= 1
    ensures fragments == SplitBlock(b, budget)
  {
    hide Tokens, SplitText, BlockText;
    var text := BlockText(b);
    var n := CountTokens(text);
    if n <= budget {
      return [TextUnit(b)];
    }
    var spans := SplitBySentenceThenTokens(text, budget);
    SplitTextSound(text, budget);
    fragments := [];
    for k := 0 to |spans|
      invariant |fragments| == k
      invariant forall j :: 0 <= j < k ==> fragments[j] == SplitBlock(b, budget)[j]
    {
      assert FitsOrLongSentence(text, spans[k], budget);
      fragments := fragments + [FragmentUnit(b, spans[k])];
    }
  }

  method CutBlocks(blocks: seq<Block>, budget: nat) returns (fragments: seq<Unit>)
    requires budget >= 1
    ensures fragments == SplitBlocks(blocks, budget)
  {
    hide SplitBlock;
    fragments := [];
    for i := 0 to |blocks|
      invariant fragments + SplitBlocks(blocks[i..], budget) == SplitBlocks(blocks, budget)
    {
      assert blocks[i..][0] == blocks[i] && blocks[i..][1..] == blocks[i + 1..];
      var pieces := CutBlock(blocks[i], budget);
      fragments := fragments + pieces;
    }
  }

  /** The row fragments of a table with at least one body line. */
  method CutRows(unit: Unit, frame: TableFrame, groups: seq<seq<string>>, nRows: int) returns (fragments: seq<Unit>)
    requires unit.blocks != [] && groups != [] && NoneEmpty(groups)
    ensures |Ranges(groups, nRows)| == |groups|
    ensures fragments == RowFragments(unit, frame, groups, Ranges(groups, nRows))
  {
    hide RowFragment, RangeOf;
    ghost var sizes, ranges := Sizes(groups), Ranges(groups, nRows);
    RangesFromLength(groups, nRows);
    fragments := [];
    var line: nat := 0;
    for index := 0 to |groups|
      invariant |fragments| == index && (index == 0 <==> line == 0)
      invariant forall j :: 0 <= j < index ==> fragments[j] == RowFragment(unit, frame, groups[j], ranges[j])
      invariant ranges[index..] == RangesFrom(sizes[index..], line, nRows)
    {
      var last: nat := line + |groups[index]| - 1;
      assert sizes[index..][0] == |groups[index]| && sizes[index..][1..] == sizes[index + 1..];
      assert ranges[index..][1..] == ranges[index + 1..];
      var range := RangeOf(line, last, index == 0, index == |groups| - 1, nRows);
      assert range == ranges[index..][0];
      fragments := fragments + [RowFragment(unit, frame, groups[index], range)];
      line := line + |groups[index]|;
    }
  }

  method CutTable(unit: Unit, budget: nat) returns (fragments: seq<Unit>)
    requires budget >= 1 && unit.blocks != [] && unit.blocks[0].kind.Table?
    ensures fragments == SplitOverlong(unit, budget)
  {
    var count := RowCount(unit.blocks[0].content.cells);
    if count.None? || |Split(OrElse(unit.blocks[0].content.markdown, ""), "\n")| < 2 {
      fragments := CutBlocks(unit.blocks, budget);
    } else {
      var frame := FrameOf(unit, budget);
      var groups := GroupLines(frame.lines, frame.fixed, budget);
      GroupsSound(frame.lines, frame.fixed, budget);
      if frame.lines == [] {
        fragments := [RowFragment(unit, frame, groups[0], RowRange(0, count.value))];
      } else {
        fragments := CutRows(unit, frame, groups, count.value);
      }
    }
  }

  method CutOverlong(unit: Unit, budget: nat) returns (fragments: seq<Unit>)
    requires budget >= 1
    ensures fragments == SplitOverlong(unit, budget)
  {
    if unit.blocks != [] && unit.blocks[0].kind.Table? {
      fragments := CutTable(unit, budget);
    } else {
      fragments := CutBlocks(unit.blocks, budget);
    }
  }
}
