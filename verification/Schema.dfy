/** The canonical document model and the retrieval chunk
    (src/transit_scholar/layer2/schema.py, src/transit_scholar/layer2/parser/base.py).
    Generated ids are the counter values behind `blk_00001`, `sec_001` and `chunk_00001`. */
module Schema {
  import opened Prelude

  /** The ten allowed types, and any other string a parser might report. */
  datatype BlockType =
    | Paragraph | Heading | List | Table | Figure | Caption | Equation | Footnote | Reference | Other
    | Unlisted(name: string)

  predicate IsStructured(t: BlockType) { t.Table? || t.Figure? || t.Equation? }

  /** The `row` entry of one table cell: missing, not convertible to an integer, or a number. */
  datatype CellRow = Missing | Unreadable | Row(row: int)

  /** The type-specific payload, restricted to the keys the pipeline reads. */
  datatype Content = Content(markdown: Option<string>, latex: Option<string>, cells: seq<CellRow>)

  const NO_CONTENT := Content(None, None, [])

  /** A bounding box on a page. */
  datatype Box = Box(x0: real, y0: real, x1: real, y1: real)

  datatype Provenance = Provenance(page: int, box: Option<Box>, source: Option<string>, charStart: nat, charEnd: nat)

  /** One parser item; `cleaned` is its text after cleaning, `origin` its source id or item id. */
  datatype Item = Item(
    kind: BlockType,
    cleaned: string,
    order: int,
    page: int,
    box: Option<Box>,
    source: Option<string>,
    origin: string,
    level: int,
    font: Option<real>,
    content: Content)

  datatype Block = Block(
    id: nat,
    kind: BlockType,
    section: Option<nat>,
    order: nat,
    text: string,
    pages: set<int>,
    provenance: seq<Provenance>,
    sourceItems: seq<string>,
    captionIds: seq<nat>,     // relations.caption_block_ids, empty when absent
    parentId: Option<nat>,    // relations.parent_block_id
    content: Content)

  datatype Section = Section(id: nat, title: string, level: int, parent: Option<nat>, order: nat, heading: nat)

  /** A half-open character range of a block's canonical text. */
  datatype SourceRef = SourceRef(block: nat, start: nat, end: nat)

  datatype RowRange = RowRange(start: int, end: int)

  datatype Chunk = Chunk(
    id: nat,
    section: Option<nat>,
    sectionPath: seq<string>,
    pages: set<int>,
    refs: seq<SourceRef>,
    body: string,
    prefix: string,
    text: string,             // retrieval_text
    tokenCount: nat,
    types: seq<BlockType>,
    rows: Option<RowRange>,
    caption: Option<string>,
    compacted: bool,
    version: string)

  /** The chunking section of the configuration. */
  datatype ChunkConfig = ChunkConfig(target: int, softMax: int, hardMax: int, version: string)

  /** The text of a block that chunks are cut from. */
  function BlockText(b: Block): string {
    match b.kind
    case Table => OrElse(b.content.markdown, b.text)
    case Equation => OrElse(b.content.latex, b.text)
    case Figure => ""
    case _ => b.text
  }
}
