/** The chunk builder: buckets of blocks by section, greedy packing of units, assembly
    (`ChunkBuilder.build`, `_chunk_units`, `_assemble`, `_section_path`). */
module Chunker {
  import opened Prelude
  import opened TokenCounter
  import opened Schema
  import opened Units
  import opened Trimming

  // ------------------------------------------------------------ section paths

  /** sections_by_id: a repeated id keeps the last section. */
  function ById(sections: seq<Section>): map<nat, Section> {
    if sections == [] then map[]
    else ById(sections[..|sections| - 1])[sections[|sections| - 1].id := sections[|sections| - 1]]
  }

  /** The section has a rank, and a higher one than its parent if that exists. */
  ghost predicate Falls(byId: map<nat, Section>, rank: map<nat, nat>, id: nat)
    requires id in byId
  {
    && id in rank
    && (byId[id].parent.Some? && byId[id].parent.value in byId ==>
        byId[id].parent.value in rank && rank[byId[id].parent.value] < rank[id])
  }

  /** A ranking of the section ids that falls along every parent link. */
  ghost predicate Ranked(byId: map<nat, Section>, rank: map<nat, nat>) {
    forall id :: id in byId ==> Falls(byId, rank, id)
  }

  /** No chain of parent links comes back to its start: exactly when the walk to the root ends. */
  ghost predicate Acyclic(byId: map<nat, Section>) { exists rank :: Ranked(byId, rank) }

  ghost function PathFrom(current: Option<nat>, byId: map<nat, Section>, rank: map<nat, nat>): seq<string>
    requires Ranked(byId, rank)
    decreases if current.Some? && current.value in byId then rank[current.value] + 1 else 0
  {
    if current.None? || current.value !in byId then []
    else PathFrom(byId[current.value].parent, byId, rank) + [byId[current.value].title]
  }

  ghost function Path(id: nat, byId: map<nat, Section>): seq<string>
    requires Acyclic(byId)
  {
    var rank :| Ranked(byId, rank);
    PathFrom(Some(id), byId, rank)
  }

  lemma {:induction false} PathIgnoresRank(current: Option<nat>, byId: map<nat, Section>, r1: map<nat, nat>,
      r2: map<nat, nat>)
    requires Ranked(byId, r1) && Ranked(byId, r2)
    ensures PathFrom(current, byId, r1) == PathFrom(current, byId, r2)
    decreases if current.Some? && current.value in byId then r1[current.value] + 1 else 0
  {
    if current.Some? && current.value in byId {
      PathIgnoresRank(byId[current.value].parent, byId, r1, r2);
    }
  }

  /** The walk from a section up to its root ends, and gives the titles from the root down. */
  method SectionPath(id: nat, byId: map<nat, Section>) returns (path: seq<string>)
    requires Acyclic(byId)
    ensures path == Path(id, byId)
  {
    ghost var rank :| Ranked(byId, rank);
    ghost var chosen :| Ranked(byId, chosen) && Path(id, byId) == PathFrom(Some(id), byId, chosen);
    PathIgnoresRank(Some(id), byId, rank, chosen);
    path := [];
    var current: Option<nat> := Some(id);
    while current.Some? && current.value in byId
      invariant PathFrom(current, byId, rank) + path == Path(id, byId)
      decreases if current.Some? && current.value in byId then rank[current.value] + 1 else 0
    {
      path := [byId[current.value].title] + path;
      current := byId[current.value].parent;
    }
  }

  // ------------------------------------------------------------ assembling a chunk

  /** What all chunks of one section share. */
  datatype Frame = Frame(config: ChunkConfig, section: Option<nat>, path: seq<string>, items: seq<string>,
      compacted: bool)

  function MakeFrame(config: ChunkConfig, section: Option<nat>, path: seq<string>): Frame {
    var p := EffectivePrefix(path, config.hardMax);
    Frame(config, section, path, p.0, p.1)
  }

  function BodyBudget(f: Frame): nat { Max(1, f.config.hardMax - Tokens(Join(ARROW, f.items))) }

  lemma BudgetPositive(f: Frame)
    ensures BodyBudget(f) >= 1
  {
  }

  function AllKinds(units: seq<Unit>): seq<BlockType> {
    if units == [] then [] else units[0].types + AllKinds(units[1..])
  }

  function AllBlocks(units: seq<Unit>): seq<Block> {
    if units == [] then [] else units[0].blocks + AllBlocks(units[1..])
  }

  function AllRows(units: seq<Unit>): seq<RowRange> {
    if units == [] then []
    else (if units[0].rows.Some? then [units[0].rows.value] else []) + AllRows(units[1..])
  }

  function AllCaptions(units: seq<Unit>): seq<string> {
    if units == [] then []
    else
      (if units[0].caption.Some? && units[0].caption.value != "" then [units[0].caption.value] else [])
      + AllCaptions(units[1..])
  }

  /** `list(dict.fromkeys(xs))`: first occurrences, in order. */
  function Distinct<T(==)>(xs: seq<T>): seq<T> {
    if xs == [] then []
    else
      var before := Distinct(xs[..|xs| - 1]);
      if xs[|xs| - 1] in before then before else before + [xs[|xs| - 1]]
  }

  function PagesOf(blocks: seq<Block>): set<int> {
    if blocks == [] then {} else blocks[0].pages + PagesOf(blocks[1..])
  }

  /** The chunk as it would be without the guard. */
  function Untrimmed(units: seq<Unit>, f: Frame): Trimmed {
    Trimmed(Join(GAP, Bodies(units)), AllRefs(units), Join(ARROW, f.items), f.compacted)
  }

  predicate GuardFires(units: seq<Unit>, f: Frame) {
    Tokens(WithPrefix(Untrimmed(units, f).prefix, Untrimmed(units, f).body)) > f.config.hardMax
  }

  function Content(units: seq<Unit>, f: Frame): Trimmed
    requires units != []
  {
    if GuardFires(units, f) then TrimAssembled(units, Join(ARROW, f.items), f.compacted, f.config.hardMax)
    else Untrimmed(units, f)
  }

  function ChunkOf(units: seq<Unit>, id: nat, f: Frame, t: Trimmed): Chunk {
    var rows := AllRows(units);
    var captions := AllCaptions(units);
    var text := WithPrefix(t.prefix, t.body);
    Chunk(id, f.section, f.path, PagesOf(AllBlocks(units)), t.refs, t.body, t.prefix, text, Tokens(text),
          Distinct(AllKinds(units)),
          if rows == [] then None else Some(RowRange(rows[0].start, rows[|rows| - 1].end)),
          if captions == [] then None else Some(Join(GAP, Distinct(captions))),
          t.compacted, f.config.version)
  }

  function Assemble(units: seq<Unit>, id: nat, f: Frame): Chunk
    requires units != []
  {
    ChunkOf(units, id, f, Content(units, f))
  }

  method AssembleChunk(units: seq<Unit>, id: nat, f: Frame) returns (c: Chunk)
    requires units != []
    ensures c == Assemble(units, id, f)
    ensures c.tokenCount == Tokens(c.text)
    ensures f.config.hardMax >= 2 ==> c.tokenCount <= f.config.hardMax
  {
    var t := Untrimmed(units, f);
    var n := CountTokens(WithPrefix(t.prefix, t.body));
    if n > f.config.hardMax {
      t, n := ApplyGuard(units, t.prefix, t.compacted, f.config.hardMax);
    }
    c := ChunkOf(units, id, f, t);
    AssembleFits(units, id, f);
  }

  /** Whatever is put into a chunk, the cap holds. */
  lemma AssembleFits(units: seq<Unit>, id: nat, f: Frame)
    requires units != []
    ensures var c := Assemble(units, id, f);
      c.tokenCount == Tokens(c.text) && (f.config.hardMax >= 2 ==> c.tokenCount <= f.config.hardMax)
  {
    TrimAssembledFits(units, Join(ARROW, f.items), f.compacted, f.config.hardMax);
  }

  // ------------------------------------------------------------ packing the units of a section

  /** The open buffer and the chunks emitted so far; chunk ids continue after `base`. */
  datatype Packing = Packing(chunks: seq<Chunk>, buffer: seq<Unit>, bufferTokens: nat)

  function Flush(p: Packing, base: nat, f: Frame): Packing {
    if p.buffer == [] then p
    else Packing(p.chunks + [Assemble(p.buffer, base + |p.chunks| + 1, f)], [], 0)
  }

  function EmitEach(chunks: seq<Chunk>, fragments: seq<Unit>, base: nat, f: Frame): seq<Chunk>
    decreases |fragments|
  {
    if fragments == [] then chunks
    else EmitEach(chunks + [Assemble([fragments[0]], base + |chunks| + 1, f)], fragments[1..], base, f)
  }

  /** Closes the buffer when the unit does not fit, or when the buffer is full enough already. */
  function MakeRoom(p: Packing, tokens: nat, base: nat, f: Frame): Packing {
    var q := if p.buffer != [] && p.bufferTokens + tokens > BodyBudget(f) then Flush(p, base, f) else p;
    if q.buffer != [] && q.bufferTokens + tokens > f.config.softMax && q.bufferTokens >= f.config.target
    then Flush(q, base, f) else q
  }

  function PackOne(p: Packing, u: Unit, base: nat, f: Frame): Packing {
    if u.tokens > BodyBudget(f) then
      var q := Flush(p, base, f);
      Packing(EmitEach(q.chunks, SplitOverlong(u, BodyBudget(f)), base, f), q.buffer, q.bufferTokens)
    else
      var q := MakeRoom(p, u.tokens, base, f);
      Packing(q.chunks, q.buffer + [u], q.bufferTokens + u.tokens)
  }

  function PackAll(p: Packing, units: seq<Unit>, base: nat, f: Frame): seq<Chunk>
    decreases |units|
  {
    if units == [] then Flush(p, base, f).chunks else PackAll(PackOne(p, units[0], base, f), units[1..], base, f)
  }

  function ChunkUnits(units: seq<Unit>, base: nat, f: Frame): seq<Chunk> {
    PackAll(Packing([], [], 0), units, base, f)
  }

  /** `SequentialIds`: a counter that only moves forward. */
  class SequentialIds {
    var count: nat

    constructor ()
      ensures count == 0
    {
      count := 0;
    }

    method NextId() returns (id: nat)
      modifies this
      ensures id == count == old(count) + 1
    {
      count := count + 1;
      id := count;
    }
  }

  /** The packing loop with its mutable buffer. */
  class Packer {
    var chunks: seq<Chunk>
    var buffer: seq<Unit>
    var bufferTokens: nat
    const ids: SequentialIds
    const frame: Frame
    ghost const base: nat

    ghost predicate Valid()
      reads this, ids
    {
      ids.count == base + |chunks|
    }

    ghost function State(): Packing
      reads this
    {
      Packing(chunks, buffer, bufferTokens)
    }

    constructor (ids: SequentialIds, frame: Frame)
      ensures this.ids == ids && this.frame == frame && base == ids.count
      ensures Valid() && State() == Packing([], [], 0)
    {
      this.ids, this.frame, this.base := ids, frame, ids.count;
      chunks, buffer, bufferTokens := [], [], 0;
    }

    method Emit(units: seq<Unit>)
      requires Valid() && units != []
      modifies this`chunks, ids
      ensures Valid()
      ensures chunks == old(chunks) + [Assemble(units, base + |old(chunks)| + 1, frame)]
    {
      hide Assemble;
      var id := ids.NextId();
      var c := AssembleChunk(units, id, frame);
      chunks := chunks + [c];
    }

    method CloseBuffer()
      requires Valid()
      modifies this, ids
      ensures Valid() && State() == Flush(old(State()), base, frame)
    {
      hide Assemble;
      if buffer != [] {
        Emit(buffer);
        buffer := [];
        bufferTokens := 0;
      }
    }

    method EmitFragments(u: Unit)
      requires Valid()
      modifies this`chunks, ids
      ensures Valid()
      ensures chunks == EmitEach(old(chunks), SplitOverlong(u, BodyBudget(frame)), base, frame)
    {
      var fragments := CutOverlong(u, BodyBudget(frame));
      for i := 0 to |fragments|
        invariant Valid()
        invariant EmitEach(chunks, fragments[i..], base, frame) == EmitEach(old(chunks), fragments, base, frame)
      {
        assert fragments[i..][0] == fragments[i] && fragments[i..][1..] == fragments[i + 1..];
        Emit([fragments[i]]);
      }
    }

    method Add(u: Unit)
      requires Valid()
      modifies this, ids
      ensures Valid() && State() == PackOne(old(State()), u, base, frame)
    {
      hide Assemble;
      var budget := BodyBudget(frame);
      if u.tokens > budget {
        CloseBuffer();
        EmitFragments(u);
        return;
      }
      if buffer != [] && bufferTokens + u.tokens > budget { CloseBuffer(); }
      if buffer != [] && bufferTokens + u.tokens > frame.config.softMax
        && bufferTokens >= frame.config.target { CloseBuffer(); }
      buffer := buffer + [u];
      bufferTokens := bufferTokens + u.tokens;
    }
  }

  method ChunkSection(units: seq<Unit>, ids: SequentialIds, f: Frame) returns (chunks: seq<Chunk>)
    modifies ids
    ensures chunks == ChunkUnits(units, old(ids.count), f)
    ensures ids.count == old(ids.count) + |chunks|
  {
    var packer := new Packer(ids, f);
    for i := 0 to |units|
      invariant packer.Valid() && packer.ids == ids && packer.frame == f && packer.base == old(ids.count)
      invariant fresh(packer)
      invariant PackAll(packer.State(), units[i..], packer.base, f) == ChunkUnits(units, packer.base, f)
    {
      assert units[i..][0] == units[i] && units[i..][1..] == units[i + 1..];
      packer.Add(units[i]);
    }
    packer.CloseBuffer();
    chunks := packer.chunks;
  }

  // ------------------------------------------------------------ the whole build

  /** The sections in order of first appearance. */
  function Order(blocks: seq<Block>): seq<Option<nat>> {
    if blocks == [] then []
    else
      var before, s := Order(blocks[..|blocks| - 1]), blocks[|blocks| - 1].section;
      if s in before then before else before + [s]
  }

  function Bucket(blocks: seq<Block>, s: Option<nat>): seq<Block> {
    if blocks == [] then []
    else
      Bucket(blocks[..|blocks| - 1], s) + (if blocks[|blocks| - 1].section == s then [blocks[|blocks| - 1]] else [])
  }

  ghost function PathOf(s: Option<nat>, byId: map<nat, Section>): seq<string>
    requires Acyclic(byId)
  {
    if s.Some? && s.value in byId then Path(s.value, byId) else []
  }

  ghost function SectionFrame(s: Option<nat>, byId: map<nat, Section>, config: ChunkConfig): Frame
    requires Acyclic(byId)
  {
    MakeFrame(config, s, PathOf(s, byId))
  }

  ghost function SectionChunks(s: Option<nat>, blocks: seq<Block>, byId: map<nat, Section>, config: ChunkConfig,
      base: nat): seq<Chunk>
    requires Acyclic(byId)
  {
    ChunkUnits(BuildUnits(Bucket(blocks, s)), base, SectionFrame(s, byId, config))
  }

  ghost function BuildFrom(order: seq<Option<nat>>, blocks: seq<Block>, byId: map<nat, Section>, config: ChunkConfig,
      base: nat): seq<Chunk>
    requires Acyclic(byId)
  {
    if order == [] then []
    else
      var mine := SectionChunks(order[0], blocks, byId, config, base);
      mine + BuildFrom(order[1..], blocks, byId, config, base + |mine|)
  }

  ghost function Build(blocks: seq<Block>, sections: seq<Section>, config: ChunkConfig): seq<Chunk>
    requires Acyclic(ById(sections))
  {
    BuildFrom(Order(blocks), blocks, ById(sections), config, 0)
  }

  method SplitIntoBuckets(blocks: seq<Block>) returns (order: seq<Option<nat>>, buckets: map<Option<nat>, seq<Block>>)
    ensures order == Order(blocks)
    ensures forall s :: s in buckets <==> s in order
    ensures forall s <- buckets :: buckets[s] == Bucket(blocks, s)
  {
    hide Bucket;
    order, buckets := [], map[];
    for i := 0 to |blocks|
      invariant order == Order(blocks[..i])
      invariant forall s :: s in buckets <==> s in order
      invariant forall s <- buckets :: buckets[s] == Bucket(blocks[..i], s)
      invariant forall k :: 0 <= k < i ==> blocks[k].section in buckets
    {
      assert blocks[..i + 1][..i] == blocks[..i];
      var s := blocks[i].section;
      forall t ensures Bucket(blocks[..i + 1], t) == Bucket(blocks[..i], t) + (if s == t then [blocks[i]] else []) {
        BucketStep(blocks, i, t);
      }
      if s !in buckets {
        EmptyBucket(blocks[..i], s);
        buckets := buckets[s := []];
        order := order + [s];
      }
      buckets := buckets[s := buckets[s] + [blocks[i]]];
    }
    assert blocks[..|blocks|] == blocks;
  }

  lemma BucketStep(blocks: seq<Block>, i: nat, t: Option<nat>)
    requires i < |blocks|
    ensures Bucket(blocks[..i + 1], t) == Bucket(blocks[..i], t) + (if blocks[i].section == t then [blocks[i]] else [])
  {
    assert blocks[..i + 1][..i] == blocks[..i];
  }

  lemma {:induction false} EmptyBucket(blocks: seq<Block>, s: Option<nat>)
    requires forall k :: 0 <= k < |blocks| ==> blocks[k].section != s
    ensures Bucket(blocks, s) == []
  {
    if blocks != [] { EmptyBucket(blocks[..|blocks| - 1], s); }
  }

  method IndexSections(sections: seq<Section>) returns (byId: map<nat, Section>)
    ensures byId == ById(sections)
  {
    byId := map[];
    for i := 0 to |sections|
      invariant byId == ById(sections[..i])
    {
      assert sections[..i + 1][..i] == sections[..i];
      byId := byId[sections[i].id := sections[i]];
    }
    assert sections[..|sections|] == sections;
  }

  method FindFrame(s: Option<nat>, byId: map<nat, Section>, config: ChunkConfig) returns (f: Frame)
    requires Acyclic(byId)
    ensures f == SectionFrame(s, byId, config)
  {
    var path: seq<string> := [];
    if s.Some? && s.value in byId { path := SectionPath(s.value, byId); }
    var items, compacted := ChoosePrefix(path, config.hardMax);
    f := Frame(config, s, path, items, compacted);
  }

  method BuildChunks(blocks: seq<Block>, sections: seq<Section>, config: ChunkConfig) returns (chunks: seq<Chunk>)
    requires Acyclic(ById(sections))
    ensures chunks == Build(blocks, sections, config)
  {
    hide ChunkUnits, BuildUnits, SectionFrame, Bucket, Order, ById, Acyclic, Path;
    var ids := new SequentialIds();
    var byId := IndexSections(sections);
    var order, buckets := SplitIntoBuckets(blocks);
    chunks := [];
    for i := 0 to |order|
      invariant ids.count == |chunks| && fresh(ids)
      invariant chunks + BuildFrom(order[i..], blocks, byId, config, |chunks|) == Build(blocks, sections, config)
    {
      var s := order[i];
      assert order[i..][0] == s && order[i..][1..] == order[i + 1..];
      var frame := FindFrame(s, byId, config);
      var units := MakeUnits(buckets[s]);
      var mine := ChunkSection(units, ids, frame);
      chunks := chunks + mine;
    }
  }
}
