/** Parse runs on disk: parsing with fallback, reuse of stored runs, rebuilding of derived files and
    promotion to current (src/transit_scholar/layer2/pipeline.py, src/transit_scholar/layer2/paths.py).
    Every operation is the sequence of file writes it performs; a crash keeps a prefix of them. */
module Pipeline {
  import opened Prelude
  import opened Schema
  import opened Normalizer
  import Validation
  import Chunker
  import NormalizerGuarantees

  // ------------------------------------------------------------ configuration and manifests

  datatype Chunking = Chunking(shared: bool, minTokens: int, target: int, softMax: int, hardMax: int, overlap: int,
      crossSection: bool)

  datatype Config = Config(
    schemaVersion: string, normalizerVersion: string,
    rendererVersion: string, chunkerVersion: string,
    chunking: Chunking, retrieval: string, embedding: string, reranker: string,
    thresholds: Validation.Thresholds)

  datatype Adapter = Adapter(name: string, version: string, configHash: string)

  datatype RunStatus = Passed | Degraded | NeedsReview

  /** The fields of parser_manifest.json that decisions depend on; the chain stands for its hash. */
  datatype Manifest = Manifest(
    sourceSha: string, chain: Option<seq<Adapter>>, schemaVersion: string, normalizerVersion: string,
    status: RunStatus, parser: string,
    rendererVersion: string, chunkerVersion: string,
    chunking: Chunking, retrieval: string, embedding: string, reranker: string)

  datatype DerivedKey = RendererVersion | ChunkerVersion | ChunkingKey | Retrieval | EmbeddingModel | RerankerModel

  /** `_derived_differences`: the derived keys on which the manifest and the configuration differ. */
  function Differences(m: Manifest, c: Config): seq<DerivedKey> {
    (if m.rendererVersion != c.rendererVersion then [RendererVersion] else [])
    + (if m.chunkerVersion != c.chunkerVersion then [ChunkerVersion] else [])
    + (if m.chunking != c.chunking then [ChunkingKey] else [])
    + (if m.retrieval != c.retrieval then [Retrieval] else [])
    + (if m.embedding != c.embedding then [EmbeddingModel] else [])
    + (if m.reranker != c.reranker then [RerankerModel] else [])
  }

  /** Exactly the keys on which the two disagree. */
  lemma DifferencesExactly(m: Manifest, c: Config, key: DerivedKey)
    ensures key in Differences(m, c) <==>
      match key
      case RendererVersion => m.rendererVersion != c.rendererVersion
      case ChunkerVersion => m.chunkerVersion != c.chunkerVersion
      case ChunkingKey => m.chunking != c.chunking
      case Retrieval => m.retrieval != c.retrieval
      case EmbeddingModel => m.embedding != c.embedding
      case RerankerModel => m.reranker != c.reranker
  {
  }

  predicate MatchesTriggers(m: Manifest, sha: string, chain: seq<Adapter>, c: Config) {
    m.sourceSha == sha && m.chain == Some(chain) && m.schemaVersion == c.schemaVersion
      && m.normalizerVersion == c.normalizerVersion
  }

  function Refreshed(m: Manifest, c: Config): Manifest {
    m.(rendererVersion := c.rendererVersion, chunkerVersion := c.chunkerVersion, chunking := c.chunking,
       retrieval := c.retrieval, embedding := c.embedding, reranker := c.reranker)
  }

  // ------------------------------------------------------------ files

  datatype Document = Document(run: nat, pageCount: int, status: RunStatus)

  /** Rendered files are kept as terms over everything the renderer reads. */
  datatype Markdown = Markdown(blocks: seq<Block>, sections: seq<Section>)

  datatype MarkdownMap = MarkdownMap(blocks: seq<Block>, sections: seq<Section>, run: nat, rendererVersion: string)

  datatype RunDir = RunDir(
    manifest: Option<Manifest>,
    document: Option<Document>, sections: Option<seq<Section>>, blocks: Option<seq<Block>>,
    markdown: Option<Markdown>, lineMap: Option<MarkdownMap>, chunks: Option<seq<Chunk>>)

  const EMPTY_RUN := RunDir(None, None, None, None, None, None, None)

  datatype Disk = Disk(current: Option<nat>, runs: map<nat, RunDir>)

  datatype Write =
    | PutManifest(run: nat, manifest: Manifest)
    | PutDocument(run: nat, document: Document)
    | PutSections(run: nat, sections: seq<Section>)
    | PutBlocks(run: nat, blocks: seq<Block>)
    | PutMarkdown(run: nat, markdown: Markdown)
    | PutLineMap(run: nat, lineMap: MarkdownMap)
    | PutChunks(run: nat, chunks: seq<Chunk>)
    | PutCurrent(run: nat)

  function DirOf(d: Disk, run: nat): RunDir { if run in d.runs then d.runs[run] else EMPTY_RUN }

  function PutInDir(dir: RunDir, w: Write): RunDir {
    match w
    case PutManifest(_, m) => dir.(manifest := Some(m))
    case PutDocument(_, x) => dir.(document := Some(x))
    case PutSections(_, x) => dir.(sections := Some(x))
    case PutBlocks(_, x) => dir.(blocks := Some(x))
    case PutMarkdown(_, x) => dir.(markdown := Some(x))
    case PutLineMap(_, x) => dir.(lineMap := Some(x))
    case PutChunks(_, x) => dir.(chunks := Some(x))
    case PutCurrent(_) => dir
  }

  function Apply(d: Disk, w: Write): Disk {
    if w.PutCurrent? then d.(current := Some(w.run))
    else d.(runs := d.runs[w.run := PutInDir(DirOf(d, w.run), w)])
  }

  function ApplyAll(d: Disk, ws: seq<Write>): Disk {
    if ws == [] then d else Apply(ApplyAll(d, ws[..|ws| - 1]), ws[|ws| - 1])
  }

  lemma {:induction false} ApplyAllAppend(d: Disk, a: seq<Write>, b: seq<Write>)
    ensures ApplyAll(d, a + b) == ApplyAll(ApplyAll(d, a), b)
  {
    hide Apply;
    if b == [] {
      assert a + b == a;
    } else {
      assert (a + b)[..|a + b| - 1] == a + b[..|b| - 1];
      ApplyAllAppend(d, a, b[..|b| - 1]);
    }
  }

  // ------------------------------------------------------------ the parse chain

  /** One adapter's run: what it returned, and whether some quality signal of it is degraded. */
  datatype Attempt = Attempt(adapter: Adapter, result: ParserResult, degraded: bool)

  datatype Acceptance = Acceptance(status: RunStatus, parser: string, normalized: Option<Output>)

  function VerdictOf(a: Attempt, heights: map<int, real>, c: Config): Validation.Verdict {
    Validation.Validate(a.result, Some(Normalize(a.result, heights)), c.thresholds, a.degraded)
  }

  function NormalizedOf(a: Attempt, heights: map<int, real>): Option<Output> {
    if a.result.ok then Some(Normalize(a.result, heights)) else None
  }

  /** The decision when attempts before i did not end the chain. */
  function ChainFrom(attempts: seq<Attempt>, i: nat, heights: map<int, real>, c: Config): Acceptance
    requires attempts != [] && i <= |attempts|
    decreases |attempts| - i
  {
    if i == |attempts| then
      var last := attempts[|attempts| - 1];
      var status := if last.result.ok && VerdictOf(last, heights, c).Degraded? then Degraded else NeedsReview;
      Acceptance(status, last.adapter.name, NormalizedOf(last, heights))
    else
      var a := attempts[i];
      if !a.result.ok then ChainFrom(attempts, i + 1, heights, c)
      else if VerdictOf(a, heights, c).Passed? then Acceptance(Passed, a.adapter.name, NormalizedOf(a, heights))
      else if i > 0 then Acceptance(NeedsReview, a.adapter.name, NormalizedOf(a, heights))
      else ChainFrom(attempts, i + 1, heights, c)
  }

  function Accept(attempts: seq<Attempt>, heights: map<int, real>, c: Config): Acceptance
    requires attempts != []
  {
    ChainFrom(attempts, 0, heights, c)
  }

  method RunParseChain(attempts: seq<Attempt>, heights: map<int, real>, c: Config) returns (a: Acceptance)
    requires attempts != []
    ensures a == Accept(attempts, heights, c)
  {
    hide Normalize, Validation.Validate;
    for i := 0 to |attempts|
      invariant Accept(attempts, heights, c) == ChainFrom(attempts, i, heights, c)
    {
      var attempt := attempts[i];
      if attempt.result.ok {
        var out := NormalizerGuarantees.NormalizeItems(attempt.result, heights);
        var verdict := Validation.ValidateParse(attempt.result, Some(out), c.thresholds, attempt.degraded);
        if verdict.Passed? { return Acceptance(Passed, attempt.adapter.name, Some(out)); }
        if i > 0 { return Acceptance(NeedsReview, attempt.adapter.name, Some(out)); }
      }
    }
    var last := attempts[|attempts| - 1];
    if !last.result.ok { return Acceptance(NeedsReview, last.adapter.name, None); }
    var out := NormalizerGuarantees.NormalizeItems(last.result, heights);
    var verdict := Validation.ValidateParse(last.result, Some(out), c.thresholds, last.degraded);
    a := Acceptance(if verdict.Degraded? then Degraded else NeedsReview, last.adapter.name, Some(out));
  }

  /** Attempt i decides a passing chain: it passes, the primary (if another) did not, and every
      fallback in between produced nothing usable. */
  ghost predicate PassesAt(attempts: seq<Attempt>, i: nat, heights: map<int, real>, c: Config)
    requires i < |attempts|
  {
    && attempts[i].result.ok && VerdictOf(attempts[i], heights, c).Passed?
    && (forall j :: 0 < j < i ==> !attempts[j].result.ok)
    && (i > 0 ==> !(attempts[0].result.ok && VerdictOf(attempts[0], heights, c).Passed?))
  }

  lemma {:induction false} ChainFromExact(attempts: seq<Attempt>, i: nat, heights: map<int, real>, c: Config)
    requires attempts != [] && i <= |attempts|
    requires forall j :: 0 < j < i ==> !attempts[j].result.ok
    requires i > 0 ==> !(attempts[0].result.ok && VerdictOf(attempts[0], heights, c).Passed?)
    ensures var a := ChainFrom(attempts, i, heights, c);
      && (a.status.Passed? <==> exists k :: i <= k < |attempts| && PassesAt(attempts, k, heights, c))
      && (a.status.Degraded? <==>
        |attempts| == 1 && attempts[0].result.ok && VerdictOf(attempts[0], heights, c).Degraded?)
      && (!a.status.NeedsReview? ==> a.normalized.Some?)
      && (a.normalized.Some? ==> exists k ::
        0 <= k < |attempts| && a.normalized.value == Normalize(attempts[k].result, heights))
    decreases |attempts| - i
  {
    hide VerdictOf, Normalize;
    if i < |attempts| {
      var x := attempts[i];
      if !x.result.ok {
        ChainFromExact(attempts, i + 1, heights, c);
        assert !PassesAt(attempts, i, heights, c);
      } else if VerdictOf(x, heights, c).Passed? {
        assert PassesAt(attempts, i, heights, c);
      } else if i > 0 {
        forall k | i <= k < |attempts| ensures !PassesAt(attempts, k, heights, c) {}
      } else {
        ChainFromExact(attempts, 1, heights, c);
        assert !PassesAt(attempts, 0, heights, c);
      }
    }
  }

  /** Fallback semantics: exactly when a chain passes, and exactly when it is accepted as degraded. */
  lemma AcceptExact(attempts: seq<Attempt>, heights: map<int, real>, c: Config)
    requires attempts != []
    ensures var a := Accept(attempts, heights, c);
      && (a.status.Passed? <==> exists k :: 0 <= k < |attempts| && PassesAt(attempts, k, heights, c))
      && (a.status.Degraded? <==>
        |attempts| == 1 && attempts[0].result.ok && VerdictOf(attempts[0], heights, c).Degraded?)
      && (!a.status.NeedsReview? ==> a.normalized.Some?)
      && (a.normalized.Some? ==> exists k ::
        0 <= k < |attempts| && a.normalized.value == Normalize(attempts[k].result, heights))
  {
    ChainFromExact(attempts, 0, heights, c);
  }

  /** Attempt k decides the chain: the primary when it passes, otherwise the first usable fallback, or the
      last attempt when no fallback is usable. */
  ghost predicate Decides(attempts: seq<Attempt>, k: nat, heights: map<int, real>, c: Config)
    requires k < |attempts|
  {
    var primary := attempts[0].result.ok && VerdictOf(attempts[0], heights, c).Passed?;
    || (primary && k == 0)
    || (!primary && k > 0 && attempts[k].result.ok && forall j :: 0 < j < k ==> !attempts[j].result.ok)
    || (!primary && k == |attempts| - 1 && forall j :: 0 < j < |attempts| ==> !attempts[j].result.ok)
  }

  /** The deciding attempt gives the parser's name and the canonical document, and its verdict the status:
      degraded is accepted of a sole adapter only. */
  ghost predicate DecidedBy(a: Acceptance, attempts: seq<Attempt>, k: nat, heights: map<int, real>, c: Config)
    requires k < |attempts|
  {
    var x := attempts[k];
    && a.parser == x.adapter.name
    && a.normalized == (if x.result.ok then Some(Normalize(x.result, heights)) else None)
    && (a.status.Passed? <==> x.result.ok && VerdictOf(x, heights, c).Passed?)
    && (a.status.Degraded? <==> |attempts| == 1 && x.result.ok && VerdictOf(x, heights, c).Degraded?)
  }

  lemma {:induction false} ChainFromDecided(attempts: seq<Attempt>, i: nat, heights: map<int, real>, c: Config)
    returns (k: nat)
    requires attempts != [] && i <= |attempts|
    requires forall j :: 0 < j < i ==> !attempts[j].result.ok
    requires i > 0 ==> !(attempts[0].result.ok && VerdictOf(attempts[0], heights, c).Passed?)
    ensures k < |attempts| && Decides(attempts, k, heights, c)
    ensures DecidedBy(ChainFrom(attempts, i, heights, c), attempts, k, heights, c)
    decreases |attempts| - i
  {
    hide VerdictOf, Normalize;
    if i == |attempts| {
      k := |attempts| - 1;
    } else if attempts[i].result.ok && (VerdictOf(attempts[i], heights, c).Passed? || i > 0) {
      k := i;
    } else {
      k := ChainFromDecided(attempts, i + 1, heights, c);
    }
  }

  /** Main result: the attempt that decides, and what is accepted of it. */
  lemma AcceptDecided(attempts: seq<Attempt>, heights: map<int, real>, c: Config) returns (k: nat)
    requires attempts != []
    ensures k < |attempts| && Decides(attempts, k, heights, c)
    ensures DecidedBy(Accept(attempts, heights, c), attempts, k, heights, c)
  {
    k := ChainFromDecided(attempts, 0, heights, c);
  }

  // ------------------------------------------------------------ the writes of each operation

  function ChunkConfigOf(c: Config): ChunkConfig {
    ChunkConfig(c.chunking.target, c.chunking.softMax, c.chunking.hardMax, c.chunkerVersion)
  }

  ghost function DerivedWrites(run: nat, blocks: seq<Block>, sections: seq<Section>, c: Config): seq<Write>
    requires Chunker.Acyclic(Chunker.ById(sections))
  {
    [PutMarkdown(run, Markdown(blocks, sections)),
     PutLineMap(run, MarkdownMap(blocks, sections, run, c.rendererVersion)),
     PutChunks(run, Chunker.Build(blocks, sections, ChunkConfigOf(c)))]
  }

  function CanonicalWrites(run: nat, out: Output, status: RunStatus): seq<Write> {
    [PutDocument(run, Document(run, out.pageCount, status)), PutSections(run, out.sections), PutBlocks(run, out.blocks)]
  }

  /** The inputs of one call of parse_paper: the gate's answer, the file, the adapters' results and a
      fresh run id. */
  datatype Request = Request(
    ready: bool, filePresent: bool, sha: string, attempts: seq<Attempt>, heights: map<int, real>, run: nat, force: bool)

  function ChainOf(attempts: seq<Attempt>): seq<Adapter> {
    seq(|attempts|, i requires 0 <= i < |attempts| => attempts[i].adapter)
  }

  function NewManifest(q: Request, a: Acceptance, c: Config): Manifest {
    Manifest(q.sha, Some(ChainOf(q.attempts)), c.schemaVersion, c.normalizerVersion, a.status, a.parser,
             c.rendererVersion, c.chunkerVersion, c.chunking, c.retrieval, c.embedding, c.reranker)
  }

  predicate Reuses(d: Disk, q: Request, c: Config) {
    && !q.force && d.current.Some?
    && DirOf(d, d.current.value).manifest.Some?
    && MatchesTriggers(DirOf(d, d.current.value).manifest.value, q.sha, ChainOf(q.attempts), c)
  }

  /** Stored sections never form a cycle; the normalizer guarantees it and nothing else writes them. */
  ghost predicate Walkable(d: Disk) {
    forall r :: r in d.runs && d.runs[r].sections.Some? ==> Chunker.Acyclic(Chunker.ById(d.runs[r].sections.value))
  }

  predicate HasCanonical(dir: RunDir) { dir.document.Some? && dir.sections.Some? && dir.blocks.Some? }

  ghost function RebuildWrites(d: Disk, c: Config): seq<Write>
    requires Walkable(d)
  {
    if d.current.None? || !HasCanonical(DirOf(d, d.current.value)) then []
    else
      var run, dir := d.current.value, DirOf(d, d.current.value);
      DerivedWrites(run, dir.blocks.value, dir.sections.value, c)
      + (if dir.manifest.Some? then [PutManifest(run, Refreshed(dir.manifest.value, c))] else [])
  }

  ghost function FreshWrites(q: Request, c: Config): seq<Write>
    requires q.attempts != []
  {
    var a := Accept(q.attempts, q.heights, c);
    AcceptedWalkable(q.attempts, q.heights, c);
    [PutManifest(q.run, NewManifest(q, a, c))]
    + (if a.normalized.Some? then
         CanonicalWrites(q.run, a.normalized.value, a.status)
         + DerivedWrites(q.run, a.normalized.value.blocks, a.normalized.value.sections, c)
       else [])
    + (if a.status.NeedsReview? then [] else [PutCurrent(q.run)])
  }

  lemma AcceptedWalkable(attempts: seq<Attempt>, heights: map<int, real>, c: Config)
    requires attempts != []
    ensures var a := Accept(attempts, heights, c);
      a.normalized.Some? ==> Chunker.Acyclic(Chunker.ById(a.normalized.value.sections))
  {
    AcceptExact(attempts, heights, c);
    hide Accept, Normalize;
    var a := Accept(attempts, heights, c);
    if a.normalized.Some? {
      var k :| 0 <= k < |attempts| && a.normalized.value == Normalize(attempts[k].result, heights);
      NormalizerGuarantees.SectionTreeSound(attempts[k].result, heights);
    }
  }

  ghost function ParseWrites(d: Disk, q: Request, c: Config): seq<Write>
    requires Walkable(d)
  {
    if !q.ready || !q.filePresent || q.attempts == [] then []
    else if Reuses(d, q, c) then
      if Differences(DirOf(d, d.current.value).manifest.value, c) != [] then RebuildWrites(d, c) else []
    else FreshWrites(q, c)
  }

  // ------------------------------------------------------------ the operations, write by write

  /** A paper's directory; writes after the crash point have no effect. */
  class PaperStore {
    var disk: Disk
    var writesLeft: nat

    /** What a program of writes does from here, given the writes left before the crash. */
    ghost function After(ws: seq<Write>): Disk
      reads this
    {
      ApplyAll(disk, ws[..Min(|ws|, writesLeft)])
    }

    method Put(w: Write)
      modifies this
      ensures disk == if old(writesLeft) > 0 then Apply(old(disk), w) else old(disk)
      ensures disk == old(After([w]))
      ensures writesLeft == Max(0, old(writesLeft) - 1)
    {
      assert [w][..1] == [w] && [w][..0] == [];
      assert ApplyAll(disk, [w]) == Apply(ApplyAll(disk, []), w);
      if writesLeft > 0 {
        disk := Apply(disk, w);
        writesLeft := writesLeft - 1;
      }
    }

    method PutAll(ws: seq<Write>)
      modifies this
      ensures disk == old(After(ws))
      ensures writesLeft == Max(0, old(writesLeft) - |ws|)
    {
      for i := 0 to |ws|
        invariant disk == ApplyAll(old(disk), ws[..Min(i, old(writesLeft))])
        invariant writesLeft == Max(0, old(writesLeft) - i)
      {
        if i < old(writesLeft) {
          assert ws[..i + 1][..i] == ws[..i];
          assert ApplyAll(old(disk), ws[..i + 1]) == Apply(ApplyAll(old(disk), ws[..i]), ws[i]);
        }
        Put(ws[i]);
      }
    }

    method WriteDerived(run: nat, blocks: seq<Block>, sections: seq<Section>, c: Config)
      requires Chunker.Acyclic(Chunker.ById(sections))
      modifies this
      ensures disk == old(After(DerivedWrites(run, blocks, sections, c)))
      ensures writesLeft == Max(0, old(writesLeft) - 3)
    {
      hide Chunker.Acyclic, Chunker.Build, ApplyAll;
      var chunks := Chunker.BuildChunks(blocks, sections, ChunkConfigOf(c));
      PutAll([PutMarkdown(run, Markdown(blocks, sections)),
              PutLineMap(run, MarkdownMap(blocks, sections, run, c.rendererVersion)),
              PutChunks(run, chunks)]);
    }

    method RebuildDerived(c: Config) returns (ok: bool)
      requires Walkable(disk)
      modifies this
      ensures disk == old(After(RebuildWrites(disk, c)))
      ensures ok <==> old(disk).current.Some? && HasCanonical(DirOf(old(disk), old(disk).current.value))
    {
      hide ApplyAll, Chunker.Acyclic, Chunker.Build, DerivedWrites;
      ok := false;
      NoWrites(disk, writesLeft);
      if disk.current.None? { return; }
      var run := disk.current.value;
      var dir := DirOf(disk, run);
      if !HasCanonical(dir) { return; }
      ghost var start, left := disk, writesLeft;
      ghost var derived := DerivedWrites(run, dir.blocks.value, dir.sections.value, c);
      DerivedCount(run, dir.blocks.value, dir.sections.value, c);
      WriteDerived(run, dir.blocks.value, dir.sections.value, c);
      if dir.manifest.Some? {
        var w := PutManifest(run, Refreshed(dir.manifest.value, c));
        Put(w);
        UpToAppend(start, derived, [w], left);
      } else {
        assert derived + [] == derived;
      }
      ok := true;
    }

    method WriteFresh(q: Request, c: Config)
      requires q.attempts != []
      modifies this
      ensures disk == old(After(FreshWrites(q, c)))
    {
      hide ApplyAll, Chunker.Acyclic, Chunker.Build, DerivedWrites, Accept, Normalize, CanonicalWrites;
      ghost var start, left := disk, writesLeft;
      var a := RunParseChain(q.attempts, q.heights, c);
      AcceptedWalkable(q.attempts, q.heights, c);
      var head := [PutManifest(q.run, NewManifest(q, a, c))];
      PutAll(head);
      ghost var done: seq<Write> := head;
      if a.normalized.Some? {
        var out := a.normalized.value;
        PutAll(CanonicalWrites(q.run, out, a.status));
        UpToAppend(start, done, CanonicalWrites(q.run, out, a.status), left);
        done := done + CanonicalWrites(q.run, out, a.status);
        ghost var derived := DerivedWrites(q.run, out.blocks, out.sections, c);
        DerivedCount(q.run, out.blocks, out.sections, c);
        WriteDerived(q.run, out.blocks, out.sections, c);
        UpToAppend(start, done, derived, left);
        assert done + derived == head + (CanonicalWrites(q.run, out, a.status) + derived);
        done := done + derived;
      } else {
        assert done + [] == done;
      }
      if !a.status.NeedsReview? {
        Put(PutCurrent(q.run));
        UpToAppend(start, done, [PutCurrent(q.run)], left);
      } else {
        assert done + [] == done;
      }
    }

    /** parse_paper: reuse, rebuild what changed, or parse into a new run. */
    method ParsePaper(q: Request, c: Config)
      requires Walkable(disk)
      modifies this
      ensures disk == old(After(ParseWrites(disk, q, c)))
    {
      hide ApplyAll, FreshWrites, RebuildWrites, MatchesTriggers, Differences;
      NoWrites(disk, writesLeft);
      if !q.ready || !q.filePresent || q.attempts == [] { return; }
      if Reuses(disk, q, c) {
        var changed := Differences(DirOf(disk, disk.current.value).manifest.value, c);
        if changed != [] { var _ := RebuildDerived(c); }
      } else {
        WriteFresh(q, c);
      }
    }
  }

  lemma NoWrites(d: Disk, n: nat)
    ensures ApplyAll(d, [][..Min(0, n)]) == d
  {
  }

  lemma DerivedCount(run: nat, blocks: seq<Block>, sections: seq<Section>, c: Config)
    requires Chunker.Acyclic(Chunker.ById(sections))
    ensures |DerivedWrites(run, blocks, sections, c)| == 3
  {
  }

  /** Two programs run one after the other are one program, also across a crash. */
  lemma UpToAppend(d: Disk, a: seq<Write>, b: seq<Write>, left: nat)
    ensures var mid := ApplyAll(d, a[..Min(|a|, left)]);
      ApplyAll(d, (a + b)[..Min(|a + b|, left)]) == ApplyAll(mid, b[..Min(|b|, Max(0, left - |a|))])
  {
    if left <= |a| {
      assert (a + b)[..Min(|a + b|, left)] == a[..Min(|a|, left)];
      assert b[..Min(|b|, Max(0, left - |a|))] == [];
    } else {
      var k := Min(|b|, left - |a|);
      assert (a + b)[..|a| + k] == a + b[..k];
      assert a[..|a|] == a;
      ApplyAllAppend(d, a, b[..k]);
    }
  }
}
