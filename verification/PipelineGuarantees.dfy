/** What the stored runs promise: promotion is safe at every crash point, and the derived cache is
    sound in every run of complete operations. */
module PipelineGuarantees {
  import opened Prelude
  import opened Schema
  import opened Normalizer
  import opened Pipeline
  import Chunker
  import ChunkGuarantees
  import Composition
  import NormalizerGuarantees

  // ------------------------------------------------------------ what a list of writes does

  /** The writes stay inside one run directory. */
  predicate Inside(ws: seq<Write>, run: nat) { forall i :: 0 <= i < |ws| ==> ws[i].run == run && !ws[i].PutCurrent? }

  function PutAllInDir(dir: RunDir, ws: seq<Write>): RunDir {
    if ws == [] then dir else PutInDir(PutAllInDir(dir, ws[..|ws| - 1]), ws[|ws| - 1])
  }

  lemma {:induction false} InsideEffect(d: Disk, ws: seq<Write>, run: nat)
    requires Inside(ws, run)
    ensures var e := ApplyAll(d, ws);
      && e.current == d.current
      && DirOf(e, run) == PutAllInDir(DirOf(d, run), ws)
      && (ws != [] ==> e.runs == d.runs[run := PutAllInDir(DirOf(d, run), ws)])
      && (ws == [] ==> e == d)
  {
    hide PutInDir;
    if ws != [] { InsideEffect(d, ws[..|ws| - 1], run); }
  }

  lemma {:induction false} PutAllAppend(dir: RunDir, a: seq<Write>, b: seq<Write>)
    ensures PutAllInDir(dir, a + b) == PutAllInDir(PutAllInDir(dir, a), b)
  {
    hide PutInDir;
    if b == [] {
      assert a + b == a;
    } else {
      assert (a + b)[..|a + b| - 1] == a + b[..|b| - 1];
      PutAllAppend(dir, a, b[..|b| - 1]);
    }
  }

  lemma PutNone(dir: RunDir)
    ensures PutAllInDir(dir, []) == dir
  {
  }

  lemma PutOne(dir: RunDir, w: Write)
    ensures PutAllInDir(dir, [w]) == PutInDir(dir, w)
  {
    assert [w][..0] == [];
  }

  lemma PutPrefix(dir: RunDir, ws: seq<Write>, k: nat)
    requires 0 < k <= |ws|
    ensures PutAllInDir(dir, ws[..k]) == PutInDir(PutAllInDir(dir, ws[..k - 1]), ws[k - 1])
  {
    assert ws[..k][..k - 1] == ws[..k - 1];
  }

  lemma PutThree(dir: RunDir, ws: seq<Write>)
    requires |ws| == 3
    ensures PutAllInDir(dir, ws) == PutInDir(PutInDir(PutInDir(dir, ws[0]), ws[1]), ws[2])
  {
    hide PutInDir;
    assert ws[..3] == ws;
    PutPrefix(dir, ws, 3);
    PutPrefix(dir, ws, 2);
    PutPrefix(dir, ws, 1);
  }

  // ------------------------------------------------------------ promotion safety

  predicate Complete(dir: RunDir) {
    dir.manifest.Some? && HasCanonical(dir) && dir.markdown.Some? && dir.lineMap.Some? && dir.chunks.Some?
  }

  /** The canonical files of a run, once both are there, are the output of one normalization. */
  ghost predicate FromNormalizer(dir: RunDir) {
    dir.sections.Some? && dir.blocks.Some? ==>
      exists result: ParserResult, heights: map<int, real> ::
        dir.sections.value == Normalize(result, heights).sections
          && dir.blocks.value == Normalize(result, heights).blocks
  }

  /** current.json names only an accepted run whose files are all there. */
  ghost predicate Safe(d: Disk) {
    && Walkable(d)
    && (forall r :: r in d.runs ==> FromNormalizer(d.runs[r]))
    && (d.current.Some? ==>
        d.current.value in d.runs && Complete(d.runs[d.current.value])
        && !d.runs[d.current.value].manifest.value.status.NeedsReview?)
  }

  /** One directory may be changed as long as it stays walkable and normalized, and, if it is the
      current one, complete and accepted. */
  lemma SafeAfter(d: Disk, run: nat, dir: RunDir)
    requires Safe(d) && FromNormalizer(dir)
    requires dir.sections.Some? ==> Chunker.Acyclic(Chunker.ById(dir.sections.value))
    requires d.current == Some(run) ==> Complete(dir) && !dir.manifest.value.status.NeedsReview?
    ensures Safe(d.(runs := d.runs[run := dir]))
  {
    hide FromNormalizer, Chunker.Acyclic, Complete;
  }

  /** Rebuilding leaves the canonical files alone; a prefix of it keeps the run complete. */
  predicate DerivedOnly(ws: seq<Write>, run: nat, status: RunStatus) {
    Inside(ws, run) && forall i :: 0 <= i < |ws| ==>
      ws[i].PutMarkdown? || ws[i].PutLineMap? || ws[i].PutChunks?
        || (ws[i].PutManifest? && ws[i].manifest.status == status)
  }

  lemma {:induction false} DerivedOnlyEffect(dir: RunDir, ws: seq<Write>, run: nat)
    requires dir.manifest.Some? && DerivedOnly(ws, run, dir.manifest.value.status)
    ensures var e := PutAllInDir(dir, ws);
      && e.document == dir.document && e.sections == dir.sections && e.blocks == dir.blocks
      && e.manifest.Some? && e.manifest.value.status == dir.manifest.value.status
      && (Complete(dir) ==> Complete(e))
  {
    if ws != [] { DerivedOnlyEffect(dir, ws[..|ws| - 1], run); }
  }

  lemma RebuildIsDerivedOnly(d: Disk, c: Config)
    requires Walkable(d)
    ensures d.current.Some? && DirOf(d, d.current.value).manifest.Some? ==>
      DerivedOnly(RebuildWrites(d, c), d.current.value, DirOf(d, d.current.value).manifest.value.status)
    ensures d.current.None? ==> RebuildWrites(d, c) == []
  {
    hide Chunker.Build, Chunker.Acyclic;
  }

  lemma DerivedOnlyPrefix(ws: seq<Write>, k: nat, run: nat, status: RunStatus)
    requires k <= |ws| && DerivedOnly(ws, run, status)
    ensures DerivedOnly(ws[..k], run, status)
  {
  }

  lemma RebuildSafe(d: Disk, c: Config, k: nat)
    requires Safe(d) && k <= |RebuildWrites(d, c)|
    ensures Safe(ApplyAll(d, RebuildWrites(d, c)[..k]))
  {
    RebuildIsDerivedOnly(d, c);
    if d.current.Some? {
      var r := d.current.value;
      var dir := d.runs[r];
      hide RebuildWrites, Chunker.Acyclic, FromNormalizer;
      var ws := RebuildWrites(d, c)[..k];
      DerivedOnlyPrefix(RebuildWrites(d, c), k, r, dir.manifest.value.status);
      DerivedOnlyEffect(dir, ws, r);
      InsideEffect(d, ws, r);
      NormalizedUnchanged(dir, PutAllInDir(dir, ws));
      SafeAfter(d, r, PutAllInDir(dir, ws));
    }
  }

  lemma NormalizedUnchanged(a: RunDir, b: RunDir)
    requires FromNormalizer(a) && b.sections == a.sections && b.blocks == a.blocks
    ensures FromNormalizer(b)
  {
  }

  /** The directory a fresh run has when all its files are written. */
  ghost function FreshDir(run: nat, m: Manifest, out: Output, status: RunStatus, c: Config): RunDir
    requires Chunker.Acyclic(Chunker.ById(out.sections))
  {
    RunDir(Some(m), Some(Document(run, out.pageCount, status)), Some(out.sections), Some(out.blocks),
           Some(Markdown(out.blocks, out.sections)),
           Some(MarkdownMap(out.blocks, out.sections, run, c.rendererVersion)),
           Some(Chunker.Build(out.blocks, out.sections, ChunkConfigOf(c))))
  }

  ghost function FilesOf(q: Request, c: Config): seq<Write>
    requires q.attempts != []
  {
    var a := Accept(q.attempts, q.heights, c);
    AcceptedWalkable(q.attempts, q.heights, c);
    [PutManifest(q.run, NewManifest(q, a, c))]
    + (if a.normalized.Some? then
         CanonicalWrites(q.run, a.normalized.value, a.status)
         + DerivedWrites(q.run, a.normalized.value.blocks, a.normalized.value.sections, c)
       else [])
  }

  lemma FilesInside(q: Request, c: Config)
    requires q.attempts != []
    ensures Inside(FilesOf(q, c), q.run)
    ensures FreshWrites(q, c)
      == FilesOf(q, c) + (if Accept(q.attempts, q.heights, c).status.NeedsReview? then [] else [PutCurrent(q.run)])
  {
    hide Chunker.Build, Chunker.Acyclic, Accept;
  }

  lemma FilesGiveFreshDir(q: Request, c: Config)
    requires q.attempts != []
    ensures var a := Accept(q.attempts, q.heights, c);
      a.normalized.Some? ==>
        && Chunker.Acyclic(Chunker.ById(a.normalized.value.sections))
        && PutAllInDir(EMPTY_RUN, FilesOf(q, c))
          == FreshDir(q.run, NewManifest(q, a, c), a.normalized.value, a.status, c)
  {
    AcceptedWalkable(q.attempts, q.heights, c);
    hide Accept, Chunker.Build, Chunker.Acyclic, NewManifest;
    var a := Accept(q.attempts, q.heights, c);
    if a.normalized.Some? {
      var out := a.normalized.value;
      var m := PutManifest(q.run, NewManifest(q, a, c));
      var canonical, derived :=
        CanonicalWrites(q.run, out, a.status), DerivedWrites(q.run, out.blocks, out.sections, c);
      PutAllAppend(EMPTY_RUN, [m], canonical + derived);
      PutOne(EMPTY_RUN, m);
      var d1 := PutInDir(EMPTY_RUN, m);
      PutAllAppend(d1, canonical, derived);
      PutThree(d1, canonical);
      var d2 := PutAllInDir(d1, canonical);
      PutThree(d2, derived);
    }
  }

  lemma FilesValues(q: Request, c: Config)
    requires q.attempts != []
    ensures var a := Accept(q.attempts, q.heights, c);
      if a.normalized.Some? then OnlyFrom(FilesOf(q, c), a.normalized.value)
      else forall i :: 0 <= i < |FilesOf(q, c)| ==> FilesOf(q, c)[i].PutManifest?
  {
    hide Accept, Chunker.Build, Chunker.Acyclic, NewManifest;
  }

  /** At every point of writing a fresh run its directory is walkable and normalized. */
  lemma PrefixNormalized(q: Request, c: Config, k: nat)
    requires q.attempts != [] && k <= |FilesOf(q, c)|
    ensures var dir := PutAllInDir(EMPTY_RUN, FilesOf(q, c)[..k]);
      FromNormalizer(dir) && (dir.sections.Some? ==> Chunker.Acyclic(Chunker.ById(dir.sections.value)))
  {
    AcceptedWalkable(q.attempts, q.heights, c);
    AcceptExact(q.attempts, q.heights, c);
    FilesValues(q, c);
    hide Accept, Chunker.Acyclic, Normalize, FromNormalizer, FilesOf, PutAllInDir;
    var a := Accept(q.attempts, q.heights, c);
    var ws := FilesOf(q, c);
    if a.normalized.Some? {
      PrefixValues(ws, k, a.normalized.value);
      var i :| 0 <= i < |q.attempts| && a.normalized.value == Normalize(q.attempts[i].result, q.heights);
      ValuesNormalized(PutAllInDir(EMPTY_RUN, ws[..k]), q.attempts[i].result, q.heights);
    } else {
      PrefixEmpty(ws, k);
      NothingNormalized(PutAllInDir(EMPTY_RUN, ws[..k]));
    }
  }

  /** The canonical files among the writes are those of one output. */
  predicate OnlyFrom(ws: seq<Write>, out: Output) {
    forall i :: 0 <= i < |ws| ==>
      (ws[i].PutSections? ==> ws[i].sections == out.sections) && (ws[i].PutBlocks? ==> ws[i].blocks == out.blocks)
  }

  lemma {:induction false} PrefixValues(ws: seq<Write>, k: nat, out: Output)
    requires k <= |ws| && OnlyFrom(ws, out)
    ensures var dir := PutAllInDir(EMPTY_RUN, ws[..k]);
      (dir.sections.Some? ==> dir.sections.value == out.sections)
        && (dir.blocks.Some? ==> dir.blocks.value == out.blocks)
  {
    if k > 0 {
      PrefixValues(ws, k - 1, out);
      assert ws[..k][..k - 1] == ws[..k - 1];
    }
  }

  lemma {:induction false} PrefixEmpty(ws: seq<Write>, k: nat)
    requires k <= |ws| && forall i :: 0 <= i < |ws| ==> ws[i].PutManifest?
    ensures PutAllInDir(EMPTY_RUN, ws[..k]).sections.None?
  {
    if k > 0 {
      PrefixEmpty(ws, k - 1);
      assert ws[..k][..k - 1] == ws[..k - 1];
    }
  }

  lemma ValuesNormalized(dir: RunDir, result: ParserResult, heights: map<int, real>)
    requires dir.sections.Some? ==> dir.sections.value == Normalize(result, heights).sections
    requires dir.blocks.Some? ==> dir.blocks.value == Normalize(result, heights).blocks
    ensures FromNormalizer(dir)
  {
  }

  lemma NothingNormalized(dir: RunDir)
    requires dir.sections.None?
    ensures FromNormalizer(dir)
  {
  }

  lemma InsidePrefix(ws: seq<Write>, k: nat, run: nat)
    requires k <= |ws| && Inside(ws, run)
    ensures Inside(ws[..k], run)
  {
  }

  lemma FilesSafe(d: Disk, q: Request, c: Config, n: nat)
    requires Safe(d) && q.attempts != [] && q.run !in d.runs && n <= |FilesOf(q, c)|
    ensures Safe(ApplyAll(d, FilesOf(q, c)[..n]))
  {
    FilesInside(q, c);
    PrefixNormalized(q, c, n);
    hide FreshWrites, FilesOf, Accept, Chunker.Acyclic, FromNormalizer, Complete, Normalize;
    var files := FilesOf(q, c);
    InsidePrefix(files, n, q.run);
    InsideEffect(d, files[..n], q.run);
    SafeAfter(d, q.run, PutAllInDir(EMPTY_RUN, files[..n]));
  }

  lemma SafePromotion(d: Disk, run: nat)
    requires Safe(d) && run in d.runs && Complete(d.runs[run]) && !d.runs[run].manifest.value.status.NeedsReview?
    ensures Safe(d.(current := Some(run)))
  {
    hide FromNormalizer, Chunker.Acyclic, Complete;
  }

  lemma FilesRunDir(d: Disk, q: Request, c: Config)
    requires q.attempts != [] && q.run !in d.runs && Accept(q.attempts, q.heights, c).normalized.Some?
    ensures var a, e := Accept(q.attempts, q.heights, c), ApplyAll(d, FilesOf(q, c));
      && Chunker.Acyclic(Chunker.ById(a.normalized.value.sections))
      && e.current == d.current
      && e.runs == d.runs[q.run := FreshDir(q.run, NewManifest(q, a, c), a.normalized.value, a.status, c)]
      && Complete(e.runs[q.run]) && e.runs[q.run].manifest.value.status == a.status
  {
    FilesInside(q, c);
    FilesGiveFreshDir(q, c);
    FreshDirComplete(q, c);
    FilesNotEmpty(q, c);
    hide FilesOf, Accept, Chunker.Acyclic, Complete, NewManifest, FreshDir;
    InsideEffect(d, FilesOf(q, c), q.run);
  }

  lemma FilesNotEmpty(q: Request, c: Config)
    requires q.attempts != []
    ensures FilesOf(q, c) != []
  {
    hide Accept, NewManifest, CanonicalWrites, DerivedWrites;
  }

  lemma ApplySnoc(d: Disk, ws: seq<Write>, w: Write)
    ensures ApplyAll(d, ws + [w]) == Apply(ApplyAll(d, ws), w)
  {
    assert (ws + [w])[..|ws|] == ws;
  }

  lemma PromotedSafe(d: Disk, q: Request, c: Config)
    requires Safe(d) && q.attempts != [] && q.run !in d.runs
    requires !Accept(q.attempts, q.heights, c).status.NeedsReview?
    ensures Safe(ApplyAll(d, FilesOf(q, c) + [PutCurrent(q.run)]))
    ensures ApplyAll(d, FilesOf(q, c) + [PutCurrent(q.run)]) == ApplyAll(d, FilesOf(q, c)).(current := Some(q.run))
  {
    FilesSafe(d, q, c, |FilesOf(q, c)|);
    AcceptExact(q.attempts, q.heights, c);
    FilesRunDir(d, q, c);
    hide ApplyAll, FilesOf, Accept, Safe, Complete, NewManifest, FreshDir, Chunker.Acyclic;
    var files := FilesOf(q, c);
    assert files[..|files|] == files;
    ApplySnoc(d, files, PutCurrent(q.run));
    SafePromotion(ApplyAll(d, files), q.run);
  }

  lemma FreshSafe(d: Disk, q: Request, c: Config, k: nat)
    requires Safe(d) && q.attempts != [] && q.run !in d.runs && k <= |FreshWrites(q, c)|
    ensures Safe(ApplyAll(d, FreshWrites(q, c)[..k]))
  {
    FilesInside(q, c);
    hide FreshWrites, FilesOf, Accept, Safe, ApplyAll;
    var files, all := FilesOf(q, c), FreshWrites(q, c);
    if k > |files| {
      assert all[..k] == files + [PutCurrent(q.run)];
      PromotedSafe(d, q, c);
    } else {
      assert all[..k] == files[..k];
      FilesSafe(d, q, c, k);
    }
  }

  lemma FreshDirComplete(q: Request, c: Config)
    requires q.attempts != [] && Accept(q.attempts, q.heights, c).normalized.Some?
    requires Chunker.Acyclic(Chunker.ById(Accept(q.attempts, q.heights, c).normalized.value.sections))
    ensures var a := Accept(q.attempts, q.heights, c);
      var dir := FreshDir(q.run, NewManifest(q, a, c), a.normalized.value, a.status, c);
      Complete(dir) && dir.manifest.value.status == a.status
  {
  }

  /** Main result: whatever is parsed, reused or rebuilt, and wherever the process stops, current.json
      names only a run accepted as passed or degraded whose canonical and derived files all exist. */
  lemma PromotionSafe(d: Disk, q: Request, c: Config, k: nat)
    requires Safe(d) && q.run !in d.runs && k <= |ParseWrites(d, q, c)|
    ensures Safe(ApplyAll(d, ParseWrites(d, q, c)[..k]))
  {
    hide Safe, FreshWrites, RebuildWrites, MatchesTriggers, Differences;
    SafeIsWalkable(d);
    var ws := ParseWrites(d, q, c);
    if ws == [] {
      assert ws[..k] == [];
    } else if Reuses(d, q, c) {
      RebuildSafe(d, c, k);
    } else {
      FreshSafe(d, q, c, k);
    }
  }

  lemma SafeIsWalkable(d: Disk)
    requires Safe(d)
    ensures Walkable(d)
  {
  }

  // ------------------------------------------------------------ the derived cache

  function ManifestChunking(m: Manifest): ChunkConfig {
    ChunkConfig(m.chunking.target, m.chunking.softMax, m.chunking.hardMax, m.chunkerVersion)
  }

  /** The derived files of a run are those its manifest describes. */
  ghost predicate DerivedMatch(run: nat, dir: RunDir)
    requires dir.sections.Some? ==> Chunker.Acyclic(Chunker.ById(dir.sections.value))
  {
    dir.manifest.Some? && HasCanonical(dir) ==>
      var m, blocks, sections := dir.manifest.value, dir.blocks.value, dir.sections.value;
      && dir.markdown == Some(Markdown(blocks, sections))
      && dir.lineMap == Some(MarkdownMap(blocks, sections, run, m.rendererVersion))
      && dir.chunks == Some(Chunker.Build(blocks, sections, ManifestChunking(m)))
  }

  ghost predicate CurrentMatches(d: Disk)
    requires Walkable(d)
  {
    d.current.Some? && d.current.value in d.runs ==> DerivedMatch(d.current.value, d.runs[d.current.value])
  }

  ghost predicate Sound(d: Disk) { Safe(d) && CurrentMatches(d) }

  /** The current run after the first k writes of a rebuild under c. */
  ghost function Rebuilt(run: nat, dir: RunDir, c: Config, k: nat): RunDir
    requires Complete(dir) && Chunker.Acyclic(Chunker.ById(dir.sections.value))
  {
    var blocks, sections := dir.blocks.value, dir.sections.value;
    dir.(markdown := if k >= 1 then Some(Markdown(blocks, sections)) else dir.markdown,
         lineMap := if k >= 2 then Some(MarkdownMap(blocks, sections, run, c.rendererVersion)) else dir.lineMap,
         chunks := if k >= 3 then Some(Chunker.Build(blocks, sections, ChunkConfigOf(c))) else dir.chunks,
         manifest := if k >= 4 then Some(Refreshed(dir.manifest.value, c)) else dir.manifest)
  }

  lemma RebuildIsFour(d: Disk, c: Config)
    requires Safe(d) && d.current.Some?
    ensures var r, ws := d.current.value, RebuildWrites(d, c);
      && |ws| == 4 && Inside(ws, r)
      && ws[..3] == DerivedWrites(r, d.runs[r].blocks.value, d.runs[r].sections.value, c)
      && ws[3] == PutManifest(r, Refreshed(d.runs[r].manifest.value, c))
  {
    hide Chunker.Build, Chunker.Acyclic, FromNormalizer, Refreshed;
  }

  lemma {:induction false} RebuildPrefix(run: nat, dir: RunDir, c: Config, ws: seq<Write>, k: nat)
    requires Complete(dir) && Chunker.Acyclic(Chunker.ById(dir.sections.value)) && k <= |ws| == 4
    requires ws[..3] == DerivedWrites(run, dir.blocks.value, dir.sections.value, c)
    requires ws[3] == PutManifest(run, Refreshed(dir.manifest.value, c))
    ensures PutAllInDir(dir, ws[..k]) == Rebuilt(run, dir, c, k)
  {
    hide Chunker.Build, Chunker.Acyclic, Refreshed, ChunkConfigOf, PutAllInDir;
    if k == 0 {
      PutNone(dir);
      assert ws[..0] == [];
    } else {
      RebuildPrefix(run, dir, c, ws, k - 1);
      PutPrefix(dir, ws, k);
      assert k < 4 ==> ws[k - 1] == ws[..3][k - 1];
    }
  }

  lemma RebuildEffect(d: Disk, c: Config, k: nat)
    requires Safe(d) && d.current.Some? && k <= |RebuildWrites(d, c)|
    ensures |RebuildWrites(d, c)| == 4
    ensures var r := d.current.value;
      ApplyAll(d, RebuildWrites(d, c)[..k]) == d.(runs := d.runs[r := Rebuilt(r, d.runs[r], c, k)])
  {
    RebuildIsFour(d, c);
    var r := d.current.value;
    assert Complete(d.runs[r]) && Chunker.Acyclic(Chunker.ById(d.runs[r].sections.value));
    hide Safe, RebuildWrites, DerivedWrites, Rebuilt, PutAllInDir, Complete, Chunker.Acyclic;
    var ws := RebuildWrites(d, c);
    RebuildPrefix(r, d.runs[r], c, ws, k);
    InsidePrefix(ws, k, r);
    InsideEffect(d, ws[..k], r);
    if k == 0 {
      assert d.runs[r := d.runs[r]] == d.runs;
    }
  }

  lemma WholeRebuild(d: Disk, c: Config)
    requires Safe(d) && d.current.Some?
    ensures var r := d.current.value;
      ApplyAll(d, RebuildWrites(d, c)) == d.(runs := d.runs[r := Rebuilt(r, d.runs[r], c, 4)])
  {
    RebuildIsFour(d, c);
    RebuildEffect(d, c, 4);
    hide *;
    assert RebuildWrites(d, c)[..4] == RebuildWrites(d, c);
  }

  lemma RebuiltMatches(run: nat, dir: RunDir, c: Config)
    requires Complete(dir) && Chunker.Acyclic(Chunker.ById(dir.sections.value))
    ensures DerivedMatch(run, Rebuilt(run, dir, c, 4))
  {
    hide Chunker.Build, Chunker.Acyclic, Chunker.ById;
  }

  /** A complete rebuild always leaves the derived files its manifest describes. */
  lemma RebuildMatches(d: Disk, c: Config)
    requires Safe(d)
    ensures Sound(ApplyAll(d, RebuildWrites(d, c))) || d.current.None?
    ensures d.current.None? ==> ApplyAll(d, RebuildWrites(d, c)) == d
  {
    RebuildIsDerivedOnly(d, c);
    if d.current.Some? {
      RebuildSafe(d, c, |RebuildWrites(d, c)|);
      WholeRebuild(d, c);
      var r := d.current.value;
      assert Complete(d.runs[r]) && Chunker.Acyclic(Chunker.ById(d.runs[r].sections.value));
      hide Safe, RebuildWrites, DerivedMatch, Rebuilt, ApplyAll, Complete, Chunker.Acyclic;
      assert RebuildWrites(d, c)[..|RebuildWrites(d, c)|] == RebuildWrites(d, c);
      RebuiltMatches(r, d.runs[r], c);
    }
  }

  /** Main result: when the fingerprint shows no difference, the stored derived files are exactly
      what a rebuild under this configuration would write: rebuilding changes nothing. */
  lemma NoDifferenceMeansNoChange(d: Disk, c: Config)
    requires Sound(d) && d.current.Some?
    requires Differences(d.runs[d.current.value].manifest.value, c) == []
    ensures ApplyAll(d, RebuildWrites(d, c)) == d
  {
    WholeRebuild(d, c);
    hide Chunker.Build, Chunker.Acyclic, FromNormalizer, RebuildWrites, ApplyAll;
    var r := d.current.value;
    EmptyDifferences(d.runs[r].manifest.value, c);
    MatchingIsRebuilt(r, d.runs[r], c);
    assert d.runs[r := d.runs[r]] == d.runs;
  }

  lemma MatchingIsRebuilt(run: nat, dir: RunDir, c: Config)
    requires Complete(dir) && Chunker.Acyclic(Chunker.ById(dir.sections.value)) && DerivedMatch(run, dir)
    requires Differences(dir.manifest.value, c) == []
    ensures Rebuilt(run, dir, c, 4) == dir
  {
    EmptyDifferences(dir.manifest.value, c);
    hide Chunker.Build, Chunker.Acyclic, Chunker.ById, Differences;
  }

  lemma EmptyDifferences(m: Manifest, c: Config)
    ensures Differences(m, c) == [] <==>
      m.rendererVersion == c.rendererVersion && m.chunkerVersion == c.chunkerVersion && m.chunking == c.chunking
      && m.retrieval == c.retrieval && m.embedding == c.embedding && m.reranker == c.reranker
    ensures Differences(m, c) == [] ==> Refreshed(m, c) == m && ManifestChunking(m) == ChunkConfigOf(c)
  {
  }

  // ------------------------------------------------------------ runs of operations

  datatype Op = Parse(q: Request, c: Config) | Rebuild(c: Config)

  ghost function Program(d: Disk, op: Op): seq<Write>
    requires Walkable(d)
  {
    match op
    case Parse(q, c) => ParseWrites(d, q, c)
    case Rebuild(c) => RebuildWrites(d, c)
  }

  predicate FreshRun(d: Disk, op: Op) { op.Parse? ==> op.q.run !in d.runs }

  const BLANK := Disk(None, map[])

  /** The operation ran to its end, or the process stopped after `left` of its writes. */
  ghost predicate Step(before: Disk, op: Op, left: nat, after: Disk) {
    Walkable(before) && FreshRun(before, op)
      && after == ApplyAll(before, Program(before, op)[..Min(|Program(before, op)|, left)])
  }

  /** disks are the states of some run of operations from an empty directory. */
  ghost predicate IsRun(disks: seq<Disk>, ops: seq<Op>, lefts: seq<nat>) {
    && |disks| == |ops| + 1 && |lefts| == |ops| && disks[0] == BLANK
    && forall i :: 0 <= i < |ops| ==> Step(disks[i], ops[i], lefts[i], disks[i + 1])
  }

  lemma FreshDirMatches(run: nat, m: Manifest, out: Output, status: RunStatus, c: Config)
    requires Chunker.Acyclic(Chunker.ById(out.sections))
    requires m.rendererVersion == c.rendererVersion && ManifestChunking(m) == ChunkConfigOf(c)
    ensures DerivedMatch(run, FreshDir(run, m, out, status, c))
  {
    hide Chunker.Build, Chunker.Acyclic, Chunker.ById;
  }

  lemma FreshMatches(d: Disk, q: Request, c: Config)
    requires Sound(d) && q.attempts != [] && q.run !in d.runs
    ensures Sound(ApplyAll(d, FreshWrites(q, c)))
    ensures !Accept(q.attempts, q.heights, c).status.NeedsReview? ==>
      ApplyAll(d, FreshWrites(q, c)).current == Some(q.run)
    ensures Accept(q.attempts, q.heights, c).status.NeedsReview? ==> ApplyAll(d, FreshWrites(q, c)).current == d.current
  {
    FilesInside(q, c);
    hide Sound, FilesOf, Accept, ApplyAll, FreshWrites;
    if Accept(q.attempts, q.heights, c).status.NeedsReview? {
      assert FreshWrites(q, c) == FilesOf(q, c);
      RejectedMatches(d, q, c);
    } else {
      PromotedMatches(d, q, c);
    }
  }

  lemma RejectedMatches(d: Disk, q: Request, c: Config)
    requires Sound(d) && q.attempts != [] && q.run !in d.runs
    ensures Sound(ApplyAll(d, FilesOf(q, c))) && ApplyAll(d, FilesOf(q, c)).current == d.current
  {
    FilesInside(q, c);
    FilesSafe(d, q, c, |FilesOf(q, c)|);
    hide FreshWrites, FilesOf, Accept, Safe, DerivedMatch, ApplyAll, Chunker.Acyclic;
    assert FilesOf(q, c)[..|FilesOf(q, c)|] == FilesOf(q, c);
    InsideEffect(d, FilesOf(q, c), q.run);
    assert d.current == Some(q.run) ==> q.run in d.runs by { CurrentExists(d); }
  }

  lemma CurrentExists(d: Disk)
    requires Sound(d)
    ensures d.current.Some? ==> d.current.value in d.runs
  {
  }

  lemma PromotedMatches(d: Disk, q: Request, c: Config)
    requires Sound(d) && q.attempts != [] && q.run !in d.runs && !Accept(q.attempts, q.heights, c).status.NeedsReview?
    ensures var e := ApplyAll(d, FilesOf(q, c) + [PutCurrent(q.run)]);
      Sound(e) && e.current == Some(q.run)
  {
    AcceptExact(q.attempts, q.heights, c);
    PromotedSafe(d, q, c);
    FilesRunDir(d, q, c);
    var a := Accept(q.attempts, q.heights, c);
    FreshDirMatches(q.run, NewManifest(q, a, c), a.normalized.value, a.status, c);
    hide FilesOf, Accept, Safe, DerivedMatch, FreshDir, ApplyAll, Chunker.Acyclic;
  }

  lemma ProgramSafe(d: Disk, op: Op, k: nat)
    requires Safe(d) && FreshRun(d, op) && Walkable(d) && k <= |Program(d, op)|
    ensures Safe(ApplyAll(d, Program(d, op)[..k]))
  {
    hide Safe, ParseWrites, RebuildWrites;
    match op
    case Rebuild(c) => RebuildSafe(d, c, k);
    case Parse(q, c) => PromotionSafe(d, q, c, k);
  }

  /** The operation rewrites the derived files of the current run. */
  ghost predicate Rebuilds(d: Disk, op: Op)
    requires Walkable(d)
  {
    d.current.Some? && Program(d, op) == RebuildWrites(d, op.c)
    && (op.Parse? ==> op.q.ready && op.q.filePresent && op.q.attempts != [] && Reuses(d, op.q, op.c)
                      && Differences(DirOf(d, d.current.value).manifest.value, op.c) != [])
  }

  /** A rebuild stopped before its manifest after it had written something the old manifest does not
      describe: a line map of another renderer, or other chunks. A line map records the renderer it was
      written by, so it counts as another one even for a document without a rendered line. */
  ghost predicate StaleCut(d: Disk, op: Op, left: nat) {
    && Safe(d) && Walkable(d) && Rebuilds(d, op) && left < 4
    && var dir := d.runs[d.current.value];
      || (left >= 2 && dir.manifest.value.rendererVersion != op.c.rendererVersion)
      || (left >= 3 && dir.chunks.value != Chunker.Build(dir.blocks.value, dir.sections.value, ChunkConfigOf(op.c)))
  }

  lemma FreshPrefixSound(d: Disk, q: Request, c: Config, k: nat)
    requires Sound(d) && q.attempts != [] && q.run !in d.runs && k <= |FreshWrites(q, c)|
    ensures Sound(ApplyAll(d, FreshWrites(q, c)[..k]))
  {
    FilesInside(q, c);
    hide FreshWrites, FilesOf, Accept, Sound, ApplyAll;
    var files, all := FilesOf(q, c), FreshWrites(q, c);
    if k == |all| {
      assert all[..k] == all;
      FreshMatches(d, q, c);
    } else {
      assert all[..k] == files[..k];
      FilesSound(d, q, c, k);
    }
  }

  /** Writing files of a new run does not touch the current one. */
  lemma FilesSound(d: Disk, q: Request, c: Config, k: nat)
    requires Sound(d) && q.attempts != [] && q.run !in d.runs && k <= |FilesOf(q, c)|
    ensures Sound(ApplyAll(d, FilesOf(q, c)[..k]))
  {
    FilesInside(q, c);
    FilesSafe(d, q, c, k);
    CurrentExists(d);
    hide FilesOf, FreshWrites, Accept, Safe, DerivedMatch, ApplyAll, Chunker.Acyclic;
    InsidePrefix(FilesOf(q, c), k, q.run);
    InsideEffect(d, FilesOf(q, c)[..k], q.run);
  }

  lemma RebuildCutExact(d: Disk, op: Op, left: nat)
    requires Sound(d) && Rebuilds(d, op)
    ensures |RebuildWrites(d, op.c)| == 4
    ensures Sound(ApplyAll(d, RebuildWrites(d, op.c)[..Min(4, left)])) <==> !StaleCut(d, op, left)
  {
    RebuildIsFour(d, op.c);
    CrashedRebuildExact(d, op.c, Min(4, left));
    hide RebuildWrites, ApplyAll, Safe, Rebuilds, Chunker.Build;
  }

  lemma OtherStepSound(d: Disk, op: Op, left: nat)
    requires Sound(d) && FreshRun(d, op) && Walkable(d) && !Rebuilds(d, op)
    ensures Sound(ApplyAll(d, Program(d, op)[..Min(|Program(d, op)|, left)]))
  {
    hide Sound, FreshWrites, RebuildWrites, MatchesTriggers, Differences;
    var ws := Program(d, op);
    if ws == [] {
      assert ws[..Min(|ws|, left)] == [];
    } else if op.Parse? && ws == FreshWrites(op.q, op.c) && op.q.attempts != [] {
      FreshPrefixSound(d, op.q, op.c, Min(|ws|, left));
    } else {
      NoCurrentNoRebuild(d, op.c);
    }
  }

  lemma NoCurrentNoRebuild(d: Disk, c: Config)
    requires Walkable(d)
    ensures d.current.None? ==> RebuildWrites(d, c) == []
  {
  }

  /** Main result: an operation, finished or stopped anywhere, leaves the derived cache sound exactly
      when it was not a rebuild stopped in that way. A fresh parse may stop at any point. */
  lemma StepSoundExact(before: Disk, op: Op, left: nat, after: Disk)
    requires Sound(before) && Step(before, op, left, after)
    ensures Sound(after) <==> !StaleCut(before, op, left)
  {
    SoundIsSafe(before);
    hide Sound, Safe, Walkable, Program, ApplyAll, RebuildWrites;
    if Rebuilds(before, op) {
      RebuildCutExact(before, op, left);
    } else {
      OtherStepSound(before, op, left);
    }
  }

  lemma SoundIsSafe(d: Disk)
    requires Sound(d)
    ensures Safe(d)
  {
  }

  /** Main result: in every run, with crashes anywhere, current.json names only an accepted run whose
      files are all there. */
  lemma {:induction false} EveryRunSafe(disks: seq<Disk>, ops: seq<Op>, lefts: seq<nat>, i: nat)
    requires IsRun(disks, ops, lefts) && i <= |ops|
    ensures Safe(disks[i])
  {
    hide Safe, Program, Walkable;
    if i == 0 {
      BlankSound();
      SoundIsSafe(BLANK);
    } else {
      EveryRunSafe(disks, ops, lefts, i - 1);
      var d, op := disks[i - 1], ops[i - 1];
      assert Step(d, op, lefts[i - 1], disks[i - 1 + 1]);
      ProgramSafe(d, op, Min(|Program(d, op)|, lefts[i - 1]));
    }
  }

  /** Main result: in every run of parse, reuse and rebuild, stopped anywhere except inside a rebuild
      that had already written something else than the manifest says, the current run's derived files
      are the ones its manifest describes. */
  lemma {:induction false} EveryRunSound(disks: seq<Disk>, ops: seq<Op>, lefts: seq<nat>, i: nat)
    requires IsRun(disks, ops, lefts) && i <= |ops|
    requires forall j :: 0 <= j < i ==> !StaleCut(disks[j], ops[j], lefts[j])
    ensures Sound(disks[i])
  {
    hide Sound, Program, Walkable, StaleCut, Safe;
    if i == 0 {
      BlankSound();
    } else {
      EveryRunSound(disks, ops, lefts, i - 1);
      assert Step(disks[i - 1], ops[i - 1], lefts[i - 1], disks[i - 1 + 1]);
      StepSoundExact(disks[i - 1], ops[i - 1], lefts[i - 1], disks[i]);
    }
  }

  /** Exactly the runs that stay sound throughout. */
  lemma {:induction false} RunSoundExact(disks: seq<Disk>, ops: seq<Op>, lefts: seq<nat>, n: nat)
    requires IsRun(disks, ops, lefts) && n <= |ops|
    ensures (forall j :: 0 <= j <= n ==> Sound(disks[j]))
      <==> (forall j :: 0 <= j < n ==> !StaleCut(disks[j], ops[j], lefts[j]))
  {
    hide Sound, Program, Walkable, StaleCut, Safe;
    if n == 0 {
      BlankSound();
    } else {
      RunSoundExact(disks, ops, lefts, n - 1);
      assert Step(disks[n - 1], ops[n - 1], lefts[n - 1], disks[n - 1 + 1]);
      if Sound(disks[n - 1]) { StepSoundExact(disks[n - 1], ops[n - 1], lefts[n - 1], disks[n]); }
    }
  }

  lemma BlankSound()
    ensures Sound(BLANK)
  {
  }

  /** What a reusing parse serves: after it, the current run's derived files are those of the
      caller's configuration, not of an earlier one. */
  lemma ReuseServesConfig(d: Disk, q: Request, c: Config)
    requires Sound(d) && q.ready && q.filePresent && q.attempts != [] && Reuses(d, q, c)
    ensures var e := ApplyAll(d, ParseWrites(d, q, c));
      && Sound(e) && e.current == d.current
      && Differences(e.runs[e.current.value].manifest.value, c) == []
  {
    SafeIsWalkable(d);
    var r := d.current.value;
    var m := d.runs[r].manifest.value;
    hide FreshWrites, MatchesTriggers, Chunker.Build, Chunker.Acyclic, FromNormalizer;
    if Differences(m, c) != [] {
      RebuildMatches(d, c);
      WholeRebuild(d, c);
      hide Differences, RebuildWrites, ApplyAll;
      RefreshedAgrees(m, c);
    }
  }

  lemma RefreshedAgrees(m: Manifest, c: Config)
    ensures Differences(Refreshed(m, c), c) == []
  {
  }

  /** End to end, for every disk a sound run reaches: every chunk stored for the current run is sound for the stored
      document, and with a cap of at least two tokens it respects the cap in the manifest. */
  lemma StoredChunksSound(d: Disk)
    requires Sound(d) && d.current.Some?
    ensures var dir := d.runs[d.current.value];
      var config := ManifestChunking(dir.manifest.value);
      && Chunker.Acyclic(Chunker.ById(dir.sections.value))
      && ChunkGuarantees.AllSound(dir.chunks.value, 0, dir.blocks.value, Chunker.ById(dir.sections.value), config)
      && (config.hardMax >= 2 ==> ChunkGuarantees.AllCapped(dir.chunks.value, config.hardMax))
  {
    hide Chunker.Acyclic, Chunker.Build, Chunker.ById, ChunkGuarantees.AllSound, ChunkGuarantees.AllCapped, Normalize;
    var dir := d.runs[d.current.value];
    var config := ManifestChunking(dir.manifest.value);
    var result: ParserResult, heights: map<int, real> :|
      dir.sections.value == Normalize(result, heights).sections
        && dir.blocks.value == Normalize(result, heights).blocks;
    Composition.NormalizedChunksSound(result, heights, config);
    if config.hardMax >= 2 {
      ChunkGuarantees.BuildCapped(dir.blocks.value, dir.sections.value, config);
    }
  }

  // ------------------------------------------------------------ a crash inside a rebuild

  lemma PartialMatches(run: nat, dir: RunDir, c: Config, k: nat)
    requires Complete(dir) && Chunker.Acyclic(Chunker.ById(dir.sections.value)) && DerivedMatch(run, dir) && k <= 4
    ensures DerivedMatch(run, Rebuilt(run, dir, c, k)) <==>
      || k == 4
      || ((k >= 2 ==> dir.manifest.value.rendererVersion == c.rendererVersion)
          && (k >= 3 ==> dir.chunks.value == Chunker.Build(dir.blocks.value, dir.sections.value, ChunkConfigOf(c))))
  {
    hide Chunker.Build, Chunker.Acyclic, Chunker.ById;
  }

  /** Exactly when a rebuild cut off after k writes leaves the cache sound: when it was complete, or
      when what it had written already equals what the old manifest describes. */
  lemma CrashedRebuildExact(d: Disk, c: Config, k: nat)
    requires Sound(d) && d.current.Some? && k <= |RebuildWrites(d, c)|
    ensures |RebuildWrites(d, c)| == 4
    ensures Safe(ApplyAll(d, RebuildWrites(d, c)[..k]))
    ensures var dir := d.runs[d.current.value];
      CurrentMatches(ApplyAll(d, RebuildWrites(d, c)[..k])) <==>
        || k == 4
        || ((k >= 2 ==> dir.manifest.value.rendererVersion == c.rendererVersion)
            && (k >= 3 ==> dir.chunks.value == Chunker.Build(dir.blocks.value, dir.sections.value, ChunkConfigOf(c))))
  {
    RebuildSafe(d, c, k);
    RebuildEffect(d, c, k);
    var r := d.current.value;
    assert Complete(d.runs[r]) && Chunker.Acyclic(Chunker.ById(d.runs[r].sections.value));
    hide Safe, RebuildWrites, DerivedMatch, Rebuilt, ApplyAll, Complete, Chunker.Acyclic, Chunker.Build;
    PartialMatches(r, d.runs[r], c, k);
  }

  /** The cache can be stale after such a crash: going back to the old chunker version, a parse finds
      no difference and serves the chunks of the other version. */
  lemma RevertServesStale(d: Disk, c: Config, q: Request, older: Config)
    requires Sound(d) && d.current.Some? && d.runs[d.current.value].chunks.value != []
    requires d.runs[d.current.value].manifest.value.chunkerVersion != c.chunkerVersion
    requires Differences(d.runs[d.current.value].manifest.value, older) == []
    requires q.ready && q.filePresent && q.attempts != [] && Reuses(d, q, older)
    ensures |RebuildWrites(d, c)| == 4
    ensures var e := ApplyAll(d, RebuildWrites(d, c)[..3]);
      && Safe(e)
      && ParseWrites(e, q, older) == []
      && (var dir := e.runs[e.current.value];
          dir.chunks != Some(Chunker.Build(dir.blocks.value, dir.sections.value, ChunkConfigOf(older))))
  {
    RebuildIsFour(d, c);
    RebuildSafe(d, c, 3);
    RebuildEffect(d, c, 3);
    SafeIsWalkable(d);
    var r := d.current.value;
    var dir := d.runs[r];
    assert Complete(dir) && FromNormalizer(dir) && DerivedMatch(r, dir);
    hide RebuildWrites, FreshWrites, ApplyAll, Chunker.Build, Chunker.Acyclic, FromNormalizer, MatchesTriggers,
      Differences, Walkable;
    EmptyDifferences(dir.manifest.value, older);
    VersionsStamp(dir, c, older);
    var e := ApplyAll(d, RebuildWrites(d, c)[..3]);
    SafeIsWalkable(e);
    assert e.runs[r] == Rebuilt(r, dir, c, 3);
  }

  lemma VersionsStamp(dir: RunDir, c: Config, older: Config)
    requires Complete(dir) && FromNormalizer(dir) && Chunker.Acyclic(Chunker.ById(dir.sections.value))
    requires dir.chunks.value
      == Chunker.Build(dir.blocks.value, dir.sections.value, ManifestChunking(dir.manifest.value))
    requires dir.chunks.value != [] && Differences(dir.manifest.value, older) == []
      && older.chunkerVersion != c.chunkerVersion
    ensures Chunker.Build(dir.blocks.value, dir.sections.value, ChunkConfigOf(c))
         != Chunker.Build(dir.blocks.value, dir.sections.value, ChunkConfigOf(older))
  {
    hide Chunker.Acyclic, Chunker.Build, Chunker.ById, Normalize;
    var blocks, sections := dir.blocks.value, dir.sections.value;
    var result: ParserResult, heights: map<int, real> :|
      sections == Normalize(result, heights).sections && blocks == Normalize(result, heights).blocks;
    EmptyDifferences(dir.manifest.value, older);
    Composition.NormalizedChunksSound(result, heights, ChunkConfigOf(c));
    Composition.NormalizedChunksSound(result, heights, ChunkConfigOf(older));
    var news, olds :=
      Chunker.Build(blocks, sections, ChunkConfigOf(c)), Chunker.Build(blocks, sections, ChunkConfigOf(older));
    assert olds != [];
    if news == olds {
      FirstVersion(news, blocks, sections, ChunkConfigOf(c));
      FirstVersion(olds, blocks, sections, ChunkConfigOf(older));
    }
  }

  lemma FirstVersion(chunks: seq<Chunk>, blocks: seq<Block>, sections: seq<Section>, config: ChunkConfig)
    requires chunks != [] && Chunker.Acyclic(Chunker.ById(sections))
    requires ChunkGuarantees.AllSound(chunks, 0, blocks, Chunker.ById(sections), config)
    ensures chunks[0].version == config.version
  {
    assert ChunkGuarantees.Sound(chunks[0], blocks, Chunker.ById(sections), config);
  }

  /** A later complete parse or rebuild under the same configuration heals every such crash. */
  lemma CrashHeals(d: Disk, c: Config, k: nat, q: Request)
    requires Sound(d) && d.current.Some? && k <= |RebuildWrites(d, c)|
    requires q.ready && q.filePresent && q.attempts != []
    ensures var e := ApplyAll(d, RebuildWrites(d, c)[..k]);
      && Safe(e)
      && Sound(ApplyAll(e, RebuildWrites(e, c)))
      && (Reuses(e, q, c) ==> Sound(ApplyAll(e, ParseWrites(e, q, c))))
  {
    RebuildEffect(d, c, k);
    RebuildSafe(d, c, k);
    var e := ApplyAll(d, RebuildWrites(d, c)[..k]);
    SafeIsWalkable(e);
    RebuildMatches(e, c);
    hide RebuildWrites, FreshWrites, ApplyAll, Chunker.Build, Chunker.Acyclic, FromNormalizer, MatchesTriggers,
      Differences, Walkable, DerivedMatch;
    var r := d.current.value;
    if Reuses(e, q, c) && Differences(e.runs[r].manifest.value, c) == [] {
      UnchangedManifestSound(d, r, c, k);
      NoWrites(e, 0);
    }
  }

  /** If the manifest already agrees with c, every partial rebuild under c still matches it. */
  lemma UnchangedManifestSound(d: Disk, r: nat, c: Config, k: nat)
    requires Safe(d) && r in d.runs && Complete(d.runs[r]) && k <= 4
    requires Chunker.Acyclic(Chunker.ById(d.runs[r].sections.value)) && DerivedMatch(r, d.runs[r])
    requires Differences(Rebuilt(r, d.runs[r], c, k).manifest.value, c) == []
    ensures DerivedMatch(r, Rebuilt(r, d.runs[r], c, k))
  {
    var dir := d.runs[r];
    hide Chunker.Build, Chunker.Acyclic, Chunker.ById, Differences, Safe;
    PartialMatches(r, dir, c, k);
    if k < 4 {
      EmptyDifferences(dir.manifest.value, c);
    }
  }
}
