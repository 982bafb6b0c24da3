/** A run of the pipeline that ends with stale derived files: one paragraph is parsed, a rebuild under
    a newer chunker stops before the manifest, and the older configuration comes back. */
module StaleCache {
  import opened Prelude
  import opened Schema
  import opened Normalizer
  import opened Pipeline
  import opened PipelineGuarantees
  import Units
  import Validation
  import Chunker
  import ChunkCoverage
  import ChunkGuarantees
  import SmallDocuments

  // ------------------------------------------------------------ one paragraph

  const PARAGRAPH := Item(Paragraph, "a", 1, 1, None, None, "item-1", 0, None, NO_CONTENT)

  const BLOCK := Block(1, Paragraph, None, 1, "a", {1}, [Provenance(1, None, None, 0, 1)], ["item-1"], [], None,
    NO_CONTENT)

  const PARSED := SmallDocuments.Parsed(PARAGRAPH)

  lemma OneBlock(heights: map<int, real>)
    ensures Normalize(PARSED, heights) == Output(1, [], [BLOCK])
  {
    SmallDocuments.OneBlock(PARAGRAPH, heights);
  }

  /** One unit always becomes at least one chunk. */
  lemma OneChunk(u: Units.Unit, f: Chunker.Frame)
    requires u.blocks == [BLOCK]
    ensures Chunker.ChunkUnits([u], 0, f) != []
  {
    hide Chunker.Assemble, Chunker.BodyBudget;
    Chunker.BudgetPositive(f);
    var p := Chunker.Packing([], [], 0);
    assert [u][1..] == [];
    var q := Chunker.PackOne(p, u, 0, f);
    assert Chunker.PackAll(p, [u], 0, f) == Chunker.PackAll(q, [u][1..], 0, f) == Chunker.Flush(q, 0, f).chunks;
    if u.tokens > Chunker.BodyBudget(f) {
      var fragments := Units.SplitOverlong(u, Chunker.BodyBudget(f));
      SomeFragment(u, Chunker.BodyBudget(f));
      ChunkCoverage.EmitEachRows([], fragments, 0, f);
    }
  }

  lemma SomeFragment(u: Units.Unit, budget: nat)
    requires u.blocks == [BLOCK] && budget >= 1
    ensures Units.SplitOverlong(u, budget) != []
  {
    ChunkGuarantees.OneWord();
    assert Units.SplitBlock(BLOCK, budget) == [Units.TextUnit(BLOCK)];
  }

  lemma SomeChunk(config: ChunkConfig)
    ensures Chunker.Acyclic(Chunker.ById([])) && Chunker.Build([BLOCK], [], config) != []
  {
    hide Chunker.Acyclic, Chunker.ChunkUnits, Chunker.Build;
    SmallDocuments.OneBuild(BLOCK, config);
    OneChunk(Units.TextUnit(BLOCK), SmallDocuments.BareFrame(config));
  }

  // ------------------------------------------------------------ the run

  const OLDER := Config("1", "1", "1", "chunker-1", Chunking(true, 0, 100, 200, 300, 0, false), "", "", "",
                        Validation.Thresholds(0.0, 0))

  const NEWER := OLDER.(chunkerVersion := "chunker-2")

  const ADAPTER := Adapter("parser", "1", "config")

  function Asked(run: nat): Request { Request(true, true, "sha", [Attempt(ADAPTER, PARSED, false)], map[], run, false) }

  lemma Accepted(run: nat)
    ensures Accept(Asked(run).attempts, Asked(run).heights, OLDER)
      == Acceptance(Passed, "parser", Some(Output(1, [], [BLOCK])))
  {
    hide Normalize, Validation.Check, Validation.MeaningfulPages;
    OneBlock(map[]);
    Validation.NormalizedPassesHardChecks(PARSED, map[], OLDER.thresholds, false);
    assert !Validation.Sourceless([BLOCK]) by { assert BLOCK in [BLOCK]; }
    assert Validation.BodyPresent([BLOCK], 1, OLDER.thresholds);
    assert Validation.WellTyped(PARSED) && Validation.PagesInRange(PARSED);
  }

  /** The disk after the first parse has finished. */
  ghost function Parsed(): Disk { ApplyAll(BLANK, FreshWrites(Asked(1), OLDER)) }

  lemma ParsedSound()
    ensures var d, q := Parsed(), Asked(1);
      && Sound(d) && d.current == Some(1) && 1 in d.runs
      && Chunker.Acyclic(Chunker.ById([]))
      && d.runs[1] == FreshDir(1, NewManifest(q, Accept(q.attempts, q.heights, OLDER), OLDER), Output(1, [], [BLOCK]),
        Passed, OLDER)
  {
    var q := Asked(1);
    Accepted(1);
    BlankSound();
    FreshMatches(BLANK, q, OLDER);
    FilesInside(q, OLDER);
    FilesRunDir(BLANK, q, OLDER);
    hide Accept, FreshWrites, FilesOf, ApplyAll, Sound, Safe, FreshDir, Chunker.Acyclic;
    ApplySnoc(BLANK, FilesOf(q, OLDER), PutCurrent(1));
  }

  lemma FirstStep()
    ensures Walkable(BLANK) && Program(BLANK, Parse(Asked(1), OLDER)) == FreshWrites(Asked(1), OLDER)
    ensures Step(BLANK, Parse(Asked(1), OLDER), |FreshWrites(Asked(1), OLDER)|, Parsed())
  {
    hide FreshWrites, Accept;
    var ws := FreshWrites(Asked(1), OLDER);
    assert ws[..|ws|] == ws;
  }

  /** The parsed run can be reused, and its chunks are those of the older configuration. */
  lemma ParsedReusable()
    ensures var d := Parsed();
      && d.current == Some(1) && 1 in d.runs && d.runs[1].manifest.Some? && d.runs[1].chunks.Some?
      && Reuses(d, Asked(2), OLDER) && Differences(d.runs[1].manifest.value, OLDER) == []
      && d.runs[1].chunks.value != [] && d.runs[1].manifest.value.chunkerVersion == "chunker-1"
  {
    ParsedSound();
    SomeChunk(ChunkConfigOf(OLDER));
    hide Parsed, Sound, Accept, Chunker.Build, Chunker.Acyclic;
    assert ChainOf(Asked(1).attempts) == ChainOf(Asked(2).attempts);
  }

  /** A disk on which a parse under the older configuration would find nothing to do, although the
      chunks of the current run are not the ones of that configuration. */
  ghost predicate Stale(d: Disk) {
    && Safe(d) && Walkable(d) && d.current.Some?
    && ParseWrites(d, Asked(2), OLDER) == []
    && Chunker.Acyclic(Chunker.ById(d.runs[d.current.value].sections.value))
    && d.runs[d.current.value].chunks
       != Some(Chunker.Build(d.runs[d.current.value].blocks.value, d.runs[d.current.value].sections.value,
         ChunkConfigOf(OLDER)))
  }

  lemma SecondStep() returns (e: Disk)
    ensures Step(Parsed(), Rebuild(NEWER), 3, e) && Stale(e)
  {
    ParsedSound();
    ParsedReusable();
    var d := Parsed();
    SoundIsSafe(d);
    SafeIsWalkable(d);
    assert OLDER.chunkerVersion != NEWER.chunkerVersion;
    hide *;
    CutIsStale(d);
    RebuildKeepsCurrent(d);
    e := ApplyAll(d, RebuildWrites(d, NEWER)[..3]);
    CutIsStep(d);
  }

  lemma CutIsStale(d: Disk)
    requires Sound(d) && Safe(d) && Walkable(d) && d.current == Some(1) && 1 in d.runs
    requires d.runs[1].manifest.Some? && d.runs[1].chunks.Some? && d.runs[1].chunks.value != []
    requires d.runs[1].manifest.value.chunkerVersion == "chunker-1"
    requires Reuses(d, Asked(2), OLDER) && Differences(d.runs[1].manifest.value, OLDER) == []
    ensures |RebuildWrites(d, NEWER)| == 4 && Stale(ApplyAll(d, RebuildWrites(d, NEWER)[..3]))
  {
    hide Sound, Safe, Walkable, FreshWrites, ParseWrites, RebuildWrites, ApplyAll, Chunker.Build, Reuses, Differences,
      Chunker.Acyclic;
    RevertServesStale(d, NEWER, Asked(2), OLDER);
    RebuildKeepsCurrent(d);
    var e := ApplyAll(d, RebuildWrites(d, NEWER)[..3]);
    SafeIsWalkable(e);
    CompleteCurrent(e);
  }

  lemma CutIsStep(d: Disk)
    requires Walkable(d) && |RebuildWrites(d, NEWER)| == 4
    ensures Step(d, Rebuild(NEWER), 3, ApplyAll(d, RebuildWrites(d, NEWER)[..3]))
  {
    hide RebuildWrites, ApplyAll, Walkable;
  }

  lemma RebuildKeepsCurrent(d: Disk)
    requires Safe(d) && d.current == Some(1)
    ensures |RebuildWrites(d, NEWER)| == 4 && ApplyAll(d, RebuildWrites(d, NEWER)[..3]).current == Some(1)
  {
    RebuildIsFour(d, NEWER);
    RebuildEffect(d, NEWER, 3);
  }

  /** Main result: an actual run of two operations, a finished parse and a rebuild stopped after three
      of its four writes, that ends with a stale disk. */
  lemma StaleRun() returns (disks: seq<Disk>, ops: seq<Op>, lefts: seq<nat>)
    ensures IsRun(disks, ops, lefts) && |ops| == 2 && Stale(disks[2])
  {
    FirstStep();
    var e := SecondStep();
    hide Step, Stale, Parsed, FreshWrites;
    disks, ops := [BLANK, Parsed(), e], [Parse(Asked(1), OLDER), Rebuild(NEWER)];
    lefts := [|FreshWrites(Asked(1), OLDER)|, 3];
  }

  lemma CompleteCurrent(d: Disk)
    requires Safe(d)
    ensures d.current.Some? ==>
      Complete(d.runs[d.current.value]) && Chunker.Acyclic(Chunker.ById(d.runs[d.current.value].sections.value))
  {
  }
}
