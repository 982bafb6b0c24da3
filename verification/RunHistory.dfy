/** Which request the current run answers, over all histories: its canonical files are those of the
    request that created it, and a later request of the same file reuses it exactly when nothing it was
    parsed with has changed (src/transit_scholar/layer2/pipeline.py:61-178). */
module RunHistory {
  import opened Prelude
  import opened Schema
  import opened Normalizer
  import opened Pipeline
  import opened PipelineGuarantees
  import Chunker

  /** The run directory appeared during step j. */
  predicate CreatedAt(disks: seq<Disk>, j: nat, run: nat)
    requires j + 1 < |disks|
  {
    run !in disks[j].runs && run in disks[j + 1].runs
  }

  /** The canonical files are those the deciding attempt of q gives under c, and the manifest names the
      source file, the adapters and the versions they were parsed with. */
  ghost predicate Answers(dir: RunDir, q: Request, c: Config) {
    q.attempts != []
    && var a := Accept(q.attempts, q.heights, c);
       && !a.status.NeedsReview? && a.normalized.Some?
       && dir.document == Some(Document(q.run, a.normalized.value.pageCount, a.status))
       && dir.sections == Some(a.normalized.value.sections) && dir.blocks == Some(a.normalized.value.blocks)
       && dir.manifest.Some?
       && var m := dir.manifest.value;
          && m.sourceSha == q.sha && m.status == a.status && m.parser == a.parser
          && m.chain.Some? && |m.chain.value| == |q.attempts|
          && (forall i :: 0 <= i < |q.attempts| ==> m.chain.value[i] == q.attempts[i].adapter)
          && m.schemaVersion == c.schemaVersion && m.normalizerVersion == c.normalizerVersion
  }

  lemma FreshAnswers(q: Request, c: Config, out: Output)
    requires q.attempts != [] && Accept(q.attempts, q.heights, c).normalized == Some(out)
    requires !Accept(q.attempts, q.heights, c).status.NeedsReview? && Chunker.Acyclic(Chunker.ById(out.sections))
    ensures var a := Accept(q.attempts, q.heights, c);
      Answers(FreshDir(q.run, NewManifest(q, a, c), out, a.status, c), q, c)
  {
    hide Accept, Chunker.Build, Chunker.Acyclic;
  }

  lemma RebuiltAnswers(run: nat, dir: RunDir, d: Config, k: nat, q: Request, c: Config)
    requires Complete(dir) && Chunker.Acyclic(Chunker.ById(dir.sections.value)) && Answers(dir, q, c)
    ensures Answers(Rebuilt(run, dir, d, k), q, c)
  {
    hide Accept, Chunker.Build, Chunker.Acyclic;
  }

  // ------------------------------------------------------------ one step

  /** The step keeps the current run and what it answers, or promotes the run of its own request. */
  lemma RebuildStep(d: Disk, c: Config, left: nat)
    requires Safe(d) && Walkable(d)
    ensures var ws := RebuildWrites(d, c); var e := ApplyAll(d, ws[..Min(|ws|, left)]);
      && e.current == d.current && e.runs.Keys == d.runs.Keys
      && forall q: Request, b: Config :: d.current.Some? && Answers(d.runs[d.current.value], q, b) ==>
        Answers(e.runs[d.current.value], q, b)
  {
    var ws := RebuildWrites(d, c);
    if d.current.None? {
      assert ws == [] && ws[..Min(|ws|, left)] == [];
    } else {
      var r, k := d.current.value, Min(|ws|, left);
      RebuildEffect(d, c, k);
      assert Complete(d.runs[r]) && Chunker.Acyclic(Chunker.ById(d.runs[r].sections.value));
      hide Safe, Walkable, RebuildWrites, ApplyAll, Complete, Rebuilt, Answers, Chunker.Acyclic;
      forall q: Request, b: Config | Answers(d.runs[r], q, b) ensures Answers(Rebuilt(r, d.runs[r], c, k), q, b) {
        RebuiltAnswers(r, d.runs[r], c, k, q, b);
      }
    }
  }

  lemma FreshStep(d: Disk, q: Request, c: Config, left: nat)
    requires Safe(d) && q.attempts != [] && q.run !in d.runs
    ensures var ws := FreshWrites(q, c); var e := ApplyAll(d, ws[..Min(|ws|, left)]);
      && ws != [] && e.runs.Keys == d.runs.Keys + (if left > 0 then {q.run} else {})
      && (forall r :: r in d.runs ==> r in e.runs && e.runs[r] == d.runs[r])
      && (e.current == d.current || (e.current == Some(q.run) && q.run in e.runs && Answers(e.runs[q.run], q, c)))
  {
    FilesInside(q, c);
    SomeFile(q, c);
    hide Safe, Accept, ApplyAll, Answers, Normalize, FreshWrites, FilesOf;
    var all, files := FreshWrites(q, c), FilesOf(q, c);
    var k := Min(|all|, left);
    if k <= |files| {
      assert all[..k] == files[..k];
      FilesStep(d, files[..k], q.run);
    } else {
      assert all[..k] == all == files + [PutCurrent(q.run)];
      PromotedStep(d, q, c);
    }
  }

  lemma FilesStep(d: Disk, ws: seq<Write>, run: nat)
    requires Inside(ws, run) && run !in d.runs
    ensures var e := ApplyAll(d, ws);
      && e.current == d.current && e.runs.Keys == d.runs.Keys + (if ws != [] then {run} else {})
      && (forall r :: r in d.runs ==> r in e.runs && e.runs[r] == d.runs[r])
  {
    hide ApplyAll, PutAllInDir;
    InsideEffect(d, ws, run);
  }

  lemma Accepted(q: Request, c: Config)
    requires q.attempts != []
    ensures var a := Accept(q.attempts, q.heights, c); !a.status.NeedsReview? ==> a.normalized.Some?
  {
    AcceptExact(q.attempts, q.heights, c);
  }

  lemma PromotedStep(d: Disk, q: Request, c: Config)
    requires q.attempts != [] && q.run !in d.runs && !Accept(q.attempts, q.heights, c).status.NeedsReview?
    ensures var e := ApplyAll(d, FilesOf(q, c) + [PutCurrent(q.run)]);
      && e.current == Some(q.run) && e.runs.Keys == d.runs.Keys + {q.run}
      && (forall r :: r in d.runs ==> r in e.runs && e.runs[r] == d.runs[r])
      && Answers(e.runs[q.run], q, c)
  {
    hide Accept, ApplyAll, Answers, Normalize, FilesOf, FreshDir, Complete, NewManifest, Chunker.Acyclic;
    Accepted(q, c);
    var a := Accept(q.attempts, q.heights, c);
    ApplySnoc(d, FilesOf(q, c), PutCurrent(q.run));
    FilesRunDir(d, q, c);
    FreshAnswers(q, c, a.normalized.value);
  }

  lemma SomeFile(q: Request, c: Config)
    requires q.attempts != []
    ensures FilesOf(q, c) != []
  {
    hide Accept, Chunker.Build, Chunker.Acyclic;
  }

  /** What any step does to the current run. */
  lemma StepOrigin(before: Disk, op: Op, left: nat, after: Disk)
    requires Safe(before) && Step(before, op, left, after)
    ensures before.runs.Keys <= after.runs.Keys
    ensures after.current == before.current || (after.current.Some? && op.Parse? && after.current == Some(op.q.run))
    ensures after.current.Some? && after.current == before.current ==>
      forall q: Request, b: Config :: Answers(before.runs[before.current.value], q, b) ==>
        Answers(after.runs[before.current.value], q, b)
    ensures after.current.Some? && after.current != before.current ==>
      after.current.value in after.runs && Answers(after.runs[after.current.value], op.q, op.c)
  {
    hide Safe, Walkable, ApplyAll, RebuildWrites, FreshWrites, Answers, Reuses, Differences;
    var ws := Program(before, op);
    SafeCurrent(before);
    if ws == [] {
      assert ws[..Min(|ws|, left)] == [];
      NoWrites(before, 0);
      assert after == before by { NothingApplied(before); }
    } else if ws == RebuildWrites(before, op.c) {
      RebuildStep(before, op.c, left);
    } else {
      FreshStep(before, op.q, op.c, left);
    }
  }

  lemma NothingApplied(d: Disk)
    ensures ApplyAll(d, []) == d
  {
  }

  lemma SafeCurrent(d: Disk)
    requires Safe(d)
    ensures Walkable(d) && (d.current.Some? ==> d.current.value in d.runs && d.runs[d.current.value].manifest.Some?)
  {
  }

  // ------------------------------------------------------------ histories

  /** Main result: in every history the current run was created by one of its requests, and its canonical
      files are still those of that request. */
  lemma {:induction false} CurrentAnswersItsRequest(disks: seq<Disk>, ops: seq<Op>, lefts: seq<nat>, i: nat)
    returns (j: nat)
    requires IsRun(disks, ops, lefts) && i <= |ops| && disks[i].current.Some?
    ensures j < i && ops[j].Parse? && ops[j].q.run == disks[i].current.value
    ensures CreatedAt(disks, j, disks[i].current.value)
    ensures disks[i].current.value in disks[i].runs
    ensures Answers(disks[i].runs[disks[i].current.value], ops[j].q, ops[j].c)
  {
    hide Safe, Answers, Step, Walkable;
    EveryRunSafe(disks, ops, lefts, i - 1);
    EveryRunSafe(disks, ops, lefts, i);
    assert Step(disks[i - 1], ops[i - 1], lefts[i - 1], disks[i - 1 + 1]);
    SafeCurrent(disks[i]);
    SafeCurrent(disks[i - 1]);
    StepOrigin(disks[i - 1], ops[i - 1], lefts[i - 1], disks[i]);
    if disks[i].current == disks[i - 1].current {
      j := CurrentAnswersItsRequest(disks, ops, lefts, i - 1);
    } else {
      j := i - 1;
      StepFresh(disks[i - 1], ops[i - 1], lefts[i - 1], disks[i]);
    }
  }

  lemma StepFresh(before: Disk, op: Op, left: nat, after: Disk)
    requires Step(before, op, left, after) && op.Parse?
    ensures op.q.run !in before.runs
  {
  }

  /** The two requests ask for the same parse: the same source file, adapters and parsing versions. */
  predicate SameParse(p: Request, b: Config, q: Request, c: Config) {
    && p.sha == q.sha && |p.attempts| == |q.attempts|
    && (forall i :: 0 <= i < |p.attempts| ==> p.attempts[i].adapter == q.attempts[i].adapter)
    && b.schemaVersion == c.schemaVersion && b.normalizerVersion == c.normalizerVersion
  }

  /** Main result: in every history a finished call with a ready file and adapters parses into a new run
      unless it is unforced and the current run was created by a request for the same parse. */
  lemma NewRunExactly(disks: seq<Disk>, ops: seq<Op>, lefts: seq<nat>, i: nat) returns (j: nat)
    requires IsRun(disks, ops, lefts) && i < |ops| && ops[i].Parse?
    requires Walkable(disks[i]) && lefts[i] >= |Program(disks[i], ops[i])|
    requires ops[i].q.ready && ops[i].q.filePresent && ops[i].q.attempts != []
    ensures disks[i].current.Some? ==>
      j < i && ops[j].Parse? && CreatedAt(disks, j, disks[i].current.value) && ops[j].q.run == disks[i].current.value
    ensures var q, c := ops[i].q, ops[i].c;
      q.run !in disks[i + 1].runs <==>
        !q.force && disks[i].current.Some? && SameParse(ops[j].q, ops[j].c, q, c)
  {
    var d, q, c := disks[i], ops[i].q, ops[i].c;
    j := 0;
    EveryRunSafe(disks, ops, lefts, i);
    assert Step(d, ops[i], lefts[i], disks[i + 1]);
    SafeCurrent(d);
    if d.current.Some? { j := CurrentAnswersItsRequest(disks, ops, lefts, i); }
    hide IsRun, Safe, Walkable, ApplyAll, RebuildWrites, FreshWrites, Answers, Differences, SameParse, MatchesTriggers;
    if d.current.Some? { ReusesExactly(d, q, c, ops[j].q, ops[j].c); }
    if Reuses(d, q, c) {
      StepOrigin(d, ops[i], lefts[i], disks[i + 1]);
      RebuildStep(d, c, lefts[i]);
      NothingApplied(d);
      assert Program(d, ops[i]) in {[], RebuildWrites(d, c)};
    } else {
      FreshStep(d, q, c, lefts[i]);
    }
  }

  lemma ReusesExactly(d: Disk, q: Request, c: Config, p: Request, b: Config)
    requires d.current.Some? && d.current.value in d.runs && Answers(d.runs[d.current.value], p, b)
    ensures Reuses(d, q, c) <==> !q.force && SameParse(p, b, q, c)
  {
    hide Accept;
    var chain := d.runs[d.current.value].manifest.value.chain.value;
    var mine := ChainOf(q.attempts);
    if chain == mine {
      forall i | 0 <= i < |p.attempts| ensures p.attempts[i].adapter == q.attempts[i].adapter {
        assert chain[i] == mine[i];
      }
    }
  }

  // ------------------------------------------------------------ parsing again

  lemma ManifestUpToDate(q: Request, a: Acceptance, c: Config)
    ensures Differences(NewManifest(q, a, c), c) == []
  {
  }

  lemma PromotedManifest(d: Disk, q: Request, c: Config)
    requires Safe(d) && q.attempts != [] && q.run !in d.runs && !Accept(q.attempts, q.heights, c).status.NeedsReview?
    ensures var e := ApplyAll(d, FilesOf(q, c) + [PutCurrent(q.run)]);
      && e.current == Some(q.run) && q.run in e.runs && Walkable(e)
      && e.runs[q.run].manifest == Some(NewManifest(q, Accept(q.attempts, q.heights, c), c))
  {
    hide Accept, ApplyAll, Normalize, FilesOf, Complete, NewManifest, Chunker.Acyclic, Walkable, Chunker.Build;
    Accepted(q, c);
    PromotedSafe(d, q, c);
    SafeIsWalkable(ApplyAll(d, FilesOf(q, c) + [PutCurrent(q.run)]));
    FilesRunDir(d, q, c);
  }

  /** Main result: after a finished parse that was accepted, an unforced call for the same parse under the same
      configuration writes nothing. */
  lemma ParsingAgainWritesNothing(d: Disk, q: Request, c: Config, again: Request)
    requires Safe(d) && q.attempts != [] && q.run !in d.runs && !Accept(q.attempts, q.heights, c).status.NeedsReview?
    requires !again.force && SameParse(q, c, again, c)
    ensures var e := ApplyAll(d, FreshWrites(q, c)); Walkable(e) && ParseWrites(e, again, c) == []
  {
    FilesInside(q, c);
    PromotedStep(d, q, c);
    PromotedManifest(d, q, c);
    ManifestUpToDate(q, Accept(q.attempts, q.heights, c), c);
    var e := ApplyAll(d, FilesOf(q, c) + [PutCurrent(q.run)]);
    hide Accept, ApplyAll, FilesOf, FreshWrites, NewManifest, Answers, Walkable, SameParse, Differences,
      MatchesTriggers;
    ReusesExactly(e, again, c, q, c);
  }
}
