/** Where the packing loop closes its buffer: the units of a section fall into exactly one sequence of
    runs, and each run becomes one chunk (src/transit_scholar/layer2/chunker.py:200-267). */
module PackingRuns {
  import opened Prelude
  import opened TokenCounter
  import opened Schema
  import opened Units
  import opened Trimming
  import opened Chunker
  import opened ChunkCoverage

  /** Units that share a chunk, or an overlong unit on its own. */
  datatype Run = Together(units: seq<Unit>) | Alone(unit: Unit)

  function RunUnits(r: Run): seq<Unit> {
    match r
    case Together(units) => units
    case Alone(u) => [u]
  }

  function AllUnits(runs: seq<Run>): seq<Unit> {
    if runs == [] then [] else RunUnits(runs[0]) + AllUnits(runs[1..])
  }

  /** What the cap leaves beside the prefix, and at least one token. */
  function Room(f: Frame): int {
    var left := f.config.hardMax - Tokens(Join(" > ", f.items));
    if left < 1 then 1 else left
  }

  /** A buffer of `held` tokens takes no more `next` tokens: they would exceed the room, or they would
      exceed the soft limit of a buffer that has reached its target. */
  predicate Full(held: int, next: int, f: Frame) {
    || held + next > Room(f)
    || (held + next > f.config.softMax && held >= f.config.target)
  }

  predicate GoodRun(r: Run, f: Frame) {
    match r
    case Alone(u) => u.tokens > Room(f)
    case Together(units) =>
      && units != [] && (forall k :: 0 <= k < |units| ==> units[k].tokens <= Room(f))
      && forall k :: 0 < k < |units| ==> !Full(SumUnits(units[..k]), units[k].tokens, f)
  }

  /** Between neighbouring runs of fitting units the first is full. */
  predicate Parted(a: Run, b: Run, f: Frame) {
    a.Together? && b.Together? ==> b.units != [] && Full(SumUnits(a.units), b.units[0].tokens, f)
  }

  predicate GoodRuns(runs: seq<Run>, f: Frame) {
    && (forall i :: 0 <= i < |runs| ==> GoodRun(runs[i], f))
    && forall i :: 0 <= i < |runs| - 1 ==> Parted(runs[i], runs[i + 1], f)
  }

  /** The chunks of one run, with ids from base + 1 on. */
  function RunChunks(r: Run, base: nat, f: Frame): seq<Chunk> {
    match r
    case Together(units) => if units == [] then [] else [Assemble(units, base + 1, f)]
    case Alone(u) =>
      BudgetPositive(f);
      var fragments := SplitOverlong(u, BodyBudget(f));
      seq(|fragments|, i requires 0 <= i < |fragments| => Assemble([fragments[i]], base + i + 1, f))
  }

  function ChunksOf(runs: seq<Run>, base: nat, f: Frame): seq<Chunk> {
    if runs == [] then []
    else
      var mine := RunChunks(runs[0], base, f);
      mine + ChunksOf(runs[1..], base + |mine|, f)
  }

  lemma TailGood(runs: seq<Run>, f: Frame)
    requires runs != [] && GoodRuns(runs, f)
    ensures GoodRuns(runs[1..], f)
  {
    hide GoodRun, Parted;
    var rest := runs[1..];
    forall i | 0 <= i < |rest| - 1 ensures Parted(rest[i], rest[i + 1], f) {
      assert Parted(runs[i + 1], runs[i + 1 + 1], f);
    }
  }

  lemma ConsGood(r: Run, rest: seq<Run>, f: Frame)
    requires GoodRun(r, f) && GoodRuns(rest, f) && (rest != [] ==> Parted(r, rest[0], f))
    ensures GoodRuns([r] + rest, f)
  {
    hide GoodRun, Parted;
    var runs := [r] + rest;
    forall i | 0 <= i < |runs| - 1 ensures Parted(runs[i], runs[i + 1], f) {
      if i > 0 { assert Parted(rest[i - 1], rest[i - 1 + 1], f); }
    }
  }

  // ------------------------------------------------------------ the loop makes such runs

  lemma RoomIsBudget(f: Frame)
    ensures Room(f) == BodyBudget(f)
  {
  }

  lemma MakeRoomExactly(p: Packing, tokens: nat, base: nat, f: Frame)
    ensures MakeRoom(p, tokens, base, f)
      == if p.buffer != [] && Full(p.bufferTokens, tokens, f) then Flush(p, base, f) else p
  {
    RoomIsBudget(f);
    hide BodyBudget, Room, Assemble;
  }

  lemma {:induction false} EmitEachIs(chunks: seq<Chunk>, fragments: seq<Unit>, base: nat, f: Frame)
    ensures EmitEach(chunks, fragments, base, f) == chunks
      + seq(|fragments|, i requires 0 <= i < |fragments| => Assemble([fragments[i]], base + |chunks| + i + 1, f))
    decreases |fragments|
  {
    hide Assemble;
    if fragments != [] {
      var c := Assemble([fragments[0]], base + |chunks| + 1, f);
      EmitEachIs(chunks + [c], fragments[1..], base, f);
    }
  }

  /** The buffer so far is the beginning of a run. */
  predicate BufferRun(p: Packing, f: Frame) {
    p.bufferTokens == SumUnits(p.buffer) && (p.buffer != [] ==> GoodRun(Together(p.buffer), f))
  }

  function BufferRuns(p: Packing): seq<Run> { if p.buffer == [] then [] else [Together(p.buffer)] }

  lemma SumSnoc(units: seq<Unit>, u: Unit)
    ensures SumUnits(units + [u]) == SumUnits(units) + u.tokens
  {
    assert (units + [u])[..|units|] == units;
  }

  lemma RunGrows(buffer: seq<Unit>, u: Unit, f: Frame)
    requires buffer != [] ==> GoodRun(Together(buffer), f) && !Full(SumUnits(buffer), u.tokens, f)
    requires u.tokens <= Room(f)
    ensures GoodRun(Together(buffer + [u]), f)
  {
    hide Full, Room, SumUnits;
    var units := buffer + [u];
    var n := |buffer|;
    forall k | 0 < k < |units| ensures !Full(SumUnits(units[..k]), units[k].tokens, f) {
      assert units[..k] == buffer[..k];
      if k < n {
        assert units[k] == buffer[k];
      } else {
        assert buffer[..k] == buffer;
      }
    }
  }

  lemma BufferGrows(p: Packing, u: Unit, f: Frame)
    requires BufferRun(p, f) && u.tokens <= Room(f)
    requires p.buffer != [] ==> !Full(p.bufferTokens, u.tokens, f)
    ensures BufferRun(Packing(p.chunks, p.buffer + [u], p.bufferTokens + u.tokens), f)
  {
    hide Full, Room, SumUnits, GoodRun;
    SumSnoc(p.buffer, u);
    RunGrows(p.buffer, u, f);
  }

  lemma NoBuffer(chunks: seq<Chunk>, f: Frame)
    ensures BufferRun(Packing(chunks, [], 0), f) && GoodRuns([], f) && AllUnits([]) == []
  {
  }

  /** `before` followed by the chunks of one run and then of the later ones. */
  lemma ChunksCons(before: seq<Chunk>, r: Run, later: seq<Run>, base: nat, f: Frame)
    ensures AllUnits([r] + later) == RunUnits(r) + AllUnits(later)
    ensures var now := before + RunChunks(r, base + |before|, f);
      now + ChunksOf(later, base + |now|, f) == before + ChunksOf([r] + later, base + |before|, f)
  {
    hide RunChunks;
    assert ([r] + later)[1..] == later;
  }

  /** Closing the buffer puts its run in front of the runs that follow. */
  lemma FlushRuns(p: Packing, later: seq<Run>, base: nat, f: Frame) returns (runs: seq<Run>)
    requires BufferRun(p, f) && GoodRuns(later, f)
    requires p.buffer != [] && later != [] ==> Parted(Together(p.buffer), later[0], f)
    ensures GoodRuns(runs, f) && AllUnits(runs) == p.buffer + AllUnits(later)
    ensures p.buffer != [] ==> runs != [] && runs[0] == Together(p.buffer)
    ensures p.buffer == [] ==> runs == later
    ensures var q := Flush(p, base, f);
      q.chunks + ChunksOf(later, base + |q.chunks|, f) == p.chunks + ChunksOf(runs, base + |p.chunks|, f)
  {
    hide GoodRun, GoodRuns, Assemble, Parted, SumUnits, ChunksOf;
    if p.buffer == [] {
      runs := later;
    } else {
      var r := Together(p.buffer);
      runs := [r] + later;
      ConsGood(r, later, f);
      ChunksCons(p.chunks, r, later, base, f);
      assert RunChunks(r, base + |p.chunks|, f) == [Assemble(p.buffer, base + |p.chunks| + 1, f)];
    }
  }

  lemma AloneFirst(u: Unit, later: seq<Run>, chunks: seq<Chunk>, base: nat, f: Frame)
    requires u.tokens > Room(f) && GoodRuns(later, f) && BodyBudget(f) >= 1
    ensures var runs, all := [Alone(u)] + later, EmitEach(chunks, SplitOverlong(u, BodyBudget(f)), base, f);
      && GoodRuns(runs, f) && AllUnits(runs) == [u] + AllUnits(later)
      && all + ChunksOf(later, base + |all|, f) == chunks + ChunksOf(runs, base + |chunks|, f)
  {
    hide Assemble, Room, SplitOverlong, BodyBudget, ChunksOf, GoodRuns, EmitEach;
    ConsGood(Alone(u), later, f);
    ChunksCons(chunks, Alone(u), later, base, f);
    EmitEachIs(chunks, SplitOverlong(u, BodyBudget(f)), base, f);
  }

  lemma FullParts(p: Packing, u: Unit, r: Run, f: Frame)
    requires BufferRun(p, f) && Full(p.bufferTokens, u.tokens, f) && r.Together? && [u] <= r.units
    ensures Parted(Together(p.buffer), r, f)
  {
  }

  lemma PackFitting(p: Packing, u: Unit, base: nat, f: Frame)
    requires u.tokens <= Room(f)
    ensures var q := if p.buffer != [] && Full(p.bufferTokens, u.tokens, f) then Flush(p, base, f) else p;
      PackOne(p, u, base, f) == Packing(q.chunks, q.buffer + [u], q.bufferTokens + u.tokens)
  {
    hide MakeRoom, Flush, Full, EmitEach, SplitOverlong;
    RoomIsBudget(f);
    MakeRoomExactly(p, u.tokens, base, f);
  }

  lemma PackAlone(p: Packing, u: Unit, base: nat, f: Frame)
    requires u.tokens > Room(f) && BufferRun(p, f)
    ensures BodyBudget(f) >= 1
    ensures PackOne(p, u, base, f)
      == Packing(EmitEach(Flush(p, base, f).chunks, SplitOverlong(u, BodyBudget(f)), base, f), [], 0)
  {
    hide EmitEach, SplitOverlong, Assemble;
    RoomIsBudget(f);
    BudgetPositive(f);
  }

  lemma PackStep(p: Packing, units: seq<Unit>, base: nat, f: Frame)
    requires units != []
    ensures PackAll(p, units, base, f) == PackAll(PackOne(p, units[0], base, f), units[1..], base, f)
  {
    hide PackOne;
  }

  lemma LastFlush(p: Packing, base: nat, f: Frame)
    ensures PackAll(p, [], base, f) == Flush(p, base, f).chunks
  {
  }

  /** The runs of the buffer and the remaining units, the first of which goes on with the buffer. */
  lemma {:induction false} PackAllRuns(p: Packing, units: seq<Unit>, base: nat, f: Frame) returns (runs: seq<Run>)
    requires BufferRun(p, f)
    ensures GoodRuns(runs, f) && AllUnits(runs) == p.buffer + units
    ensures p.buffer != [] ==> runs != [] && runs[0].Together? && p.buffer <= runs[0].units
    ensures PackAll(p, units, base, f) == p.chunks + ChunksOf(runs, base + |p.chunks|, f)
    decreases |units|
  {
    hide *;
    if units == [] {
      NoBuffer(p.chunks, f);
      LastFlush(p, base, f);
      runs := FlushRuns(p, [], base, f);
      NoChunks(base + |Flush(p, base, f).chunks|, f);
    } else {
      PackStep(p, units, base, f);
      if units[0].tokens > Room(f) {
        runs := OverlongRuns(p, units, base, f);
      } else {
        runs := FittingRuns(p, units, base, f);
      }
    }
  }

  lemma OverlongRuns(p: Packing, units: seq<Unit>, base: nat, f: Frame) returns (runs: seq<Run>)
    requires BufferRun(p, f) && units != [] && units[0].tokens > Room(f)
    ensures GoodRuns(runs, f) && AllUnits(runs) == p.buffer + units
    ensures p.buffer != [] ==> runs != [] && runs[0].Together? && p.buffer <= runs[0].units
    ensures PackAll(PackOne(p, units[0], base, f), units[1..], base, f)
      == p.chunks + ChunksOf(runs, base + |p.chunks|, f)
    decreases |units|, 0
  {
    hide *;
    var u, rest := units[0], units[1..];
    PackAlone(p, u, base, f);
    var next := PackOne(p, u, base, f);
    NoBuffer(next.chunks, f);
    var later := PackAllRuns(next, rest, base, f);
    AloneFirst(u, later, Flush(p, base, f).chunks, base, f);
    AloneParted(p.buffer, u, f);
    runs := FlushRuns(p, [Alone(u)] + later, base, f);
  }

  lemma FittingRuns(p: Packing, units: seq<Unit>, base: nat, f: Frame) returns (runs: seq<Run>)
    requires BufferRun(p, f) && units != [] && units[0].tokens <= Room(f)
    ensures GoodRuns(runs, f) && AllUnits(runs) == p.buffer + units
    ensures p.buffer != [] ==> runs != [] && runs[0].Together? && p.buffer <= runs[0].units
    ensures PackAll(PackOne(p, units[0], base, f), units[1..], base, f)
      == p.chunks + ChunksOf(runs, base + |p.chunks|, f)
    decreases |units|, 0
  {
    hide *;
    var u, rest := units[0], units[1..];
    PackFitting(p, u, base, f);
    var next := PackOne(p, u, base, f);
    if p.buffer != [] && Full(p.bufferTokens, u.tokens, f) {
      FlushEmpties(p, base, f);
      BufferGrows(Flush(p, base, f), u, f);
      var later := PackAllRuns(next, rest, base, f);
      FullParts(p, u, later[0], f);
      runs := FlushRuns(p, later, base, f);
    } else {
      BufferGrows(p, u, f);
      runs := PackAllRuns(next, rest, base, f);
      assert p.buffer + units == (p.buffer + [u]) + rest;
    }
  }

  lemma FlushEmpties(p: Packing, base: nat, f: Frame)
    requires p.buffer != []
    ensures Flush(p, base, f).buffer == [] && Flush(p, base, f).bufferTokens == 0
    ensures BufferRun(Flush(p, base, f), f)
  {
    hide Assemble;
  }

  lemma NoChunks(base: nat, f: Frame)
    ensures ChunksOf([], base, f) == []
  {
  }

  lemma AloneParted(units: seq<Unit>, u: Unit, f: Frame)
    ensures Parted(Together(units), Alone(u), f)
  {
  }

  /** Main result: the chunks of a section are those of a sequence of runs of its units. A run of fitting
      units ends before the next fitting unit exactly when that one would exceed the room beside the
      prefix, or the soft limit once the target is reached; an overlong unit stands alone. */
  lemma SectionRuns(units: seq<Unit>, base: nat, f: Frame) returns (runs: seq<Run>)
    ensures GoodRuns(runs, f) && AllUnits(runs) == units
    ensures ChunkUnits(units, base, f) == ChunksOf(runs, base, f)
  {
    hide GoodRuns, Assemble;
    var none: seq<Chunk> := [];
    NoBuffer(none, f);
    runs := PackAllRuns(Packing(none, [], 0), units, base, f);
    assert [] + units == units;
    assert none + ChunksOf(runs, base, f) == ChunksOf(runs, base, f);
  }

  // ------------------------------------------------------------ there is only one such sequence

  lemma UnitAfter(a: seq<Run>, f: Frame)
    requires GoodRuns(a, f) && a != [] && a[0].Together? && |a[0].units| < |AllUnits(a)|
    ensures var u := AllUnits(a)[|a[0].units|];
      u.tokens <= Room(f) ==> Full(SumUnits(AllUnits(a)[..|a[0].units|]), u.tokens, f)
  {
    hide Full, Room, SumUnits;
    var all := AllUnits(a);
    assert a[0].units == all[..|a[0].units|];
    assert AllUnits(a[1..]) != [];
    assert GoodRun(a[1], f) && Parted(a[0], a[0 + 1], f);
    assert AllUnits(a[1..]) == RunUnits(a[1]) + AllUnits(a[1..][1..]);
    assert all[|a[0].units|] == RunUnits(a[1])[0];
  }

  lemma UnitInside(b: seq<Run>, k: nat, f: Frame)
    requires GoodRuns(b, f) && b != [] && b[0].Together? && 0 < k < |b[0].units|
    ensures k < |AllUnits(b)|
    ensures var u := AllUnits(b)[k]; u.tokens <= Room(f) && !Full(SumUnits(AllUnits(b)[..k]), u.tokens, f)
  {
    hide Full, Room, SumUnits;
    assert GoodRun(b[0], f);
    assert AllUnits(b)[..k] == b[0].units[..k] && AllUnits(b)[k] == b[0].units[k];
  }

  lemma NotShorter(a: seq<Run>, b: seq<Run>, f: Frame)
    requires GoodRuns(a, f) && GoodRuns(b, f) && AllUnits(a) == AllUnits(b) && a != [] && b != []
    requires a[0].Together? && b[0].Together?
    ensures |a[0].units| >= |b[0].units|
  {
    hide Full, Room, SumUnits, AllUnits;
    assert GoodRun(a[0], f);
    var n := |a[0].units|;
    if n < |b[0].units| {
      UnitInside(b, n, f);
      UnitAfter(a, f);
    }
  }

  lemma SomeUnit(a: seq<Run>, f: Frame)
    requires GoodRuns(a, f)
    ensures AllUnits(a) == [] <==> a == []
  {
    if a != [] { assert GoodRun(a[0], f); }
  }

  /** The units determine the runs. */
  lemma {:induction false} RunsUnique(a: seq<Run>, b: seq<Run>, f: Frame)
    requires GoodRuns(a, f) && GoodRuns(b, f) && AllUnits(a) == AllUnits(b)
    ensures a == b
    decreases |a|
  {
    SomeUnit(a, f);
    SomeUnit(b, f);
    if a != [] && b != [] {
      SameFirst(a, b, f);
      TailGood(a, f);
      TailGood(b, f);
      assert AllUnits(a[1..]) == AllUnits(a)[|RunUnits(a[0])|..];
      assert AllUnits(b[1..]) == AllUnits(b)[|RunUnits(b[0])|..];
      RunsUnique(a[1..], b[1..], f);
    }
  }

  lemma SameFirst(a: seq<Run>, b: seq<Run>, f: Frame)
    requires GoodRuns(a, f) && GoodRuns(b, f) && AllUnits(a) == AllUnits(b) && a != [] && b != []
    ensures a[0] == b[0]
  {
    assert GoodRun(a[0], f) && GoodRun(b[0], f);
    assert AllUnits(a)[0] == RunUnits(a[0])[0] && AllUnits(b)[0] == RunUnits(b[0])[0];
    if a[0].Together? && b[0].Together? {
      NotShorter(a, b, f);
      NotShorter(b, a, f);
      assert a[0].units == AllUnits(a)[..|a[0].units|];
    }
  }
}
