/** When a failed delete or restore leaves the paper as it was, and when deleting and restoring undo
    each other. */
module SoftDeleteGuarantees {
  import opened Prelude
  import opened SoftDelete

  // ------------------------------------------------------------ moves and what they lose

  predicate Overwrites(d: Disk, m: Move) { m.src in d && m.src != m.dst && m.dst in d }

  function Back(m: Move): Move { Move(m.dst, m.src) }

  lemma MovedCount(d: Disk, m: Move)
    ensures |Moved(d, m)| == if Overwrites(d, m) then |d| - 1 else |d|
  {
    if m.src in d && m.src != m.dst {
      var wide := d[m.dst := d[m.src]];
      assert wide.Keys == d.Keys + {m.dst};
      assert Moved(d, m).Keys == wide.Keys - {m.src};
      assert |d.Keys| == |d| && |wide.Keys| == |wide| && |Moved(d, m).Keys| == |Moved(d, m)|;
    }
  }

  lemma MovedBack(d: Disk, m: Move)
    requires m.src in d && !Overwrites(d, m)
    ensures Moved(Moved(d, m), Back(m)) == d
  {
  }

  /** No move of the list overwrites another file. */
  predicate NoLoss(d: Disk, moves: seq<Move>) {
    forall i :: 0 <= i < |moves| ==> !Overwrites(Forward(d, moves[..i]), moves[i])
  }

  predicate AllSucceed(d: Disk, moves: seq<Move>) {
    forall i :: 0 <= i < |moves| ==> moves[i].src in Forward(d, moves[..i])
  }

  lemma {:induction false} NoLossStep(d: Disk, moves: seq<Move>)
    requires moves != []
    ensures var n := |moves| - 1;
      && (NoLoss(d, moves) <==> NoLoss(d, moves[..n]) && !Overwrites(Forward(d, moves[..n]), moves[n]))
      && (AllSucceed(d, moves) <==> AllSucceed(d, moves[..n]) && moves[n].src in Forward(d, moves[..n]))
  {
    hide Forward, Overwrites;
    var n := |moves| - 1;
    assert forall i :: 0 <= i < n ==> moves[..n][..i] == moves[..i];
    assert forall i :: 0 <= i < n ==> moves[..n][i] == moves[i];
  }

  lemma {:induction false} ForwardCount(d: Disk, moves: seq<Move>)
    ensures |Forward(d, moves)| <= |d|
    ensures |Forward(d, moves)| == |d| <==> NoLoss(d, moves)
  {
    if moves != [] {
      var n := |moves| - 1;
      ForwardCount(d, moves[..n]);
      NoLossStep(d, moves);
      MovedCount(Forward(d, moves[..n]), moves[n]);
    }
  }

  lemma {:induction false} UndoneCount(d: Disk, moves: seq<Move>, stuck: set<nat>)
    ensures |Undone(d, moves, stuck)| <= |d|
    decreases |moves|
  {
    if moves != [] {
      var n := |moves| - 1;
      var back := if n in stuck then d else Moved(d, Back(moves[n]));
      MovedCount(d, Back(moves[n]));
      UndoneCount(back, moves[..n], stuck);
    }
  }

  lemma {:induction false} UndoneIfNoLoss(d: Disk, moves: seq<Move>)
    requires AllSucceed(d, moves) && NoLoss(d, moves)
    ensures Undone(Forward(d, moves), moves, {}) == d
    decreases |moves|
  {
    if moves != [] {
      var n := |moves| - 1;
      NoLossStep(d, moves);
      MovedBack(Forward(d, moves[..n]), moves[n]);
      UndoneIfNoLoss(d, moves[..n]);
    }
  }

  /** Undoing completed moves restores the disk exactly when none of them overwrote another file. */
  lemma UndoneExact(d: Disk, moves: seq<Move>)
    requires AllSucceed(d, moves)
    ensures Undone(Forward(d, moves), moves, {}) == d <==> NoLoss(d, moves)
  {
    if NoLoss(d, moves) {
      UndoneIfNoLoss(d, moves);
    } else {
      ForwardCount(d, moves);
      UndoneCount(Forward(d, moves), moves, {});
    }
  }

  // ------------------------------------------------------------ plans over unique rows

  predicate DistinctSources(moves: seq<Move>) { forall i, j :: 0 <= i < j < |moves| ==> moves[i].src != moves[j].src }

  predicate DistinctTargets(moves: seq<Move>) { forall i, j :: 0 <= i < j < |moves| ==> moves[i].dst != moves[j].dst }

  /** File ids are a key, and no two rows share a relative path. */
  predicate UniqueRows(files: seq<FileRow>) {
    forall i, j :: 0 <= i < j < |files| ==>
      files[i].id != files[j].id && (files[i].path.Some? ==> files[i].path != files[j].path)
  }

  function Target(op: Op, id: FileId): Path { if op.Delete? then Trash(id) else Originals(id) }

  /** Move i belongs to row k. */
  predicate Belongs(moves: seq<Move>, i: nat, files: seq<FileRow>, k: nat, op: Op) {
    i < |moves| && k < |files| && files[k].path == Some(moves[i].src) && moves[i].dst == Target(op, files[k].id)
  }

  lemma {:induction false} PlanBelongs(files: seq<FileRow>, op: Op, moveFiles: bool, i: nat) returns (k: nat)
    requires i < |Plan(files, op, moveFiles)|
    ensures Belongs(Plan(files, op, moveFiles), i, files, k, op)
  {
    var n := |files| - 1;
    var before := Plan(files[..n], op, moveFiles);
    if i < |before| {
      k := PlanBelongs(files[..n], op, moveFiles, i);
      assert files[..n][k] == files[k];
    } else {
      k := n;
    }
  }

  lemma {:induction false} PlanDistinct(files: seq<FileRow>, op: Op, moveFiles: bool)
    requires UniqueRows(files)
    ensures DistinctSources(Plan(files, op, moveFiles)) && DistinctTargets(Plan(files, op, moveFiles))
  {
    if files != [] {
      var n := |files| - 1;
      var before, all := Plan(files[..n], op, moveFiles), Plan(files, op, moveFiles);
      PlanDistinct(files[..n], op, moveFiles);
      forall i, j | 0 <= i < j < |all| ensures all[i].src != all[j].src && all[i].dst != all[j].dst {
        if j == |before| {
          var k := PlanBelongs(files[..n], op, moveFiles, i);
          assert files[..n][k] == files[k];
        }
      }
    }
  }

  // ------------------------------------------------------------ moving present files

  lemma {:induction false} Survives(d: Disk, moves: seq<Move>, p: Path)
    requires p in d && forall i :: 0 <= i < |moves| ==> moves[i].src != p
    ensures p in Forward(d, moves)
  {
    if moves != [] { Survives(d, moves[..|moves| - 1], p); }
  }

  lemma PresentSucceed(d: Disk, moves: seq<Move>)
    requires AllPresent(d, moves) && DistinctSources(moves)
    ensures AllSucceed(d, moves)
  {
    forall i | 0 <= i < |moves| ensures moves[i].src in Forward(d, moves[..i]) {
      Survives(d, moves[..i], moves[i].src);
    }
  }

  predicate Sources(moves: seq<Move>, p: Path) { exists i :: 0 <= i < |moves| && moves[i].src == p }

  predicate Targets(moves: seq<Move>, p: Path) { exists i :: 0 <= i < |moves| && moves[i].dst == p }

  lemma EndsStep(moves: seq<Move>, p: Path)
    requires moves != []
    ensures var n := |moves| - 1;
      && (Sources(moves, p) <==> Sources(moves[..n], p) || moves[n].src == p)
      && (Targets(moves, p) <==> Targets(moves[..n], p) || moves[n].dst == p)
  {
    var n := |moves| - 1;
    assert forall i :: 0 <= i < n ==> moves[..n][i] == moves[i];
  }

  /** A path that no move writes is there afterwards unless it was moved away. */
  lemma {:induction false} Untargeted(d: Disk, moves: seq<Move>, p: Path)
    requires AllSucceed(d, moves) && !Targets(moves, p)
    ensures p in Forward(d, moves) <==> p in d && !Sources(moves, p)
  {
    if moves != [] {
      var n := |moves| - 1;
      NoLossStep(d, moves);
      EndsStep(moves, p);
      hide AllSucceed, Sources, Targets;
      Untargeted(d, moves[..n], p);
    }
  }

  /** Move i finds its destination free: nothing there before, or only what an earlier move took away. */
  predicate Free(d: Disk, moves: seq<Move>, i: nat)
    requires i < |moves|
  {
    moves[i].dst !in d || moves[i].dst == moves[i].src || exists j :: 0 <= j < i && moves[j].src == moves[i].dst
  }

  lemma FreeExact(d: Disk, moves: seq<Move>, i: nat)
    requires AllPresent(d, moves) && DistinctSources(moves) && DistinctTargets(moves) && i < |moves|
    ensures Overwrites(Forward(d, moves[..i]), moves[i]) <==> !Free(d, moves, i)
  {
    PresentSucceed(d, moves);
    Survives(d, moves[..i], moves[i].src);
    assert AllSucceed(d, moves[..i]) by {
      assert forall j :: 0 <= j < i ==> moves[..i][..j] == moves[..j];
    }
    assert forall j :: 0 <= j < i ==> moves[..i][j] == moves[j];
    Untargeted(d, moves[..i], moves[i].dst);
  }

  lemma {:induction false} ProgressExact(d: Disk, moves: seq<Move>, fault: Option<nat>, done: nat)
    requires AllSucceed(d, moves) && done <= |moves|
    requires fault.Some? ==> done <= fault.value || fault.value >= |moves|
    ensures Progress(Forward(d, moves[..done]), moves, fault, done) == if fault.Some? && fault.value < |moves|
      then fault.value else |moves|
    decreases |moves| - done
  {
    if done < |moves| && fault != Some(done) {
      assert moves[..done + 1][..done] == moves[..done];
      ProgressExact(d, moves, fault, done + 1);
    }
  }

  lemma NothingMoved(d: Disk)
    ensures Forward(d, []) == d
  {
  }

  // ------------------------------------------------------------ failed operations

  /** Moves stop only where the environment makes one raise. */
  lemma OutcomeExact(l: Library, op: Op, moveFiles: bool, fault: Fault, now: int)
    requires UniqueRows(l.files) && l.paper.Some?
      && (op.Restore? ==> l.paper.value.status.Deleted? || l.paper.value.status.Archived?)
    requires AllPresent(l.disk, Plan(l.files, op, moveFiles))
    ensures var moves := Plan(l.files, op, moveFiles);
      var (after, outcome) := Performed(l, op, moveFiles, fault, now);
      && (outcome.MoveFailed? <==> fault.moveAt.Some? && fault.moveAt.value < |moves|)
      && (outcome.WriteFailed? <==> !outcome.MoveFailed? && fault.commit)
      && (outcome.MoveFailed? ==>
        var done := moves[..fault.moveAt.value];
        after == l.(disk := Undone(Forward(l.disk, done), done, fault.stuck)))
      && (!outcome.MoveFailed? ==> after.disk == Forward(l.disk, moves))
      && (outcome.MoveFailed? || outcome.WriteFailed? || outcome.Done?)
  {
    hide Plan, Forward, Undone, RowsAfter, Progress;
    var moves := Plan(l.files, op, moveFiles);
    PlanDistinct(l.files, op, moveFiles);
    PresentSucceed(l.disk, moves);
    NothingMoved(l.disk);
    assert moves[..0] == [] && moves[..|moves|] == moves;
    ProgressExact(l.disk, moves, fault.moveAt, 0);
  }

  lemma FailedWasAllowed(l: Library, op: Op, moveFiles: bool, fault: Fault, now: int)
    requires Performed(l, op, moveFiles, fault, now).1.MoveFailed?
    ensures l.paper.Some? && (op.Restore? ==> l.paper.value.status.Deleted? || l.paper.value.status.Archived?)
    ensures AllPresent(l.disk, Plan(l.files, op, moveFiles))
  {
    hide Plan, Progress, Forward, Undone, RowsAfter;
  }

  /** Main result: when a move raises and every compensating move works, the library is exactly as
      before if and only if each completed move had found its destination free. */
  lemma CompensationExact(l: Library, op: Op, moveFiles: bool, fault: Fault, now: int)
    requires UniqueRows(l.files) && fault.stuck == {} && Performed(l, op, moveFiles, fault, now).1.MoveFailed?
    ensures var moves := Plan(l.files, op, moveFiles);
      && fault.moveAt.Some? && fault.moveAt.value < |moves|
      && (Performed(l, op, moveFiles, fault, now).0 == l
        <==> forall i :: 0 <= i < fault.moveAt.value ==> Free(l.disk, moves, i))
  {
    FailedWasAllowed(l, op, moveFiles, fault, now);
    hide Performed, Forward, Undone, Overwrites, Plan, UniqueRows;
    OutcomeExact(l, op, moveFiles, fault, now);
    var moves := Plan(l.files, op, moveFiles);
    var made := moves[..fault.moveAt.value];
    PlanDistinct(l.files, op, moveFiles);
    PresentSucceed(l.disk, made);
    UndoneExact(l.disk, made);
    forall i | 0 <= i < |made| ensures Overwrites(Forward(l.disk, made[..i]), made[i]) <==> !Free(l.disk, moves, i) {
      FreeExact(l.disk, moves, i);
      assert made[..i] == moves[..i];
    }
  }

  /** With fresh targets the failed operation leaves no trace, whichever move raised. */
  lemma FreshTargetsCompensate(l: Library, op: Op, moveFiles: bool, fault: Fault, now: int)
    requires UniqueRows(l.files) && fault.stuck == {} && Performed(l, op, moveFiles, fault, now).1.MoveFailed?
    requires forall i :: 0 <= i < |l.files| ==> Target(op, l.files[i].id) !in l.disk
    ensures Performed(l, op, moveFiles, fault, now).0 == l
  {
    CompensationExact(l, op, moveFiles, fault, now);
    hide Performed;
    var moves := Plan(l.files, op, moveFiles);
    forall i | 0 <= i < fault.moveAt.value ensures Free(l.disk, moves, i) {
      var k := PlanBelongs(l.files, op, moveFiles, i);
    }
  }

  lemma PlanOfTwo(f: FileRow, g: FileRow)
    requires f.path.Some? && g.path.Some? && Selected(f, Delete) && Selected(g, Delete)
    ensures Plan([f, g], Delete, true) == [Move(f.path.value, Trash(f.id)), Move(g.path.value, Trash(g.id))]
  {
    assert [f, g][..1] == [f] && [f][..0] == [];
    assert Plan([f], Delete, true) == Plan([], Delete, true) + [Move(f.path.value, Trash(f.id))];
  }

  /** With a taken trash path compensation cannot restore everything: the first file overwrites what lay
      there, and is moved back alone when the second move raises. */
  lemma TakenTrashPathIsLost(now: int)
    ensures var a, b := FileId(1), FileId(2);
      var disk := map[Originals(a) := Content("a"), Originals(b) := Content("b"), Trash(a) := Content("old")];
      var l := Library(disk, Some(PaperRow(Active, None)),
        [FileRow(a, Some(Originals(a)), None), FileRow(b, Some(Originals(b)), None)]);
      var (after, outcome) := Performed(l, Delete, true, Fault(Some(1), {}, false), now);
      outcome.MoveFailed? && after != l
  {
    var a, b := FileId(1), FileId(2);
    var disk := map[Originals(a) := Content("a"), Originals(b) := Content("b"), Trash(a) := Content("old")];
    var l := Library(disk, Some(PaperRow(Active, None)),
      [FileRow(a, Some(Originals(a)), None), FileRow(b, Some(Originals(b)), None)]);
    var fault := Fault(Some(1), {}, false);
    PlanOfTwo(l.files[0], l.files[1]);
    hide Plan, Performed, Forward, Undone;
    OutcomeExact(l, Delete, true, fault, now);
    CompensationExact(l, Delete, true, fault, now);
    assert !Free(disk, Plan(l.files, Delete, true), 0);
  }

  lemma {:induction false} MovesTell(d: Disk, moves: seq<Move>)
    requires AllPresent(d, moves) && DistinctSources(moves)
    ensures Forward(d, moves) == d <==> forall i :: 0 <= i < |moves| ==> moves[i].src == moves[i].dst
  {
    if moves != [] {
      var n := |moves| - 1;
      MovesTell(d, moves[..n]);
      Survives(d, moves[..n], moves[n].src);
      assert forall i :: 0 <= i < n ==> moves[..n][i] == moves[i];
    }
  }

  /** A failing commit is not compensated: the rows roll back, but the disk is as before only if no
      file had to move. */
  lemma CommitFailureExact(l: Library, op: Op, moveFiles: bool, fault: Fault, now: int)
    requires UniqueRows(l.files) && Performed(l, op, moveFiles, fault, now).1.WriteFailed?
    ensures var after, moves := Performed(l, op, moveFiles, fault, now).0, Plan(l.files, op, moveFiles);
      && after.paper == l.paper && after.files == l.files
      && (after == l <==> forall i :: 0 <= i < |moves| ==> moves[i].src == moves[i].dst)
  {
    OutcomeExact(l, op, moveFiles, fault, now);
    PlanDistinct(l.files, op, moveFiles);
    MovesTell(l.disk, Plan(l.files, op, moveFiles));
  }

  /** One file whose paper could not be saved as deleted: the rows still name its originals path, the
      file is in the trash. */
  lemma CommitFailureLeavesFileInTrash(now: int)
    ensures var id, content := FileId(1), Content("pdf");
      var l := Library(map[Originals(id) := content], Some(PaperRow(Active, None)),
        [FileRow(id, Some(Originals(id)), None)]);
      Performed(l, Delete, true, Fault(None, {}, true), now) == (l.(disk := map[Trash(id) := content]), WriteFailed)
  {
    var id, content := FileId(1), Content("pdf");
    var l := Library(map[Originals(id) := content], Some(PaperRow(Active, None)),
      [FileRow(id, Some(Originals(id)), None)]);
    var m := Move(Originals(id), Trash(id));
    assert l.files[..0] == [];
    assert Plan(l.files, Delete, true) == Plan([], Delete, true) + [m] == [m];
    assert AllPresent(l.disk, [m]);
    MovedOnce(l.disk, m);
    hide Moved, Forward, Plan, Progress;
    assert Moved(l.disk, m) == map[Trash(id) := content] by { OneFileMoved(id, content); }
  }

  lemma OneFileMoved(id: FileId, content: Content)
    ensures Moved(map[Originals(id) := content], Move(Originals(id), Trash(id))) == map[Trash(id) := content]
  {
  }

  /** A single move that does not raise. */
  lemma MovedOnce(d: Disk, m: Move)
    requires m.src in d
    ensures Progress(d, [m], None, 0) == 1 && Forward(d, [m][..1]) == Moved(d, m)
  {
    assert [m][..1] == [m] && [m][..0] == [];
    hide Moved;
    assert Progress(Moved(d, m), [m], None, 1) == 1;
  }

  // ------------------------------------------------------------ delete, then restore

  /** What moving present files to fresh places does to one path. */
  lemma {:induction false} FreshAt(d: Disk, moves: seq<Move>, p: Path)
    requires FreshPlan(d, moves)
    ensures p in Forward(d, moves) <==> (p in d && !Sources(moves, p)) || Targets(moves, p)
    ensures p in d && !Sources(moves, p) ==> Forward(d, moves)[p] == d[p]
  {
    if moves != [] {
      var n := |moves| - 1;
      EndsStep(moves, p);
      FreshAt(d, moves[..n], p);
      Survives(d, moves[..n], moves[n].src);
      hide Forward, Sources, Targets;
      ForwardStep(d, moves);
    }
  }

  lemma {:induction false} FreshContent(d: Disk, moves: seq<Move>, i: nat)
    requires FreshPlan(d, moves) && i < |moves|
    ensures moves[i].dst in Forward(d, moves) && Forward(d, moves)[moves[i].dst] == d[moves[i].src]
  {
    var n := |moves| - 1;
    if i == n {
      FreshAt(d, moves[..n], moves[n].src);
      assert !Sources(moves[..n], moves[n].src);
    } else {
      FreshContent(d, moves[..n], i);
      hide Forward;
      ForwardStep(d, moves);
    }
  }

  lemma ForwardStep(d: Disk, moves: seq<Move>)
    requires moves != []
    ensures Forward(d, moves) == Moved(Forward(d, moves[..|moves| - 1]), moves[|moves| - 1])
  {
  }

  predicate FreshPlan(d: Disk, moves: seq<Move>) {
    && AllPresent(d, moves) && DistinctSources(moves) && DistinctTargets(moves)
    && forall i :: 0 <= i < |moves| ==> moves[i].dst !in d
  }

  lemma BackIsFresh(d: Disk, moves: seq<Move>, back: seq<Move>)
    requires FreshPlan(d, moves) && |back| == |moves| && forall i :: 0 <= i < |moves| ==> back[i] == Back(moves[i])
    ensures FreshPlan(Forward(d, moves), back)
  {
    hide Forward;
    forall i | 0 <= i < |back| ensures back[i].src in Forward(d, moves) && back[i].dst !in Forward(d, moves) {
      FreshContent(d, moves, i);
      FreshAt(d, moves, moves[i].src);
    }
  }

  /** Moving files to fresh places and back gives the disk one started from. */
  lemma BackAgain(d: Disk, moves: seq<Move>, back: seq<Move>)
    requires FreshPlan(d, moves) && |back| == |moves| && forall i :: 0 <= i < |moves| ==> back[i] == Back(moves[i])
    ensures Forward(Forward(d, moves), back) == d
  {
    BackIsFresh(d, moves, back);
    hide Forward, FreshPlan;
    var away := Forward(d, moves);
    var home := Forward(away, back);
    forall p ensures p in home <==> p in d {
      FreshAt(away, back, p);
      FreshAt(d, moves, p);
      BackEnds(moves, back, p);
      SourcesPresent(d, moves, p);
    }
    forall p | p in d ensures home[p] == d[p] {
      FreshAt(away, back, p);
      FreshAt(d, moves, p);
      BackEnds(moves, back, p);
      SourcesPresent(d, moves, p);
      if i :| 0 <= i < |moves| && moves[i].src == p {
        FreshContent(d, moves, i);
        FreshContent(away, back, i);
      }
    }
  }

  lemma BackEnds(moves: seq<Move>, back: seq<Move>, p: Path)
    requires |back| == |moves| && forall i :: 0 <= i < |moves| ==> back[i] == Back(moves[i])
    ensures Sources(back, p) <==> Targets(moves, p)
    ensures Targets(back, p) <==> Sources(moves, p)
  {
    if i :| 0 <= i < |moves| && moves[i].src == p { assert back[i].dst == p; }
    if i :| 0 <= i < |moves| && moves[i].dst == p { assert back[i].src == p; }
  }

  lemma SourcesPresent(d: Disk, moves: seq<Move>, p: Path)
    requires FreshPlan(d, moves)
    ensures Sources(moves, p) ==> p in d
    ensures Targets(moves, p) ==> p !in d
  {
  }

  /** A live row whose file, if it has one, sits at its originals path with its trash path free. */
  predicate RowAtHome(d: Disk, f: FileRow) {
    f.deletedAt.None? && (f.path.Some? ==> f.path.value == Originals(f.id) && Trash(f.id) !in d)
  }

  predicate AtHome(l: Library) {
    l.paper == Some(PaperRow(Active, None)) && forall i :: 0 <= i < |l.files| ==> RowAtHome(l.disk, l.files[i])
  }

  lemma {:induction false} RestorePlanIsBack(d: Disk, files: seq<FileRow>, now: int)
    requires forall i :: 0 <= i < |files| ==> RowAtHome(d, files[i])
    ensures var moves, back := Plan(files, Delete, true), Plan(RowsAfter(files, Delete, true, now), Restore, true);
      |back| == |moves| && forall i :: 0 <= i < |moves| ==> back[i] == Back(moves[i])
  {
    if files != [] {
      var n := |files| - 1;
      assert RowAtHome(d, files[n]);
      RestorePlanIsBack(d, files[..n], now);
      var rows := RowsAfter(files, Delete, true, now);
      assert rows[..n] == RowsAfter(files[..n], Delete, true, now);
    }
  }

  lemma HomePlanFresh(d: Disk, files: seq<FileRow>)
    requires UniqueRows(files) && AllPresent(d, Plan(files, Delete, true))
    requires forall i :: 0 <= i < |files| ==> RowAtHome(d, files[i])
    ensures FreshPlan(d, Plan(files, Delete, true))
  {
    hide Plan;
    PlanDistinct(files, Delete, true);
    forall i | 0 <= i < |Plan(files, Delete, true)| ensures Plan(files, Delete, true)[i].dst !in d {
      var k := PlanBelongs(files, Delete, true, i);
      assert RowAtHome(d, files[k]);
    }
  }

  lemma RowsReturn(files: seq<FileRow>, now: int, later: int)
    ensures RowsAfter(RowsAfter(files, Delete, true, now), Restore, true, later) == files <==>
      forall i :: 0 <= i < |files| ==>
        files[i].deletedAt.None? && (files[i].path.Some? ==> files[i].path.value == Originals(files[i].id))
  {
    var gone := RowsAfter(files, Delete, true, now);
    var back := RowsAfter(gone, Restore, true, later);
    forall i | 0 <= i < |files|
      ensures back[i] == files[i]
        <==> files[i].deletedAt.None? && (files[i].path.Some? ==> files[i].path.value == Originals(files[i].id))
    {
      assert gone[i] == RowAfter(files[i], Delete, true, now);
      assert back[i] == RowAfter(gone[i], Restore, true, later);
    }
  }

  lemma HomeMoves(d: Disk, files: seq<FileRow>, now: int)
    requires UniqueRows(files) && AllPresent(d, Plan(files, Delete, true))
    requires forall i :: 0 <= i < |files| ==> RowAtHome(d, files[i])
    ensures var away, back :=
      Forward(d, Plan(files, Delete, true)), Plan(RowsAfter(files, Delete, true, now), Restore, true);
      FreshPlan(away, back) && Forward(away, back) == d
  {
    HomePlanFresh(d, files);
    RestorePlanIsBack(d, files, now);
    hide Plan, Forward, RowsAfter, FreshPlan;
    var moves, back := Plan(files, Delete, true), Plan(RowsAfter(files, Delete, true, now), Restore, true);
    BackIsFresh(d, moves, back);
    BackAgain(d, moves, back);
  }

  lemma HomeReturns(l: Library, now: int, later: int)
    requires UniqueRows(l.files) && AllPresent(l.disk, Plan(l.files, Delete, true)) && AtHome(l)
    ensures var gone :=
      Library(Forward(l.disk, Plan(l.files, Delete, true)), Some(PaperRow(Deleted, Some(now))),
      RowsAfter(l.files, Delete, true, now));
      Performed(gone, Restore, true, NO_FAULT, later) == (l, Done)
  {
    var gone := Library(Forward(l.disk, Plan(l.files, Delete, true)), Some(PaperRow(Deleted, Some(now))),
      RowsAfter(l.files, Delete, true, now));
    HomeRows(l, now, later);
    HomeMoves(l.disk, l.files, now);
    hide *;
    FreshRestore(gone, later);
  }

  lemma HomeRows(l: Library, now: int, later: int)
    requires AtHome(l)
    ensures l.paper == Some(PaperRow(Active, None)) && forall i :: 0 <= i < |l.files| ==> RowAtHome(l.disk, l.files[i])
    ensures RowsAfter(RowsAfter(l.files, Delete, true, now), Restore, true, later) == l.files
  {
    hide RowsAfter;
    RowsReturn(l.files, now, later);
  }

  /** A restore to free places goes through. */
  lemma FreshRestore(l: Library, later: int)
    requires l.paper.Some? && l.paper.value.status.Deleted? && FreshPlan(l.disk, Plan(l.files, Restore, true))
    ensures var back := Plan(l.files, Restore, true);
      Performed(l, Restore, true, NO_FAULT, later)
        == (Library(Forward(l.disk, back), Some(PaperRow(Active, None)), RowsAfter(l.files, Restore, true, later)),
          Done)
  {
    hide Plan, Forward, RowsAfter, Undone, Progress, FreshPlan, AllPresent;
    var back := Plan(l.files, Restore, true);
    FreshProgress(l.disk, back);
    assert back[..|back|] == back;
  }

  lemma FreshProgress(d: Disk, moves: seq<Move>)
    requires FreshPlan(d, moves)
    ensures AllPresent(d, moves) && Progress(d, moves, None, 0) == |moves|
  {
    PresentSucceed(d, moves);
    assert moves[..0] == [];
    ProgressExact(d, moves, None, 0);
  }

  lemma {:induction false} PlanHas(files: seq<FileRow>, op: Op, moveFiles: bool, k: nat) returns (i: nat)
    requires k < |files| && MoveOf(files[k], op, moveFiles).Some?
    ensures i < |Plan(files, op, moveFiles)| && Plan(files, op, moveFiles)[i] == MoveOf(files[k], op, moveFiles).value
  {
    var n := |files| - 1;
    if k == n {
      i := |Plan(files[..n], op, moveFiles)|;
    } else {
      i := PlanHas(files[..n], op, moveFiles, k);
    }
  }

  /** An occupied trash path loses its file for good, whatever is restored later. */
  lemma OccupiedTrashLoses(l: Library, k: nat)
    requires UniqueRows(l.files) && AllPresent(l.disk, Plan(l.files, Delete, true)) && k < |l.files|
    requires forall i :: 0 <= i < |l.files| ==>
      l.files[i].deletedAt.None? && (l.files[i].path.Some? ==> l.files[i].path.value == Originals(l.files[i].id))
    requires l.files[k].path.Some? && Trash(l.files[k].id) in l.disk
    ensures |Forward(l.disk, Plan(l.files, Delete, true))| < |l.disk|
  {
    hide Plan, Forward, Overwrites;
    var moves := Plan(l.files, Delete, true);
    var i := PlanHas(l.files, Delete, true, k);
    PlanDistinct(l.files, Delete, true);
    FreeExact(l.disk, moves, i);
    forall j | 0 <= j < i ensures moves[j].src != moves[i].dst {
      var row := PlanBelongs(l.files, Delete, true, j);
    }
    ForwardCount(l.disk, moves);
  }

  /** Main result: deleting and then restoring a paper gives back the disk, the paths and the marks
      exactly when the paper was active, all its files live at their originals paths, and no trash
      path of them was taken. */
  lemma RoundTripExact(l: Library, now: int, later: int)
    requires UniqueRows(l.files) && l.paper.Some? && AllPresent(l.disk, Plan(l.files, Delete, true))
    ensures var (gone, outcome) := Performed(l, Delete, true, NO_FAULT, now);
      outcome.Done? && (Performed(gone, Restore, true, NO_FAULT, later) == (l, Done) <==> AtHome(l))
  {
    OutcomeExact(l, Delete, true, NO_FAULT, now);
    var (gone, outcome) := Performed(l, Delete, true, NO_FAULT, now);
    assert gone == Library(Forward(l.disk, Plan(l.files, Delete, true)), Some(PaperRow(Deleted, Some(now))),
      RowsAfter(l.files, Delete, true, now));
    if AtHome(l) {
      HomeReturns(l, now, later);
    } else if Performed(gone, Restore, true, NO_FAULT, later) == (l, Done) {
      ReturnedIsHome(l, gone, now, later);
    }
  }

  lemma ReturnedIsHome(l: Library, gone: Library, now: int, later: int)
    requires UniqueRows(l.files) && l.paper.Some? && AllPresent(l.disk, Plan(l.files, Delete, true))
    requires gone == Library(Forward(l.disk, Plan(l.files, Delete, true)), Some(PaperRow(Deleted, Some(now))),
      RowsAfter(l.files, Delete, true, now))
    requires Performed(gone, Restore, true, NO_FAULT, later) == (l, Done)
    ensures AtHome(l)
  {
    RowsReturn(l.files, now, later);
    hide Plan, Forward, RowsAfter, Undone, Progress;
    var back := Plan(gone.files, Restore, true);
    var k := Progress(gone.disk, back, None, 0);
    ForwardCount(gone.disk, back[..k]);
    forall i | 0 <= i < |l.files| ensures RowAtHome(l.disk, l.files[i]) {
      if l.files[i].path.Some? && Trash(l.files[i].id) in l.disk {
        OccupiedTrashLoses(l, i);
      }
    }
  }

  // ------------------------------------------------------------ what an operation refuses and leaves

  /** The file takes part and has to move: into the trash unless it is marked already, or out of it. */
  predicate MustMove(f: FileRow, op: Op, moveFiles: bool) {
    && moveFiles && f.path.Some?
    && match op
       case Delete => f.deletedAt.None?
       case Restore => f.path.value.Trash? || f.path.value.OtherTrash?
  }

  lemma {:induction false} PlannedExactly(files: seq<FileRow>, op: Op, moveFiles: bool, p: Path)
    ensures (exists i :: 0 <= i < |Plan(files, op, moveFiles)| && Plan(files, op, moveFiles)[i].src == p) <==>
      exists k :: 0 <= k < |files| && MustMove(files[k], op, moveFiles) && files[k].path == Some(p)
  {
    if files != [] {
      var n := |files| - 1;
      PlannedExactly(files[..n], op, moveFiles, p);
      var before, all := Plan(files[..n], op, moveFiles), Plan(files, op, moveFiles);
      if k :| 0 <= k < |files| && MustMove(files[k], op, moveFiles) && files[k].path == Some(p) {
        if k < n {
          assert files[..n][k] == files[k];
          var i :| 0 <= i < |before| && before[i].src == p;
          assert all[i].src == p;
        } else {
          assert all[|before|].src == p;
        }
      }
      if i :| 0 <= i < |all| && all[i].src == p {
        if i < |before| {
          assert before[i].src == p;
          var k :| 0 <= k < n && MustMove(files[..n][k], op, moveFiles) && files[..n][k].path == Some(p);
          assert files[k].path == Some(p);
        } else {
          assert files[n].path == Some(p);
        }
      }
    }
  }

  /** A file that has to move is not on the disk. */
  ghost predicate SomeMissing(l: Library, op: Op, moveFiles: bool) {
    exists k :: 0 <= k < |l.files| && MustMove(l.files[k], op, moveFiles) && l.files[k].path.value !in l.disk
  }

  lemma PresentExactly(l: Library, op: Op, moveFiles: bool)
    ensures AllPresent(l.disk, Plan(l.files, op, moveFiles)) <==> !SomeMissing(l, op, moveFiles)
  {
    var moves := Plan(l.files, op, moveFiles);
    hide Plan;
    if k :| 0 <= k < |l.files| && MustMove(l.files[k], op, moveFiles) && l.files[k].path.value !in l.disk {
      PlannedExactly(l.files, op, moveFiles, l.files[k].path.value);
    }
    if i :| 0 <= i < |moves| && moves[i].src !in l.disk {
      PlannedExactly(l.files, op, moveFiles, moves[i].src);
    }
  }

  /** Main result: exactly when an operation is refused, and then nothing changes. */
  lemma RefusedExactly(l: Library, op: Op, moveFiles: bool, fault: Fault, now: int)
    ensures var (after, outcome) := Performed(l, op, moveFiles, fault, now);
      var restorable := l.paper.Some? && (l.paper.value.status.Deleted? || l.paper.value.status.Archived?);
      && (outcome.NotFound? <==> l.paper.None?)
      && (outcome.NotRestorable? <==> l.paper.Some? && op.Restore? && !restorable)
      && (outcome.FileMissing? <==> l.paper.Some? && (op.Restore? ==> restorable) && SomeMissing(l, op, moveFiles))
      && (outcome.NotFound? || outcome.NotRestorable? || outcome.FileMissing? ==> after == l)
  {
    PresentExactly(l, op, moveFiles);
    hide Plan, SomeMissing, Progress, Forward, Undone, RowsAfter;
  }

  /** Main result: the rows an operation leaves when it is done. Deleting stamps the paper and each file not
      stamped before, restoring clears them; a moved file is named at its new place. */
  lemma DoneRowsExactly(l: Library, op: Op, moveFiles: bool, fault: Fault, now: int)
    requires Performed(l, op, moveFiles, fault, now).1.Done?
    ensures var after := Performed(l, op, moveFiles, fault, now).0;
      && after.paper == Some(if op.Delete? then PaperRow(Deleted, Some(now)) else PaperRow(Active, None))
      && |after.files| == |l.files|
      && forall i :: 0 <= i < |l.files| ==>
        var x, y := l.files[i], after.files[i];
        && y.id == x.id
        && y.path == (if !MustMove(x, op, moveFiles) then x.path
                      else match op case Delete => Some(Trash(x.id)) case Restore => Some(Originals(x.id)))
        && y.deletedAt == (match op
                           case Delete => if x.deletedAt.None? then Some(now) else x.deletedAt
                           case Restore => None)
  {
    hide Plan, Progress, Forward, Undone;
  }

  predicate FreshTargets(d: Disk, moves: seq<Move>) {
    && AllPresent(d, moves) && DistinctSources(moves) && DistinctTargets(moves)
    && forall i :: 0 <= i < |moves| ==> moves[i].dst !in d
  }

  lemma FreshPrefix(d: Disk, moves: seq<Move>, n: nat)
    requires FreshTargets(d, moves) && n <= |moves|
    ensures FreshTargets(d, moves[..n])
  {
  }

  lemma {:induction false} FreshElsewhere(d: Disk, moves: seq<Move>, p: Path)
    requires FreshTargets(d, moves) && p in d && forall i :: 0 <= i < |moves| ==> moves[i].src != p
    ensures p in Forward(d, moves) && Forward(d, moves)[p] == d[p]
  {
    if moves != [] {
      var n := |moves| - 1;
      FreshPrefix(d, moves, n);
      FreshElsewhere(d, moves[..n], p);
      assert moves[n].dst !in d;
    }
  }

  lemma {:induction false} FreshMoved(d: Disk, moves: seq<Move>, i: nat)
    requires FreshTargets(d, moves) && i < |moves|
    ensures moves[i].dst in Forward(d, moves) && Forward(d, moves)[moves[i].dst] == d[moves[i].src]
    ensures moves[i].src !in Forward(d, moves)
  {
    var n := |moves| - 1;
    FreshPrefix(d, moves, n);
    assert moves[n].dst !in d && moves[n].src in d && moves[i].dst !in d && moves[i].src in d;
    if i < n {
      FreshMoved(d, moves[..n], i);
    } else {
      FreshElsewhere(d, moves[..n], moves[n].src);
    }
  }

  /** Main result: the disk an operation with free targets leaves when it is done: every file that had to move
      lies at its new place with its content and no longer at the old one; every other file stays. */
  lemma DoneDiskExactly(l: Library, op: Op, moveFiles: bool, fault: Fault, now: int)
    requires UniqueRows(l.files) && Performed(l, op, moveFiles, fault, now).1.Done?
    requires forall i :: 0 <= i < |l.files| ==> Target(op, l.files[i].id) !in l.disk
    ensures var after := Performed(l, op, moveFiles, fault, now).0;
      && (forall k :: 0 <= k < |l.files| && MustMove(l.files[k], op, moveFiles) ==>
          var src, id := l.files[k].path.value, l.files[k].id;
          var dst := if op.Delete? then Trash(id) else Originals(id);
          src in l.disk && dst in after.disk && after.disk[dst] == l.disk[src] && src !in after.disk)
      && (forall p :: p in l.disk && (forall k :: 0 <= k < |l.files| && MustMove(l.files[k], op, moveFiles) ==>
            l.files[k].path != Some(p)) ==>
          p in after.disk && after.disk[p] == l.disk[p])
  {
    RefusedExactly(l, op, moveFiles, fault, now);
    PresentExactly(l, op, moveFiles);
    OutcomeExact(l, op, moveFiles, fault, now);
    PlanFresh(l, op, moveFiles);
    var moves, after := Plan(l.files, op, moveFiles), Performed(l, op, moveFiles, fault, now).0;
    hide *;
    forall k | 0 <= k < |l.files| && MustMove(l.files[k], op, moveFiles)
      ensures var src, id := l.files[k].path.value, l.files[k].id;
        var dst := if op.Delete? then Trash(id) else Originals(id);
        src in l.disk && dst in after.disk && after.disk[dst] == l.disk[src] && src !in after.disk
    {
      MovedExactly(l, op, moveFiles, k);
    }
    forall p | p in l.disk && forall k :: 0 <= k < |l.files| && MustMove(l.files[k], op, moveFiles) ==>
        l.files[k].path != Some(p)
      ensures p in after.disk && after.disk[p] == l.disk[p]
    {
      PlannedExactly(l.files, op, moveFiles, p);
      FreshElsewhere(l.disk, moves, p);
    }
  }

  lemma PlanFresh(l: Library, op: Op, moveFiles: bool)
    requires UniqueRows(l.files) && AllPresent(l.disk, Plan(l.files, op, moveFiles))
    requires forall i :: 0 <= i < |l.files| ==> Target(op, l.files[i].id) !in l.disk
    ensures FreshTargets(l.disk, Plan(l.files, op, moveFiles))
  {
    var moves := Plan(l.files, op, moveFiles);
    PlanDistinct(l.files, op, moveFiles);
    hide Plan;
    forall i | 0 <= i < |moves| ensures moves[i].dst !in l.disk {
      var k := PlanBelongs(l.files, op, moveFiles, i);
    }
  }

  lemma MovedExactly(l: Library, op: Op, moveFiles: bool, k: nat)
    requires UniqueRows(l.files) && FreshTargets(l.disk, Plan(l.files, op, moveFiles))
    requires k < |l.files| && MustMove(l.files[k], op, moveFiles)
    ensures l.files[k].path.Some?
    ensures var src, e := l.files[k].path.value, Forward(l.disk, Plan(l.files, op, moveFiles));
      var dst := if op.Delete? then Trash(l.files[k].id) else Originals(l.files[k].id);
      src in l.disk && dst in e && e[dst] == l.disk[src] && src !in e
  {
    hide Plan, Forward;
    var moves := Plan(l.files, op, moveFiles);
    var src := l.files[k].path.value;
    PlannedExactly(l.files, op, moveFiles, src);
    var i :| 0 <= i < |moves| && moves[i].src == src;
    var j := PlanBelongs(l.files, op, moveFiles, i);
    assert j == k;
    FreshMoved(l.disk, moves, i);
  }
}
