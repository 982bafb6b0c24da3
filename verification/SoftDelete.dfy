/** Deleting a paper into the trash and restoring it: file moves on disk with compensation, and the
    rows that name the files (src/transit_scholar/identity/service.py:637-866). */
module SoftDelete {
  import opened Prelude

  datatype PaperStatus = Active | DuplicatePending | Archived | Deleted

  datatype FileId = FileId(n: nat)

  /** A path under the data root: a file's place in the library, its place in the trash, or any other. */
  datatype Path = Originals(id: FileId) | Trash(id: FileId) | OtherTrash(name: string) | Elsewhere(name: string)

  predicate InTrash(p: Path) { p.Trash? || p.OtherTrash? }

  datatype Content = Content(bytes: string)

  type Disk = map<Path, Content>

  datatype FileRow = FileRow(id: FileId, path: Option<Path>, deletedAt: Option<int>)

  datatype PaperRow = PaperRow(status: PaperStatus, deletedAt: Option<int>)

  /** One paper's rows, its files in query order, and the disk. */
  datatype Library = Library(disk: Disk, paper: Option<PaperRow>, files: seq<FileRow>)

  datatype Op = Delete | Restore

  /** What goes wrong from outside: the move that raises, the compensating moves that raise (numbered by
      the move they undo), and whether the final commit fails. */
  datatype Fault = Fault(moveAt: Option<nat>, stuck: set<nat>, commit: bool)

  const NO_FAULT := Fault(None, {}, false)

  datatype Outcome = NotFound | NotRestorable | FileMissing | MoveFailed | WriteFailed | Done

  // ------------------------------------------------------------ moving files

  datatype Move = Move(src: Path, dst: Path)

  /** shutil.move: raises without a source, overwrites its destination, and onto itself does nothing. */
  function Moved(d: Disk, m: Move): Disk {
    if m.src !in d || m.src == m.dst then d else d[m.dst := d[m.src]] - {m.src}
  }

  function Forward(d: Disk, moves: seq<Move>): Disk {
    if moves == [] then d else Moved(Forward(d, moves[..|moves| - 1]), moves[|moves| - 1])
  }

  function Undone(d: Disk, moves: seq<Move>, stuck: set<nat>): Disk
    decreases |moves|
  {
    if moves == [] then d
    else
      var n, m := |moves| - 1, moves[|moves| - 1];
      Undone(if n in stuck then d else Moved(d, Move(m.dst, m.src)), moves[..n], stuck)
  }

  /** How many of the moves are made before the loop ends or a move raises. */
  function Progress(d: Disk, moves: seq<Move>, fault: Option<nat>, done: nat): (k: nat)
    requires done <= |moves|
    ensures done <= k <= |moves|
    decreases |moves| - done
  {
    if done == |moves| || fault == Some(done) || moves[done].src !in d then done
    else Progress(Moved(d, moves[done]), moves, fault, done + 1)
  }

  // ------------------------------------------------------------ the two operations

  predicate Selected(f: FileRow, op: Op) { op.Restore? || f.deletedAt.None? }

  function MoveOf(f: FileRow, op: Op, moveFiles: bool): Option<Move> {
    if !moveFiles || !Selected(f, op) || f.path.None? then None
    else match op
      case Delete => Some(Move(f.path.value, Trash(f.id)))
      case Restore => if InTrash(f.path.value) then Some(Move(f.path.value, Originals(f.id))) else None
  }

  function Plan(files: seq<FileRow>, op: Op, moveFiles: bool): seq<Move> {
    if files == [] then []
    else
      var n := |files| - 1;
      Plan(files[..n], op, moveFiles)
      + (match MoveOf(files[n], op, moveFiles) case Some(m) => [m] case None => [])
  }

  function RowAfter(f: FileRow, op: Op, moveFiles: bool, now: int): FileRow {
    if !Selected(f, op) then f
    else
      FileRow(f.id,
              match MoveOf(f, op, moveFiles) case Some(m) => Some(m.dst) case None => f.path,
              if op.Delete? then Some(now) else None)
  }

  function RowsAfter(files: seq<FileRow>, op: Op, moveFiles: bool, now: int): (rows: seq<FileRow>)
    ensures |rows| == |files|
    ensures forall i :: 0 <= i < |files| ==> rows[i] == RowAfter(files[i], op, moveFiles, now)
  {
    if files == [] then []
      else RowsAfter(files[..|files| - 1], op, moveFiles, now) + [RowAfter(files[|files| - 1], op, moveFiles, now)]
  }

  /** Every source is checked before anything is moved. */
  predicate AllPresent(d: Disk, moves: seq<Move>) { forall i :: 0 <= i < |moves| ==> moves[i].src in d }

  function Performed(l: Library, op: Op, moveFiles: bool, fault: Fault, now: int): (Library, Outcome) {
    if l.paper.None? then (l, NotFound)
    else if op.Restore? && !l.paper.value.status.Deleted? && !l.paper.value.status.Archived? then (l, NotRestorable)
    else
      var moves := Plan(l.files, op, moveFiles);
      if !AllPresent(l.disk, moves) then (l, FileMissing)
      else
        var k := Progress(l.disk, moves, fault.moveAt, 0);
        var moved := Forward(l.disk, moves[..k]);
        if k < |moves| then (l.(disk := Undone(moved, moves[..k], fault.stuck)), MoveFailed)
        else if fault.commit then (l.(disk := moved), WriteFailed)
        else (Library(moved, Some(if op.Delete? then PaperRow(Deleted, Some(now)) else PaperRow(Active, None)),
          RowsAfter(l.files, op, moveFiles, now)), Done)
  }

  class PaperLibrary {
    var disk: Disk
    var paper: Option<PaperRow>
    var files: seq<FileRow>

    ghost function Now(): Library
      reads this
    {
      Library(disk, paper, files)
    }

    method Preflight(op: Op, moveFiles: bool) returns (present: bool)
      ensures present <==> AllPresent(disk, Plan(files, op, moveFiles))
    {
      present := true;
      for i := 0 to |files|
        invariant present <==> AllPresent(disk, Plan(files[..i], op, moveFiles))
      {
        PlanStep(files, i, op, moveFiles);
        var m := MoveOf(files[i], op, moveFiles);
        ghost var plan := Plan(files[..i], op, moveFiles);
        if m.Some? {
          PresentSnoc(disk, plan, m.value);
          if m.value.src !in disk { present := false; }
        } else {
          assert plan + [] == plan;
        }
      }
      assert files[..|files|] == files;
    }

    /** The loop of the moves, and of the row updates that a rollback will drop. */
    method MoveAll(op: Op, moveFiles: bool, fault: Option<nat>, now: int) returns (failed: bool, completed: seq<Move>,
        rows: seq<FileRow>)
      modifies this`disk
      ensures var moves := Plan(files, op, moveFiles);
        var k := Progress(old(disk), moves, fault, 0);
        && completed == moves[..k] && (failed <==> k < |moves|)
        && disk == Forward(old(disk), moves[..k])
        && (!failed ==> rows == RowsAfter(files, op, moveFiles, now))
    {
      hide Plan, RowsAfter, RowAfter, MoveOf, Progress, Forward, Moved;
      ghost var start, moves := disk, Plan(files, op, moveFiles);
      MovesNone(start, files, op, moveFiles, now);
      failed, completed, rows := false, [], [];
      for i := 0 to |files|
        invariant completed == Plan(files[..i], op, moveFiles)
        invariant rows == RowsAfter(files[..i], op, moveFiles, now)
        invariant |completed| <= |moves| && completed == moves[..|completed|]
        invariant disk == Forward(start, completed)
        invariant Progress(start, moves, fault, 0) == Progress(disk, moves, fault, |completed|)
      {
        PlanStep(files, i, op, moveFiles);
        PlanPrefix(files, i + 1, op, moveFiles);
        RowsStep(files, i, op, moveFiles, now);
        ProgressStep(disk, moves, fault, |completed|);
        var m := MoveOf(files[i], op, moveFiles);
        if m.Some? {
          assert moves[..|completed| + 1][|completed|] == moves[|completed|];
          if fault == Some(|completed|) || m.value.src !in disk {
            failed := true;
            return;
          }
          ForwardSnoc(start, completed, m.value);
          disk := Moved(disk, m.value);
          completed := completed + [m.value];
        }
        rows := rows + [RowAfter(files[i], op, moveFiles, now)];
      }
      assert files[..|files|] == files;
      ProgressEnd(disk, moves, fault);
    }

    /** Newest first; a compensating move that raises is recorded and skipped. */
    method Compensate(completed: seq<Move>, stuck: set<nat>)
      modifies this`disk
      ensures disk == Undone(old(disk), completed, stuck)
    {
      var n := |completed|;
      assert completed[..n] == completed;
      while n > 0
        invariant n <= |completed|
        invariant Undone(old(disk), completed, stuck) == Undone(disk, completed[..n], stuck)
      {
        n := n - 1;
        assert completed[..n + 1][..n] == completed[..n];
        if n !in stuck { disk := Moved(disk, Move(completed[n].dst, completed[n].src)); }
      }
    }

    method SoftDeletePaper(moveFiles: bool, fault: Fault, now: int) returns (outcome: Outcome)
      modifies this
      ensures (Now(), outcome) == Performed(old(Now()), Delete, moveFiles, fault, now)
    {
      hide Plan, Progress, Forward, Undone, RowsAfter, AllPresent;
      if paper.None? { return NotFound; }
      var present := Preflight(Delete, moveFiles);
      if !present { return FileMissing; }
      var failed, completed, rows := MoveAll(Delete, moveFiles, fault.moveAt, now);
      if failed {
        Compensate(completed, fault.stuck);
        return MoveFailed;
      }
      if fault.commit { return WriteFailed; }
      paper, files := Some(PaperRow(Deleted, Some(now))), rows;
      outcome := Done;
    }

    method RestorePaper(moveFiles: bool, fault: Fault, now: int) returns (outcome: Outcome)
      modifies this
      ensures (Now(), outcome) == Performed(old(Now()), Restore, moveFiles, fault, now)
    {
      hide Plan, Progress, Forward, Undone, RowsAfter, AllPresent;
      if paper.None? { return NotFound; }
      if !paper.value.status.Deleted? && !paper.value.status.Archived? { return NotRestorable; }
      var present := Preflight(Restore, moveFiles);
      if !present { return FileMissing; }
      var failed, completed, rows := MoveAll(Restore, moveFiles, fault.moveAt, now);
      if failed {
        Compensate(completed, fault.stuck);
        return MoveFailed;
      }
      if fault.commit { return WriteFailed; }
      paper, files := Some(PaperRow(Active, None)), rows;
      outcome := Done;
    }
  }

  lemma PresentSnoc(d: Disk, plan: seq<Move>, m: Move)
    ensures AllPresent(d, plan + [m]) <==> AllPresent(d, plan) && m.src in d
  {
    assert (plan + [m])[|plan|] == m;
    assert forall j :: 0 <= j < |plan| ==> (plan + [m])[j] == plan[j];
  }

  lemma ForwardSnoc(d: Disk, moves: seq<Move>, m: Move)
    ensures Forward(d, moves + [m]) == Moved(Forward(d, moves), m)
  {
    assert (moves + [m])[..|moves|] == moves;
  }

  lemma ProgressStep(d: Disk, moves: seq<Move>, fault: Option<nat>, done: nat)
    requires done <= |moves|
    ensures done < |moves| && fault != Some(done) && moves[done].src in d ==>
      Progress(d, moves, fault, done) == Progress(Moved(d, moves[done]), moves, fault, done + 1)
    ensures done < |moves| && (fault == Some(done) || moves[done].src !in d) ==> Progress(d, moves, fault, done) == done
  {
  }

  lemma ProgressEnd(d: Disk, moves: seq<Move>, fault: Option<nat>)
    ensures Progress(d, moves, fault, |moves|) == |moves|
  {
  }

  lemma MovesNone(d: Disk, files: seq<FileRow>, op: Op, moveFiles: bool, now: int)
    ensures Plan(files[..0], op, moveFiles) == [] && RowsAfter(files[..0], op, moveFiles, now) == []
      && Forward(d, []) == d
  {
  }

  lemma RowsStep(files: seq<FileRow>, i: nat, op: Op, moveFiles: bool, now: int)
    requires i < |files|
    ensures RowsAfter(files[..i + 1], op, moveFiles, now)
      == RowsAfter(files[..i], op, moveFiles, now) + [RowAfter(files[i], op, moveFiles, now)]
  {
    assert files[..i + 1][..i] == files[..i];
  }

  lemma PlanStep(files: seq<FileRow>, i: nat, op: Op, moveFiles: bool)
    requires i < |files|
    ensures Plan(files[..i + 1], op, moveFiles) ==
      Plan(files[..i], op, moveFiles) + (match MoveOf(files[i], op, moveFiles) case Some(m) => [m] case None => [])
  {
    assert files[..i + 1][..i] == files[..i];
  }

  lemma {:induction false} PlanPrefix(files: seq<FileRow>, i: nat, op: Op, moveFiles: bool)
    requires i <= |files|
    ensures var part, all := Plan(files[..i], op, moveFiles), Plan(files, op, moveFiles);
      |part| <= |all| && part == all[..|part|]
    decreases |files| - i
  {
    if i == |files| {
      assert files[..i] == files;
    } else {
      PlanPrefix(files, i + 1, op, moveFiles);
      PlanStep(files, i, op, moveFiles);
    }
  }
}
