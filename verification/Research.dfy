/** Research runs and the conversation turns that wait for them: preparing, executing, pausing,
    resuming, crashing and the repair at startup (src/transit_scholar/product/research.py).
    Each operation here is one committed transaction; a crash falls between two of them. */
module Research {
  import opened Prelude

  datatype RunId = RunId(n: nat)

  datatype TurnId = TurnId(n: nat)

  datatype Artifact = Artifact(text: string)

  datatype RunStatus = Created | Running | Paused | Completed | Failed | Cancelled

  datatype TurnStatus = Preparing | Answering | Answered | Broken

  datatype TurnError = ExecutionFailed | AdmissionInterrupted | RecoveryFailed

  /** A conversation turn; Answering, Answered and Broken are stored as running, completed and failed. */
  datatype Turn = Turn(run: Option<RunId>, status: TurnStatus, answer: Option<Artifact>, error: Option<TurnError>)

  datatype Store = Store(runs: map<RunId, RunStatus>, turns: map<TurnId, Turn>)

  predicate Terminal(status: RunStatus) { status.Completed? || status.Failed? || status.Cancelled? }

  predicate Unfinished(turn: Turn) { turn.status.Preparing? || turn.status.Answering? }

  // ------------------------------------------------------------ one execution

  /** The status a runtime reports in its result. */
  datatype Report = Done(answer: Option<Artifact>) | ReportFailed | Terminated | ReportCancelled | Other

  datatype Outcome = Returned(report: Report) | Raised

  predicate Settles(report: Report) { !report.Other? }

  function BrokenTurn(turn: Turn, error: TurnError): Turn { turn.(status := Broken, error := Some(error)) }

  /** `_execute` up to its first commit. */
  function Begun(s: Store, run: RunId): Store {
    Store(s.runs[run := Running],
          map t | t in s.turns ::
            if s.turns[t].run == Some(run) && s.turns[t].status.Preparing? then s.turns[t].(status := Answering)
            else s.turns[t])
  }

  /** The status `_execute` commits once the runtime has returned or raised. */
  function FinalStatus(status: RunStatus, outcome: Outcome): RunStatus {
    if Terminal(status) then status
    else match outcome
      case Raised => Failed
      case Returned(Done(_)) => Completed
      case Returned(ReportFailed) | Returned(Terminated) => Failed
      case Returned(ReportCancelled) => Cancelled
      case Returned(Other) => status
  }

  /** What the linked turn is told afterwards; after an exception a completed run tells it nothing. */
  function Projection(status: RunStatus, outcome: Outcome): Option<Report> {
    match outcome
    case Returned(report) => Some(report)
    case Raised => if status.Completed? then None else if status.Cancelled? then Some(ReportCancelled)
      else Some(ReportFailed)
  }

  function SyncedTurn(turn: Turn, report: Report): Turn {
    match report
    case Done(answer) => turn.(status := Answered, answer := answer, error := None)
    case Other => turn
    case _ => BrokenTurn(turn, ExecutionFailed)
  }

  function Synced(s: Store, run: RunId, report: Report): Store {
    s.(turns := map t | t in s.turns ::
      if s.turns[t].run == Some(run) then SyncedTurn(s.turns[t], report) else s.turns[t])
  }

  // ------------------------------------------------------------ preparing and discarding

  function Prepared(s: Store, turn: TurnId, run: RunId, goalResolved: bool): Store {
    if goalResolved then Store(s.runs[run := Created], s.turns[turn := Turn(Some(run), Preparing, None, None)])
    else s.(turns := s.turns[turn := Turn(None, Broken, None, Some(ExecutionFailed))])
  }

  function Discarded(s: Store, turn: TurnId, run: RunId): Store {
    Store(if run in s.runs && s.runs[run].Created? then s.runs - {run} else s.runs,
          if turn in s.turns && s.turns[turn].run == Some(run) then s.turns - {turn} else s.turns)
  }

  // ------------------------------------------------------------ startup repair

  predicate OnRun(s: Store, t: TurnId) { t in s.turns && s.turns[t].run.Some? && s.turns[t].run.value in s.runs }

  predicate OrphanRow(s: Store, t: TurnId) {
    OnRun(s, t) && s.turns[t].status.Preparing? && s.runs[s.turns[t].run.value].Created?
  }

  predicate Orphan(s: Store, t: TurnId, active: set<RunId>) { OrphanRow(s, t) && s.turns[t].run.value !in active }

  ghost predicate OrphanRun(s: Store, run: RunId, active: set<RunId>) {
    exists t :: Orphan(s, t, active) && s.turns[t].run == Some(run)
  }

  predicate Interrupted(s: Store, run: RunId, active: set<RunId>) {
    run in s.runs && s.runs[run].Running? && run !in active
  }

  ghost function RepairedRun(s: Store, run: RunId, active: set<RunId>): RunStatus
    requires run in s.runs
  {
    if Interrupted(s, run, active) then Paused
    else if OrphanRun(s, run, active) then Failed
    else s.runs[run]
  }

  /** Up to the first commit of `reconcile_interrupted_runs`. */
  ghost function RepairedRuns(s: Store, active: set<RunId>): Store {
    Store(map r | r in s.runs :: RepairedRun(s, r, active),
          map t | t in s.turns ::
            if Orphan(s, t, active) then BrokenTurn(s.turns[t], AdmissionInterrupted) else s.turns[t])
  }

  predicate UnsettledRow(s: Store, t: TurnId) {
    OnRun(s, t) && Unfinished(s.turns[t]) && Terminal(s.runs[s.turns[t].run.value])
  }

  predicate Unsettled(s: Store, t: TurnId, active: set<RunId>) { UnsettledRow(s, t) && s.turns[t].run.value !in active }

  /** artifacts maps a run to its durable final response, where one can be loaded. */
  function SettledTurn(turn: Turn, run: RunId, status: RunStatus, artifacts: map<RunId, Artifact>): Turn {
    if status.Completed? then
      if run in artifacts then turn.(status := Answered, answer := Some(artifacts[run]), error := None)
      else BrokenTurn(turn, RecoveryFailed)
    else BrokenTurn(turn, ExecutionFailed)
  }

  /** From the first to the second commit. */
  function SettledTurns(s: Store, active: set<RunId>, artifacts: map<RunId, Artifact>): Store {
    s.(turns := map t | t in s.turns ::
      if Unsettled(s, t, active)
        then SettledTurn(s.turns[t], s.turns[t].run.value, s.runs[s.turns[t].run.value], artifacts) else s.turns[t])
  }

  ghost function Reconciled(s: Store, active: set<RunId>, artifacts: map<RunId, Artifact>): Store {
    SettledTurns(RepairedRuns(s, active), active, artifacts)
  }

  /** The runs a call reports. */
  ghost predicate Reported(s: Store, run: RunId, active: set<RunId>) {
    || Interrupted(s, run, active)
    || OrphanRun(s, run, active)
    || exists t :: Unsettled(RepairedRuns(s, active), t, active) && RepairedRuns(s, active).turns[t].run == Some(run)
  }

  // ------------------------------------------------------------ the service

  /** At most one turn waits for a run. */
  ghost predicate OneTurnPerRun(s: Store) {
    forall t, u :: t in s.turns && u in s.turns && s.turns[t].run.Some? && s.turns[t].run == s.turns[u].run ==> t == u
  }

  class ResearchService {
    var runs: map<RunId, RunStatus>
    var turns: map<TurnId, Turn>

    ghost function Now(): Store
      reads this
    {
      Store(runs, turns)
    }

    method LinkedTurn(run: RunId) returns (found: Option<TurnId>)
      ensures found.Some? ==> found.value in turns && turns[found.value].run == Some(run)
      ensures found.None? ==> forall t :: t in turns ==> turns[t].run != Some(run)
    {
      if t :| t in turns && turns[t].run == Some(run) {
        found := Some(t);
      } else {
        found := None;
      }
    }

    method PrepareMessage(turn: TurnId, run: RunId, goalResolved: bool)
      requires turn !in turns && run !in runs
      modifies this
      ensures Now() == Prepared(old(Now()), turn, run, goalResolved)
    {
      turns := turns[turn := Turn(None, Preparing, None, None)];
      if goalResolved {
        runs := runs[run := Created];
        turns := turns[turn := turns[turn].(run := Some(run))];
      } else {
        turns := turns[turn := BrokenTurn(turns[turn], ExecutionFailed)];
      }
    }

    /** execute_run starts created runs only, resume_run paused ones only. */
    method Begin(run: RunId, resume: bool) returns (ok: bool)
      requires OneTurnPerRun(Now())
      modifies this
      ensures ok <==> run in old(runs) && (if resume then old(runs)[run].Paused? else old(runs)[run].Created?)
      ensures Now() == if ok then Begun(old(Now()), run) else old(Now())
    {
      ok := run in runs && (if resume then runs[run].Paused? else runs[run].Created?);
      if !ok { return; }
      ghost var s := Now();
      runs := runs[run := Running];
      var linked := LinkedTurn(run);
      if linked.Some? { OnlyLinked(s, linked.value, run); }
      if linked.Some? && turns[linked.value].status.Preparing? {
        turns := turns[linked.value := turns[linked.value].(status := Answering)];
      }
    }

    /** The commit after the runtime has returned or raised. */
    method Finish(run: RunId, outcome: Outcome) returns (projection: Option<Report>)
      requires run in runs
      modifies this`runs
      ensures runs == old(runs)[run := FinalStatus(old(runs)[run], outcome)]
      ensures projection == Projection(FinalStatus(old(runs)[run], outcome), outcome)
    {
      match outcome {
        case Returned(report) =>
          if !Terminal(runs[run]) {
            match report {
              case ReportFailed => runs := runs[run := Failed];
              case Terminated => runs := runs[run := Failed];
              case ReportCancelled => runs := runs[run := Cancelled];
              case Done(_) => runs := runs[run := Completed];
              case Other =>
            }
          }
          projection := Some(report);
        case Raised =>
          if !Terminal(runs[run]) {
            runs := runs[run := Failed];
          }
          projection := match runs[run]
            case Completed => None
            case Cancelled => Some(ReportCancelled)
            case _ => Some(ReportFailed);
      }
    }

    method SyncLinkedTurn(run: RunId, report: Report)
      requires OneTurnPerRun(Now())
      modifies this`turns
      ensures Now() == Synced(old(Now()), run, report)
    {
      hide Synced, OneTurnPerRun;
      var linked := LinkedTurn(run);
      if linked.None? {
        SyncedNone(Now(), run, report);
        return;
      }
      SyncedOne(Now(), linked.value, run, report);
      var turn := turns[linked.value];
      match report {
        case Done(answer) =>
          turns := turns[linked.value := turn.(answer := answer, status := Answered, error := None)];
        case Other =>
        case _ =>
          turns := turns[linked.value := turn.(status := Broken, error := Some(ExecutionFailed))];
      }
    }

    method DiscardPreparedMessage(turn: TurnId, run: RunId)
      modifies this
      ensures Now() == Discarded(old(Now()), turn, run)
    {
      if turn in turns && turns[turn].run == Some(run) { turns := turns - {turn}; }
      if run in runs && runs[run].Created? { runs := runs - {run}; }
    }

    method PauseInterrupted(active: set<RunId>) returns (reconciled: seq<RunId>)
      modifies this`runs
      ensures runs == PausedRuns(old(Now()), old(runs).Keys, active)
      ensures forall r :: r in reconciled <==> Interrupted(old(Now()), r, active)
    {
      hide PausedRuns;
      reconciled := [];
      ghost var s := Now();
      var rows := set r | r in runs && runs[r].Running?;
      var todo := rows;
      NonePaused(s, active);
      assert rows - todo == {};
      while todo != {}
        invariant todo <= rows
        invariant runs == PausedRuns(s, rows - todo, active)
        invariant forall r :: r in reconciled <==> r in rows - todo && r !in active
      {
        var r :| r in todo;
        assert rows - (todo - {r}) == (rows - todo) + {r};
        PauseOneMore(s, rows - todo, r, active);
        if r !in active {
          runs := runs[r := Paused];
          reconciled := reconciled + [r];
        }
        todo := todo - {r};
      }
      assert rows - todo == rows;
      AllPaused(s, rows, active);
    }

    method FailOrphans(active: set<RunId>) returns (reconciled: seq<RunId>)
      modifies this
      ensures Now() == FailedRows(old(Now()), OrphanRows(old(Now())), active)
      ensures forall r :: r in reconciled <==> FailedBy(old(Now()), OrphanRows(old(Now())), r, active)
    {
      hide FailedRows, FailedBy, Orphan;
      reconciled := [];
      ghost var s := Now();
      var rows := OrphanRows(Store(runs, turns));
      var todo := rows;
      NoneFailed(s, active);
      assert rows - todo == {};
      while todo != {}
        invariant todo <= rows == OrphanRows(s)
        invariant Now() == FailedRows(s, rows - todo, active)
        invariant forall r :: r in reconciled <==> FailedBy(s, rows - todo, r, active)
      {
        var t :| t in todo;
        assert rows - (todo - {t}) == (rows - todo) + {t};
        FailOneMore(s, rows - todo, t, active);
        var run := turns[t].run.value;
        if run !in active {
          runs := runs[run := Failed];
          turns := turns[t := BrokenTurn(turns[t], AdmissionInterrupted)];
          reconciled := reconciled + [run];
        }
        todo := todo - {t};
      }
      assert rows - todo == rows;
    }

    /** The first transaction of the startup repair. */
    method RepairRuns(active: set<RunId>) returns (reconciled: seq<RunId>)
      modifies this
      ensures Now() == RepairedRuns(old(Now()), active)
      ensures forall r :: r in reconciled <==> Interrupted(old(Now()), r, active) || OrphanRun(old(Now()), r, active)
    {
      ghost var s := Now();
      var paused := PauseInterrupted(active);
      ghost var mid := Now();
      OrphansUnaffected(s, mid, active);
      AllFailed(mid, active);
      var failed := FailOrphans(active);
      reconciled := paused + failed;
    }

    /** The second transaction: turns of finished runs. */
    method SettleTurns(active: set<RunId>, artifacts: map<RunId, Artifact>) returns (reconciled: seq<RunId>)
      modifies this`turns
      ensures Now() == SettledTurns(old(Now()), active, artifacts)
      ensures forall r ::
        r in reconciled <==> exists t :: Unsettled(old(Now()), t, active) && old(turns)[t].run == Some(r)
    {
      reconciled := [];
      ghost var s := Now();
      var rows := UnsettledRows(Store(runs, turns));
      AllSettled(s, active, artifacts);
      NoneSettled(s, active, artifacts);
      hide SettledRows, SettledBy, Unsettled, SettledTurns, UnsettledRow;
      var todo := rows;
      assert rows - todo == {};
      while todo != {}
        invariant todo <= rows == UnsettledRows(s)
        invariant Now() == SettledRows(s, rows - todo, active, artifacts)
        invariant forall r :: r in reconciled <==> SettledBy(s, rows - todo, r, active)
      {
        var t :| t in todo;
        assert rows - (todo - {t}) == (rows - todo) + {t};
        SettleOneMore(s, rows - todo, t, active, artifacts);
        var run := turns[t].run.value;
        if run !in active {
          if runs[run].Completed? {
            if run in artifacts {
              turns := turns[t := turns[t].(status := Answered, answer := Some(artifacts[run]), error := None)];
            } else {
              turns := turns[t := BrokenTurn(turns[t], RecoveryFailed)];
            }
          } else {
            turns := turns[t := BrokenTurn(turns[t], ExecutionFailed)];
          }
          reconciled := reconciled + [run];
        }
        todo := todo - {t};
      }
      assert rows - todo == rows;
    }

    method Reconcile(active: set<RunId>, artifacts: map<RunId, Artifact>) returns (reconciled: seq<RunId>)
      modifies this
      ensures Now() == Reconciled(old(Now()), active, artifacts)
      ensures forall r :: r in reconciled <==> Reported(old(Now()), r, active)
    {
      hide RepairedRuns, SettledTurns, Interrupted, OrphanRun, Unsettled;
      var repaired := RepairRuns(active);
      var settled := SettleTurns(active, artifacts);
      reconciled := repaired + settled;
    }
  }

  lemma OnlyLinked(s: Store, linked: TurnId, run: RunId)
    requires OneTurnPerRun(s) && linked in s.turns && s.turns[linked].run == Some(run)
    ensures forall t :: t in s.turns && t != linked ==> s.turns[t].run != Some(run)
  {
  }

  lemma SyncedOne(s: Store, linked: TurnId, run: RunId, report: Report)
    requires OneTurnPerRun(s) && linked in s.turns && s.turns[linked].run == Some(run)
    ensures Synced(s, run, report) == s.(turns := s.turns[linked := SyncedTurn(s.turns[linked], report)])
  {
    hide SyncedTurn;
    OnlyLinked(s, linked, run);
  }

  lemma SyncedNone(s: Store, run: RunId, report: Report)
    requires forall t :: t in s.turns ==> s.turns[t].run != Some(run)
    ensures Synced(s, run, report) == s
  {
    hide SyncedTurn;
    assert Synced(s, run, report).turns == s.turns;
  }

  // ------------------------------------------------------------ the loops of the repair

  function OrphanRows(s: Store): set<TurnId> { set t | t in s.turns && OrphanRow(s, t) }

  function UnsettledRows(s: Store): set<TurnId> { set t | t in s.turns && UnsettledRow(s, t) }

  /** The runs once the rows in done are paused. */
  function PausedRuns(s: Store, done: set<RunId>, active: set<RunId>): map<RunId, RunStatus> {
    map r | r in s.runs :: if r in done && Interrupted(s, r, active) then Paused else s.runs[r]
  }

  lemma NonePaused(s: Store, active: set<RunId>)
    ensures PausedRuns(s, {}, active) == s.runs
  {
  }

  lemma PauseOneMore(s: Store, done: set<RunId>, r: RunId, active: set<RunId>)
    requires r in s.runs && s.runs[r].Running?
    ensures PausedRuns(s, done + {r}, active) == if r in active then PausedRuns(s, done, active)
      else PausedRuns(s, done, active)[r := Paused]
  {
  }

  lemma AllPaused(s: Store, rows: set<RunId>, active: set<RunId>)
    requires rows == set r | r in s.runs && s.runs[r].Running?
    ensures PausedRuns(s, rows, active) == PausedRuns(s, s.runs.Keys, active)
  {
  }

  ghost predicate FailedBy(s: Store, done: set<TurnId>, run: RunId, active: set<RunId>) {
    exists t :: t in done && Orphan(s, t, active) && s.turns[t].run == Some(run)
  }

  /** The store once the orphan rows in done are repaired. */
  ghost function FailedRows(s: Store, done: set<TurnId>, active: set<RunId>): Store {
    Store(map r | r in s.runs :: if FailedBy(s, done, r, active) then Failed else s.runs[r],
          map t | t in s.turns ::
            if t in done && Orphan(s, t, active) then BrokenTurn(s.turns[t], AdmissionInterrupted) else s.turns[t])
  }

  lemma NoneFailed(s: Store, active: set<RunId>)
    ensures FailedRows(s, {}, active) == s && forall r :: !FailedBy(s, {}, r, active)
  {
  }

  lemma FailOneMore(s: Store, done: set<TurnId>, t: TurnId, active: set<RunId>)
    requires OrphanRow(s, t) && t !in done
    ensures var a, run := FailedRows(s, done, active), s.turns[t].run.value;
      && t in a.turns && a.turns[t] == s.turns[t]
      && FailedRows(s, done + {t}, active) ==
         (if run in active then a
           else Store(a.runs[run := Failed], a.turns[t := BrokenTurn(s.turns[t], AdmissionInterrupted)]))
    ensures forall r :: FailedBy(s, done + {t}, r, active) <==>
      FailedBy(s, done, r, active) || (s.turns[t].run == Some(r) && r !in active)
  {
    forall r ensures FailedBy(s, done + {t}, r, active)
      <==> FailedBy(s, done, r, active) || (s.turns[t].run == Some(r) && r !in active)
    {
      FailedByOneMore(s, done, t, r, active);
    }
  }

  lemma FailedByOneMore(s: Store, done: set<TurnId>, t: TurnId, run: RunId, active: set<RunId>)
    requires OrphanRow(s, t)
    ensures FailedBy(s, done + {t}, run, active)
      <==> FailedBy(s, done, run, active) || (s.turns[t].run == Some(run) && run !in active)
  {
    assert t in done + {t};
    if FailedBy(s, done, run, active) {
      var u :| u in done && Orphan(s, u, active) && s.turns[u].run == Some(run);
      assert u in done + {t};
    }
  }

  lemma AllFailed(s: Store, active: set<RunId>)
    ensures var rows := OrphanRows(s);
      && FailedRows(s, rows, active) ==
         Store(map r | r in s.runs :: if OrphanRun(s, r, active) then Failed else s.runs[r],
               map t | t in s.turns ::
                 if Orphan(s, t, active) then BrokenTurn(s.turns[t], AdmissionInterrupted) else s.turns[t])
      && forall r :: FailedBy(s, rows, r, active) <==> OrphanRun(s, r, active)
  {
    forall r ensures FailedBy(s, OrphanRows(s), r, active) <==> OrphanRun(s, r, active) {
      if OrphanRun(s, r, active) {
        var t :| Orphan(s, t, active) && s.turns[t].run == Some(r);
        assert t in OrphanRows(s);
      }
    }
  }

  ghost predicate SettledBy(s: Store, done: set<TurnId>, run: RunId, active: set<RunId>) {
    exists t :: t in done && Unsettled(s, t, active) && s.turns[t].run == Some(run)
  }

  /** The store once the unsettled rows in done are settled. */
  ghost function SettledRows(s: Store, done: set<TurnId>, active: set<RunId>, artifacts: map<RunId, Artifact>): Store {
    s.(turns := map t | t in s.turns ::
      if t in done && Unsettled(s, t, active)
        then SettledTurn(s.turns[t], s.turns[t].run.value, s.runs[s.turns[t].run.value], artifacts) else s.turns[t])
  }

  lemma NoneSettled(s: Store, active: set<RunId>, artifacts: map<RunId, Artifact>)
    ensures SettledRows(s, {}, active, artifacts) == s && forall r :: !SettledBy(s, {}, r, active)
  {
  }

  lemma SettleOneMore(s: Store, done: set<TurnId>, t: TurnId, active: set<RunId>, artifacts: map<RunId, Artifact>)
    requires t in UnsettledRows(s) && t !in done
    ensures UnsettledRow(s, t)
    ensures var a, run := SettledRows(s, done, active, artifacts), s.turns[t].run.value;
      && t in a.turns && a.turns[t] == s.turns[t] && run in s.runs
      && SettledRows(s, done + {t}, active, artifacts) ==
         (if run in active then a else a.(turns := a.turns[t := SettledTurn(s.turns[t], run, s.runs[run], artifacts)]))
    ensures s.turns[t].run.Some? && SettledRows(s, done, active, artifacts).runs == s.runs
    ensures forall r :: SettledBy(s, done + {t}, r, active) <==>
      SettledBy(s, done, r, active) || (s.turns[t].run == Some(r) && r !in active)
  {
    hide SettledTurn;
    forall r ensures SettledBy(s, done + {t}, r, active)
      <==> SettledBy(s, done, r, active) || (s.turns[t].run == Some(r) && r !in active)
    {
      SettledByOneMore(s, done, t, r, active);
    }
  }

  lemma SettledByOneMore(s: Store, done: set<TurnId>, t: TurnId, run: RunId, active: set<RunId>)
    requires UnsettledRow(s, t)
    ensures SettledBy(s, done + {t}, run, active)
      <==> SettledBy(s, done, run, active) || (s.turns[t].run == Some(run) && run !in active)
  {
    assert t in done + {t};
    if SettledBy(s, done, run, active) {
      var u :| u in done && Unsettled(s, u, active) && s.turns[u].run == Some(run);
      assert u in done + {t};
    }
  }

  lemma AllSettled(s: Store, active: set<RunId>, artifacts: map<RunId, Artifact>)
    ensures var rows := UnsettledRows(s);
      && SettledRows(s, rows, active, artifacts) == SettledTurns(s, active, artifacts)
      && forall r :: SettledBy(s, rows, r, active) <==> exists t :: Unsettled(s, t, active) && s.turns[t].run == Some(r)
  {
    hide SettledTurn;
    forall r ensures SettledBy(s, UnsettledRows(s), r, active)
      <==> exists t :: Unsettled(s, t, active) && s.turns[t].run == Some(r)
    {
      if t :| Unsettled(s, t, active) && s.turns[t].run == Some(r) {
        assert t in UnsettledRows(s);
      }
    }
  }

  /** Pausing makes and removes no orphan. */
  lemma OrphansUnaffected(s: Store, mid: Store, active: set<RunId>)
    requires mid.turns == s.turns
    requires mid.runs == PausedRuns(s, s.runs.Keys, active)
    ensures forall t :: Orphan(mid, t, active) <==> Orphan(s, t, active)
    ensures forall r :: OrphanRun(mid, r, active) <==> OrphanRun(s, r, active)
  {
    forall t ensures Orphan(mid, t, active) <==> Orphan(s, t, active) {}
    forall r ensures OrphanRun(mid, r, active) <==> OrphanRun(s, r, active) {
      if OrphanRun(s, r, active) {
        var t :| Orphan(s, t, active) && s.turns[t].run == Some(r);
        assert Orphan(mid, t, active);
      }
    }
  }
}
