/** What the run lifecycle promises: the startup repair restores order from any state, terminal runs
    and finished turns never change again, and no crash leaves a turn waiting for nothing. */
module ResearchLifecycle {
  import opened Prelude
  import opened Research

  // ------------------------------------------------------------ the startup repair, from any state

  /** Nothing is left that a restarted process would have to repair. */
  ghost predicate Orderly(s: Store, active: set<RunId>) {
    && (forall r :: r in s.runs && r !in active ==> !s.runs[r].Running?)
    && (forall t :: !Orphan(s, t, active))
    && (forall t :: !Unsettled(s, t, active))
  }

  lemma RepairLeavesNoOrphan(s: Store, active: set<RunId>, t: TurnId)
    ensures !Orphan(RepairedRuns(s, active), t, active)
  {
    var e := RepairedRuns(s, active);
    if Orphan(e, t, active) {
      assert Orphan(s, t, active);
    }
  }

  lemma SettleLeavesNothing(s: Store, active: set<RunId>, artifacts: map<RunId, Artifact>, t: TurnId)
    ensures !Unsettled(SettledTurns(s, active, artifacts), t, active)
    ensures Orphan(SettledTurns(s, active, artifacts), t, active) ==> Orphan(s, t, active)
  {
  }

  /** Main result: from any stored state, whatever runs this process still executes, the repair leaves
      no interrupted run running, no orphaned admission and no turn waiting on a finished run. */
  lemma ReconcileRepairs(s: Store, active: set<RunId>, artifacts: map<RunId, Artifact>)
    ensures Orderly(Reconciled(s, active, artifacts), active)
  {
    var mid, e := RepairedRuns(s, active), Reconciled(s, active, artifacts);
    assert e.runs == mid.runs;
    forall t ensures !Orphan(e, t, active) && !Unsettled(e, t, active) {
      RepairLeavesNoOrphan(s, active, t);
      SettleLeavesNothing(mid, active, artifacts, t);
    }
  }

  /** Terminal runs keep their status, active runs and their turns are not touched at all, and no run
      or turn appears or disappears. */
  lemma ReconcileKeeps(s: Store, active: set<RunId>, artifacts: map<RunId, Artifact>)
    ensures var e := Reconciled(s, active, artifacts);
      && e.runs.Keys == s.runs.Keys && e.turns.Keys == s.turns.Keys
      && (forall r :: r in s.runs && (Terminal(s.runs[r]) || r in active) ==> e.runs[r] == s.runs[r])
      && (forall t :: t in s.turns && (!Unfinished(s.turns[t]) || (OnRun(s, t) && s.turns[t].run.value in active)) ==>
        e.turns[t] == s.turns[t])
      && (forall t :: t in s.turns ==> e.turns[t].run == s.turns[t].run)
  {
    var mid := RepairedRuns(s, active);
    assert forall r :: r in s.runs && (Terminal(s.runs[r]) || r in active) ==> mid.runs[r] == s.runs[r];
    assert forall t :: t in s.turns ==> mid.turns[t].run == s.turns[t].run;
  }

  lemma OrderlyIsFixed(s: Store, active: set<RunId>, artifacts: map<RunId, Artifact>)
    requires Orderly(s, active)
    ensures RepairedRuns(s, active) == s && Reconciled(s, active, artifacts) == s
    ensures forall r :: !Reported(s, r, active)
  {
    var mid := RepairedRuns(s, active);
    forall r ensures !OrphanRun(s, r, active) {}
    assert mid.runs == s.runs;
    assert mid.turns == s.turns;
    assert SettledTurns(s, active, artifacts).turns == s.turns;
  }

  /** A second repair changes nothing and reports nothing, even if other artifacts load by then. */
  lemma ReconcileTwice(s: Store, active: set<RunId>, artifacts: map<RunId, Artifact>, later: map<RunId, Artifact>)
    ensures var e := Reconciled(s, active, artifacts);
      Reconciled(e, active, later) == e && forall r :: !Reported(e, r, active)
  {
    ReconcileRepairs(s, active, artifacts);
    OrderlyIsFixed(Reconciled(s, active, artifacts), active, later);
  }

  /** A crash between its two transactions loses nothing: repeating the repair gives the same store. */
  lemma ReconcileResumes(s: Store, active: set<RunId>, artifacts: map<RunId, Artifact>)
    ensures Reconciled(RepairedRuns(s, active), active, artifacts) == Reconciled(s, active, artifacts)
  {
    var mid := RepairedRuns(s, active);
    forall t ensures !Orphan(mid, t, active) { RepairLeavesNoOrphan(s, active, t); }
    forall r ensures !OrphanRun(mid, r, active) {}
    var again := RepairedRuns(mid, active);
    assert again.runs == mid.runs;
    assert again.turns == mid.turns;
  }

  // ------------------------------------------------------------ what a turn is told

  /** The turn has failed for this reason; a stored answer stays as it is. */
  predicate FailedFrom(x: Turn, y: Turn, error: TurnError) {
    y.status.Broken? && y.error == Some(error) && y.answer == x.answer && y.run == x.run
  }

  /** The turn has this answer and no error. */
  predicate AnsweredFrom(x: Turn, y: Turn, answer: Option<Artifact>) {
    y.status.Answered? && y.error == None && y.answer == answer && y.run == x.run
  }

  /** An unfinished turn of run r waits in `preparing`, and the run is only created. */
  ghost predicate Admitting(s: Store, r: RunId) {
    r in s.runs && s.runs[r].Created?
    && exists t :: t in s.turns && s.turns[t].run == Some(r) && s.turns[t].status.Preparing?
  }

  /** Main result: every run after the repair, from any stored state. */
  lemma RepairedRunsExactly(s: Store, active: set<RunId>, artifacts: map<RunId, Artifact>, r: RunId)
    requires r in s.runs
    ensures var e := Reconciled(s, active, artifacts);
      r in e.runs && e.runs[r] ==
        if r in active then s.runs[r]
        else if s.runs[r].Running? then Paused
        else if Admitting(s, r) then Failed
        else s.runs[r]
  {
    if Admitting(s, r) && r !in active {
      var t :| t in s.turns && s.turns[t].run == Some(r) && s.turns[t].status.Preparing?;
      assert Orphan(s, t, active);
    }
  }

  /** Main result: every turn after the repair, from any stored state. An unfinished turn on an inactive
      run is told the outcome: the durable answer of a completed run where it loads, the failure of its
      run, or that its admission was interrupted; every other turn stays. */
  lemma RepairedTurnsExactly(s: Store, active: set<RunId>, artifacts: map<RunId, Artifact>, t: TurnId)
    requires t in s.turns
    ensures var e := Reconciled(s, active, artifacts);
      t in e.turns
      && var x, y := s.turns[t], e.turns[t];
         if !(x.status.Preparing? || x.status.Answering?) || x.run.None? || x.run.value !in s.runs
            || x.run.value in active then y == x
         else
           var r := x.run.value;
           match s.runs[r]
           case Completed =>
             if r in artifacts then AnsweredFrom(x, y, Some(artifacts[r])) else FailedFrom(x, y, RecoveryFailed)
           case Failed | Cancelled => FailedFrom(x, y, ExecutionFailed)
           case Created =>
             if x.status.Preparing? then FailedFrom(x, y, AdmissionInterrupted)
             else if Admitting(s, r) then FailedFrom(x, y, ExecutionFailed)
             else y == x
           case Running | Paused => y == x
  {
    var mid := RepairedRuns(s, active);
    var x := s.turns[t];
    if x.run.Some? && x.run.value in s.runs {
      var r := x.run.value;
      RepairedRunsExactly(s, active, artifacts, r);
      assert Orphan(s, t, active) <==> x.status.Preparing? && s.runs[r].Created? && r !in active;
      assert mid.turns[t] == if Orphan(s, t, active) then BrokenTurn(x, AdmissionInterrupted) else x;
    }
  }

  /** Main result: a run is reported exactly when the repair changed it or a turn linked to it. */
  lemma ReportedExactly(s: Store, active: set<RunId>, artifacts: map<RunId, Artifact>, r: RunId)
    ensures var e := Reconciled(s, active, artifacts);
      Reported(s, r, active) <==>
        (r in s.runs && r in e.runs && e.runs[r] != s.runs[r])
        || exists t :: t in s.turns && t in e.turns && s.turns[t].run == Some(r) && e.turns[t] != s.turns[t]
  {
    var mid, e := RepairedRuns(s, active), Reconciled(s, active, artifacts);
    forall t | t in s.turns && s.turns[t].run == Some(r)
      ensures t in e.turns && (e.turns[t] != s.turns[t] <==> Orphan(s, t, active) || Unsettled(mid, t, active))
    {
    }
    if r in s.runs {
      RepairedRunsExactly(s, active, artifacts, r);
      assert Admitting(s, r) && r !in active <==> OrphanRun(s, r, active) by { AdmittingIsOrphan(s, active, r); }
    }
  }

  lemma AdmittingIsOrphan(s: Store, active: set<RunId>, r: RunId)
    ensures Admitting(s, r) && r !in active <==> OrphanRun(s, r, active)
  {
    if Admitting(s, r) && r !in active {
      var t :| t in s.turns && s.turns[t].run == Some(r) && s.turns[t].status.Preparing?;
      assert Orphan(s, t, active);
    }
    if OrphanRun(s, r, active) {
      var t :| Orphan(s, t, active) && s.turns[t].run == Some(r);
    }
  }

  /** The commit that starts an execution: the run is running and so is the turn that was preparing it. */
  lemma BegunExactly(s: Store, run: RunId, t: TurnId)
    requires t in s.turns
    ensures var e := Begun(s, run);
      && e.runs.Keys == s.runs.Keys + {run} && e.runs[run].Running?
      && (forall r :: r in s.runs && r != run ==> e.runs[r] == s.runs[r])
      && t in e.turns && e.turns.Keys == s.turns.Keys
      && var x, y := s.turns[t], e.turns[t];
         y.run == x.run && y.answer == x.answer && y.error == x.error
         && (y.status.Answering? <==> x.status.Answering? || (x.run == Some(run) && x.status.Preparing?))
         && (!y.status.Answering? ==> y.status == x.status)
  {
  }

  /** The commit of an admission: a turn that prepares a created run, or, without a goal, a failed turn
      alone. */
  lemma PreparedExactly(s: Store, turn: TurnId, run: RunId, goalResolved: bool)
    ensures var e := Prepared(s, turn, run, goalResolved);
      && e.turns.Keys == s.turns.Keys + {turn}
      && (forall t :: t in s.turns && t != turn ==> e.turns[t] == s.turns[t])
      && var y := e.turns[turn];
         && y.answer.None?
         && (goalResolved ==> y.run == Some(run) && y.status.Preparing? && y.error.None?)
         && (!goalResolved ==> y.run.None? && y.status.Broken? && y.error == Some(ExecutionFailed))
         && (forall r :: r in s.runs && (r != run || !goalResolved) ==> r in e.runs && e.runs[r] == s.runs[r])
         && e.runs.Keys == s.runs.Keys + (if goalResolved then {run} else {})
         && (goalResolved ==> e.runs[run].Created?)
  {
  }

  /** Taking an admission back removes the turn if it is the run's, and the run unless it has begun. */
  lemma DiscardedExactly(s: Store, turn: TurnId, run: RunId)
    ensures var e := Discarded(s, turn, run);
      && (forall t :: t in e.turns <==> t in s.turns && (t != turn || s.turns[t].run != Some(run)))
      && (forall r :: r in e.runs <==> r in s.runs && (r != run || !s.runs[r].Created?))
      && (forall t :: t in e.turns ==> e.turns[t] == s.turns[t])
      && (forall r :: r in e.runs ==> e.runs[r] == s.runs[r])
  {
  }

  /** The store after an execution of `run` has been committed and its turn has been told. */
  function Executed(s: Store, run: RunId, outcome: Outcome): Store
    requires run in s.runs
  {
    var status := FinalStatus(s.runs[run], outcome);
    var done := s.(runs := s.runs[run := status]);
    match Projection(status, outcome)
    case None => done
    case Some(report) => Synced(done, run, report)
  }

  /** Main result: what an execution leaves. A run that is already terminal keeps its status; the turn
      gets the returned answer whatever the run became, a failure for every other ending, and nothing
      when the runtime raised after the run was completed or returned an unknown status. */
  lemma ExecutedExactly(s: Store, run: RunId, outcome: Outcome, t: TurnId)
    requires run in s.runs && t in s.turns
    ensures var e, was := Executed(s, run, outcome), s.runs[run];
      && e.runs == s.runs[run := e.runs[run]]
      && (was.Completed? || was.Failed? || was.Cancelled? ==> e.runs[run] == was)
      && (!(was.Completed? || was.Failed? || was.Cancelled?) ==>
          match outcome
          case Raised => e.runs[run].Failed?
          case Returned(Done(_)) => e.runs[run].Completed?
          case Returned(ReportFailed) => e.runs[run].Failed?
          case Returned(Terminated) => e.runs[run].Failed?
          case Returned(ReportCancelled) => e.runs[run].Cancelled?
          case Returned(Other) => e.runs[run] == was)
    ensures var e, x := Executed(s, run, outcome), s.turns[t];
      && t in e.turns
      && var y := e.turns[t];
         if x.run != Some(run) then y == x
         else
           match outcome
           case Returned(Done(answer)) => AnsweredFrom(x, y, answer)
           case Returned(Other) => y == x
           case Returned(_) => FailedFrom(x, y, ExecutionFailed)
           case Raised => if s.runs[run].Completed? then y == x else FailedFrom(x, y, ExecutionFailed)
  {
  }

  // ------------------------------------------------------------ the state machine

  /** issued: the turn and run ids handed out together; executing: the executions of this process,
      with what the linked turn is still to be told. */
  datatype State = State(store: Store, issued: set<(TurnId, RunId)>, executing: map<RunId, Option<Report>>)

  datatype Event =
    | Prepare(turn: TurnId, run: RunId, goalResolved: bool)
    | CreateRun(run: RunId)
    | Begin(run: RunId)
    | RuntimeCommits(run: RunId, status: RunStatus)
    | Finish(run: RunId, outcome: Outcome)
    | Sync(run: RunId, synced: bool)
    | Discard(turn: TurnId, run: RunId)
    | RepairRuns
    | SettleTurns(artifacts: map<RunId, Artifact>)
    | Crash

  ghost predicate FreshRun(s: State, run: RunId) { run !in s.store.runs && forall p :: p in s.issued ==> p.1 != run }

  ghost predicate FreshTurn(s: State, turn: TurnId) {
    turn !in s.store.turns && forall p :: p in s.issued ==> p.0 != turn
  }

  ghost predicate Enabled(s: State, e: Event) {
    match e
    case Prepare(turn, run, _) => FreshRun(s, run) && FreshTurn(s, turn)
    case CreateRun(run) => FreshRun(s, run)
    case Begin(run) => run in s.store.runs && run !in s.executing
      && (s.store.runs[run].Created? || s.store.runs[run].Paused?)
    case RuntimeCommits(run, status) =>
      run in s.executing && s.executing[run].None? && run in s.store.runs && s.store.runs[run].Running?
        && !status.Created?
    case Finish(run, _) => run in s.executing && s.executing[run].None? && run in s.store.runs
    case Sync(run, _) => run in s.executing && s.executing[run].Some?
    case Discard(turn, run) => (turn, run) in s.issued
    case RepairRuns => true
    case SettleTurns(_) => true
    case Crash => true
  }

  ghost function After(s: State, e: Event): State
    requires Enabled(s, e)
  {
    match e
    case Prepare(turn, run, goalResolved) =>
      s.(store := Prepared(s.store, turn, run, goalResolved),
         issued := if goalResolved then s.issued + {(turn, run)} else s.issued)
    case CreateRun(run) => s.(store := s.store.(runs := s.store.runs[run := Created]))
    case Begin(run) => s.(store := Begun(s.store, run), executing := s.executing[run := None])
    case RuntimeCommits(run, status) => s.(store := s.store.(runs := s.store.runs[run := status]))
    case Finish(run, outcome) =>
      var status := FinalStatus(s.store.runs[run], outcome);
      var projection := Projection(status, outcome);
      s.(store := s.store.(runs := s.store.runs[run := status]),
         executing := if projection.Some? then s.executing[run := projection] else s.executing - {run})
    case Sync(run, synced) =>
      s.(store := if synced then Synced(s.store, run, s.executing[run].value) else s.store,
         executing := s.executing - {run})
    case Discard(turn, run) => s.(store := Discarded(s.store, turn, run))
    case RepairRuns => s.(store := RepairedRuns(s.store, s.executing.Keys))
    case SettleTurns(artifacts) => s.(store := SettledTurns(s.store, s.executing.Keys, artifacts))
    case Crash => s.(executing := map[])
  }

  // ------------------------------------------------------------ the invariant

  ghost predicate TurnFits(s: State, t: TurnId)
    requires t in s.store.turns
  {
    var turn := s.store.turns[t];
    && (turn.run.Some? ==> (t, turn.run.value) in s.issued)
    && (Unfinished(turn) ==>
        && turn.run.Some? && turn.run.value in s.store.runs
        && (turn.status.Preparing? <==> s.store.runs[turn.run.value].Created?))
    && (turn.run.Some? && turn.run.value in s.executing ==> Unfinished(turn))
    && (!Unfinished(turn) && turn.run.Some? && turn.run.value in s.store.runs ==>
      Terminal(s.store.runs[turn.run.value]))
  }

  ghost predicate ExecutionFits(s: State, r: RunId)
    requires r in s.executing
  {
    && r in s.store.runs && !s.store.runs[r].Created?
    && (s.executing[r].Some? && Settles(s.executing[r].value) ==> Terminal(s.store.runs[r]))
  }

  /** No id is handed out twice. */
  ghost predicate IssuedOnce(s: State) {
    forall p, q :: p in s.issued && q in s.issued && (p.0 == q.0 || p.1 == q.1) ==> p == q
  }

  ghost predicate Inv(s: State) {
    && IssuedOnce(s)
    && (forall t :: t in s.store.turns ==> TurnFits(s, t))
    && (forall r :: r in s.executing ==> ExecutionFits(s, r))
  }

  lemma LinkUnique(s: State)
    requires Inv(s)
    ensures OneTurnPerRun(s.store)
  {
    forall t, u | t in s.store.turns && u in s.store.turns && s.store.turns[t].run.Some?
      && s.store.turns[t].run == s.store.turns[u].run
      ensures t == u
    {
      assert TurnFits(s, t) && TurnFits(s, u);
      var r := s.store.turns[t].run.value;
      assert (t, r) in s.issued && (u, r) in s.issued;
    }
  }

  // ------------------------------------------------------------ every step keeps the invariant

  lemma PrepareKeeps(s: State, turn: TurnId, run: RunId, goalResolved: bool)
    requires Inv(s) && Enabled(s, Prepare(turn, run, goalResolved))
    ensures Inv(After(s, Prepare(turn, run, goalResolved)))
  {
    var e := After(s, Prepare(turn, run, goalResolved));
    forall t | t in e.store.turns ensures TurnFits(e, t) {
      if t != turn { assert TurnFits(s, t); }
    }
    forall r | r in e.executing ensures ExecutionFits(e, r) { assert ExecutionFits(s, r); }
  }

  lemma BeginKeeps(s: State, run: RunId)
    requires Inv(s) && Enabled(s, Begin(run))
    ensures Inv(After(s, Begin(run)))
  {
    var e := After(s, Begin(run));
    forall t | t in e.store.turns ensures TurnFits(e, t) { assert TurnFits(s, t); }
    forall r | r in e.executing ensures ExecutionFits(e, r) { assert r != run ==> ExecutionFits(s, r); }
  }

  lemma StatusKeeps(s: State, e: State, run: RunId, status: RunStatus)
    requires Inv(s) && run in s.executing && s.executing[run].None? && !status.Created? && run in s.store.runs
    requires !Terminal(s.store.runs[run]) || s.store.runs[run] == status
    requires e == s.(store := s.store.(runs := s.store.runs[run := status]))
    ensures Inv(e)
  {
    assert ExecutionFits(s, run);
    forall t | t in e.store.turns ensures TurnFits(e, t) { assert TurnFits(s, t); }
    forall r | r in e.executing ensures ExecutionFits(e, r) { assert ExecutionFits(s, r); }
  }

  lemma FinishKeeps(s: State, run: RunId, outcome: Outcome)
    requires Inv(s) && Enabled(s, Finish(run, outcome))
    ensures Inv(After(s, Finish(run, outcome)))
  {
    assert ExecutionFits(s, run);
    var status := FinalStatus(s.store.runs[run], outcome);
    var mid := s.(store := s.store.(runs := s.store.runs[run := status]));
    StatusKeeps(s, mid, run, status);
    var e := After(s, Finish(run, outcome));
    forall t | t in e.store.turns ensures TurnFits(e, t) { assert TurnFits(mid, t); }
    forall r | r in e.executing ensures ExecutionFits(e, r) { assert ExecutionFits(mid, r); }
  }

  lemma SyncKeeps(s: State, run: RunId, synced: bool)
    requires Inv(s) && Enabled(s, Sync(run, synced))
    ensures Inv(After(s, Sync(run, synced)))
  {
    var e := After(s, Sync(run, synced));
    assert ExecutionFits(s, run);
    forall t | t in e.store.turns ensures TurnFits(e, t) { assert TurnFits(s, t); }
    forall r | r in e.executing ensures ExecutionFits(e, r) { assert ExecutionFits(s, r); }
  }

  lemma DiscardKeeps(s: State, turn: TurnId, run: RunId)
    requires Inv(s) && Enabled(s, Discard(turn, run))
    ensures Inv(After(s, Discard(turn, run)))
  {
    var e := After(s, Discard(turn, run));
    forall t | t in e.store.turns ensures TurnFits(e, t) {
      assert TurnFits(s, t);
    }
    forall r | r in e.executing ensures ExecutionFits(e, r) { assert ExecutionFits(s, r); }
  }

  lemma RepairKeeps(s: State)
    requires Inv(s)
    ensures Inv(After(s, Event.RepairRuns))
  {
    var active := s.executing.Keys;
    var e := After(s, Event.RepairRuns);
    forall t | t in e.store.turns ensures TurnFits(e, t) {
      assert TurnFits(s, t);
      if OnRun(s.store, t) && OrphanRun(s.store, s.store.turns[t].run.value, active) {
        var u :| Orphan(s.store, u, active) && s.store.turns[u].run == s.store.turns[t].run;
        assert TurnFits(s, u);
        assert (t, s.store.turns[t].run.value) in s.issued && (u, s.store.turns[t].run.value) in s.issued;
      }
    }
    forall r | r in e.executing ensures ExecutionFits(e, r) {
      assert ExecutionFits(s, r);
      ActiveUntouched(s.store, active, r);
    }
  }

  lemma ActiveUntouched(s: Store, active: set<RunId>, r: RunId)
    requires r in s.runs && r in active
    ensures RepairedRun(s, r, active) == s.runs[r]
  {
  }

  lemma SettleKeeps(s: State, artifacts: map<RunId, Artifact>)
    requires Inv(s)
    ensures Inv(After(s, Event.SettleTurns(artifacts)))
  {
    var e := After(s, Event.SettleTurns(artifacts));
    forall t | t in e.store.turns ensures TurnFits(e, t) { assert TurnFits(s, t); }
    forall r | r in e.executing ensures ExecutionFits(e, r) { assert ExecutionFits(s, r); }
  }

  lemma EveryStepKeeps(s: State, e: Event)
    requires Inv(s) && Enabled(s, e)
    ensures Inv(After(s, e))
  {
    match e
    case Prepare(turn, run, goalResolved) => PrepareKeeps(s, turn, run, goalResolved);
    case CreateRun(run) => CreateKeeps(s, run);
    case Begin(run) => BeginKeeps(s, run);
    case RuntimeCommits(run, status) => StatusKeeps(s, After(s, e), run, status);
    case Finish(run, outcome) => FinishKeeps(s, run, outcome);
    case Sync(run, synced) => SyncKeeps(s, run, synced);
    case Discard(turn, run) => DiscardKeeps(s, turn, run);
    case RepairRuns => RepairKeeps(s);
    case SettleTurns(artifacts) => SettleKeeps(s, artifacts);
    case Crash => CrashKeeps(s);
  }

  lemma CreateKeeps(s: State, run: RunId)
    requires Inv(s) && Enabled(s, CreateRun(run))
    ensures Inv(After(s, CreateRun(run)))
  {
    var e := After(s, CreateRun(run));
    forall t | t in e.store.turns ensures TurnFits(e, t) { assert TurnFits(s, t); }
    forall r | r in e.executing ensures ExecutionFits(e, r) { assert ExecutionFits(s, r); }
  }

  lemma CrashKeeps(s: State)
    requires Inv(s)
    ensures Inv(After(s, Crash))
  {
    var e := After(s, Crash);
    forall t | t in e.store.turns ensures TurnFits(e, t) { assert TurnFits(s, t); }
  }

  // ------------------------------------------------------------ whole runs of the system

  const EMPTY := State(Store(map[], map[]), {}, map[])

  ghost predicate Next(s: State, e: Event, n: State) { Enabled(s, e) && n == After(s, e) }

  ghost predicate IsHistory(states: seq<State>, events: seq<Event>) {
    && |states| == |events| + 1 && states[0] == EMPTY
    && forall i :: 0 <= i < |events| ==> Next(states[i], events[i], states[i + 1])
  }

  lemma {:induction false} HistoryInv(states: seq<State>, events: seq<Event>, i: nat)
    requires IsHistory(states, events) && i <= |events|
    ensures Inv(states[i])
  {
    hide After, Enabled, Inv;
    if i == 0 {
      EmptyInv();
    } else {
      HistoryInv(states, events, i - 1);
      assert Next(states[i - 1], events[i - 1], states[i - 1 + 1]);
      EveryStepKeeps(states[i - 1], events[i - 1]);
    }
  }

  lemma EmptyInv()
    ensures Inv(EMPTY)
  {
  }

  /** A finished turn is never rewritten: it can only be discarded. */
  ghost predicate TurnsStay(s: Store, n: Store) {
    forall t :: t in s.turns && !Unfinished(s.turns[t]) && t in n.turns ==> n.turns[t] == s.turns[t]
  }

  ghost predicate RunsStay(s: Store, n: Store) {
    forall r :: r in s.runs && Terminal(s.runs[r]) ==> r in n.runs && n.runs[r] == s.runs[r]
  }

  lemma StepKeepsFinished(s: State, e: Event)
    requires Inv(s) && Enabled(s, e)
    ensures RunsStay(s.store, After(s, e).store) && TurnsStay(s.store, After(s, e).store)
  {
    var n := After(s, e);
    match e
    case RepairRuns => ReconcileKeepsTerminal(s.store, s.executing.Keys);
    case Sync(run, synced) =>
      forall t | t in s.store.turns && !Unfinished(s.store.turns[t]) && t in n.store.turns
        ensures n.store.turns[t] == s.store.turns[t]
      {
        assert TurnFits(s, t);
      }
    case _ =>
  }

  lemma ReconcileKeepsTerminal(s: Store, active: set<RunId>)
    ensures RunsStay(s, RepairedRuns(s, active)) && TurnsStay(s, RepairedRuns(s, active))
  {
  }

  /** The turns the store has ever had: a discarded id is not handed out again. */
  lemma {:induction false} GoneStaysGone(states: seq<State>, events: seq<Event>, i: nat, j: nat, p: (TurnId, RunId))
    requires IsHistory(states, events) && i <= j <= |events|
    requires p in states[i].issued && p.0 !in states[i].store.turns
    ensures p.0 !in states[j].store.turns && p in states[j].issued
    decreases j - i
  {
    if i < j {
      assert Next(states[i], events[i], states[i + 1]);
      GoneStaysGone(states, events, i + 1, j, p);
    }
  }

  /** Main result: over a whole history, with crashes anywhere, a terminal run keeps its status for
      ever and a finished turn keeps its status, answer and error. */
  lemma {:induction false} TerminalForEver(states: seq<State>, events: seq<Event>, i: nat, j: nat)
    requires IsHistory(states, events) && i <= j <= |events|
    ensures RunsStay(states[i].store, states[j].store)
    ensures var s, n := states[i].store, states[j].store;
      forall t :: t in s.turns && !Unfinished(s.turns[t]) && t in n.turns ==> n.turns[t] == s.turns[t]
    decreases j - i
  {
    if i < j {
      var s, n := states[i], states[i + 1];
      HistoryInv(states, events, i);
      assert Next(s, events[i], n);
      StepKeepsFinished(s, events[i]);
      TerminalForEver(states, events, i + 1, j);
      hide After, Enabled, IsHistory, Inv;
      forall t | t in s.store.turns && !Unfinished(s.store.turns[t]) && t in states[j].store.turns
        ensures states[j].store.turns[t] == s.store.turns[t]
      {
        if t !in n.store.turns {
          OnlyLinkedTurnsGo(s, events[i], n, t);
          IssuedStays(s, events[i], n, t);
          GoneStaysGone(states, events, i + 1, j, (t, s.store.turns[t].run.value));
        }
      }
    }
  }

  /** A turn without a run is never discarded. */
  lemma OnlyLinkedTurnsGo(s: State, e: Event, n: State, t: TurnId)
    requires Next(s, e, n) && t in s.store.turns && t !in n.store.turns
    ensures s.store.turns[t].run.Some?
  {
  }

  lemma IssuedStays(s: State, e: Event, n: State, t: TurnId)
    requires Inv(s) && Next(s, e, n) && t in s.store.turns && s.store.turns[t].run.Some?
    ensures (t, s.store.turns[t].run.value) in n.issued
  {
    assert TurnFits(s, t);
  }

  /** Main result: however the process stopped, after the startup repair every unfinished turn waits
      for a paused run, which resume_run accepts; no run is left running and no created run has a
      turn waiting for it. */
  lemma StartupRepairs(states: seq<State>, events: seq<Event>, artifacts: map<RunId, Artifact>)
    requires IsHistory(states, events)
    ensures var e := Reconciled(states[|events|].store, {}, artifacts);
      && (forall t :: t in e.turns && Unfinished(e.turns[t]) ==> OnRun(e, t) && e.runs[e.turns[t].run.value].Paused?)
      && (forall r :: r in e.runs ==> !e.runs[r].Running?)
  {
    var s := states[|events|];
    HistoryInv(states, events, |events|);
    CrashKeeps(s);
    hide Inv, Reconciled;
    RepairedUnfinished(After(s, Crash), artifacts);
  }

  lemma RepairedUnfinished(s: State, artifacts: map<RunId, Artifact>)
    requires Inv(s) && s.executing == map[]
    ensures var e := Reconciled(s.store, {}, artifacts);
      && (forall t :: t in e.turns && Unfinished(e.turns[t]) ==> OnRun(e, t) && e.runs[e.turns[t].run.value].Paused?)
      && (forall r :: r in e.runs ==> !e.runs[r].Running?)
  {
    var mid := After(s, Event.RepairRuns);
    RepairKeeps(s);
    var last := After(mid, Event.SettleTurns(artifacts));
    SettleKeeps(mid, artifacts);
    assert s.executing.Keys == {} && mid.executing == map[];
    assert last.store == Reconciled(s.store, {}, artifacts);
    ReconcileRepairs(s.store, {}, artifacts);
    OrderlyUnfinished(last);
  }

  lemma OrderlyUnfinished(s: State)
    requires Inv(s) && Orderly(s.store, {})
    ensures forall t :: t in s.store.turns && Unfinished(s.store.turns[t]) ==>
      OnRun(s.store, t) && s.store.runs[s.store.turns[t].run.value].Paused?
    ensures forall r :: r in s.store.runs ==> !s.store.runs[r].Running?
  {
    forall t | t in s.store.turns && Unfinished(s.store.turns[t])
      ensures OnRun(s.store, t) && s.store.runs[s.store.turns[t].run.value].Paused?
    {
      assert TurnFits(s, t);
      assert !Orphan(s.store, t, {}) && !Unsettled(s.store, t, {});
    }
  }
}
