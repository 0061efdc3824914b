/** Any number of Sync calls at once, as interleaved steps on the shared tables. */
module SyncProtocol {
  import opened Snapshots
  import opened SyncHistory
  import opened SyncService
  import opened SyncStore
  import opened Wrappers

  type CallId = int

  /** How far a Sync call has come since it took the lock. */
  datatype Phase =
    | Locked
    | Collecting(run: RunId)
    | Validating(run: RunId, snapshot: Snapshot)
    | Persisting(run: RunId, snapshot: Snapshot)
    | Failing(run: RunId)
    | Releasing

  /** ticket counts the locks taken before this one. */
  datatype Call = Call(runtime: RuntimeId, ticket: nat, phase: Phase)

  /** A snapshot that was persisted: under which lock, and for which runtime. */
  datatype Write = Write(ticket: nat, runtime: RuntimeId)

  /** orphans are the runs whose creation failed after their row was inserted. */
  datatype State = State(
    held: set<int>,
    calls: map<CallId, Call>,
    runs: map<RunId, Run>,
    orphans: set<RunId>,
    tables: map<RuntimeId, Tables>,
    tickets: nat,
    writes: seq<Write>,
    history: map<RuntimeId, seq<Event>>)

  datatype Config = Config(lockKey: RuntimeId -> int, threshold: nat)

  const INITIAL := State({}, map[], map[], {}, map[], 0, [], map[])

  function HistoryOf(s: State, runtime: RuntimeId): seq<Event> {
    if runtime in s.history then s.history[runtime] else []
  }

  function Record(s: State, runtime: RuntimeId, event: Event): map<RuntimeId, seq<Event>> {
    s.history[runtime := HistoryOf(s, runtime) + [event]]
  }

  datatype Step =
    | Acquire(call: CallId, runtime: RuntimeId)
    | CreateRun(call: CallId, run: RunId)
    | CreateFails(call: CallId)
    | CreateHalfway(call: CallId, run: RunId)
    | CollectSucceeds(call: CallId, snapshot: Snapshot)
    | CollectFails(call: CallId)
    | Validate(call: CallId)
    | PersistSucceeds(call: CallId)
    | PersistFails(call: CallId)
    | FailRun(call: CallId)
    | Release(call: CallId)
    | DeleteAgent(runtime: RuntimeId, agent: string)

  function Move(s: State, call: CallId, phase: Phase): map<CallId, Call>
    requires call in s.calls
  {
    s.calls[call := s.calls[call].(phase := phase)]
  }

  /** The state after a step, or None where the step cannot be taken. A call that meets a held lock takes no step. */
  ghost function Take(c: Config, s: State, step: Step): Option<State> {
    match step
    case Acquire(call, runtime) =>
      if call in s.calls || c.lockKey(runtime) in s.held then None
      else Some(s.(held := s.held + {c.lockKey(runtime)}, calls := s.calls[call := Call(runtime, s.tickets, Locked)],
                   tickets := s.tickets + 1))
    case CreateRun(call, run) =>
      if (call !in s.calls || !s.calls[call].phase.Locked?) || run in s.runs then None
      else Some(s.(calls := Move(s, call, Collecting(run)),
                   runs := s.runs[run := Run(s.calls[call].runtime, Running, 0, 0, 0)]))
    case CreateFails(call) =>
      if call !in s.calls || !s.calls[call].phase.Locked? then None
      else Some(s.(calls := Move(s, call, Releasing)))
    case CreateHalfway(call, run) =>
      if call !in s.calls || !s.calls[call].phase.Locked? || run in s.runs then None
      else Some(s.(calls := Move(s, call, Releasing), orphans := s.orphans + {run},
                   runs := s.runs[run := Run(s.calls[call].runtime, Running, 0, 0, 0)]))
    case CollectSucceeds(call, snapshot) =>
      if call !in s.calls || !s.calls[call].phase.Collecting? then None
      else Some(s.(calls := Move(s, call, Validating(s.calls[call].phase.run, snapshot))))
    case CollectFails(call) =>
      if call !in s.calls || !s.calls[call].phase.Collecting? then None
      else Some(s.(calls := Move(s, call, Failing(s.calls[call].phase.run))))
    case Validate(call) =>
      if call !in s.calls || !s.calls[call].phase.Validating? then None
      else
        var Validating(run, snapshot) := s.calls[call].phase;
        Some(s.(calls := Move(s, call, if Accepted(snapshot) then Persisting(run, snapshot) else Failing(run))))
    case PersistSucceeds(call) =>
      if call !in s.calls || !s.calls[call].phase.Persisting? then None
      else
        var Call(runtime, ticket, Persisting(run, snapshot)) := s.calls[call];
        Some(s.(calls := Move(s, call, Releasing), runs := s.runs[run := CompletedRun(runtime, snapshot)],
                tables := s.tables[runtime := Persisted(TablesOf(s.tables, runtime), run, snapshot, c.threshold)],
                writes := s.writes + [Write(ticket, runtime)],
                history := Record(s, runtime, Event.Succeeded(run, snapshot))))
    case PersistFails(call) =>
      if call !in s.calls || !s.calls[call].phase.Persisting? then None
      else Some(s.(calls := Move(s, call, Failing(s.calls[call].phase.run))))
    case FailRun(call) =>
      if (call !in s.calls || !s.calls[call].phase.Failing?) || s.calls[call].phase.run !in s.runs then None
      else
        var Call(runtime, _, Failing(run)) := s.calls[call];
        Some(s.(calls := Move(s, call, Releasing), runs := s.runs[run := s.runs[run].(status := RunStatus.Failed)],
                history := Record(s, runtime, Event.Failed(run))))
    case Release(call) =>
      if call !in s.calls || !s.calls[call].phase.Releasing? then None
      else Some(s.(held := s.held - {c.lockKey(s.calls[call].runtime)}, calls := s.calls - {call}))
    case DeleteAgent(runtime, agent) =>
      Some(s.(tables := s.tables[runtime := MarkDeleted(TablesOf(s.tables, runtime), agent)],
              history := Record(s, runtime, Deleted(agent))))
  }

  /** The state after a run of steps from the start, or None where one of them cannot be taken. */
  ghost function Execute(c: Config, steps: seq<Step>): Option<State> {
    if steps == [] then Some(INITIAL) else
      match Execute(c, steps[..|steps| - 1])
      case None => None
      case Some(s) => Take(c, s, steps[|steps| - 1])
  }

  // ----- What every step keeps -----

  /** The locks held are those of the calls under way, one call to a lock. */
  ghost predicate LocksHeld(c: Config, s: State) {
    && (forall x :: x in s.calls ==> c.lockKey(s.calls[x].runtime) in s.held)
    && (forall k :: k in s.held ==> exists x :: x in s.calls && c.lockKey(s.calls[x].runtime) == k)
    && (forall x, y :: x in s.calls && y in s.calls && x != y ==>
          c.lockKey(s.calls[x].runtime) != c.lockKey(s.calls[y].runtime))
  }

  predicate HasRun(p: Phase) {
    p.Collecting? || p.Validating? || p.Persisting? || p.Failing?
  }

  /** A call between creating and finishing its run owns a running row that no other call uses. */
  ghost predicate RunsOwned(s: State) {
    && (forall x :: x in s.calls && HasRun(s.calls[x].phase) ==>
          s.calls[x].phase.run in s.runs && s.runs[s.calls[x].phase.run].status == RunStatus.Running)
    && (forall x, y ::
          x in s.calls && y in s.calls && x != y && HasRun(s.calls[x].phase) && HasRun(s.calls[y].phase) ==>
          s.calls[x].phase.run != s.calls[y].phase.run)
    && (forall x :: x in s.calls && s.calls[x].phase.Persisting? ==> Accepted(s.calls[x].phase.snapshot))
    && (forall x :: x in s.calls && HasRun(s.calls[x].phase) ==> s.calls[x].phase.run !in s.orphans)
    && (forall run :: run in s.orphans ==> run in s.runs && s.runs[run].status == RunStatus.Running)
  }

  ghost predicate Owns(s: State, x: CallId, run: RunId) {
    x in s.calls && HasRun(s.calls[x].phase) && s.calls[x].phase.run == run
  }

  /** Every running row belongs to a call under way or is an orphan. */
  ghost predicate RunningAccounted(s: State) {
    forall run :: run in s.runs && s.runs[run].status == RunStatus.Running ==>
      run in s.orphans || exists x :: Owns(s, x, run)
  }

  /** Under one lock, snapshots are written in the order in which the lock was taken. */
  ghost predicate WritesInLockOrder(c: Config, s: State) {
    && (forall i :: 0 <= i < |s.writes| ==> s.writes[i].ticket < s.tickets)
    && (forall x :: x in s.calls ==> s.calls[x].ticket < s.tickets)
    && (forall i, x :: (0 <= i < |s.writes| && x in s.calls && !s.calls[x].phase.Releasing? &&
                        c.lockKey(s.writes[i].runtime) == c.lockKey(s.calls[x].runtime)) ==>
          s.writes[i].ticket < s.calls[x].ticket)
    && (forall i, j :: 0 <= i < j < |s.writes| && c.lockKey(s.writes[i].runtime) == c.lockKey(s.writes[j].runtime) ==>
          s.writes[i].ticket < s.writes[j].ticket)
  }

  /** A runtime's tables are what its history replays to, and only succeeded runs are in it. */
  ghost predicate TablesFollow(c: Config, s: State, runtime: RuntimeId) {
    && TablesOf(s.tables, runtime) == Replay(HistoryOf(s, runtime), c.threshold)
    && RunsOnce(HistoryOf(s, runtime))
    && (forall run :: UsedRun(HistoryOf(s, runtime), run) ==>
          run in s.runs && s.runs[run].status == RunStatus.Succeeded)
  }

  ghost predicate Invariant(c: Config, s: State) {
    && LocksHeld(c, s) && RunsOwned(s) && RunningAccounted(s) && WritesInLockOrder(c, s)
    && forall runtime :: TablesFollow(c, s, runtime)
  }

  /** A step concerns one call, if any: it starts it, ends it, or moves it on under the same lock and ticket. */
  lemma OneCallMoves(c: Config, s: State, step: Step)
    requires Take(c, s, step).Some?
    ensures var t := Take(c, s, step).value;
            && (step.DeleteAgent? ==> t.calls == s.calls)
            && (!step.DeleteAgent? ==>
                  && (forall x {:trigger x in t.calls} {:trigger x in s.calls} :: x != step.call ==>
                        (x in t.calls <==> x in s.calls) && (x in s.calls ==> t.calls[x] == s.calls[x]))
                  && (step.Acquire? <==> step.call !in s.calls) && (step.Release? <==> step.call !in t.calls)
                  && (!step.Acquire? && !step.Release? ==>
                        t.calls[step.call] == s.calls[step.call].(phase := t.calls[step.call].phase)))
  {
    hide Accepted, Persisted, TablesOf, MarkDeleted, CompletedRun, Record;
  }

  lemma LocksMove(c: Config, s: State, step: Step)
    requires Take(c, s, step).Some?
    ensures var t := Take(c, s, step).value;
            t.held == if step.Acquire? then s.held + {c.lockKey(step.runtime)}
                      else if step.Release? then s.held - {c.lockKey(s.calls[step.call].runtime)}
                      else s.held
    ensures step.Acquire? ==>
              c.lockKey(step.runtime) !in s.held && Take(c, s, step).value.calls[step.call].runtime == step.runtime
  {
    hide Accepted, Persisted, TablesOf, MarkDeleted, CompletedRun, Record;
  }

  lemma StepKeepsLocks(c: Config, s: State, step: Step)
    requires LocksHeld(c, s) && Take(c, s, step).Some?
    ensures LocksHeld(c, Take(c, s, step).value)
  {
    hide Take;
    OneCallMoves(c, s, step);
    LocksMove(c, s, step);
    var t := Take(c, s, step).value;
    forall k | k in t.held ensures exists x :: x in t.calls && c.lockKey(t.calls[x].runtime) == k {
      if step.Acquire? && k == c.lockKey(step.runtime) {
        assert step.call in t.calls;
      } else {
        var x :| x in s.calls && c.lockKey(s.calls[x].runtime) == k;
        assert x in t.calls;
      }
    }
  }

  /** A step changes no run row but that of its own call, which then lets go of it, and takes up only new rows. */
  lemma OneRunMoves(c: Config, s: State, step: Step)
    requires Take(c, s, step).Some?
    ensures var t := Take(c, s, step).value;
            && (forall r :: r in s.runs ==>
                  r in t.runs && (t.runs[r] != s.runs[r] ==> !step.DeleteAgent? && Owns(s, step.call, r)))
            && (forall r :: r in t.orphans <==> r in s.orphans || (step.CreateHalfway? && r == step.run))
            && (step.CreateHalfway? || step.CreateRun? ==>
                  step.run !in s.runs && step.run in t.runs && t.runs[step.run].status == RunStatus.Running)
    ensures var t := Take(c, s, step).value;
            !step.DeleteAgent? && step.call in t.calls && HasRun(t.calls[step.call].phase) ==>
              var run := t.calls[step.call].phase.run;
              (Owns(s, step.call, run) && t.runs == s.runs) || (step.CreateRun? && run == step.run)
    ensures var t := Take(c, s, step).value;
            !step.DeleteAgent? && step.call in t.calls && t.calls[step.call].phase.Persisting? ==>
              Accepted(t.calls[step.call].phase.snapshot)
  {
    hide Accepted, Persisted, TablesOf, MarkDeleted, CompletedRun, Record;
  }

  lemma StepKeepsRuns(c: Config, s: State, step: Step)
    requires RunsOwned(s) && Take(c, s, step).Some?
    ensures RunsOwned(Take(c, s, step).value)
  {
    hide Take, Accepted;
    OneCallMoves(c, s, step);
    OneRunMoves(c, s, step);
  }

  lemma FinishedRunsStay(c: Config, s: State, step: Step)
    requires RunsOwned(s) && Take(c, s, step).Some?
    ensures forall run :: run in s.runs && s.runs[run].status != RunStatus.Running ==>
              run in Take(c, s, step).value.runs && Take(c, s, step).value.runs[run] == s.runs[run]
  {
    hide Take;
    OneRunMoves(c, s, step);
  }

  lemma StepKeepsAccounts(c: Config, s: State, step: Step)
    requires RunningAccounted(s) && Take(c, s, step).Some?
    ensures RunningAccounted(Take(c, s, step).value)
  {
    hide Accepted, Persisted;
    var t := Take(c, s, step).value;
    forall run | run in t.runs && t.runs[run].status == RunStatus.Running && run !in t.orphans
      ensures exists x :: Owns(t, x, run)
    {
      if step.CreateRun? && run == step.run {
        assert Owns(t, step.call, run);
      } else {
        var x :| Owns(s, x, run);
        assert Owns(t, x, run);
      }
    }
  }

  lemma WritesMove(c: Config, s: State, step: Step)
    requires Take(c, s, step).Some?
    ensures var t := Take(c, s, step).value;
            && t.tickets == (if step.Acquire? then s.tickets + 1 else s.tickets)
            && (step.Acquire? ==> step.call in t.calls && t.calls[step.call].ticket == s.tickets)
            && (step.PersistSucceeds? ==>
                  && step.call in s.calls && step.call in t.calls && !s.calls[step.call].phase.Releasing?
                  && t.calls[step.call].phase.Releasing?
                  && t.writes == s.writes + [Write(s.calls[step.call].ticket, s.calls[step.call].runtime)])
            && (!step.PersistSucceeds? ==> t.writes == s.writes)
            && (forall x :: x in s.calls && x in t.calls && s.calls[x].phase.Releasing? ==> t.calls[x].phase.Releasing?)
  {
    hide Accepted, Persisted, TablesOf, MarkDeleted, CompletedRun, Record;
  }

  lemma StepKeepsOrder(c: Config, s: State, step: Step)
    requires LocksHeld(c, s) && WritesInLockOrder(c, s) && Take(c, s, step).Some?
    ensures WritesInLockOrder(c, Take(c, s, step).value)
  {
    hide Take;
    OneCallMoves(c, s, step);
    LocksMove(c, s, step);
    WritesMove(c, s, step);
  }

  lemma ReplaySnoc(init: seq<Event>, last: Event, threshold: nat)
    ensures Replay(init + [last], threshold) == Apply(Replay(init, threshold), last, threshold)
  {
    assert (init + [last])[..|init|] == init;
  }

  lemma RunsOnceSnoc(init: seq<Event>, last: Event)
    requires RunsOnce(init) && (last.Succeeded? ==> !UsedRun(init, last.run))
    ensures RunsOnce(init + [last])
  {
  }

  /** What a step adds to a runtime's history. */
  function EventOf(s: State, step: Step, runtime: RuntimeId): Option<Event> {
    match step
    case PersistSucceeds(call) =>
      if call in s.calls && s.calls[call].runtime == runtime && s.calls[call].phase.Persisting?
      then Some(Event.Succeeded(s.calls[call].phase.run, s.calls[call].phase.snapshot)) else None
    case FailRun(call) =>
      if call in s.calls && s.calls[call].runtime == runtime && s.calls[call].phase.Failing?
      then Some(Event.Failed(s.calls[call].phase.run)) else None
    case DeleteAgent(r, agent) => if r == runtime then Some(Deleted(agent)) else None
    case _ => None
  }

  lemma TablesMove(c: Config, s: State, step: Step, runtime: RuntimeId)
    requires Take(c, s, step).Some?
    ensures var t, event := Take(c, s, step).value, EventOf(s, step, runtime);
            if event.None? then
              && HistoryOf(t, runtime) == HistoryOf(s, runtime)
              && TablesOf(t.tables, runtime) == TablesOf(s.tables, runtime)
            else
              && HistoryOf(t, runtime) == HistoryOf(s, runtime) + [event.value]
              && TablesOf(t.tables, runtime) == Apply(TablesOf(s.tables, runtime), event.value, c.threshold)
              && (event.value.Succeeded? ==>
                    && Owns(s, step.call, event.value.run) && event.value.run in t.runs
                    && t.runs[event.value.run].status == RunStatus.Succeeded)
  {
    hide Accepted, Persisted, MarkDeleted, BindingCount;
  }

  lemma StepKeepsTables(c: Config, s: State, step: Step, runtime: RuntimeId)
    requires RunsOwned(s) && TablesFollow(c, s, runtime) && Take(c, s, step).Some?
    ensures TablesFollow(c, Take(c, s, step).value, runtime)
  {
    hide Take, Apply, UsedRun, Replay, RunsOnce;
    FinishedRunsStay(c, s, step);
    TablesMove(c, s, step, runtime);
    var history, event := HistoryOf(s, runtime), EventOf(s, step, runtime);
    if event.Some? {
      ReplaySnoc(history, event.value, c.threshold);
      RunsOnceSnoc(history, event.value);
      forall run ensures UsedRun(history + [event.value], run) <==>
                         UsedRun(history, run) || (event.value.Succeeded? && event.value.run == run)
      {
        UsedRunSnoc(history, event.value, run);
      }
    }
  }

  lemma {:induction false} ReachableIsInvariant(c: Config, steps: seq<Step>)
    ensures Execute(c, steps).Some? ==> Invariant(c, Execute(c, steps).value)
  {
    hide LocksHeld, RunsOwned, RunningAccounted, WritesInLockOrder, TablesFollow, Take;
    if steps == [] {
      InitialIsInvariant(c);
    } else if Execute(c, steps).Some? {
      var init, step := steps[..|steps| - 1], steps[|steps| - 1];
      ReachableIsInvariant(c, init);
      var s := Execute(c, init).value;
      StepKeepsLocks(c, s, step);
      StepKeepsRuns(c, s, step);
      StepKeepsAccounts(c, s, step);
      StepKeepsOrder(c, s, step);
      forall runtime ensures TablesFollow(c, Take(c, s, step).value, runtime) {
        StepKeepsTables(c, s, step, runtime);
      }
    }
  }

  lemma InitialIsInvariant(c: Config)
    ensures Invariant(c, INITIAL)
  {
  }

  // ----- Safety over whole runs -----

  /** At most one Sync per runtime is between lock and release; a lock is held only for a call under way. */
  lemma OneCallPerRuntime(c: Config, steps: seq<Step>)
    requires Execute(c, steps).Some?
    ensures var s := Execute(c, steps).value;
            && (forall x, y :: x in s.calls && y in s.calls && s.calls[x].runtime == s.calls[y].runtime ==> x == y)
            && (forall k :: k in s.held ==> exists x :: x in s.calls && c.lockKey(s.calls[x].runtime) == k)
  {
    ReachableIsInvariant(c, steps);
  }

  /** A runtime's snapshots are persisted in the order in which their calls took its lock. */
  lemma PersistedInLockOrder(c: Config, steps: seq<Step>)
    requires Execute(c, steps).Some?
    ensures var writes := Execute(c, steps).value.writes;
            forall i, j :: 0 <= i < j < |writes| && writes[i].runtime == writes[j].runtime ==>
              writes[i].ticket < writes[j].ticket
  {
    ReachableIsInvariant(c, steps);
  }

  /** Once a run row has left running, no later step of any call changes it. */
  lemma {:induction false} RunLeavesRunningOnce(c: Config, steps: seq<Step>, more: seq<Step>, run: RunId)
    requires Execute(c, steps + more).Some? && Execute(c, steps).Some?
    requires run in Execute(c, steps).value.runs && Execute(c, steps).value.runs[run].status != RunStatus.Running
    ensures run in Execute(c, steps + more).value.runs
    ensures Execute(c, steps + more).value.runs[run] == Execute(c, steps).value.runs[run]
    decreases |more|
  {
    hide Take;
    if more == [] {
      assert steps + more == steps;
    } else {
      var init := more[..|more| - 1];
      assert (steps + more)[..|steps + more| - 1] == steps + init;
      RunLeavesRunningOnce(c, steps, init, run);
      ReachableIsInvariant(c, steps + init);
      FinishedRunsStay(c, Execute(c, steps + init).value, (steps + more)[|steps + more| - 1]);
    }
  }

  /** A row is running exactly if a call under way owns it, or marking the runtime failed just after it was inserted. */
  lemma RunningRowsAreAccountedFor(c: Config, steps: seq<Step>, run: RunId)
    requires Execute(c, steps).Some?
    ensures var s := Execute(c, steps).value;
            run in s.runs && s.runs[run].status == RunStatus.Running <==>
              run in s.orphans || exists x :: Owns(s, x, run)
  {
    hide Take;
    ReachableIsInvariant(c, steps);
  }

  /** Only a persisted snapshot or a deletion changes a table, and only its own runtime's. */
  lemma OnlyPersistAndDeleteWrite(c: Config, s: State, step: Step, runtime: RuntimeId)
    requires Take(c, s, step).Some?
    ensures TablesOf(Take(c, s, step).value.tables, runtime) != TablesOf(s.tables, runtime) ==>
              || (step.DeleteAgent? && step.runtime == runtime)
              || (step.PersistSucceeds? && s.calls[step.call].runtime == runtime)
  {
    hide Accepted, Persisted;
  }

  /** Under any interleaving, the counters of a runtime that has just synced say what its history says. */
  lemma CountersSurviveInterleaving(c: Config, steps: seq<Step>, runtime: RuntimeId, item: Item)
    requires c.threshold > 0 && Execute(c, steps).Some?
    requires Settled(HistoryOf(Execute(c, steps).value, runtime))
    ensures var s := Execute(c, steps).value;
            var t, history := TablesOf(s.tables, runtime), HistoryOf(s, runtime);
            && (Present(t, item) <==> ListedIn(Successes(history), item))
            && (Present(t, item) ==>
                  && MissingSyncs(t, item) == SinceListed(Successes(history), item)
                  && (IsStale(t, item) <==>
                        !ListedIn(LastSuccesses(history, c.threshold), item) || ReportedStale(history, item)))
  {
    ReachableIsInvariant(c, steps);
    assert TablesFollow(c, Execute(c, steps).value, runtime);
    CountersRefineHistory(HistoryOf(Execute(c, steps).value, runtime), c.threshold, item);
  }

  // ----- What a run row tells -----

  lemma RowsMove(c: Config, s: State, step: Step)
    requires Take(c, s, step).Some?
    ensures var t := Take(c, s, step).value;
            t.runs ==
            match step
            case CreateRun(call, run) => s.runs[run := Run(s.calls[call].runtime, Running, 0, 0, 0)]
            case CreateHalfway(call, run) => s.runs[run := Run(s.calls[call].runtime, Running, 0, 0, 0)]
            case PersistSucceeds(call) =>
              s.runs[s.calls[call].phase.run := CompletedRun(s.calls[call].runtime, s.calls[call].phase.snapshot)]
            case FailRun(call) =>
              var run := s.calls[call].phase.run;
              s.runs[run := s.runs[run].(status := RunStatus.Failed)]
            case _ => s.runs
  {
    hide Accepted, Persisted, TablesOf, MarkDeleted, CompletedRun, Record;
  }

  /** A call and the run that it owns are about the same runtime. */
  ghost predicate SameRuntime(s: State) {
    forall x :: x in s.calls && HasRun(s.calls[x].phase) ==>
      s.calls[x].phase.run in s.runs && s.runs[s.calls[x].phase.run].runtime == s.calls[x].runtime
  }

  ghost predicate Completes(history: seq<Event>, run: RunId, row: Run) {
    exists snapshot :: Event.Succeeded(run, snapshot) in history && row == CompletedRun(row.runtime, snapshot)
  }

  /** A row tells what the history of its runtime says of the run. */
  ghost predicate RowTold(s: State, run: RunId)
    requires run in s.runs
  {
    var row, history := s.runs[run], HistoryOf(s, s.runs[run].runtime);
    match row.status
    case Running => row == Run(row.runtime, Running, 0, 0, 0)
    case Succeeded => Completes(history, run, row)
    case Failed => Event.Failed(run) in history && row == Run(row.runtime, RunStatus.Failed, 0, 0, 0)
  }

  ghost predicate RowsTold(s: State) {
    forall run :: run in s.runs ==> RowTold(s, run)
  }

  lemma StepKeepsRuntimes(c: Config, s: State, step: Step)
    requires SameRuntime(s) && Take(c, s, step).Some?
    ensures SameRuntime(Take(c, s, step).value)
    ensures step.PersistSucceeds? ==>
              Owns(s, step.call, s.calls[step.call].phase.run) && s.calls[step.call].phase.Persisting?
    ensures step.FailRun? ==> Owns(s, step.call, s.calls[step.call].phase.run) && s.calls[step.call].phase.Failing?
  {
    hide Accepted, Persisted, TablesOf, MarkDeleted, Record;
  }

  lemma HistoryGrows(c: Config, s: State, step: Step, runtime: RuntimeId)
    requires Take(c, s, step).Some?
    ensures forall e :: e in HistoryOf(s, runtime) ==> e in HistoryOf(Take(c, s, step).value, runtime)
    ensures EventOf(s, step, runtime).Some? ==>
              EventOf(s, step, runtime).value in HistoryOf(Take(c, s, step).value, runtime)
  {
    hide Take;
    TablesMove(c, s, step, runtime);
  }

  lemma StepKeepsRowTold(c: Config, s: State, step: Step, run: RunId)
    requires SameRuntime(s) && RunsOwned(s) && RowsTold(s) && Take(c, s, step).Some?
    requires run in Take(c, s, step).value.runs
    ensures RowTold(Take(c, s, step).value, run)
  {
    hide Take, CompletedRun, HistoryOf;
    var t := Take(c, s, step).value;
    RowsMove(c, s, step);
    StepKeepsRuntimes(c, s, step);
    var runtime := t.runs[run].runtime;
    HistoryGrows(c, s, step, runtime);
    if (step.PersistSucceeds? || step.FailRun?) && run == s.calls[step.call].phase.run {
      CompletedIsSucceeded(s.calls[step.call].runtime);
      assert RowTold(s, run);
      if step.PersistSucceeds? {
        assert EventOf(s, step, runtime) == Some(Event.Succeeded(run, s.calls[step.call].phase.snapshot));
      }
    } else if run in s.runs {
      assert RowTold(s, run);
    }
  }

  lemma CompletedIsSucceeded(runtime: RuntimeId)
    ensures forall snapshot ::
              && CompletedRun(runtime, snapshot).status == RunStatus.Succeeded
              && CompletedRun(runtime, snapshot).runtime == runtime
  {
  }

  lemma {:induction false} ReachableRowsAreTold(c: Config, steps: seq<Step>)
    ensures Execute(c, steps).Some? ==> SameRuntime(Execute(c, steps).value) && RowsTold(Execute(c, steps).value)
  {
    hide Take, RowTold, SameRuntime, Invariant;
    if steps == [] {
      assert SameRuntime(INITIAL) && RowsTold(INITIAL) by { InitialIsTold(); }
    } else if Execute(c, steps).Some? {
      var init, step := steps[..|steps| - 1], steps[|steps| - 1];
      ReachableRowsAreTold(c, init);
      ReachableIsInvariant(c, init);
      var s := Execute(c, init).value;
      InvariantOwns(c, s);
      StepKeepsRuntimes(c, s, step);
      forall run | run in Take(c, s, step).value.runs ensures RowTold(Take(c, s, step).value, run) {
        StepKeepsRowTold(c, s, step, run);
      }
    }
  }

  lemma InvariantOwns(c: Config, s: State)
    requires Invariant(c, s)
    ensures RunsOwned(s)
  {
  }

  lemma InitialIsTold()
    ensures SameRuntime(INITIAL) && RowsTold(INITIAL)
  {
  }

  /**
   * In every interleaving a run row says what happened: it has failed exactly if its runtime's history has the failure,
   * and it has succeeded exactly if the history has its snapshot, whose numbers of agents, bindings and delegations it
   * then carries.
   */
  lemma RunRowsTellTheHistory(c: Config, steps: seq<Step>, run: RunId)
    requires Execute(c, steps).Some? && run in Execute(c, steps).value.runs
    ensures var s := Execute(c, steps).value;
            var row, history := s.runs[run], HistoryOf(s, s.runs[run].runtime);
            && (row.status == RunStatus.Succeeded <==> exists snapshot :: Event.Succeeded(run, snapshot) in history)
            && (row.status == RunStatus.Failed ==> Event.Failed(run) in history)
            && (row.status == RunStatus.Succeeded ==> Completes(history, run, row))
  {
    hide Take, CompletedRun;
    ReachableRowsAreTold(c, steps);
    ReachableIsInvariant(c, steps);
    var s := Execute(c, steps).value;
    var history := HistoryOf(s, s.runs[run].runtime);
    assert RowTold(s, run) && TablesFollow(c, s, s.runs[run].runtime);
    if snapshot :| Event.Succeeded(run, snapshot) in history {
      assert UsedRun(history, run);
    }
  }

  /** Those numbers are the rows stamped with the run, for an accepted snapshot whose delegations do not collide. */
  lemma RowCountsStampedRows(t: Tables, runtime: RuntimeId, run: RunId, snapshot: Snapshot, threshold: nat)
    requires threshold > 0 && FreshRun(t, run) && Accepted(snapshot) && BlankReferencesDiffer(snapshot.delegations)
    ensures var u, row := Persisted(t, run, snapshot, threshold), CompletedRun(runtime, snapshot);
            && row.agentsSeen == |StampedAgents(u, run)| && row.bindingsSeen == |StampedSkills(u, run)|
            && row.delegationsSeen == |StampedDelegations(u, run)|
  {
    hide Persisted, Accepted, BlankReferencesDiffer, FreshRun;
    CountsAreStampedRows(t, run, snapshot, threshold);
  }

  // ----- A Sync call by itself -----

  /** The state after steps from s, or None where one of them cannot be taken. */
  ghost function From(c: Config, s: State, steps: seq<Step>): Option<State>
    decreases |steps|
  {
    if steps == [] then Some(s) else
      match Take(c, s, steps[0])
      case None => None
      case Some(t) => From(c, t, steps[1..])
  }

  /** The steps that a call takes to an outcome while nothing else happens. */
  function StepsOf(call: CallId, runtime: RuntimeId, run: RunId, collected: Option<Snapshot>,
                   outcome: Outcome): seq<Step>
    requires outcome.InvalidSnapshot? || outcome.PersistenceError? || outcome.Completed? ==> collected.Some?
  {
    match outcome
    case LockError => []
    case Conflict => []
    case NotCreated(inserted) =>
      [Acquire(call, runtime), if inserted then CreateHalfway(call, run) else CreateFails(call), Release(call)]
    case AdapterError =>
      [Acquire(call, runtime), CreateRun(call, run), CollectFails(call), FailRun(call), Release(call)]
    case InvalidSnapshot(_) =>
      [Acquire(call, runtime), CreateRun(call, run), CollectSucceeds(call, collected.value), Validate(call),
       FailRun(call), Release(call)]
    case PersistenceError =>
      [Acquire(call, runtime), CreateRun(call, run), CollectSucceeds(call, collected.value), Validate(call),
       PersistFails(call), FailRun(call), Release(call)]
    case Completed =>
      [Acquire(call, runtime), CreateRun(call, run), CollectSucceeds(call, collected.value), Validate(call),
       PersistSucceeds(call), Release(call)]
  }

  function StoresOf(s: State): Stores {
    Stores(s.held, s.runs, s.tables)
  }

  lemma OneStep(c: Config, s: State, steps: seq<Step>)
    requires steps != [] && Take(c, s, steps[0]).Some?
    ensures From(c, s, steps) == From(c, Take(c, s, steps[0]).value, steps[1..])
  {
  }

  /** Since s, nothing has happened but that the call took the lock, created its run and came to a phase. */
  ghost predicate Alone(c: Config, s: State, p: State, call: CallId, runtime: RuntimeId, run: RunId, phase: Phase) {
    && call !in s.calls && run !in s.runs && c.lockKey(runtime) !in s.held
    && p.held == s.held + {c.lockKey(runtime)} && p.tables == s.tables
    && call in p.calls && p.calls - {call} == s.calls
    && p.calls[call].runtime == runtime && p.calls[call].phase == phase
    && p.runs == s.runs[run := Run(runtime, Running, 0, 0, 0)]
  }

  lemma LoneStart(c: Config, s: State, call: CallId, runtime: RuntimeId, run: RunId, steps: seq<Step>)
      returns (p: State)
    requires call !in s.calls && run !in s.runs && c.lockKey(runtime) !in s.held
    requires |steps| >= 2 && steps[0] == Acquire(call, runtime) && steps[1] == CreateRun(call, run)
    ensures From(c, s, steps) == From(c, p, steps[2..]) && Alone(c, s, p, call, runtime, run, Collecting(run))
  {
    OneStep(c, s, steps);
    var locked := Take(c, s, steps[0]).value;
    OneStep(c, locked, steps[1..]);
    p := Take(c, locked, steps[1]).value;
    assert steps[1..][1..] == steps[2..];
  }

  /** The phases that a call goes through between creating its run and settling it. */
  ghost function NextPhase(phase: Phase, step: Step): Option<Phase> {
    match (phase, step)
    case (Collecting(run), CollectSucceeds(_, snapshot)) => Some(Validating(run, snapshot))
    case (Collecting(run), CollectFails(_)) => Some(Failing(run))
    case (Validating(run, snapshot), Validate(_)) =>
      Some(if Accepted(snapshot) then Persisting(run, snapshot) else Failing(run))
    case (Persisting(run, _), PersistFails(_)) => Some(Failing(run))
    case _ => None
  }

  lemma LoneMove(c: Config, s: State, p: State, call: CallId, runtime: RuntimeId, run: RunId, phase: Phase,
                 steps: seq<Step>) returns (q: State)
    requires Alone(c, s, p, call, runtime, run, phase)
    requires steps != [] && !steps[0].DeleteAgent? && steps[0].call == call && NextPhase(phase, steps[0]).Some?
    ensures From(c, p, steps) == From(c, q, steps[1..])
    ensures Alone(c, s, q, call, runtime, run, NextPhase(phase, steps[0]).value)
  {
    hide Accepted, Persisted, TablesOf, MarkDeleted, CompletedRun, Record;
    OneStep(c, p, steps);
    q := Take(c, p, steps[0]).value;
  }

  lemma LoneRelease(c: Config, s: State, p: State, call: CallId, runtime: RuntimeId, steps: seq<Step>)
      returns (t: State)
    requires c.lockKey(runtime) !in s.held && p.held == s.held + {c.lockKey(runtime)}
    requires call in p.calls && p.calls[call].runtime == runtime && p.calls[call].phase == Releasing
    requires p.calls - {call} == s.calls && steps == [Release(call)]
    ensures From(c, p, steps) == Some(t) && t == p.(calls := s.calls, held := s.held)
  {
    OneStep(c, p, steps);
    t := Take(c, p, steps[0]).value;
    assert p.held - {c.lockKey(runtime)} == s.held;
  }

  lemma LoneFailed(c: Config, s: State, p: State, call: CallId, runtime: RuntimeId, run: RunId, steps: seq<Step>)
      returns (t: State)
    requires Alone(c, s, p, call, runtime, run, Failing(run)) && steps == [FailRun(call), Release(call)]
    ensures From(c, p, steps) == Some(t) && t.calls == s.calls && t.held == s.held
    ensures t.runs == s.runs[run := Run(runtime, RunStatus.Failed, 0, 0, 0)] && t.tables == s.tables
  {
    OneStep(c, p, steps);
    t := Take(c, p, steps[0]).value;
    assert t.calls - {call} == p.calls - {call};
    t := LoneRelease(c, s, t, call, runtime, steps[1..]);
  }

  lemma LoneCompleted(c: Config, s: State, p: State, call: CallId, runtime: RuntimeId, run: RunId, snapshot: Snapshot,
                      steps: seq<Step>) returns (t: State)
    requires Alone(c, s, p, call, runtime, run, Persisting(run, snapshot))
    requires steps == [PersistSucceeds(call), Release(call)]
    ensures From(c, p, steps) == Some(t) && t.calls == s.calls && t.held == s.held
    ensures t.runs == s.runs[run := CompletedRun(runtime, snapshot)]
    ensures t.tables == s.tables[runtime := Persisted(TablesOf(s.tables, runtime), run, snapshot, c.threshold)]
  {
    hide Accepted, Persisted, CompletedRun, Record;
    OneStep(c, p, steps);
    t := Take(c, p, steps[0]).value;
    assert t.calls - {call} == p.calls - {call};
    t := LoneRelease(c, s, t, call, runtime, steps[1..]);
  }

  /** From the collected snapshot on. */
  lemma LoneCollected(c: Config, s: State, p: State, call: CallId, runtime: RuntimeId, run: RunId, snapshot: Snapshot,
                      outcome: Outcome) returns (t: State)
    requires Alone(c, s, p, call, runtime, run, Validating(run, snapshot)) && Fits(false, Some(snapshot), outcome)
    requires outcome.InvalidSnapshot? || outcome.PersistenceError? || outcome.Completed?
    ensures From(c, p, StepsOf(call, runtime, run, Some(snapshot), outcome)[3..]) == Some(t) && t.calls == s.calls
    ensures StoresOf(t) == AfterSync(StoresOf(s), runtime, run, c.threshold, Some(snapshot), outcome)
  {
    hide Take, From, Alone, Accepted, Persisted, CompletedRun;
    match outcome
    case InvalidSnapshot(_) =>
      var q := LoneMove(c, s, p, call, runtime, run, Validating(run, snapshot),
                        [Validate(call), FailRun(call), Release(call)]);
      t := LoneFailed(c, s, q, call, runtime, run, [FailRun(call), Release(call)]);
    case PersistenceError =>
      var q := LoneMove(c, s, p, call, runtime, run, Validating(run, snapshot),
                        [Validate(call), PersistFails(call), FailRun(call), Release(call)]);
      q := LoneMove(c, s, q, call, runtime, run, Persisting(run, snapshot),
                    [PersistFails(call), FailRun(call), Release(call)]);
      t := LoneFailed(c, s, q, call, runtime, run, [FailRun(call), Release(call)]);
    case Completed =>
      var q := LoneMove(c, s, p, call, runtime, run, Validating(run, snapshot),
                        [Validate(call), PersistSucceeds(call), Release(call)]);
      t := LoneCompleted(c, s, q, call, runtime, run, snapshot, [PersistSucceeds(call), Release(call)]);
  }

  /** Undisturbed, the steps of a call leave behind exactly what the method Sync does, whatever its outcome. */
  lemma LoneSyncIsARun(c: Config, s: State, call: CallId, runtime: RuntimeId, run: RunId, collected: Option<Snapshot>,
                       outcome: Outcome) returns (t: State)
    requires call !in s.calls && run !in s.runs
    requires Fits(c.lockKey(runtime) in s.held, collected, outcome)
    ensures From(c, s, StepsOf(call, runtime, run, collected, outcome)) == Some(t)
    ensures t.calls == s.calls && StoresOf(t) == AfterSync(StoresOf(s), runtime, run, c.threshold, collected, outcome)
  {
    hide Take, From, Alone, Accepted, Persisted, CompletedRun;
    var steps := StepsOf(call, runtime, run, collected, outcome);
    if outcome.LockError? || outcome.Conflict? {
      t := s;
      assert From(c, s, []) == Some(s) by { NoSteps(c, s); }
    } else if outcome.NotCreated? {
      t := LoneFailure(c, s, call, runtime, run, outcome.inserted);
    } else {
      var p := LoneStart(c, s, call, runtime, run, steps);
      p := LoneMove(c, s, p, call, runtime, run, Collecting(run), steps[2..]);
      assert steps[2..][1..] == steps[3..];
      if outcome.AdapterError? {
        t := LoneFailed(c, s, p, call, runtime, run, steps[3..]);
      } else {
        t := LoneCollected(c, s, p, call, runtime, run, collected.value, outcome);
      }
    }
  }

  lemma NoSteps(c: Config, s: State)
    ensures From(c, s, []) == Some(s)
  {
  }

  lemma LoneFailure(c: Config, s: State, call: CallId, runtime: RuntimeId, run: RunId, inserted: bool)
      returns (t: State)
    requires call !in s.calls && run !in s.runs && c.lockKey(runtime) !in s.held
    ensures From(c, s, [Acquire(call, runtime), if inserted then CreateHalfway(call, run) else CreateFails(call),
                        Release(call)]) == Some(t)
    ensures t.calls == s.calls && t.held == s.held && t.tables == s.tables
    ensures t.runs == if inserted then s.runs[run := Run(runtime, Running, 0, 0, 0)] else s.runs
  {
    hide Accepted, Persisted, MarkDeleted, CompletedRun, Record;
    var create := if inserted then CreateHalfway(call, run) else CreateFails(call);
    var steps := [Acquire(call, runtime), create, Release(call)];
    OneStep(c, s, steps);
    var locked := Take(c, s, steps[0]).value;
    OneStep(c, locked, steps[1..]);
    var failed := Take(c, locked, steps[1]).value;
    assert steps[1..][1..] == [Release(call)] && failed.calls - {call} == s.calls;
    t := LoneRelease(c, s, failed, call, runtime, steps[1..][1..]);
  }
}
