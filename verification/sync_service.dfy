/** SyncRepository and RuntimeSyncService.Sync on mutable tables. */
module SyncService {
  import opened Snapshots
  import opened SyncStore
  import opened Wrappers

  datatype RunStatus = Running | Succeeded | Failed

  datatype Run = Run(runtime: RuntimeId, status: RunStatus, agentsSeen: nat, bindingsSeen: nat, delegationsSeen: nat)

  /** How creating a run goes: its row is inserted and then the runtime is marked, in two separate statements. */
  datatype Creation = Created | NotInserted | NotMarked

  datatype Outcome =
    | LockError | Conflict | NotCreated(inserted: bool)
    | AdapterError | InvalidSnapshot(section: Section) | PersistenceError | Completed

  /** What the database holds: the advisory locks, the run rows, and the tables of each runtime. */
  datatype Stores = Stores(held: set<int>, runs: map<RunId, Run>, tables: map<RuntimeId, Tables>)

  /** What a Sync call leaves behind, by its outcome. */
  function AfterSync(s: Stores, runtime: RuntimeId, run: RunId, threshold: nat, collected: Option<Snapshot>,
                     outcome: Outcome): Stores
    requires outcome.Completed? ==> collected.Some?
  {
    match outcome
    case LockError => s
    case Conflict => s
    case NotCreated(inserted) => if inserted then s.(runs := s.runs[run := Run(runtime, Running, 0, 0, 0)]) else s
    case Completed =>
      s.(runs := s.runs[run := CompletedRun(runtime, collected.value)],
         tables := s.tables[runtime := Persisted(TablesOf(s.tables, runtime), run, collected.value, threshold)])
    case _ => s.(runs := s.runs[run := Run(runtime, Failed, 0, 0, 0)])
  }

  /** Which outcomes a free or held lock and an answer of the adapter leave open. */
  ghost predicate Fits(locked: bool, collected: Option<Snapshot>, outcome: Outcome) {
    && (outcome == Conflict ==> locked)
    && (!outcome.LockError? && !outcome.Conflict? ==> !locked)
    && (outcome == AdapterError ==> collected.None?)
    && (outcome.InvalidSnapshot? ==> collected.Some? && !Accepted(collected.value))
    && (outcome.PersistenceError? || outcome.Completed? ==> collected.Some? && Accepted(collected.value))
  }

  /** Which statements of a transaction fail. */
  type Faults = nat -> bool

  function TablesOf(tables: map<RuntimeId, Tables>, runtime: RuntimeId): Tables {
    if runtime in tables then tables[runtime] else NO_TABLES
  }

  function CompletedRun(runtime: RuntimeId, snapshot: Snapshot): Run {
    Run(runtime, Succeeded, |snapshot.agents|, BindingCount(snapshot.agents), |snapshot.delegations|)
  }

  ghost predicate NoneFails(faults: Faults, n: nat) {
    forall k :: 0 <= k < n ==> !faults(k)
  }

  /** One statement for each agent, each of its skills, and the access document if it has a source. */
  ghost function AgentStatements(items: seq<AgentItem>): nat {
    if items == [] then 0 else
      var item := items[|items| - 1];
      AgentStatements(items[..|items| - 1]) + 1 + |item.skills| + (if item.accessSource != "" then 1 else 0)
  }

  /** After those for agents and delegations, four more advance the three kinds of rows and complete the run. */
  ghost function Statements(snapshot: Snapshot): nat {
    AgentStatements(snapshot.agents) + |snapshot.delegations| + 4
  }

  /** The statements of the transaction on its own copy of the tables; the first one that fails ends it. */
  method Transact(start: Tables, run: RunId, snapshot: Snapshot, threshold: nat, faults: Faults)
      returns (ok: bool, t: Tables, bindings: nat)
    ensures ok <==> NoneFails(faults, Statements(snapshot))
    ensures ok ==> t == Persisted(start, run, snapshot, threshold) && bindings == BindingCount(snapshot.agents)
  {
    var statement: nat;
    ok, t, bindings, statement := WriteAgents(start, run, snapshot.agents, faults);
    if !ok {
      return;
    }
    ghost var afterAgents := t;
    assert snapshot.delegations[..0] == [];
    for i := 0 to |snapshot.delegations|
      invariant t == UpsertDelegations(afterAgents, run, snapshot.delegations[..i])
      invariant statement == AgentStatements(snapshot.agents) + i && NoneFails(faults, statement)
    {
      assert snapshot.delegations[..i + 1][..i] == snapshot.delegations[..i];
      if faults(statement) {
        return false, t, bindings;
      }
      t := t.(delegations := t.delegations[DelegationRow(snapshot.delegations[i]) := Stamp(false, run, 0)]);
      statement := statement + 1;
    }
    assert snapshot.delegations[..|snapshot.delegations|] == snapshot.delegations;
    // advancing and marking the missing agents, skill bindings and delegations, and completing the run
    if faults(statement) || faults(statement + 1) || faults(statement + 2) || faults(statement + 3) {
      return false, t, bindings;
    }
    t := Advance(t, run, threshold);
    return true, t, bindings;
  }

  lemma {:induction false} MoreStatements(items: seq<AgentItem>, i: nat)
    requires i < |items|
    ensures AgentStatements(items[..i]) + 1 + |items[i].skills| + (if items[i].accessSource != "" then 1 else 0) ==
            AgentStatements(items[..i + 1]) <= AgentStatements(items)
    decreases |items| - i
  {
    assert items[..i + 1][..i] == items[..i];
    if i + 1 < |items| {
      MoreStatements(items, i + 1);
    } else {
      assert items[..i + 1] == items;
    }
  }

  method WriteAgents(start: Tables, run: RunId, items: seq<AgentItem>, faults: Faults)
      returns (ok: bool, t: Tables, bindings: nat, statement: nat)
    ensures ok <==> NoneFails(faults, AgentStatements(items))
    ensures ok ==> t == UpsertAgents(start, run, items) && bindings == BindingCount(items)
    ensures ok ==> statement == AgentStatements(items)
  {
    t, bindings, statement := start, 0, 0;
    assert items[..0] == [];
    for i := 0 to |items|
      invariant t == UpsertAgents(start, run, items[..i])
      invariant bindings == BindingCount(items[..i])
      invariant statement == AgentStatements(items[..i]) && NoneFails(faults, statement)
    {
      var item := items[i];
      MoreStatements(items, i);
      assert items[..i + 1][..i] == items[..i];
      if faults(statement) {
        return false, t, bindings, statement;
      }
      t := UpsertAgent(t, run, item);
      ok, t, statement := WriteSkills(t, run, item, faults, statement + 1);
      if !ok {
        return;
      }
      bindings := bindings + |item.skills|;
      if item.accessSource != "" {
        if faults(statement) {
          return false, t, bindings, statement;
        }
        statement := statement + 1;
      }
      t := UpsertAccess(t, item);
    }
    assert items[..|items|] == items;
    ok := true;
  }

  method WriteSkills(start: Tables, run: RunId, item: AgentItem, faults: Faults, statement0: nat)
      returns (ok: bool, t: Tables, statement: nat)
    requires NoneFails(faults, statement0)
    ensures ok <==> NoneFails(faults, statement0 + |item.skills|)
    ensures ok ==> t == UpsertSkills(start, run, item.runtimeId, item.skills) && statement == statement0 + |item.skills|
  {
    t, statement := start, statement0;
    assert item.skills[..0] == [];
    for i := 0 to |item.skills|
      invariant t == UpsertSkills(start, run, item.runtimeId, item.skills[..i])
      invariant statement == statement0 + i && NoneFails(faults, statement)
    {
      assert item.skills[..i + 1][..i] == item.skills[..i];
      if faults(statement) {
        return false, t, statement;
      }
      t := t.(skills := t.skills[(item.runtimeId, item.skills[i]) := Stamp(false, run, 0)]);
      statement := statement + 1;
    }
    assert item.skills[..|item.skills|] == item.skills;
    ok := true;
  }

  class SyncRepository {
    // The database hashes a runtime's id to the key of its advisory lock.
    const lockKey: RuntimeId -> int
    var held: set<int>
    var runs: map<RunId, Run>
    var tables: map<RuntimeId, Tables>

    constructor (lockKey: RuntimeId -> int)
      ensures this.lockKey == lockKey && held == {} && runs == map[] && tables == map[]
    {
      this.lockKey, held, runs, tables := lockKey, {}, map[], map[];
    }

    function Stored(): Stores
      reads this
    {
      Stores(held, runs, tables)
    }

    /** None when the connection or the query fails, and then nothing is held. */
    method TryLock(runtime: RuntimeId, fails: bool) returns (acquired: Option<bool>)
      modifies this`held
      ensures acquired == if fails then None else Some(lockKey(runtime) !in old(held))
      ensures held == if acquired == Some(true) then old(held) + {lockKey(runtime)} else old(held)
    {
      if fails {
        return None;
      }
      if lockKey(runtime) in held {
        return Some(false);
      }
      held := held + {lockKey(runtime)};
      return Some(true);
    }

    method Release(runtime: RuntimeId)
      modifies this`held
      ensures held == old(held) - {lockKey(runtime)}
    {
      held := held - {lockKey(runtime)};
    }

    /** The two statements are no transaction: if the second fails, the row of the first stays. */
    method CreateRun(runtime: RuntimeId, run: RunId, creation: Creation) returns (ok: bool)
      modifies this`runs
      ensures ok == creation.Created?
      ensures runs == if creation.NotInserted? then old(runs) else old(runs)[run := Run(runtime, Running, 0, 0, 0)]
    {
      if creation.NotInserted? {
        return false;
      }
      runs := runs[run := Run(runtime, Running, 0, 0, 0)];
      return !creation.NotMarked?;
    }

    method FailRun(run: RunId)
      requires run in runs
      modifies this`runs
      ensures runs == old(runs)[run := old(runs)[run].(status := Failed)]
    {
      runs := runs[run := runs[run].(status := Failed)];
    }

    /** One transaction: all of the snapshot is written, or nothing is. */
    method PersistSnapshot(runtime: RuntimeId, run: RunId, snapshot: Snapshot, threshold: nat, faults: Faults)
        returns (ok: bool)
      modifies this`tables, this`runs
      ensures ok <==> NoneFails(faults, Statements(snapshot))
      ensures ok ==> runs == old(runs)[run := CompletedRun(runtime, snapshot)]
      ensures ok ==>
                tables == old(tables)[runtime := Persisted(TablesOf(old(tables), runtime), run, snapshot, threshold)]
      ensures !ok ==> runs == old(runs) && tables == old(tables)
    {
      var t, bindings;
      ok, t, bindings := Transact(TablesOf(tables, runtime), run, snapshot, threshold, faults);
      if ok {
        tables := tables[runtime := t];
        runs := runs[run := Run(runtime, Succeeded, |snapshot.agents|, bindings, |snapshot.delegations|)];
      }
    }

    /**
     * Lock, create a run, collect, validate and persist, or fail the run. The lock is given back on every path.
     * collected is what the adapter answers; None is an adapter error.
     */
    method Sync(runtime: RuntimeId, run: RunId, lockFails: bool, creation: Creation, collected: Option<Snapshot>,
                threshold: nat, faults: Faults) returns (outcome: Outcome)
      requires run !in runs
      modifies this
      ensures Fits(lockKey(runtime) in old(held), collected, outcome)
      ensures outcome == LockError <==> lockFails
      ensures outcome == Conflict <==> !lockFails && lockKey(runtime) in old(held)
      ensures outcome.NotCreated? <==> !lockFails && lockKey(runtime) !in old(held) && !creation.Created?
      ensures outcome.NotCreated? ==> outcome.inserted == creation.NotMarked?
      ensures outcome == Completed ==> NoneFails(faults, Statements(collected.value))
      ensures outcome == PersistenceError ==> !NoneFails(faults, Statements(collected.value))
      ensures Stored() == AfterSync(old(Stored()), runtime, run, threshold, collected, outcome)
    {
      hide Accepted, Persisted, TablesOf, BindingCount;
      var acquired := TryLock(runtime, lockFails);
      if acquired.None? {
        return LockError;
      }
      if !acquired.value {
        return Conflict;
      }
      outcome := SyncLocked(runtime, run, creation, collected, threshold, faults);
      Release(runtime);
    }

    /** The part of Sync between taking the lock and giving it back. */
    method SyncLocked(runtime: RuntimeId, run: RunId, creation: Creation, collected: Option<Snapshot>, threshold: nat,
                      faults: Faults) returns (outcome: Outcome)
      requires run !in runs
      modifies this`runs, this`tables
      ensures Fits(false, collected, outcome) && !outcome.LockError? && !outcome.Conflict?
      ensures outcome.NotCreated? <==> !creation.Created?
      ensures outcome.NotCreated? ==> outcome.inserted == creation.NotMarked?
      ensures outcome == Completed ==> NoneFails(faults, Statements(collected.value))
      ensures outcome == PersistenceError ==> !NoneFails(faults, Statements(collected.value))
      ensures Stored() == AfterSync(old(Stored()), runtime, run, threshold, collected, outcome)
    {
      hide Accepted, Persisted, TablesOf, BindingCount;
      var created := CreateRun(runtime, run, creation);
      if !created {
        return NotCreated(creation.NotMarked?);
      }
      outcome := SyncCreated(runtime, run, collected, threshold, faults);
    }

    /** Collects, validates and persists under a run that has been created. */
    method SyncCreated(runtime: RuntimeId, run: RunId, collected: Option<Snapshot>, threshold: nat, faults: Faults)
        returns (outcome: Outcome)
      requires run in runs && runs[run] == Run(runtime, Running, 0, 0, 0)
      modifies this`runs, this`tables
      ensures Fits(false, collected, outcome)
      ensures !outcome.LockError? && !outcome.Conflict? && !outcome.NotCreated?
      ensures outcome == Completed ==> NoneFails(faults, Statements(collected.value))
      ensures outcome == PersistenceError ==> !NoneFails(faults, Statements(collected.value))
      ensures Stored() == AfterSync(old(Stored()), runtime, run, threshold, collected, outcome)
    {
      hide Accepted, Persisted, TablesOf, BindingCount;
      if collected.None? {
        FailRun(run);
        return AdapterError;
      }
      var problem := ValidateRuntimeSnapshot(collected.value);
      if problem.Some? {
        FailRun(run);
        return InvalidSnapshot(problem.value);
      }
      var ok := PersistSnapshot(runtime, run, collected.value, threshold, faults);
      if !ok {
        FailRun(run);
        return PersistenceError;
      }
      return Completed;
    }
  }
}
