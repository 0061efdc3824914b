/** What an adapter reports about a runtime, and validateRuntimeSnapshot. */
module Snapshots {
  import opened Texts
  import opened Wrappers

  datatype AgentStatus = Unknown | Enabled | Disabled | Stale

  datatype AgentItem = AgentItem(
    runtimeId: string, status: AgentStatus, skills: seq<string>, accessAgentId: string, accessSource: string,
    access: int)

  datatype DelegationItem = DelegationItem(orchestrator: string, delegate: string, ref: string)
  datatype InventoryItem = InventoryItem(kind: string, id: string)
  datatype CapabilityItem = CapabilityItem(id: string, version: string)
  datatype ExecutionItem = ExecutionItem(kind: string, id: string)

  datatype Snapshot = Snapshot(
    agents: seq<AgentItem>, delegations: seq<DelegationItem>, diagnostics: seq<string>, inventory: seq<InventoryItem>,
    capabilities: seq<CapabilityItem>, executions: seq<ExecutionItem>, subagents: seq<string>)

  // ----- The keys that validation tells items apart by; None where an item lacks its identity -----

  function DiagnosticKey(checkId: string): Option<string> {
    if Trim(checkId) == "" then None else Some(Trim(checkId))
  }

  function InventoryKey(item: InventoryItem): Option<string> {
    if Trim(item.kind) == "" || Trim(item.id) == "" then None else Some(item.kind + ":" + item.id)
  }

  function CapabilityKey(item: CapabilityItem): Option<string> {
    if Trim(item.id) == "" || Trim(item.version) == "" then None else Some(item.id + ":" + item.version)
  }

  function DelegationKey(item: DelegationItem): Option<string> {
    var orchestrator, delegate, ref := Trim(item.orchestrator), Trim(item.delegate), Trim(item.ref);
    if orchestrator == "" || (delegate == "" && ref == "") then None
    else if ref == "" then Some(orchestrator + ":agent:" + delegate)
    else Some(orchestrator + ":ref:" + ref)
  }

  function AgentKey(item: AgentItem): Option<string> {
    if Trim(item.runtimeId) == "" then None else Some(Trim(item.runtimeId))
  }

  function SkillKey(id: string): Option<string> {
    if Trim(id) == "" then None else Some(id)
  }

  function ExecutionKey(item: ExecutionItem): Option<string> {
    if Trim(item.id) == "" || Trim(item.kind) == "" then None else Some(item.kind + ":" + Trim(item.id))
  }

  /** Every item is identified, and no two items share a key. */
  ghost predicate Identified<T>(items: seq<T>, key: T -> Option<string>) {
    && (forall i :: 0 <= i < |items| ==> key(items[i]).Some?)
    && (forall i, j :: 0 <= i < j < |items| ==> key(items[i]) != key(items[j]))
  }

  ghost predicate GoodAgent(item: AgentItem) {
    && (item.accessAgentId == "" || item.accessAgentId == Trim(item.runtimeId))
    && Identified(item.skills, SkillKey)
  }

  ghost predicate GoodAgents(agents: seq<AgentItem>) {
    Identified(agents, AgentKey) && forall i :: 0 <= i < |agents| ==> GoodAgent(agents[i])
  }

  datatype Section = Diagnostics | Inventory | Capabilities | Delegations | Agents | Executions | Subagents

  ghost predicate Good(snapshot: Snapshot, section: Section) {
    match section
    case Diagnostics => Identified(snapshot.diagnostics, DiagnosticKey)
    case Inventory => Identified(snapshot.inventory, InventoryKey)
    case Capabilities => Identified(snapshot.capabilities, CapabilityKey)
    case Delegations => Identified(snapshot.delegations, DelegationKey)
    case Agents => GoodAgents(snapshot.agents)
    case Executions => Identified(snapshot.executions, ExecutionKey)
    case Subagents => Identified(snapshot.subagents, DiagnosticKey)
  }

  ghost predicate Accepted(snapshot: Snapshot) {
    forall section :: Good(snapshot, section)
  }

  /** The loop that every section runs: fills a map of seen keys until an item is unidentified or repeated. */
  method CheckKeys<T>(items: seq<T>, key: T -> Option<string>) returns (ok: bool)
    ensures ok == Identified(items, key)
  {
    var seen: map<string, nat> := map[];
    for i := 0 to |items|
      invariant Identified(items[..i], key)
      invariant forall k :: k in seen ==> seen[k] < i && key(items[seen[k]]) == Some(k)
      invariant forall j :: 0 <= j < i ==> key(items[j]).value in seen
    {
      var k := key(items[i]);
      if k.None? {
        return false;
      }
      if k.value in seen {
        return false;
      }
      seen := seen[k.value := i];
      assert items[..i + 1] == items[..i] + [items[i]];
    }
    assert items[..|items|] == items;
    return true;
  }

  /** The loop over the agents, which looks at each agent's access document and skills as it goes. */
  method CheckAgents(agents: seq<AgentItem>) returns (ok: bool)
    ensures ok == GoodAgents(agents)
  {
    hide GoodAgent;
    var seen: map<string, nat> := map[];
    for i := 0 to |agents|
      invariant GoodAgents(agents[..i])
      invariant forall k :: k in seen ==> seen[k] < i && AgentKey(agents[seen[k]]) == Some(k)
      invariant forall j :: 0 <= j < i ==> AgentKey(agents[j]).value in seen
    {
      var item := agents[i];
      var k := AgentKey(item);
      if k.None? {
        return false;
      }
      if k.value in seen {
        return false;
      }
      seen := seen[k.value := i];
      var good := CheckAgent(item);
      if !good {
        return false;
      }
      assert agents[..i + 1] == agents[..i] + [item];
    }
    assert agents[..|agents|] == agents;
    return true;
  }

  method CheckAgent(item: AgentItem) returns (ok: bool)
    ensures ok == GoodAgent(item)
  {
    if item.accessAgentId != "" && item.accessAgentId != Trim(item.runtimeId) {
      return false;
    }
    ok := CheckKeys(item.skills, SkillKey);
  }

  /** The order in which the sections are looked at. */
  function Rank(section: Section): nat {
    match section
    case Diagnostics => 0
    case Inventory => 1
    case Capabilities => 2
    case Delegations => 3
    case Agents => 4
    case Executions => 5
    case Subagents => 6
  }

  /** None if the snapshot is accepted; otherwise the first section that is not good. */
  method ValidateRuntimeSnapshot(snapshot: Snapshot) returns (problem: Option<Section>)
    ensures problem.Some? ==> !Good(snapshot, problem.value)
    ensures problem.Some? ==> forall section :: Rank(section) < Rank(problem.value) ==> Good(snapshot, section)
    ensures problem.None? <==> Accepted(snapshot)
  {
    hide Identified, GoodAgents;
    var ok := CheckKeys(snapshot.diagnostics, DiagnosticKey);
    if !ok { return Some(Diagnostics); }
    ok := CheckKeys(snapshot.inventory, InventoryKey);
    if !ok { return Some(Inventory); }
    ok := CheckKeys(snapshot.capabilities, CapabilityKey);
    if !ok { return Some(Capabilities); }
    ok := CheckKeys(snapshot.delegations, DelegationKey);
    if !ok { return Some(Delegations); }
    ok := CheckAgents(snapshot.agents);
    if !ok { return Some(Agents); }
    ok := CheckKeys(snapshot.executions, ExecutionKey);
    if !ok { return Some(Executions); }
    ok := CheckKeys(snapshot.subagents, DiagnosticKey);
    if !ok { return Some(Subagents); }
    return None;
  }

  // ----- Validation against the keys that the tables use -----

  /** No two items are written to the same row. */
  ghost predicate OneRowEach<T, K>(items: seq<T>, rowKey: T -> K) {
    forall i, j :: 0 <= i < j < |items| ==> rowKey(items[i]) != rowKey(items[j])
  }

  function DelegationRow(item: DelegationItem): (string, string) {
    (item.orchestrator, "ref:" + item.ref)
  }

  function AgentRow(item: AgentItem): string { item.runtimeId }

  ghost predicate CollisionFreeBesidesDelegations(snapshot: Snapshot) {
    && OneRowEach(snapshot.agents, AgentRow)
    && (forall i :: 0 <= i < |snapshot.agents| ==> OneRowEach(snapshot.agents[i].skills, (s: string) => s))
    && OneRowEach(snapshot.diagnostics, (s: string) => s)
    && OneRowEach(snapshot.inventory, (x: InventoryItem) => (x.kind, x.id))
    && OneRowEach(snapshot.capabilities, (x: CapabilityItem) => (x.id, x.version))
    && OneRowEach(snapshot.executions, (x: ExecutionItem) => (x.kind, x.id))
    && OneRowEach(snapshot.subagents, (s: string) => s)
  }

  /** Delegations without a reference differ in orchestrator or in the exact text of the blank reference. */
  ghost predicate BlankReferencesDiffer(delegations: seq<DelegationItem>) {
    forall i, j :: 0 <= i < j < |delegations| && Trim(delegations[i].ref) == "" && Trim(delegations[j].ref) == "" ==>
      delegations[i].orchestrator != delegations[j].orchestrator || delegations[i].ref != delegations[j].ref
  }

  /** Within an accepted snapshot no upsert overwrites another item of its kind. */
  lemma AcceptedHasOneRowEach(snapshot: Snapshot)
    requires Accepted(snapshot)
    ensures CollisionFreeBesidesDelegations(snapshot)
  {
    assert Good(snapshot, Diagnostics) && Good(snapshot, Inventory) && Good(snapshot, Capabilities);
    assert Good(snapshot, Agents) && Good(snapshot, Executions) && Good(snapshot, Subagents);
    forall i | 0 <= i < |snapshot.agents| ensures OneRowEach(snapshot.agents[i].skills, (s: string) => s) {
      assert GoodAgent(snapshot.agents[i]);
    }
  }

  /** Delegations share a row exactly when two without a reference come from one orchestrator with the same text. */
  lemma DelegationsCollideOnlyWithoutReference(snapshot: Snapshot)
    requires Accepted(snapshot)
    ensures OneRowEach(snapshot.delegations, DelegationRow) <==> BlankReferencesDiffer(snapshot.delegations)
  {
    var items := snapshot.delegations;
    assert Good(snapshot, Delegations);
    forall i, j | 0 <= i < j < |items| && DelegationRow(items[i]) == DelegationRow(items[j])
      ensures Trim(items[i].ref) == "" && Trim(items[j].ref) == "" &&
              items[i].orchestrator == items[j].orchestrator && items[i].ref == items[j].ref
    {
      assert ("ref:" + items[i].ref)[4..] == items[i].ref && ("ref:" + items[j].ref)[4..] == items[j].ref;
      assert DelegationKey(items[i]) != DelegationKey(items[j]);
    }
  }

  /** A snapshot that is accepted although its second delegation overwrites the first. */
  lemma AcceptedDelegationsCanCollide()
    ensures exists snapshot :: (Accepted(snapshot) && !OneRowEach(snapshot.delegations, DelegationRow))
  {
    hide OneRowEach, Trim, DelegationKey;
    var a, b := DelegationItem("o", "x", ""), DelegationItem("o", "y", "");
    var snapshot := Snapshot([], [a, b], [], [], [], [], []);
    TwoKeys(a, b);
    forall section ensures Good(snapshot, section) {
    }
    SharedRow(snapshot);
  }

  lemma TwoKeys(a: DelegationItem, b: DelegationItem)
    requires a == DelegationItem("o", "x", "") && b == DelegationItem("o", "y", "")
    ensures DelegationKey(a).Some? && DelegationKey(b).Some? && DelegationKey(a) != DelegationKey(b)
  {
    assert Trim("o") == "o" && Trim("x") == "x" && Trim("y") == "y" && Trim("") == "";
    assert DelegationKey(a) == Some("o:agent:" + "x") && DelegationKey(b) == Some("o:agent:" + "y") by {
      assert "o" + ":agent:" == "o:agent:";
    }
    assert ("o:agent:" + "x")[8] != ("o:agent:" + "y")[8];
  }

  lemma SharedRow(snapshot: Snapshot)
    requires |snapshot.delegations| == 2
    requires DelegationRow(snapshot.delegations[0]) == DelegationRow(snapshot.delegations[1])
    ensures !OneRowEach(snapshot.delegations, DelegationRow)
  {
  }
}
