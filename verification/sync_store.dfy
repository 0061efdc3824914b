/** The tables that a successful sync writes, and the methods of SyncRepository on them. */
module SyncStore {
  import opened Snapshots
  import opened Wrappers

  type RunId = int
  type RuntimeId = int

  /** An agent together with its binding to the runtime. */
  datatype AgentRecord = AgentRecord(status: AgentStatus, lastSeen: RunId, missing: nat)

  /** A skill binding or a delegation: when it was last seen, and whether it is marked stale. */
  datatype Stamp = Stamp(stale: bool, lastSeen: RunId, missing: nat)

  /** What is stored about one runtime. */
  datatype Tables = Tables(
    agents: map<string, AgentRecord>,
    skills: map<(string, string), Stamp>,
    delegations: map<(string, string), Stamp>,
    access: map<string, int>)

  const NO_TABLES := Tables(map[], map[], map[], map[])

  // ----- One upsert at a time -----

  function UpsertAgent(t: Tables, run: RunId, item: AgentItem): Tables {
    t.(agents := t.agents[item.runtimeId := AgentRecord(item.status, run, 0)])
  }

  function UpsertSkills(t: Tables, run: RunId, agent: string, skills: seq<string>): Tables {
    if skills == [] then t else
      var n := |skills| - 1;
      var init := UpsertSkills(t, run, agent, skills[..n]);
      init.(skills := init.skills[(agent, skills[n]) := Stamp(false, run, 0)])
  }

  function UpsertAccess(t: Tables, item: AgentItem): Tables {
    if item.accessSource == "" then t else t.(access := t.access[item.runtimeId := item.access])
  }

  function UpsertAgents(t: Tables, run: RunId, items: seq<AgentItem>): Tables {
    if items == [] then t else
      var n := |items| - 1;
      var item := items[n];
      var init := UpsertAgents(t, run, items[..n]);
      UpsertAccess(UpsertSkills(UpsertAgent(init, run, item), run, item.runtimeId, item.skills), item)
  }

  function UpsertDelegations(t: Tables, run: RunId, items: seq<DelegationItem>): Tables {
    if items == [] then t else
      var n := |items| - 1;
      var init := UpsertDelegations(t, run, items[..n]);
      init.(delegations := init.delegations[DelegationRow(items[n]) := Stamp(false, run, 0)])
  }

  // ----- Counting the items a snapshot left out -----

  function AdvanceAgent(r: AgentRecord, run: RunId, threshold: nat): AgentRecord {
    var missing := if r.lastSeen != run then r.missing + 1 else r.missing;
    r.(missing := missing, status := if missing >= threshold then Stale else r.status)
  }

  function AdvanceStamp(s: Stamp, run: RunId, threshold: nat): Stamp {
    if s.lastSeen == run then s
    else s.(missing := s.missing + 1, stale := s.stale || s.missing + 1 >= threshold)
  }

  function Advance(t: Tables, run: RunId, threshold: nat): Tables {
    t.(agents := map k | k in t.agents :: AdvanceAgent(t.agents[k], run, threshold),
       skills := map k | k in t.skills :: AdvanceStamp(t.skills[k], run, threshold),
       delegations := map k | k in t.delegations :: AdvanceStamp(t.delegations[k], run, threshold))
  }

  /** The tables after a snapshot has been persisted. */
  function Persisted(t: Tables, run: RunId, snapshot: Snapshot, threshold: nat): Tables {
    Advance(UpsertDelegations(UpsertAgents(t, run, snapshot.agents), run, snapshot.delegations), run, threshold)
  }

  function MarkDeleted(t: Tables, agent: string): Tables {
    if agent !in t.agents then t
    else t.(agents := t.agents[agent := t.agents[agent].(status := Disabled)])
  }

  // ----- The rows that snapshots list -----

  datatype Item =
    | AgentItemOf(agent: string)
    | SkillItem(binding: (string, string))
    | DelegationItemOf(row: (string, string))

  /** What a snapshot says last of an agent's status, if it lists the agent. */
  function LastReport(items: seq<AgentItem>, agent: string): Option<AgentStatus> {
    if items == [] then None
    else if items[|items| - 1].runtimeId == agent then Some(items[|items| - 1].status)
    else LastReport(items[..|items| - 1], agent)
  }

  ghost predicate ListsAgent(items: seq<AgentItem>, agent: string) {
    exists i :: 0 <= i < |items| && items[i].runtimeId == agent
  }

  ghost predicate ListsSkill(items: seq<AgentItem>, binding: (string, string)) {
    exists i :: 0 <= i < |items| && items[i].runtimeId == binding.0 && binding.1 in items[i].skills
  }

  ghost predicate ListsDelegation(items: seq<DelegationItem>, row: (string, string)) {
    exists i :: 0 <= i < |items| && DelegationRow(items[i]) == row
  }

  ghost predicate Lists(snapshot: Snapshot, item: Item) {
    match item
    case AgentItemOf(agent) => ListsAgent(snapshot.agents, agent)
    case SkillItem(binding) => ListsSkill(snapshot.agents, binding)
    case DelegationItemOf(row) => ListsDelegation(snapshot.delegations, row)
  }

  /** Only agents can be reported as stale by the runtime itself. */
  predicate ReportsStale(snapshot: Snapshot, item: Item) {
    item.AgentItemOf? && LastReport(snapshot.agents, item.agent) == Some(Stale)
  }

  predicate Present(t: Tables, item: Item) {
    match item
    case AgentItemOf(agent) => agent in t.agents
    case SkillItem(binding) => binding in t.skills
    case DelegationItemOf(row) => row in t.delegations
  }

  function MissingSyncs(t: Tables, item: Item): nat
    requires Present(t, item)
  {
    match item
    case AgentItemOf(agent) => t.agents[agent].missing
    case SkillItem(binding) => t.skills[binding].missing
    case DelegationItemOf(row) => t.delegations[row].missing
  }

  function LastSeen(t: Tables, item: Item): RunId
    requires Present(t, item)
  {
    match item
    case AgentItemOf(agent) => t.agents[agent].lastSeen
    case SkillItem(binding) => t.skills[binding].lastSeen
    case DelegationItemOf(row) => t.delegations[row].lastSeen
  }

  predicate IsStale(t: Tables, item: Item)
    requires Present(t, item)
  {
    match item
    case AgentItemOf(agent) => t.agents[agent].status == Stale
    case SkillItem(binding) => t.skills[binding].stale
    case DelegationItemOf(row) => t.delegations[row].stale
  }

  lemma {:induction false} SkillsUpserted(t: Tables, run: RunId, agent: string, skills: seq<string>)
    ensures var u := UpsertSkills(t, run, agent, skills);
            && u.agents == t.agents && u.delegations == t.delegations && u.access == t.access
            && (forall k :: k in u.skills <==> k in t.skills || (k.0 == agent && k.1 in skills))
            && (forall k :: k in u.skills ==>
                  u.skills[k] == if k.0 == agent && k.1 in skills then Stamp(false, run, 0) else t.skills[k])
  {
    if skills != [] {
      var n := |skills| - 1;
      SkillsUpserted(t, run, agent, skills[..n]);
      assert skills == skills[..n] + [skills[n]];
    }
  }

  lemma ListsSnoc(items: seq<AgentItem>, last: AgentItem)
    ensures forall k :: ListsAgent(items + [last], k) <==> ListsAgent(items, k) || last.runtimeId == k
    ensures forall k :: ListsSkill(items + [last], k) <==>
                        ListsSkill(items, k) || (last.runtimeId == k.0 && k.1 in last.skills)
    ensures forall k :: LastReport(items + [last], k) ==
                        if last.runtimeId == k then Some(last.status) else LastReport(items, k)
  {
    var all := items + [last];
    assert all[|items|] == last && all[..|items|] == items;
    forall k | ListsAgent(items, k) ensures ListsAgent(all, k) {
      var i :| 0 <= i < |items| && items[i].runtimeId == k;
      assert all[i].runtimeId == k;
    }
    forall k | ListsSkill(items, k) ensures ListsSkill(all, k) {
      var i :| 0 <= i < |items| && items[i].runtimeId == k.0 && k.1 in items[i].skills;
      assert all[i] == items[i];
    }
  }

  lemma {:induction false} AgentRowsUpserted(t: Tables, run: RunId, items: seq<AgentItem>)
    ensures var u := UpsertAgents(t, run, items);
            && u.delegations == t.delegations
            && (forall k :: k in u.agents <==> k in t.agents || ListsAgent(items, k))
            && (forall k :: k in u.agents ==>
                  if ListsAgent(items, k)
                  then u.agents[k].lastSeen == run && u.agents[k].missing == 0 &&
                       LastReport(items, k) == Some(u.agents[k].status)
                  else u.agents[k] == t.agents[k])
  {
    hide ListsAgent, ListsSkill, LastReport, UpsertSkills;
    if items == [] {
      NothingListed();
    } else {
      var n := |items| - 1;
      AgentRowsUpserted(t, run, items[..n]);
      assert items == items[..n] + [items[n]];
      ListsSnoc(items[..n], items[n]);
      SkillsUpserted(UpsertAgent(UpsertAgents(t, run, items[..n]), run, items[n]), run, items[n].runtimeId,
                     items[n].skills);
    }
  }

  lemma {:induction false} SkillRowsUpserted(t: Tables, run: RunId, items: seq<AgentItem>)
    ensures var u := UpsertAgents(t, run, items);
            && (forall k :: k in u.skills <==> k in t.skills || ListsSkill(items, k))
            && (forall k :: k in u.skills ==>
                  u.skills[k] == if ListsSkill(items, k) then Stamp(false, run, 0) else t.skills[k])
  {
    hide ListsAgent, ListsSkill, LastReport, UpsertSkills;
    if items == [] {
      NothingListed();
    } else {
      var n := |items| - 1;
      SkillRowsUpserted(t, run, items[..n]);
      assert items == items[..n] + [items[n]];
      ListsSnoc(items[..n], items[n]);
      SkillsUpserted(UpsertAgent(UpsertAgents(t, run, items[..n]), run, items[n]), run, items[n].runtimeId,
                     items[n].skills);
    }
  }

  /** Listed agents and bindings are stamped with the run; nothing else changes. */
  lemma AgentsUpserted(t: Tables, run: RunId, items: seq<AgentItem>)
    ensures var u := UpsertAgents(t, run, items);
            && u.delegations == t.delegations
            && (forall k :: k in u.agents <==> k in t.agents || ListsAgent(items, k))
            && (forall k :: k in u.agents ==>
                  if ListsAgent(items, k)
                  then u.agents[k].lastSeen == run && u.agents[k].missing == 0 &&
                       LastReport(items, k) == Some(u.agents[k].status)
                  else u.agents[k] == t.agents[k])
            && (forall k :: k in u.skills <==> k in t.skills || ListsSkill(items, k))
            && (forall k :: k in u.skills ==>
                  u.skills[k] == if ListsSkill(items, k) then Stamp(false, run, 0) else t.skills[k])
  {
    AgentRowsUpserted(t, run, items);
    SkillRowsUpserted(t, run, items);
  }

  lemma NothingListed()
    ensures forall k :: !ListsAgent([], k)
    ensures forall k :: !ListsSkill([], k)
  {
  }

  lemma {:induction false} DelegationsUpserted(t: Tables, run: RunId, items: seq<DelegationItem>)
    ensures var u := UpsertDelegations(t, run, items);
            && u.agents == t.agents && u.skills == t.skills && u.access == t.access
            && (forall k :: k in u.delegations <==> k in t.delegations || ListsDelegation(items, k))
            && (forall k :: k in u.delegations ==>
                  u.delegations[k] == if ListsDelegation(items, k) then Stamp(false, run, 0) else t.delegations[k])
  {
    if items != [] {
      var n := |items| - 1;
      DelegationsUpserted(t, run, items[..n]);
      forall k ensures ListsDelegation(items, k) <==> ListsDelegation(items[..n], k) || DelegationRow(items[n]) == k {
        if ListsDelegation(items[..n], k) {
          var i :| 0 <= i < n && DelegationRow(items[..n][i]) == k;
          assert DelegationRow(items[i]) == k;
        }
      }
    }
  }

  /** No row was stamped by this run before. */
  ghost predicate FreshRun(t: Tables, run: RunId) {
    forall item :: Present(t, item) ==> LastSeen(t, item) != run
  }

  /** What persisting a snapshot does to any one row. */
  lemma PersistedRow(t: Tables, run: RunId, snapshot: Snapshot, threshold: nat, item: Item)
    requires threshold > 0 && FreshRun(t, run)
    ensures var u := Persisted(t, run, snapshot, threshold);
            && (Present(u, item) <==> Present(t, item) || Lists(snapshot, item))
            && (Lists(snapshot, item) ==> MissingSyncs(u, item) == 0 && LastSeen(u, item) == run)
            && (Lists(snapshot, item) ==> (IsStale(u, item) <==> ReportsStale(snapshot, item)))
            && (Present(t, item) && !Lists(snapshot, item) ==>
                  && MissingSyncs(u, item) == MissingSyncs(t, item) + 1 && LastSeen(u, item) == LastSeen(t, item)
                  && (IsStale(u, item) <==> IsStale(t, item) || MissingSyncs(u, item) >= threshold))
  {
    var v := UpsertAgents(t, run, snapshot.agents);
    AgentsUpserted(t, run, snapshot.agents);
    DelegationsUpserted(v, run, snapshot.delegations);
    assert Present(t, item) ==> LastSeen(t, item) != run;
  }

  // ----- The counts that a run reports -----

  function PairsOf(agent: string, skills: seq<string>): (pairs: seq<(string, string)>)
    ensures |pairs| == |skills| && forall i :: 0 <= i < |skills| ==> pairs[i] == (agent, skills[i])
    ensures forall k :: k in pairs <==> k.0 == agent && k.1 in skills
  {
    var pairs := seq(|skills|, i requires 0 <= i < |skills| => (agent, skills[i]));
    assert forall k: (string, string) :: k.0 == agent && k.1 in skills ==> k in pairs by {
      forall k: (string, string) | k.0 == agent && k.1 in skills ensures k in pairs {
        var i :| 0 <= i < |skills| && skills[i] == k.1;
        assert pairs[i] == k;
      }
    }
    pairs
  }

  function SkillPairs(items: seq<AgentItem>): seq<(string, string)> {
    if items == [] then [] else
      var n := |items| - 1;
      SkillPairs(items[..n]) + PairsOf(items[n].runtimeId, items[n].skills)
  }

  function BindingCount(items: seq<AgentItem>): nat {
    if items == [] then 0 else BindingCount(items[..|items| - 1]) + |items[|items| - 1].skills|
  }

  lemma {:induction false} CountDistinct<T>(s: seq<T>)
    ensures |set x | x in s| <= |s|
    ensures |set x | x in s| == |s| <==> forall i, j :: 0 <= i < j < |s| ==> s[i] != s[j]
  {
    if s != [] {
      var n := |s| - 1;
      var init := s[..n];
      CountDistinct(init);
      assert s == init + [s[n]];
      assert (set x | x in s) == (set x | x in init) + {s[n]};
      if s[n] in init {
        var i :| 0 <= i < n && init[i] == s[n];
        assert s[i] == s[n];
      } else {
        assert forall i :: 0 <= i < n ==> init[i] in init;
      }
    }
  }

  lemma CountMembers<T>(s: seq<T>, members: set<T>)
    requires forall x :: x in members <==> x in s
    ensures |members| == |s| <==> forall i, j :: 0 <= i < j < |s| ==> s[i] != s[j]
  {
    assert members == set x | x in s;
    CountDistinct(s);
  }

  lemma {:induction false} SkillPairsListed(items: seq<AgentItem>)
    ensures |SkillPairs(items)| == BindingCount(items)
    ensures forall k :: k in SkillPairs(items) <==> ListsSkill(items, k)
  {
    hide ListsSkill;
    if items == [] {
      NothingListed();
    } else {
      var n := |items| - 1;
      SkillPairsListed(items[..n]);
      assert items == items[..n] + [items[n]];
      ListsSnoc(items[..n], items[n]);
    }
  }

  lemma {:induction false} SkillPairsDistinct(items: seq<AgentItem>)
    requires OneRowEach(items, AgentRow)
    requires forall i :: 0 <= i < |items| ==> OneRowEach(items[i].skills, (s: string) => s)
    ensures forall i, j :: 0 <= i < j < |SkillPairs(items)| ==> SkillPairs(items)[i] != SkillPairs(items)[j]
  {
    if items != [] {
      var n := |items| - 1;
      var item, init := items[n], SkillPairs(items[..n]);
      SkillPairsDistinct(items[..n]);
      SkillPairsListed(items[..n]);
      forall i | 0 <= i < |init| ensures init[i].0 != item.runtimeId {
        assert init[i] in init;
        var j :| 0 <= j < n && items[..n][j].runtimeId == init[i].0 && init[i].1 in items[..n][j].skills;
        assert AgentRow(items[j]) != AgentRow(item);
      }
      var f := (s: string) => s;
      assert forall i, j :: 0 <= i < j < |item.skills| ==> f(item.skills[i]) != f(item.skills[j]);
    }
  }

  function StampedAgents(t: Tables, run: RunId): set<string> {
    set k | k in t.agents && t.agents[k].lastSeen == run
  }

  function StampedSkills(t: Tables, run: RunId): set<(string, string)> {
    set k | k in t.skills && t.skills[k].lastSeen == run
  }

  function StampedDelegations(t: Tables, run: RunId): set<(string, string)> {
    set k | k in t.delegations && t.delegations[k].lastSeen == run
  }

  lemma StampedAreListed(t: Tables, run: RunId, snapshot: Snapshot, threshold: nat)
    requires threshold > 0 && FreshRun(t, run)
    ensures var u := Persisted(t, run, snapshot, threshold);
            && (forall k :: k in StampedAgents(u, run) <==> ListsAgent(snapshot.agents, k))
            && (forall k :: k in StampedSkills(u, run) <==> ListsSkill(snapshot.agents, k))
            && (forall k :: k in StampedDelegations(u, run) <==> ListsDelegation(snapshot.delegations, k))
  {
    hide Persisted, ListsAgent, ListsSkill, ListsDelegation;
    var u := Persisted(t, run, snapshot, threshold);
    forall k ensures k in StampedAgents(u, run) <==> ListsAgent(snapshot.agents, k) {
      PersistedRow(t, run, snapshot, threshold, AgentItemOf(k));
      assert Present(t, AgentItemOf(k)) ==> LastSeen(t, AgentItemOf(k)) != run;
      assert Present(u, AgentItemOf(k)) <==> k in u.agents;
    }
    forall k ensures k in StampedSkills(u, run) <==> ListsSkill(snapshot.agents, k) {
      PersistedRow(t, run, snapshot, threshold, SkillItem(k));
      assert Present(t, SkillItem(k)) ==> LastSeen(t, SkillItem(k)) != run;
      assert Present(u, SkillItem(k)) <==> k in u.skills;
    }
    forall k ensures k in StampedDelegations(u, run) <==> ListsDelegation(snapshot.delegations, k) {
      PersistedRow(t, run, snapshot, threshold, DelegationItemOf(k));
      assert Present(t, DelegationItemOf(k)) ==> LastSeen(t, DelegationItemOf(k)) != run;
      assert Present(u, DelegationItemOf(k)) <==> k in u.delegations;
    }
  }

  function Rows<T, K>(items: seq<T>, rowKey: T -> K): (rows: seq<K>)
    ensures |rows| == |items| && forall i :: 0 <= i < |items| ==> rows[i] == rowKey(items[i])
  {
    seq(|items|, i requires 0 <= i < |items| => rowKey(items[i]))
  }

  /** As many rows are written as there are items exactly if every item has a row of its own. */
  lemma RowCount<T, K>(items: seq<T>, rowKey: T -> K, stamped: set<K>)
    requires forall k :: k in stamped <==> exists i :: 0 <= i < |items| && rowKey(items[i]) == k
    ensures |stamped| == |items| <==> OneRowEach(items, rowKey)
  {
    var rows := Rows(items, rowKey);
    forall k ensures k in stamped <==> k in rows {
      if k in stamped {
        var i :| 0 <= i < |items| && rowKey(items[i]) == k;
        assert rows[i] == k;
      }
      if k in rows {
        var i :| 0 <= i < |rows| && rows[i] == k;
        assert rowKey(items[i]) == k;
      }
    }
    CountMembers(rows, stamped);
  }

  lemma SkillCount(items: seq<AgentItem>, stamped: set<(string, string)>)
    requires OneRowEach(items, AgentRow)
    requires forall i :: 0 <= i < |items| ==> OneRowEach(items[i].skills, (s: string) => s)
    requires forall k :: k in stamped <==> ListsSkill(items, k)
    ensures |stamped| == BindingCount(items)
  {
    hide ListsSkill, OneRowEach;
    var skills := SkillPairs(items);
    SkillPairsListed(items);
    SkillPairsDistinct(items);
    forall k ensures k in stamped <==> k in skills {
      assert k in stamped <==> ListsSkill(items, k);
    }
    CountMembers(skills, stamped);
  }

  /** For an accepted snapshot the reported counts are the numbers of rows stamped with the run. */
  lemma CountsAreStampedRows(t: Tables, run: RunId, snapshot: Snapshot, threshold: nat)
    requires threshold > 0 && FreshRun(t, run) && Accepted(snapshot)
    ensures var u := Persisted(t, run, snapshot, threshold);
            && |StampedAgents(u, run)| == |snapshot.agents|
            && |StampedSkills(u, run)| == BindingCount(snapshot.agents)
            && (|StampedDelegations(u, run)| == |snapshot.delegations| <==> BlankReferencesDiffer(snapshot.delegations))
  {
    hide Persisted, Accepted, OneRowEach, BlankReferencesDiffer, FreshRun, StampedAgents, StampedSkills,
         StampedDelegations;
    var u := Persisted(t, run, snapshot, threshold);
    StampedAreListed(t, run, snapshot, threshold);
    AcceptedHasOneRowEach(snapshot);
    DelegationsCollideOnlyWithoutReference(snapshot);
    RowCount(snapshot.agents, AgentRow, StampedAgents(u, run));
    SkillCount(snapshot.agents, StampedSkills(u, run));
    RowCount(snapshot.delegations, DelegationRow, StampedDelegations(u, run));
  }
}
