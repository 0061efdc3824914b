/** The rows that buildInstanceTopology lists for one runtime instance, and what they mean. */
module InstanceTopology {
  import opened DelegationGraph
  import opened Forest
  import opened Ordering
  import opened Preorder
  import opened Topology

  ghost function InstanceOf(agents: seq<Agent>, delegations: seq<Delegation>): Instance {
    var sorted := Sort(agents, AgentBefore);
    var links := Link(ByRuntimeId(sorted), delegations);
    Instance(sorted, links, set v | v in AgentIds(sorted) && OnCycle(links.outgoing, v))
  }

  function Mains(agents: seq<Agent>): (r: seq<Agent>)
    ensures forall a :: a in r <==> a in agents && a.kind.Main?
  {
    if agents == [] then [] else (if agents[0].kind.Main? then [agents[0]] else []) + Mains(agents[1..])
  }

  /** Agents that are no mains and that nobody delegates to. */
  function Standalones(agents: seq<Agent>, incoming: Graph): (r: seq<Agent>)
    ensures forall a :: a in r <==> a in agents && !a.kind.Main? && |Successors(incoming, a.id)| == 0
  {
    if agents == [] then [] else
      (if !agents[0].kind.Main? && |Successors(incoming, agents[0].id)| == 0 then [agents[0]] else []) +
      Standalones(agents[1..], incoming)
  }

  ghost function Roots(c: Instance): seq<Agent> {
    Mains(c.agents) + Standalones(c.agents, c.links.incoming)
  }

  /** The three passes: mains, standalone agents, and whatever closed cycles hide. */
  ghost function Rows(c: Instance): seq<Row> {
    Emit(c, Roots(c) + c.agents, 0, {})
  }

  ghost function RowsOf(agents: seq<Agent>, delegations: seq<Delegation>): seq<Row> {
    Rows(InstanceOf(agents, delegations))
  }

  // ----- What the rows mean -----

  lemma InstanceIsWellFormed(agents: seq<Agent>, delegations: seq<Delegation>)
    requires UniqueIds(agents)
    ensures InstanceOf(agents, delegations).WellFormed()
  {
    var c := InstanceOf(agents, delegations);
    SortPermutes(agents, AgentBefore);
    UniqueAfterPermuting(agents, c.agents);
    LinksStayInside(c.agents, delegations, c.links);
  }

  lemma LinksStayInside(agents: seq<Agent>, delegations: seq<Delegation>, links: Links)
    requires links == Link(ByRuntimeId(agents), delegations)
    ensures forall v, w {:trigger w in Successors(links.outgoing, v)} ::
              w in Successors(links.outgoing, v) ==> v in AgentIds(agents) && w in AgentIds(agents)
    ensures forall v, w {:trigger v in Successors(links.incoming, w)} {:trigger w in Successors(links.outgoing, v)} ::
              v in Successors(links.incoming, w) <==> w in Successors(links.outgoing, v)
  {
    hide Link, Successors;
    var byRuntimeId := ByRuntimeId(agents);
    LinkIsExact(byRuntimeId, delegations);
    forall v, w | Delegates(byRuntimeId, delegations, v, w) ensures v in AgentIds(agents) && w in AgentIds(agents) {
      var d :| d in delegations && IsEdge(byRuntimeId, d, v, w);
      assert byRuntimeId[d.orchestrator] in agents && byRuntimeId[d.delegate] in agents;
    }
  }

  lemma UniqueAfterPermuting(a: seq<Agent>, b: seq<Agent>)
    requires UniqueIds(a) && multiset(a) == multiset(b)
    ensures UniqueIds(b)
  {
    SameElements(a, b);
    NoRepeatsPermuted(a, b);
    forall i, j | 0 <= i < j < |b| ensures b[i].id != b[j].id {
      assert b[i] in Elements(a) && b[j] in Elements(a);
    }
  }

  function RowAgents(rows: seq<Row>): (agents: seq<Agent>)
    ensures |agents| == |rows| && forall i :: 0 <= i < |rows| ==> agents[i] == rows[i].agent
  {
    seq(|rows|, i requires 0 <= i < |rows| => rows[i].agent)
  }

  /** Every agent is listed exactly once, shared delegates and closed cycles included. */
  lemma ListsEachAgentOnce(agents: seq<Agent>, delegations: seq<Delegation>)
    requires UniqueIds(agents)
    ensures var rows := RowsOf(agents, delegations);
            multiset(RowAgents(rows)) == multiset(agents) && DistinctRows(rows)
  {
    hide Sort, Link, Emit, Instance.RowOf, OnCycle;
    var c := InstanceOf(agents, delegations);
    var rows := Rows(c);
    SortPermutes(agents, AgentBefore);
    UniqueAfterPermuting(agents, c.agents);
    EmitOnce(c, Roots(c) + c.agents, 0, {});
    forall a | a in c.agents ensures a in RowAgents(rows) {
      assert a in Roots(c) + c.agents;
      assert a.id in RowIds(rows);
      var r :| r in rows && r.agent.id == a.id;
      SameIdSameAgent(c.agents, r.agent, a);
      var i :| 0 <= i < |rows| && rows[i] == r;
      assert RowAgents(rows)[i] == a;
    }
    forall a | a in RowAgents(rows) ensures a in agents {
      var i :| 0 <= i < |rows| && RowAgents(rows)[i] == a;
      assert rows[i] in rows;
    }
    SameMultiset(RowAgents(rows), agents);
  }

  lemma SameIdSameAgent(agents: seq<Agent>, a: Agent, b: Agent)
    requires UniqueIds(agents) && a in agents && b in agents && a.id == b.id
    ensures a == b
  {
    var i :| 0 <= i < |agents| && agents[i] == a;
    var j :| 0 <= j < |agents| && agents[j] == b;
  }

  /** The rows are a preorder forest along the delegations, with every main at the top. */
  lemma FormsForest(agents: seq<Agent>, delegations: seq<Delegation>)
    requires UniqueIds(agents)
    ensures var rows := RowsOf(agents, delegations);
            PreorderForest(rows) && forall r :: r in rows && r.agent.kind.Main? ==> r.depth == 0
  {
    var c := InstanceOf(agents, delegations);
    InstanceIsWellFormed(agents, delegations);
    EmitNests(c, Roots(c) + c.agents, 0, {});
  }

  ghost predicate ReachedFromRoots(c: Instance, v: AgentId) {
    exists r :: r in Roots(c) && Reaches(BranchEdges(c), r.id, v)
  }

  /** White-path reachability: the first two passes emit exactly what the roots reach by edges into non-mains. */
  lemma RootsEmitWhatTheyReach(c: Instance, v: AgentId)
    requires c.WellFormed()
    ensures v in RowIds(Emit(c, Roots(c), 0, {})) <==> ReachedFromRoots(c, v)
  {
    var roots := Roots(c);
    var rows := Emit(c, roots, 0, {});
    if v in RowIds(rows) {
      var r :| r in rows && r.agent.id == v;
      var from := EmitReaches(c, roots, 0, {}, r);
    }
    if ReachedFromRoots(c, v) {
      var r :| r in roots && Reaches(BranchEdges(c), r.id, v);
      var p :| Walk(BranchEdges(c), r.id, p, v);
      EmitOnce(c, roots, 0, {});
      EmitClosed(c, roots, 0, {});
      EmittedIsClosed(c, rows);
      WalkStaysInClosed(BranchEdges(c), RowIds(rows), r.id, p, v);
    }
  }

  lemma EmittedIsClosed(c: Instance, rows: seq<Row>)
    requires DelegatesWithin(c, rows, {} + RowIds(rows))
    ensures Closed(BranchEdges(c), RowIds(rows))
  {
    hide Instance.DelegatesOf;
    forall v, w | v in RowIds(rows) && w in Successors(BranchEdges(c), v) ensures w in RowIds(rows) {
      var r :| r in rows && r.agent.id == v;
      var i :| 0 <= i < |Ids(c.DelegatesOf(v))| && Ids(c.DelegatesOf(v))[i] == w;
      assert c.DelegatesOf(r.agent.id)[i] in c.DelegatesOf(r.agent.id);
    }
  }

  /** An agent the roots do not reach hangs on another such agent. */
  lemma UnreachedHasUnreachedOrchestrator(c: Instance, v: AgentId)
    requires c.WellFormed()
    requires v in AgentIds(c.agents) - RowIds(Emit(c, Roots(c), 0, {}))
    ensures HasPredecessor(c.links.outgoing, AgentIds(c.agents) - RowIds(Emit(c, Roots(c), 0, {})), v)
  {
    hide Instance.DelegatesOf;
    var rows := Emit(c, Roots(c), 0, {});
    var a :| a in c.agents && a.id == v;
    EmitOnce(c, Roots(c), 0, {});
    assert a !in Roots(c);
    var p := Successors(c.links.incoming, v)[0];
    assert p in Successors(c.links.incoming, v);
    assert v in Successors(c.links.outgoing, p);
    EmittedDelegates(c, rows, p, a);
  }

  /** The passes that emit an agent emit its delegates. */
  lemma EmittedDelegates(c: Instance, rows: seq<Row>, p: AgentId, a: Agent)
    requires c.WellFormed() && rows == Emit(c, Roots(c), 0, {})
    requires a in c.agents && !a.kind.Main? && a.id in Successors(c.links.outgoing, p)
    ensures p in RowIds(rows) ==> a.id in RowIds(rows)
  {
    hide Instance.DelegatesOf;
    if p in RowIds(rows) {
      var r :| r in rows && r.agent.id == p;
      EmitClosed(c, Roots(c), 0, {});
      Neighbours(c, p);
      assert a in c.DelegatesOf(r.agent.id);
    }
  }

  /**
   * A delegated agent that is still shown at the top is on a cycle or downstream of one,
   * and Tarjan has flagged that cycle.
   */
  lemma TopLevelDelegatesHangOnCycles(agents: seq<Agent>, delegations: seq<Delegation>, row: Row) returns (cause: Row)
    requires UniqueIds(agents)
    requires row in RowsOf(agents, delegations)
    requires row.depth == 0 && !row.agent.kind.Main? && row.delegatedBy != []
    ensures cause in RowsOf(agents, delegations) && cause.inCycle
    ensures Reaches(InstanceOf(agents, delegations).links.outgoing, cause.agent.id, row.agent.id)
  {
    var c := InstanceOf(agents, delegations);
    InstanceIsWellFormed(agents, delegations);
    var id := CycleAbove(c, row);
    cause := RowOfId(c, id);
    assert cause.inCycle == (id in c.cyclic);
  }

  lemma CycleAbove(c: Instance, row: Row) returns (id: AgentId)
    requires c.WellFormed() && row in Rows(c)
    requires row.depth == 0 && !row.agent.kind.Main? && row.delegatedBy != []
    ensures id in AgentIds(c.agents) && OnCycle(c.links.outgoing, id) && Reaches(c.links.outgoing, id, row.agent.id)
  {
    hide Rows, Reaches, OnCycle, Instance.WellFormed;
    var within := AgentIds(c.agents) - RowIds(Emit(c, Roots(c), 0, {}));
    TopRowIsUnreached(c, row);
    forall u | u in within ensures HasPredecessor(c.links.outgoing, within, u) {
      UnreachedHasUnreachedOrchestrator(c, u);
    }
    ReachesSelf(c.links.outgoing, row.agent.id);
    id := BackwardsMeetsCycle(c.links.outgoing, within, {}, row.agent.id, row.agent.id);
  }

  lemma RowOfId(c: Instance, id: AgentId) returns (row: Row)
    requires id in AgentIds(c.agents)
    ensures row in Rows(c) && row.agent.id == id && row == c.RowOf(row.agent, row.depth)
  {
    hide Emit, Instance.RowOf;
    EmitOnce(c, Roots(c) + c.agents, 0, {});
    var a :| a in c.agents && a.id == id;
    assert a in Roots(c) + c.agents;
    assert id in RowIds(Rows(c));
    row :| row in Rows(c) && row.agent.id == id;
  }

  /** At the top of the first two passes stand only mains and agents without orchestrators. */
  lemma RootsHaveNoOrchestrators(c: Instance, row: Row)
    requires c.WellFormed()
    ensures row in Emit(c, Roots(c), 0, {}) && row.depth == 0 && !row.agent.kind.Main? ==> row.delegatedBy == []
  {
    hide Instance.DelegatesOf;
    EmitOnce(c, Roots(c), 0, {});
    EmitNests(c, Roots(c), 0, {});
    if row in Emit(c, Roots(c), 0, {}) && row.depth == 0 && !row.agent.kind.Main? {
      assert row.agent in Standalones(c.agents, c.links.incoming);
      assert Successors(c.links.incoming, row.agent.id) == [];
    }
  }

  lemma TopRowIsUnreached(c: Instance, row: Row)
    requires c.WellFormed() && row in Rows(c)
    requires row.depth == 0 && !row.agent.kind.Main? && row.delegatedBy != []
    ensures row.agent.id in AgentIds(c.agents) - RowIds(Emit(c, Roots(c), 0, {}))
  {
    hide Instance.DelegatesOf;
    var first := Emit(c, Roots(c), 0, {});
    EmitAppend(c, Roots(c), c.agents, 0, {});
    EmitOnce(c, Roots(c) + c.agents, 0, {});
    EmitOnce(c, c.agents, 0, {} + RowIds(first));
    RootsHaveNoOrchestrators(c, row);
    assert row in Emit(c, c.agents, 0, {} + RowIds(first));
  }

  // ----- What each row says -----

  /** The delegation comes from the agent and does not resolve to an agent of the instance. */
  ghost predicate Dangles(byRuntimeId: map<string, Agent>, d: Delegation, from: AgentId) {
    && d.orchestrator in byRuntimeId && byRuntimeId[d.orchestrator].id == from
    && (d.delegate == "" || d.delegate !in byRuntimeId)
  }

  /** Exactly the dangling delegations of the agent, each as often as it arrived, by label. */
  ghost predicate UnresolvedRight(byRuntimeId: map<string, Agent>, delegations: seq<Delegation>, row: Row) {
    && (forall d :: multiset(row.unresolved)[d] ==
          if Dangles(byRuntimeId, d, row.agent.id) then multiset(delegations)[d] else 0)
    && (forall i, j :: 0 <= i < j < |row.unresolved| ==> row.unresolved[i].labelKey <= row.unresolved[j].labelKey)
  }

  /** The row of an agent, said of the raw delegations. */
  ghost predicate RowRight(agents: seq<Agent>, delegations: seq<Delegation>, row: Row) {
    var byRuntimeId := ByRuntimeId(Sort(agents, AgentBefore));
    && (forall a :: a in row.delegatedBy <==> a in agents && Delegates(byRuntimeId, delegations, a.id, row.agent.id))
    && NoRepeats(row.delegatedBy)
    && (forall i, j :: 0 <= i < j < |row.delegatedBy| ==> ByName(row.delegatedBy[i], row.delegatedBy[j]))
    && row.role == (if row.agent.kind.Main? then MainAgent else if row.delegatedBy != [] then Delegated else Standalone)
    && UnresolvedRight(byRuntimeId, delegations, row)
    && (row.inCycle <==> OnCycle(InstanceOf(agents, delegations).links.outgoing, row.agent.id))
    && !row.contextOnly
  }

  lemma {:induction false} KnownIsUnique(byId: map<AgentId, Agent>, ids: seq<AgentId>)
    requires NoRepeats(ids) && forall id :: id in byId ==> byId[id].id == id
    ensures UniqueIds(Known(byId, ids))
  {
    if ids != [] {
      KnownIsUnique(byId, ids[1..]);
      KnownMembers(byId, ids[1..]);
      var rest := Known(byId, ids[1..]);
      forall i | 0 <= i < |rest| ensures rest[i].id != ids[0] {
        assert rest[i] in rest;
      }
    }
  }

  lemma ByIdMapsIds(agents: seq<Agent>)
    ensures forall id :: id in ById(agents) ==> ById(agents)[id].id == id
  {
  }

  lemma IncomingIsExact(byRuntimeId: map<string, Agent>, delegations: seq<Delegation>, links: Links, id: AgentId)
    requires links == Link(byRuntimeId, delegations)
    ensures NoRepeats(Successors(links.incoming, id))
    ensures forall v :: v in Successors(links.incoming, id) <==> Delegates(byRuntimeId, delegations, v, id)
  {
    hide Link, Successors, Delegates;
    LinkIsExact(byRuntimeId, delegations);
  }

  lemma OrchestratorsAreDelegators(agents: seq<Agent>, delegations: seq<Delegation>, id: AgentId)
    requires UniqueIds(agents)
    ensures var orchestrators := InstanceOf(agents, delegations).Orchestrators(id);
            && NoRepeats(orchestrators) && Sorted(orchestrators, AgentBefore)
            && forall a :: a in orchestrators <==>
                 a in agents && Delegates(ByRuntimeId(Sort(agents, AgentBefore)), delegations, a.id, id)
  {
    hide Sort, Link, Known, Delegates, ById, Successors, ByRuntimeId, OnCycle;
    var c := InstanceOf(agents, delegations);
    InstanceIsWellFormed(agents, delegations);
    SortPermutes(agents, AgentBefore);
    Neighbours(c, id);
    IncomingIsExact(ByRuntimeId(c.agents), delegations, c.links, id);
    var known := Known(ById(c.agents), Successors(c.links.incoming, id));
    ByIdMapsIds(c.agents);
    KnownIsUnique(ById(c.agents), Successors(c.links.incoming, id));
    SortPermutes(known, AgentBefore);
    NoRepeatsPermuted(known, Sort(known, AgentBefore));
    SortSorts(known, AgentBefore);
  }

  lemma {:induction false} UnresolvedCounts(byRuntimeId: map<string, Agent>, delegations: seq<Delegation>, id: AgentId,
                                            d: Delegation)
    ensures multiset(Unresolved(byRuntimeId, delegations, id))[d] ==
            if Dangles(byRuntimeId, d, id) then multiset(delegations)[d] else 0
  {
    if delegations != [] {
      var n := |delegations| - 1;
      var init, last := delegations[..n], delegations[n];
      assert delegations == init + [last];
      UnresolvedCounts(byRuntimeId, init, id, d);
      assert Unresolved(byRuntimeId, delegations, id) ==
             Unresolved(byRuntimeId, init, id) + if Dangles(byRuntimeId, last, id) then [last] else [];
    }
  }

  lemma UnresolvedAreKept(c: Instance, delegations: seq<Delegation>, row: Row)
    requires c.links == Link(ByRuntimeId(c.agents), delegations) && row == c.RowOf(row.agent, row.depth)
    ensures UnresolvedRight(ByRuntimeId(c.agents), delegations, row)
  {
    hide Link, ByRuntimeId, Instance.Orchestrators, Unresolved, Sort, Dangles;
    UnresolvedIsExact(ByRuntimeId(c.agents), delegations, row.agent.id);
    var items := Unresolved(ByRuntimeId(c.agents), delegations, row.agent.id);
    SortPermutes(items, DelegationBefore);
    SortSorts(items, DelegationBefore);
    forall d ensures multiset(items)[d] ==
                     if Dangles(ByRuntimeId(c.agents), d, row.agent.id) then multiset(delegations)[d] else 0
    {
      UnresolvedCounts(ByRuntimeId(c.agents), delegations, row.agent.id, d);
    }
  }

  /** Who delegates, what stays unresolved, the role and the cycle flag of every row, from the raw input. */
  lemma RowsAreRight(agents: seq<Agent>, delegations: seq<Delegation>, row: Row)
    requires UniqueIds(agents) && row in RowsOf(agents, delegations)
    ensures RowRight(agents, delegations, row)
  {
    hide Emit, Link, ByRuntimeId, Instance.Orchestrators, OnCycle, Unresolved, Delegates, Sort, UnresolvedRight,
         NoRepeats;
    var c := InstanceOf(agents, delegations);
    EmitOnce(c, Roots(c) + c.agents, 0, {});
    OrchestratorsAreDelegators(agents, delegations, row.agent.id);
    UnresolvedAreKept(c, delegations, row);
  }
}
