/** buildAgentTopology: one forest per runtime instance, instances in the order of their labels. */
module Fleet {
  import opened DelegationGraph
  import opened Emitter
  import opened InstanceTopology
  import opened Ordering
  import opened Preorder
  import opened Topology
  import Search
  import Collapse

  datatype Group = Group(agents: seq<Agent>, delegations: seq<Delegation>)

  function AgentsOf(agents: seq<Agent>, k: ConnectionId): (r: seq<Agent>)
    ensures forall a :: a in r <==> a in agents && a.connection == k
  {
    if agents == [] then [] else
      var n := |agents| - 1;
      assert agents == agents[..n] + [agents[n]];
      var init := AgentsOf(agents[..n], k);
      if agents[n].connection == k then init + [agents[n]] else init
  }

  function DelegationsOf(delegations: seq<Delegation>, k: ConnectionId): seq<Delegation> {
    if delegations == [] then [] else
      var n := |delegations| - 1;
      var init := DelegationsOf(delegations[..n], k);
      if delegations[n].connection == k then init + [delegations[n]] else init
  }

  /** The instances that have agents, in order of first appearance. */
  function Connections(agents: seq<Agent>): (ks: seq<ConnectionId>)
    ensures NoRepeats(ks)
    ensures forall k :: k in ks <==> exists a :: a in agents && a.connection == k
  {
    if agents == [] then [] else
      var n := |agents| - 1;
      assert agents == agents[..n] + [agents[n]];
      var init := Connections(agents[..n]);
      assert agents[n] in agents;
      if agents[n].connection in init then init else init + [agents[n].connection]
  }

  lemma AgentsOfSnoc(agents: seq<Agent>, agent: Agent, k: ConnectionId)
    ensures AgentsOf(agents + [agent], k) ==
            if agent.connection == k then AgentsOf(agents, k) + [agent] else AgentsOf(agents, k)
  {
    assert (agents + [agent])[..|agents|] == agents;
  }

  lemma ConnectionsSnoc(agents: seq<Agent>, agent: Agent)
    ensures Connections(agents + [agent]) ==
            if agent.connection in Connections(agents) then Connections(agents)
            else Connections(agents) + [agent.connection]
    ensures agent.connection !in Connections(agents) ==> AgentsOf(agents, agent.connection) == []
  {
    assert (agents + [agent])[..|agents|] == agents;
    NobodyThere(agents, agent.connection);
  }

  lemma DelegationsOfSnoc(delegations: seq<Delegation>, d: Delegation, k: ConnectionId)
    ensures DelegationsOf(delegations + [d], k) ==
            if d.connection == k then DelegationsOf(delegations, k) + [d] else DelegationsOf(delegations, k)
  {
    assert (delegations + [d])[..|delegations|] == delegations;
  }

  ghost predicate Grouped(agents: seq<Agent>, order: seq<ConnectionId>, groups: map<ConnectionId, Group>) {
    && order == Connections(agents) && groups.Keys == Elements(order)
    && forall k :: k in groups ==> groups[k] == Group(AgentsOf(agents, k), [])
  }

  lemma GroupOneMore(agents: seq<Agent>, agent: Agent, order: seq<ConnectionId>, groups: map<ConnectionId, Group>)
    requires Grouped(agents, order, groups)
    ensures var k := agent.connection;
            var group := if k in groups then groups[k] else Group([], []);
            Grouped(agents + [agent], if k in groups then order else order + [k],
                    groups[k := group.(agents := group.agents + [agent])])
  {
    hide AgentsOf, Connections;
    ConnectionsSnoc(agents, agent);
    forall k {
      AgentsOfSnoc(agents, agent, k);
    }
    assert forall k :: k in Elements(order) <==> k in order;
  }

  method GroupByInstance(agents: seq<Agent>, delegations: seq<Delegation>)
      returns (order: seq<ConnectionId>, groups: map<ConnectionId, Group>)
    ensures order == Connections(agents) && groups.Keys == Elements(order)
    ensures forall k :: k in groups ==> groups[k] == Group(AgentsOf(agents, k), DelegationsOf(delegations, k))
  {
    hide AgentsOf, DelegationsOf, Connections, Grouped;
    order, groups := [], map[];
    assert Grouped([], order, groups) by { NoGroups(); }
    for i := 0 to |agents|
      invariant Grouped(agents[..i], order, groups)
    {
      var agent := agents[i];
      GroupOneMore(agents[..i], agent, order, groups);
      assert agents[..i + 1] == agents[..i] + [agent];
      var group := if agent.connection in groups then groups[agent.connection] else Group([], []);
      if agent.connection !in groups {
        order := order + [agent.connection];
      }
      groups := groups[agent.connection := group.(agents := group.agents + [agent])];
    }
    assert agents[..|agents|] == agents;
    GroupedFacts(agents, order, groups);
    groups := AddDelegations(agents, delegations, groups);
  }

  lemma NoGroups()
    ensures Grouped([], [], map[])
  {
  }

  lemma GroupedFacts(agents: seq<Agent>, order: seq<ConnectionId>, groups: map<ConnectionId, Group>)
    requires Grouped(agents, order, groups)
    ensures order == Connections(agents) && groups.Keys == Elements(order)
    ensures forall k :: k in groups ==> groups[k] == Group(AgentsOf(agents, k), [])
  {
  }

  lemma NothingYet(k: ConnectionId)
    ensures DelegationsOf([], k) == []
  {
  }

  method AddDelegations(agents: seq<Agent>, delegations: seq<Delegation>, groups0: map<ConnectionId, Group>)
      returns (groups: map<ConnectionId, Group>)
    requires forall k :: k in groups0 ==> groups0[k] == Group(AgentsOf(agents, k), [])
    ensures groups.Keys == groups0.Keys
    ensures forall k :: k in groups ==> groups[k] == Group(AgentsOf(agents, k), DelegationsOf(delegations, k))
  {
    hide AgentsOf, DelegationsOf;
    groups := groups0;
    assert delegations[..0] == [];
    forall k ensures DelegationsOf([], k) == [] {
      NothingYet(k);
    }
    for i := 0 to |delegations|
      invariant groups.Keys == groups0.Keys
      invariant forall k :: k in groups ==>
                  groups[k] == Group(AgentsOf(agents, k), DelegationsOf(delegations[..i], k))
    {
      var delegation := delegations[i];
      assert delegations[..i + 1] == delegations[..i] + [delegation];
      forall k ensures DelegationsOf(delegations[..i + 1], k) ==
                       if delegation.connection == k then DelegationsOf(delegations[..i], k) + [delegation]
                       else DelegationsOf(delegations[..i], k)
      {
        DelegationsOfSnoc(delegations[..i], delegation, k);
      }
      if delegation.connection in groups {
        var group := groups[delegation.connection];
        groups := groups[delegation.connection := group.(delegations := group.delegations + [delegation])];
      }
    }
    assert delegations[..|delegations|] == delegations;
  }

  lemma NobodyThere(agents: seq<Agent>, k: ConnectionId)
    ensures AgentsOf(agents, k) != [] ==> k in Connections(agents)
  {
    if AgentsOf(agents, k) != [] {
      assert AgentsOf(agents, k)[0] in agents;
    }
  }

  ghost function FleetRows(ks: seq<ConnectionId>, agents: seq<Agent>, delegations: seq<Delegation>): seq<Row> {
    if ks == [] then [] else
      FleetRows(ks[..|ks| - 1], agents, delegations) +
      RowsOf(AgentsOf(agents, ks[|ks| - 1]), DelegationsOf(delegations, ks[|ks| - 1]))
  }

  /** labelPlace gives the place of an instance's label in the collation order. */
  function ByLabel(labelPlace: ConnectionId -> int): (ConnectionId, ConnectionId) -> bool {
    (a, b) => labelPlace(a) < labelPlace(b)
  }

  lemma {:induction false} GroupIsUnique(agents: seq<Agent>, k: ConnectionId)
    requires UniqueIds(agents)
    ensures UniqueIds(AgentsOf(agents, k))
  {
    if agents != [] {
      var n := |agents| - 1;
      GroupIsUnique(agents[..n], k);
      var init := AgentsOf(agents[..n], k);
      forall i | 0 <= i < |init| ensures init[i].id != agents[n].id {
        assert init[i] in agents[..n];
      }
    }
  }

  lemma NoInstances(agents: seq<Agent>, delegations: seq<Delegation>)
    ensures FleetRows([], agents, delegations) == []
  {
  }

  lemma FleetRowsSnoc(ks: seq<ConnectionId>, i: nat, agents: seq<Agent>, delegations: seq<Delegation>)
    requires i < |ks|
    ensures FleetRows(ks[..i + 1], agents, delegations) ==
            FleetRows(ks[..i], agents, delegations) + RowsOf(AgentsOf(agents, ks[i]), DelegationsOf(delegations, ks[i]))
  {
    assert ks[..i + 1][..i] == ks[..i];
  }

  method BuildAgentTopology(agents: seq<Agent>, delegations: seq<Delegation>, labelPlace: ConnectionId -> int)
      returns (rows: seq<Row>)
    requires UniqueIds(agents)
    ensures rows == FleetRows(Sort(Connections(agents), ByLabel(labelPlace)), agents, delegations)
  {
    hide RowsOf, FleetRows, UniqueIds, AgentsOf, DelegationsOf, Connections, Sort;
    var order, groups := GroupByInstance(agents, delegations);
    var sorted := Sort(order, ByLabel(labelPlace));
    SortPermutes(order, ByLabel(labelPlace));
    rows := [];
    NoInstances(agents, delegations);
    for i := 0 to |sorted|
      invariant rows == FleetRows(sorted[..i], agents, delegations)
    {
      FleetRowsSnoc(sorted, i, agents, delegations);
      var group := groups[sorted[i]];
      GroupIsUnique(agents, sorted[i]);
      var more := BuildInstanceTopology(group.agents, group.delegations);
      rows := rows + more;
    }
    assert sorted[..|sorted|] == sorted;
  }

  // ----- What the rows of the fleet mean -----

  /** Whose instance is in ks. */
  ghost predicate ListedFor(ks: seq<ConnectionId>, agents: seq<Agent>, a: Agent) {
    a in agents && a.connection in ks
  }

  /** The rows are those of the agents of the instances in ks, once each, in preorder forests with mains at the top. */
  ghost predicate ForestOf(rows: seq<Row>, ks: seq<ConnectionId>, agents: seq<Agent>) {
    && PreorderForest(rows) && DistinctRows(rows)
    && (forall a :: a in RowAgents(rows) <==> ListedFor(ks, agents, a))
    && (forall r :: r in rows && r.agent.kind.Main? ==> r.depth == 0)
  }

  lemma {:induction false} FleetRowsNest(ks: seq<ConnectionId>, agents: seq<Agent>, delegations: seq<Delegation>)
    requires UniqueIds(agents) && NoRepeats(ks)
    ensures ForestOf(FleetRows(ks, agents, delegations), ks, agents)
  {
    hide RowsOf, ForestOf;
    if ks == [] {
      EmptyForest(agents);
    } else {
      var n := |ks| - 1;
      assert ks == ks[..n] + [ks[n]];
      FleetRowsNest(ks[..n], agents, delegations);
      OneInstance(ks[n], agents, delegations);
      OneMoreInstance(FleetRows(ks[..n], agents, delegations), ks[..n], ks[n], agents,
                      RowsOf(AgentsOf(agents, ks[n]), DelegationsOf(delegations, ks[n])));
    }
  }

  lemma OneInstance(k: ConnectionId, agents: seq<Agent>, delegations: seq<Delegation>)
    requires UniqueIds(agents)
    ensures ForestOf(RowsOf(AgentsOf(agents, k), DelegationsOf(delegations, k)), [k], agents)
  {
    hide RowsOf, PreorderForest, RowAgents, UniqueIds;
    var group, theirs := AgentsOf(agents, k), DelegationsOf(delegations, k);
    GroupIsUnique(agents, k);
    FormsForest(group, theirs);
    ListsEachAgentOnce(group, theirs);
    SameElements(RowAgents(RowsOf(group, theirs)), group);
    forall a ensures a in RowAgents(RowsOf(group, theirs)) <==> ListedFor([k], agents, a) {
      assert a in Elements(RowAgents(RowsOf(group, theirs))) <==> a in Elements(group);
    }
  }

  lemma OneMoreInstance(rows: seq<Row>, ks: seq<ConnectionId>, k: ConnectionId, agents: seq<Agent>, more: seq<Row>)
    requires UniqueIds(agents) && k !in ks && ForestOf(rows, ks, agents) && ForestOf(more, [k], agents)
    ensures ForestOf(rows + more, ks + [k], agents)
  {
    hide PreorderForest, RowAgents, UniqueIds, DistinctRows;
    ForestAppend(rows, more);
    RowAgentsAppend(rows, more);
    DisjointRows(agents, rows, more);
    assert forall c :: c in ks + [k] <==> c in ks || c == k;
  }

  lemma EmptyForest(agents: seq<Agent>)
    ensures ForestOf([], [], agents)
  {
  }

  lemma ForestAppend(a: seq<Row>, b: seq<Row>)
    requires PreorderForest(a) && PreorderForest(b)
    ensures PreorderForest(a + b)
  {
    WellNestedAppend(a, b, 0);
  }

  lemma RowAgentsAppend(a: seq<Row>, b: seq<Row>)
    ensures RowAgents(a + b) == RowAgents(a) + RowAgents(b)
  {
  }

  /** Rows of agents of different instances have different ids. */
  lemma DisjointRows(agents: seq<Agent>, a: seq<Row>, b: seq<Row>)
    requires UniqueIds(agents) && DistinctRows(a) && DistinctRows(b)
    requires forall x :: x in RowAgents(a) || x in RowAgents(b) ==> x in agents
    requires forall x :: x in RowAgents(a) ==> x !in RowAgents(b)
    ensures DistinctRows(a + b)
  {
    forall i, j | 0 <= i < |a| && 0 <= j < |b| ensures a[i].agent.id != b[j].agent.id {
      assert RowAgents(a)[i] in RowAgents(a) && RowAgents(b)[j] in RowAgents(b);
      if a[i].agent.id == b[j].agent.id {
        SameIdSameAgent(agents, a[i].agent, b[j].agent);
      }
    }
  }

  /** The whole fleet: every agent once, in preorder forests along the delegations, mains at the top. */
  lemma FleetIsForest(agents: seq<Agent>, delegations: seq<Delegation>, labelPlace: ConnectionId -> int)
    requires UniqueIds(agents)
    ensures var rows := FleetRows(Sort(Connections(agents), ByLabel(labelPlace)), agents, delegations);
            && PreorderForest(rows)
            && DistinctRows(rows) && multiset(RowAgents(rows)) == multiset(agents)
            && (forall r :: r in rows && r.agent.kind.Main? ==> r.depth == 0)
  {
    hide PreorderForest, FleetRows;
    var ks := Connections(agents);
    var sorted := Sort(ks, ByLabel(labelPlace));
    var rows := FleetRows(sorted, agents, delegations);
    SortPermutes(ks, ByLabel(labelPlace));
    NoRepeatsPermuted(ks, sorted);
    FleetRowsNest(sorted, agents, delegations);
    forall a ensures a in RowAgents(rows) <==> a in agents {
      assert a in agents ==> a.connection in ks;
    }
    forall i, j | 0 <= i < j < |rows| ensures RowAgents(rows)[i].id != RowAgents(rows)[j].id {
      assert rows[i].agent.id != rows[j].agent.id;
    }
    SameMultiset(RowAgents(rows), agents);
  }

  /** What the fleet page shows, searched and collapsed, is still a forest in which parents delegate to children. */
  lemma ShownFleetIsForest(agents: seq<Agent>, delegations: seq<Delegation>, labelPlace: ConnectionId -> int,
                           matched: set<AgentId>, included: set<AgentId>, collapsed: set<AgentId>)
    requires UniqueIds(agents)
    requires var rows := FleetRows(Sort(Connections(agents), ByLabel(labelPlace)), agents, delegations);
             Search.IsContext(rows, matched, included)
    ensures var rows := FleetRows(Sort(Connections(agents), ByLabel(labelPlace)), agents, delegations);
            PreorderForest(Collapse.Visible(Search.MarkContext(Search.Keep(rows, included), matched), collapsed))
  {
    hide PreorderForest, FleetRows, Search.IsContext;
    var rows := FleetRows(Sort(Connections(agents), ByLabel(labelPlace)), agents, delegations);
    FleetIsForest(agents, delegations, labelPlace);
    Search.SearchKeepsForest(rows, matched, included);
    Collapse.CollapseKeepsForest(Search.MarkContext(Search.Keep(rows, included), matched), collapsed);
  }

  // ----- The order of the instances -----

  /** Instances are listed in the order of their labels. */
  lemma FleetInLabelOrder(agents: seq<Agent>, delegations: seq<Delegation>, labelPlace: ConnectionId -> int)
    requires UniqueIds(agents)
    ensures var rows := FleetRows(Sort(Connections(agents), ByLabel(labelPlace)), agents, delegations);
            forall i, j :: 0 <= i < j < |rows| ==>
              labelPlace(rows[i].agent.connection) <= labelPlace(rows[j].agent.connection)
  {
    hide FleetRows, Connections, Sort;
    var ks := Sort(Connections(agents), ByLabel(labelPlace));
    SortPermutes(Connections(agents), ByLabel(labelPlace));
    NoRepeatsPermuted(Connections(agents), ks);
    LabelsAreOrdered(labelPlace);
    SortSorts(Connections(agents), ByLabel(labelPlace));
    FleetLabels(ks, agents, delegations, labelPlace);
  }

  lemma LabelsAreOrdered(labelPlace: ConnectionId -> int)
    ensures WeakOrder(ByLabel(labelPlace))
  {
  }

  ghost predicate LabelsAscend(rows: seq<Row>, labelPlace: ConnectionId -> int) {
    forall i, j :: 0 <= i < j < |rows| ==>
      labelPlace(rows[i].agent.connection) <= labelPlace(rows[j].agent.connection)
  }

  lemma {:induction false} FleetLabels(ks: seq<ConnectionId>, agents: seq<Agent>, delegations: seq<Delegation>,
                                       labelPlace: ConnectionId -> int)
    requires UniqueIds(agents) && NoRepeats(ks) && Sorted(ks, ByLabel(labelPlace))
    ensures LabelsAscend(FleetRows(ks, agents, delegations), labelPlace)
    ensures forall r :: r in FleetRows(ks, agents, delegations) ==> r.agent.connection in ks
  {
    hide RowsOf, UniqueIds;
    if ks != [] {
      var n := |ks| - 1;
      var init := FleetRows(ks[..n], agents, delegations);
      var more := RowsOf(AgentsOf(agents, ks[n]), DelegationsOf(delegations, ks[n]));
      FleetLabels(ks[..n], agents, delegations, labelPlace);
      OfOneInstance(ks[n], agents, delegations);
      forall r | r in init ensures labelPlace(r.agent.connection) <= labelPlace(ks[n]) {
        var p :| 0 <= p < n && ks[p] == r.agent.connection;
      }
      forall i | 0 <= i < |init| ensures init[i] in init {
      }
      forall i | 0 <= i < |more| ensures more[i].agent.connection == ks[n] {
        assert more[i] in more;
      }
    }
  }

  lemma OfOneInstance(k: ConnectionId, agents: seq<Agent>, delegations: seq<Delegation>)
    requires UniqueIds(agents)
    ensures forall r :: r in RowsOf(AgentsOf(agents, k), DelegationsOf(delegations, k)) ==> r.agent.connection == k
  {
    hide RowsOf, UniqueIds;
    var rows := RowsOf(AgentsOf(agents, k), DelegationsOf(delegations, k));
    OneInstance(k, agents, delegations);
    forall r | r in rows ensures r.agent.connection == k {
      var i :| 0 <= i < |rows| && rows[i] == r;
      assert RowAgents(rows)[i] in RowAgents(rows) && ListedFor([k], agents, RowAgents(rows)[i]);
    }
  }

  // ----- The rows, said of the raw lists -----

  /** Each instance has its own agents and delegations, each as often as it was given. */
  lemma {:induction false} OwnAgents(agents: seq<Agent>, k: ConnectionId, a: Agent)
    ensures multiset(AgentsOf(agents, k))[a] == if a.connection == k then multiset(agents)[a] else 0
  {
    if agents != [] {
      var n := |agents| - 1;
      assert agents == agents[..n] + [agents[n]];
      OwnAgents(agents[..n], k, a);
    }
  }

  lemma {:induction false} OwnDelegations(delegations: seq<Delegation>, k: ConnectionId, d: Delegation)
    ensures multiset(DelegationsOf(delegations, k))[d] == if d.connection == k then multiset(delegations)[d] else 0
  {
    if delegations != [] {
      var n := |delegations| - 1;
      assert delegations == delegations[..n] + [delegations[n]];
      OwnDelegations(delegations[..n], k, d);
    }
  }

  /** own and between are the agents and the delegations of instance k. */
  ghost predicate Part(agents: seq<Agent>, delegations: seq<Delegation>, k: ConnectionId, own: seq<Agent>,
                       between: seq<Delegation>) {
    && (forall a :: multiset(own)[a] == if a.connection == k then multiset(agents)[a] else 0)
    && (forall d :: multiset(between)[d] == if d.connection == k then multiset(delegations)[d] else 0)
  }

  /** Every row of the fleet is right about the agents and the delegations of its instance. */
  lemma FleetRowsAreRight(agents: seq<Agent>, delegations: seq<Delegation>, labelPlace: ConnectionId -> int, row: Row)
      returns (own: seq<Agent>, between: seq<Delegation>)
    requires UniqueIds(agents)
    requires row in FleetRows(Sort(Connections(agents), ByLabel(labelPlace)), agents, delegations)
    ensures Part(agents, delegations, row.agent.connection, own, between)
    ensures RowRight(own, between, row)
  {
    hide FleetRows, Connections, Sort, AgentsOf, DelegationsOf, RowsOf, RowRight, UniqueIds;
    var k := InstanceOfRow(Sort(Connections(agents), ByLabel(labelPlace)), agents, delegations, row);
    own, between := AgentsOf(agents, k), DelegationsOf(delegations, k);
    OfOneInstance(k, agents, delegations);
    forall a ensures multiset(own)[a] == if a.connection == k then multiset(agents)[a] else 0 {
      OwnAgents(agents, k, a);
    }
    forall d ensures multiset(between)[d] == if d.connection == k then multiset(delegations)[d] else 0 {
      OwnDelegations(delegations, k, d);
    }
    GroupIsUnique(agents, k);
    RowsAreRight(own, between, row);
  }

  lemma {:induction false} InstanceOfRow(ks: seq<ConnectionId>, agents: seq<Agent>, delegations: seq<Delegation>,
                                         row: Row) returns (k: ConnectionId)
    requires row in FleetRows(ks, agents, delegations)
    ensures row in RowsOf(AgentsOf(agents, k), DelegationsOf(delegations, k))
  {
    hide RowsOf, AgentsOf, DelegationsOf;
    var n := |ks| - 1;
    if row in RowsOf(AgentsOf(agents, ks[n]), DelegationsOf(delegations, ks[n])) {
      k := ks[n];
    } else {
      k := InstanceOfRow(ks[..n], agents, delegations, row);
    }
  }
}
