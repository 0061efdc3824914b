/** The topology depends on the sets of agents and delegations, not on the order they arrive in. */
module OrderIndependence {
  import opened DelegationGraph
  import opened Fleet
  import opened Forest
  import opened InstanceTopology
  import opened Ordering
  import opened Topology

  /** A row without its unresolved delegations, whose order their labels alone need not settle. */
  function Place(row: Row): Row {
    row.(unresolved := [])
  }

  function Places(rows: seq<Row>): (places: seq<Row>)
    ensures |places| == |rows| && forall i :: 0 <= i < |rows| ==> places[i] == Place(rows[i])
  {
    seq(|rows|, i requires 0 <= i < |rows| => Place(rows[i]))
  }

  /** The same agents in the same order, and the same edges in any order. */
  ghost predicate SameGraph(c: Instance, d: Instance) {
    && c.agents == d.agents && c.cyclic == d.cyclic && UniqueIds(c.agents)
    && TotalOn(Elements(c.agents), AgentBefore)
    && SameEdges(c.links.outgoing, d.links.outgoing) && SameEdges(c.links.incoming, d.links.incoming)
    && (forall v :: NoRepeats(Successors(c.links.outgoing, v)) && NoRepeats(Successors(d.links.outgoing, v)))
    && (forall v :: NoRepeats(Successors(c.links.incoming, v)) && NoRepeats(Successors(d.links.incoming, v)))
  }

  lemma {:induction false} NotMainIsUnique(agents: seq<Agent>)
    requires UniqueIds(agents)
    ensures UniqueIds(NotMain(agents))
  {
    if agents != [] {
      NotMainIsUnique(agents[1..]);
      var rest := NotMain(agents[1..]);
      forall i | 0 <= i < |rest| ensures rest[i].id != agents[0].id {
        assert rest[i] in agents[1..];
      }
    }
  }

  lemma SameSorted(a: seq<Agent>, b: seq<Agent>, all: seq<Agent>)
    requires UniqueIds(a) && UniqueIds(b) && forall x :: x in a <==> x in b
    requires TotalOn(Elements(all), AgentBefore) && forall x :: x in a ==> x in all
    ensures Sort(a, AgentBefore) == Sort(b, AgentBefore)
  {
    SameMultiset(a, b);
    assert Elements(a) <= Elements(all);
    SortUnique(a, b, AgentBefore);
  }

  lemma SameNeighbours(c: Instance, d: Instance, id: AgentId)
    requires SameGraph(c, d)
    ensures c.DelegatesOf(id) == d.DelegatesOf(id) && c.Orchestrators(id) == d.Orchestrators(id)
  {
    var byId := ById(c.agents);
    var outC, outD := Successors(c.links.outgoing, id), Successors(d.links.outgoing, id);
    var inC, inD := Successors(c.links.incoming, id), Successors(d.links.incoming, id);
    KnownMembers(byId, outC);
    KnownMembers(byId, outD);
    KnownMembers(byId, inC);
    KnownMembers(byId, inD);
    KnownIsUnique(byId, outC);
    KnownIsUnique(byId, outD);
    KnownIsUnique(byId, inC);
    KnownIsUnique(byId, inD);
    NotMainIsUnique(Known(byId, outC));
    NotMainIsUnique(Known(byId, outD));
    SameSorted(NotMain(Known(byId, outC)), NotMain(Known(byId, outD)), c.agents);
    SameSorted(Known(byId, inC), Known(byId, inD), c.agents);
  }

  lemma PlacesKeepIds(a: seq<Row>, b: seq<Row>)
    requires Places(a) == Places(b)
    ensures RowIds(a) == RowIds(b)
  {
    forall i | 0 <= i < |a| ensures a[i].agent == b[i].agent {
      assert Places(a)[i].agent == a[i].agent && Places(b)[i].agent == b[i].agent;
    }
    forall id | id in RowIds(a) ensures id in RowIds(b) {
      var r :| r in a && r.agent.id == id;
      var i :| 0 <= i < |a| && a[i] == r;
      assert b[i] in b;
    }
    forall id | id in RowIds(b) ensures id in RowIds(a) {
      var r :| r in b && r.agent.id == id;
      var i :| 0 <= i < |b| && b[i] == r;
      assert a[i] in a;
    }
  }

  lemma {:induction false} EmitSame(c: Instance, d: Instance, list: seq<Agent>, depth: nat, emitted: set<AgentId>)
    requires SameGraph(c, d) && forall a :: a in list ==> a in c.agents
    ensures Places(Emit(c, list, depth, emitted)) == Places(Emit(d, list, depth, emitted))
    decreases AgentIds(c.agents) - emitted, |list|
  {
    hide SameGraph, Instance.DelegatesOf, Instance.Orchestrators, RowIds, AgentIds;
    assert c.agents == d.agents by { SameAgents(c, d); }
    if list == [] {
    } else if list[0].id in emitted {
      EmitSame(c, d, list[1..], depth, emitted);
    } else {
      var branchC, branchD := Branch(c, list[0], depth, emitted), Branch(d, list[0], depth, emitted);
      BranchSame(c, d, list[0], depth, emitted);
      PlacesKeepIds(branchC, branchD);
      Shrinks(c.agents, emitted, list[0], RowIds(branchC));
      EmitSame(c, d, list[1..], depth, emitted + RowIds(branchC));
      PlacesAppend(branchC, Emit(c, list[1..], depth, emitted + RowIds(branchC)));
      PlacesAppend(branchD, Emit(d, list[1..], depth, emitted + RowIds(branchD)));
    }
  }

  lemma SameAgents(c: Instance, d: Instance)
    requires SameGraph(c, d)
    ensures c.agents == d.agents && c.cyclic == d.cyclic
  {
  }

  lemma Shrinks(agents: seq<Agent>, emitted: set<AgentId>, agent: Agent, more: set<AgentId>)
    requires agent in agents && agent.id !in emitted && agent.id in more
    ensures AgentIds(agents) - (emitted + more) < AgentIds(agents) - emitted
  {
    assert agent.id in AgentIds(agents) - emitted;
  }

  lemma PlacesAppend(a: seq<Row>, b: seq<Row>)
    ensures Places(a + b) == Places(a) + Places(b)
  {
  }

  lemma RowSame(c: Instance, d: Instance, agent: Agent, depth: nat)
    requires SameGraph(c, d)
    ensures Places([c.RowOf(agent, depth)]) == Places([d.RowOf(agent, depth)])
  {
    hide SameGraph, Instance.Orchestrators;
    SameNeighbours(c, d, agent.id);
    SameAgents(c, d);
  }

  lemma {:induction false} BranchSame(c: Instance, d: Instance, agent: Agent, depth: nat, emitted: set<AgentId>)
    requires SameGraph(c, d) && agent in c.agents && agent in d.agents && agent.id !in emitted
    ensures Places(Branch(c, agent, depth, emitted)) == Places(Branch(d, agent, depth, emitted))
    decreases AgentIds(c.agents) - emitted, 0
  {
    hide SameGraph, Instance.DelegatesOf, Instance.RowOf, RowIds, AgentIds, Places;
    SameNeighbours(c, d, agent.id);
    SameAgents(c, d);
    RowSame(c, d, agent, depth);
    var delegates := c.DelegatesOf(agent.id);
    Shrinks(c.agents, emitted, agent, {agent.id});
    EmitSame(c, d, delegates, depth + 1, emitted + {agent.id});
    PlacesAppend([c.RowOf(agent, depth)], Emit(c, delegates, depth + 1, emitted + {agent.id}));
    PlacesAppend([d.RowOf(agent, depth)], Emit(d, delegates, depth + 1, emitted + {agent.id}));
  }

  lemma SameInput(agents1: seq<Agent>, delegations1: seq<Delegation>, agents2: seq<Agent>,
                  delegations2: seq<Delegation>)
    requires UniqueIds(agents1) && TotalOn(Elements(agents1), AgentBefore)
    requires multiset(agents1) == multiset(agents2) && Elements(delegations1) == Elements(delegations2)
    ensures SameGraph(InstanceOf(agents1, delegations1), InstanceOf(agents2, delegations2))
  {
    var c, d := InstanceOf(agents1, delegations1), InstanceOf(agents2, delegations2);
    SortUnique(agents1, agents2, AgentBefore);
    SortPermutes(agents1, AgentBefore);
    SameElements(agents1, c.agents);
    UniqueAfterPermuting(agents1, c.agents);
    var byRuntimeId := ByRuntimeId(c.agents);
    SameLinks(byRuntimeId, delegations1, delegations2, c.links, d.links);
    forall v ensures v in c.cyclic <==> v in d.cyclic {
      SameEdgesSameCycles(c.links.outgoing, d.links.outgoing, v);
    }
  }

  lemma SameLinks(byRuntimeId: map<string, Agent>, a: seq<Delegation>, b: seq<Delegation>, k: Links, l: Links)
    requires Elements(a) == Elements(b)
    requires k == Link(byRuntimeId, a) && l == Link(byRuntimeId, b)
    ensures SameEdges(k.outgoing, l.outgoing) && SameEdges(k.incoming, l.incoming)
    ensures forall v :: NoRepeats(Successors(k.outgoing, v)) && NoRepeats(Successors(l.outgoing, v))
    ensures forall v :: NoRepeats(Successors(k.incoming, v)) && NoRepeats(Successors(l.incoming, v))
  {
    hide Link, Successors, NoRepeats;
    LinkIsExact(byRuntimeId, a);
    LinkIsExact(byRuntimeId, b);
    forall v, w ensures Delegates(byRuntimeId, a, v, w) <==> Delegates(byRuntimeId, b, v, w) {
      if Delegates(byRuntimeId, a, v, w) {
        var x :| x in a && IsEdge(byRuntimeId, x, v, w);
        assert x in Elements(b);
      }
      if Delegates(byRuntimeId, b, v, w) {
        var x :| x in b && IsEdge(byRuntimeId, x, v, w);
        assert x in Elements(a);
      }
    }
  }

  /** Agent order, depth, role, orchestrators and cycle flags do not depend on the order of arrival. */
  lemma ArrivalOrderIsIrrelevant(agents1: seq<Agent>, delegations1: seq<Delegation>,
                                 agents2: seq<Agent>, delegations2: seq<Delegation>)
    requires UniqueIds(agents1) && TotalOn(Elements(agents1), AgentBefore)
    requires multiset(agents1) == multiset(agents2) && Elements(delegations1) == Elements(delegations2)
    ensures Places(RowsOf(agents1, delegations1)) == Places(RowsOf(agents2, delegations2))
  {
    var c, d := InstanceOf(agents1, delegations1), InstanceOf(agents2, delegations2);
    SameInput(agents1, delegations1, agents2, delegations2);
    SameRoots(c, d);
    EmitSame(c, d, Roots(c) + c.agents, 0, {});
  }

  lemma SameRoots(c: Instance, d: Instance)
    requires SameGraph(c, d)
    ensures Roots(c) == Roots(d)
  {
    SameStandalones(c.agents, c.links.incoming, d.links.incoming);
  }

  lemma {:induction false} SameStandalones(agents: seq<Agent>, g: Graph, h: Graph)
    requires SameEdges(g, h)
    ensures Standalones(agents, g) == Standalones(agents, h)
  {
    if agents != [] {
      SameStandalones(agents[1..], g, h);
      var id := agents[0].id;
      if |Successors(g, id)| != 0 {
        var w := Successors(g, id)[0];
        assert w in Successors(g, id) && w in Successors(h, id);
      }
      if |Successors(h, id)| != 0 {
        var w := Successors(h, id)[0];
        assert w in Successors(h, id) && w in Successors(g, id);
      }
    }
  }

  // ----- The unresolved delegations -----

  /** No orchestrator has two different delegations with the same label. */
  ghost predicate LabelsDiffer(delegations: seq<Delegation>) {
    forall x, y :: x in delegations && y in delegations && x != y && x.orchestrator == y.orchestrator ==>
      x.labelKey != y.labelKey
  }

  lemma {:induction false} UnresolvedMembers(byRuntimeId: map<string, Agent>, delegations: seq<Delegation>, id: AgentId)
    ensures forall x :: x in Unresolved(byRuntimeId, delegations, id) ==>
              x in delegations && x.orchestrator in byRuntimeId && byRuntimeId[x.orchestrator].id == id
  {
    if delegations != [] {
      var n := |delegations| - 1;
      assert delegations == delegations[..n] + [delegations[n]];
      UnresolvedMembers(byRuntimeId, delegations[..n], id);
    }
  }

  lemma SameUnresolved(agents: seq<Agent>, a: seq<Delegation>, b: seq<Delegation>, id: AgentId)
    requires UniqueIds(agents) && multiset(a) == multiset(b) && LabelsDiffer(a)
    ensures var byRuntimeId := ByRuntimeId(agents);
            Sort(Unresolved(byRuntimeId, a, id), DelegationBefore) ==
            Sort(Unresolved(byRuntimeId, b, id), DelegationBefore)
  {
    hide Unresolved, ByRuntimeId;
    var byRuntimeId := ByRuntimeId(agents);
    var first, second := Unresolved(byRuntimeId, a, id), Unresolved(byRuntimeId, b, id);
    forall x ensures multiset(first)[x] == multiset(second)[x] {
      UnresolvedCounts(byRuntimeId, a, id, x);
      UnresolvedCounts(byRuntimeId, b, id, x);
    }
    UnresolvedMembers(byRuntimeId, a, id);
    forall x, y | x in first && y in first ensures x.orchestrator == y.orchestrator {
      SameIdSameAgent(agents, byRuntimeId[x.orchestrator], byRuntimeId[y.orchestrator]);
    }
    SortUnique(first, second, DelegationBefore);
  }

  /** With labels that tell delegations apart, the rows of an instance do not depend on the order of arrival at all. */
  lemma RowsIgnoreArrival(agents1: seq<Agent>, delegations1: seq<Delegation>,
                          agents2: seq<Agent>, delegations2: seq<Delegation>)
    requires UniqueIds(agents1) && TotalOn(Elements(agents1), AgentBefore) && LabelsDiffer(delegations1)
    requires multiset(agents1) == multiset(agents2) && multiset(delegations1) == multiset(delegations2)
    ensures RowsOf(agents1, delegations1) == RowsOf(agents2, delegations2)
  {
    hide RowsOf, Place, LabelsDiffer;
    var rows1, rows2 := RowsOf(agents1, delegations1), RowsOf(agents2, delegations2);
    SameElements(delegations1, delegations2);
    ArrivalOrderIsIrrelevant(agents1, delegations1, agents2, delegations2);
    SortUnique(agents1, agents2, AgentBefore);
    SortPermutes(agents1, AgentBefore);
    UniqueAfterPermuting(agents1, Sort(agents1, AgentBefore));
    UniqueAfterPermuting(agents1, agents2);
    assert |rows1| == |Places(rows1)| == |rows2|;
    forall i | 0 <= i < |rows1| ensures rows1[i] == rows2[i] {
      assert Places(rows1)[i] == Place(rows1[i]) && Places(rows2)[i] == Place(rows2[i]);
      SamePlaceSameRow(rows1[i], rows2[i]);
      UnresolvedOfRow(agents1, delegations1, rows1[i]);
      UnresolvedOfRow(agents2, delegations2, rows2[i]);
      SameUnresolved(Sort(agents1, AgentBefore), delegations1, delegations2, rows1[i].agent.id);
    }
  }

  lemma SamePlaceSameRow(a: Row, b: Row)
    requires Place(a) == Place(b)
    ensures a.agent == b.agent && (a.unresolved == b.unresolved ==> a == b)
  {
    assert Place(a).agent == a.agent && Place(b).agent == b.agent;
    assert a == Place(a).(unresolved := a.unresolved) && b == Place(b).(unresolved := b.unresolved);
  }

  lemma UnresolvedOfRow(agents: seq<Agent>, delegations: seq<Delegation>, row: Row)
    requires UniqueIds(agents) && row in RowsOf(agents, delegations)
    ensures row.unresolved ==
            Sort(Unresolved(ByRuntimeId(Sort(agents, AgentBefore)), delegations, row.agent.id), DelegationBefore)
  {
    hide Emit, Link, ByRuntimeId, Instance.Orchestrators, OnCycle, Unresolved, Sort;
    var c := InstanceOf(agents, delegations);
    EmitOnce(c, Roots(c) + c.agents, 0, {});
    UnresolvedIsExact(ByRuntimeId(c.agents), delegations, row.agent.id);
  }

  // ----- The whole fleet -----

  lemma {:induction false} AgentsOfCounts(agents: seq<Agent>, k: ConnectionId, x: Agent)
    ensures multiset(AgentsOf(agents, k))[x] == if x.connection == k then multiset(agents)[x] else 0
  {
    if agents != [] {
      var n := |agents| - 1;
      assert agents == agents[..n] + [agents[n]];
      AgentsOfCounts(agents[..n], k, x);
    }
  }

  lemma {:induction false} DelegationsOfCounts(delegations: seq<Delegation>, k: ConnectionId, x: Delegation)
    ensures multiset(DelegationsOf(delegations, k))[x] == if x.connection == k then multiset(delegations)[x] else 0
  {
    if delegations != [] {
      var n := |delegations| - 1;
      assert delegations == delegations[..n] + [delegations[n]];
      DelegationsOfCounts(delegations[..n], k, x);
    }
  }

  /** Within every instance the comparators tell agents, and the delegations of one orchestrator, apart. */
  ghost predicate ToldApart(agents: seq<Agent>, delegations: seq<Delegation>) {
    forall k :: TotalOn(Elements(AgentsOf(agents, k)), AgentBefore) && LabelsDiffer(DelegationsOf(delegations, k))
  }

  lemma SameInstance(agents1: seq<Agent>, delegations1: seq<Delegation>,
                     agents2: seq<Agent>, delegations2: seq<Delegation>, k: ConnectionId)
    requires UniqueIds(agents1) && ToldApart(agents1, delegations1)
    requires multiset(agents1) == multiset(agents2) && multiset(delegations1) == multiset(delegations2)
    ensures RowsOf(AgentsOf(agents1, k), DelegationsOf(delegations1, k)) ==
            RowsOf(AgentsOf(agents2, k), DelegationsOf(delegations2, k))
  {
    hide RowsOf, AgentsOf, DelegationsOf, LabelsDiffer, TotalOn, UniqueIds;
    forall x ensures multiset(AgentsOf(agents1, k))[x] == multiset(AgentsOf(agents2, k))[x] {
      AgentsOfCounts(agents1, k, x);
      AgentsOfCounts(agents2, k, x);
    }
    forall x ensures multiset(DelegationsOf(delegations1, k))[x] == multiset(DelegationsOf(delegations2, k))[x] {
      DelegationsOfCounts(delegations1, k, x);
      DelegationsOfCounts(delegations2, k, x);
    }
    GroupIsUnique(agents1, k);
    RowsIgnoreArrival(AgentsOf(agents1, k), DelegationsOf(delegations1, k),
                      AgentsOf(agents2, k), DelegationsOf(delegations2, k));
  }

  lemma {:induction false} SameFleetRows(ks: seq<ConnectionId>, agents1: seq<Agent>, delegations1: seq<Delegation>,
                                         agents2: seq<Agent>, delegations2: seq<Delegation>)
    requires UniqueIds(agents1) && ToldApart(agents1, delegations1)
    requires multiset(agents1) == multiset(agents2) && multiset(delegations1) == multiset(delegations2)
    ensures FleetRows(ks, agents1, delegations1) == FleetRows(ks, agents2, delegations2)
  {
    hide RowsOf, ToldApart, UniqueIds;
    if ks != [] {
      SameFleetRows(ks[..|ks| - 1], agents1, delegations1, agents2, delegations2);
      SameInstance(agents1, delegations1, agents2, delegations2, ks[|ks| - 1]);
    }
  }

  /** If labels tell instances apart, the fleet is listed alike whatever order agents and delegations arrive in. */
  lemma FleetIgnoresArrival(agents1: seq<Agent>, delegations1: seq<Delegation>,
                            agents2: seq<Agent>, delegations2: seq<Delegation>, labelPlace: ConnectionId -> int)
    requires UniqueIds(agents1) && ToldApart(agents1, delegations1)
    requires TotalOn(Elements(Connections(agents1)), ByLabel(labelPlace))
    requires multiset(agents1) == multiset(agents2) && multiset(delegations1) == multiset(delegations2)
    ensures FleetRows(Sort(Connections(agents1), ByLabel(labelPlace)), agents1, delegations1) ==
            FleetRows(Sort(Connections(agents2), ByLabel(labelPlace)), agents2, delegations2)
  {
    hide RowsOf, FleetRows, ToldApart, UniqueIds, TotalOn;
    SameElements(agents1, agents2);
    forall a ensures a in agents1 <==> a in agents2 {
      assert a in Elements(agents1) <==> a in Elements(agents2);
    }
    SameMultiset(Connections(agents1), Connections(agents2));
    SortUnique(Connections(agents1), Connections(agents2), ByLabel(labelPlace));
    SameFleetRows(Sort(Connections(agents1), ByLabel(labelPlace)), agents1, delegations1, agents2, delegations2);
  }
}
