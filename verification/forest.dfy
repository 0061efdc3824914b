/** The depth-first emitter as a function, and why its rows are a preorder forest. */
module Forest {
  import opened DelegationGraph
  import opened Ordering
  import opened Preorder
  import opened Topology

  /** One runtime instance, ready to be emitted. */
  datatype Instance = Instance(agents: seq<Agent>, links: Links, cyclic: set<AgentId>) {
    function Orchestrators(id: AgentId): seq<Agent> {
      Sort(Known(ById(agents), Successors(links.incoming, id)), AgentBefore)
    }

    function DelegatesOf(id: AgentId): (delegates: seq<Agent>)
      ensures forall a :: a in delegates ==> a in agents
    {
      var candidates := NotMain(Known(ById(agents), Successors(links.outgoing, id)));
      SortPermutes(candidates, AgentBefore);
      KnownMembers(ById(agents), Successors(links.outgoing, id));
      Sort(candidates, AgentBefore)
    }

    function RowOf(agent: Agent, depth: nat): (row: Row)
      ensures row.agent == agent && row.depth == depth && row.delegatedBy == Orchestrators(agent.id)
    {
      var orchestrators := Orchestrators(agent.id);
      var role := if agent.kind.Main? then MainAgent else if |orchestrators| > 0 then Delegated else Standalone;
      var items := if agent.id in links.unresolved then links.unresolved[agent.id] else [];
      Row(agent, depth, role, orchestrators, Sort(items, DelegationBefore), agent.id in cyclic, false)
    }

    /** Ids are unique, the links stay inside the instance, and incoming mirrors outgoing. */
    ghost predicate WellFormed() {
      && UniqueIds(agents)
      && (forall v, w {:trigger w in Successors(links.outgoing, v)} ::
            w in Successors(links.outgoing, v) ==> v in AgentIds(agents) && w in AgentIds(agents))
      && (forall v, w {:trigger v in Successors(links.incoming, w)} {:trigger w in Successors(links.outgoing, v)} ::
            v in Successors(links.incoming, w) <==> w in Successors(links.outgoing, v))
    }
  }

  lemma {:induction false} ByIdIsExact(agents: seq<Agent>)
    requires UniqueIds(agents)
    ensures forall a :: a in agents ==> a.id in ById(agents) && ById(agents)[a.id] == a
  {
    if agents != [] {
      var last := agents[|agents| - 1];
      assert agents == agents[..|agents| - 1] + [last];
      ByIdIsExact(agents[..|agents| - 1]);
    }
  }

  /** DelegatesOf and Orchestrators list exactly the neighbours in the graph. */
  lemma Neighbours(c: Instance, id: AgentId)
    requires c.WellFormed()
    ensures forall a :: a in c.DelegatesOf(id) <==>
                        a in c.agents && !a.kind.Main? && a.id in Successors(c.links.outgoing, id)
    ensures forall a :: a in c.Orchestrators(id) <==> a in c.agents && id in Successors(c.links.outgoing, a.id)
  {
    ByIdIsExact(c.agents);
    KnownMembers(ById(c.agents), Successors(c.links.outgoing, id));
    KnownMembers(ById(c.agents), Successors(c.links.incoming, id));
    SortPermutes(NotMain(Known(ById(c.agents), Successors(c.links.outgoing, id))), AgentBefore);
    SortPermutes(Known(ById(c.agents), Successors(c.links.incoming, id)), AgentBefore);
  }

  /** The rows that emitting the agents of list at depth, each with its branch, adds to what is emitted already. */
  ghost function Emit(c: Instance, list: seq<Agent>, depth: nat, emitted: set<AgentId>): seq<Row>
    requires forall a :: a in list ==> a in c.agents
    decreases AgentIds(c.agents) - emitted, |list|
  {
    if list == [] then []
    else if list[0].id in emitted then Emit(c, list[1..], depth, emitted)
    else
      var branch := Branch(c, list[0], depth, emitted);
      branch + Emit(c, list[1..], depth, emitted + RowIds(branch))
  }

  /** The row of an agent not yet emitted, followed by its delegates' branches. */
  ghost function Branch(c: Instance, agent: Agent, depth: nat, emitted: set<AgentId>): (rows: seq<Row>)
    requires agent in c.agents && agent.id !in emitted
    ensures agent.id in RowIds(rows)
    decreases AgentIds(c.agents) - emitted, 0
  {
    var rows := [c.RowOf(agent, depth)] + Emit(c, c.DelegatesOf(agent.id), depth + 1, emitted + {agent.id});
    assert rows[0] in rows;
    rows
  }

  // ----- What Emit guarantees -----

  ghost predicate FromInstance(c: Instance, rows: seq<Row>) {
    forall r :: r in rows ==> r.agent in c.agents && r == c.RowOf(r.agent, r.depth)
  }

  lemma NoRowIds()
    ensures RowIds([]) == {}
  {
  }

  lemma OneRowId(r: Row)
    ensures RowIds([r]) == {r.agent.id}
  {
  }

  /** Every agent of the list ends up emitted, and nothing is emitted twice. */
  lemma {:induction false} EmitOnce(c: Instance, list: seq<Agent>, depth: nat, emitted: set<AgentId>)
    requires forall a :: a in list ==> a in c.agents
    ensures var rows := Emit(c, list, depth, emitted);
            && DistinctRows(rows)
            && FromInstance(c, rows)
            && RowIds(rows) !! emitted
            && (forall a :: a in list ==> a.id in emitted + RowIds(rows))
    decreases AgentIds(c.agents) - emitted, |list|
  {
    hide Instance.DelegatesOf, Instance.RowOf, RowIds;
    if list == [] {
      NoRowIds();
    } else if list[0].id in emitted {
      EmitOnce(c, list[1..], depth, emitted);
    } else {
      var branch := Branch(c, list[0], depth, emitted);
      EmitOnce(c, c.DelegatesOf(list[0].id), depth + 1, emitted + {list[0].id});
      BranchIds(c, list[0], depth, emitted);
      EmitOnce(c, list[1..], depth, emitted + RowIds(branch));
      var rest := Emit(c, list[1..], depth, emitted + RowIds(branch));
      RowIdsAppend(branch, rest);
      var root, kids := c.RowOf(list[0], depth), Emit(c, c.DelegatesOf(list[0].id), depth + 1, emitted + {list[0].id});
      OneRowId(root);
      DistinctAppend([root], kids);
      DistinctAppend(branch, rest);
    }
  }

  lemma DistinctAppend(a: seq<Row>, b: seq<Row>)
    requires DistinctRows(a) && DistinctRows(b) && RowIds(a) !! RowIds(b)
    ensures DistinctRows(a + b)
  {
    forall i, j | 0 <= i < |a| && 0 <= j < |b| ensures a[i].agent.id != b[j].agent.id {
      assert a[i] in a && b[j] in b;
      assert a[i].agent.id in RowIds(a) && b[j].agent.id in RowIds(b);
    }
  }

  /** The rows at the starting depth are agents of the list; the others hang under their orchestrators. */
  lemma {:induction false} EmitNests(c: Instance, list: seq<Agent>, depth: nat, emitted: set<AgentId>)
    requires c.WellFormed() && forall a :: a in list ==> a in c.agents
    ensures var rows := Emit(c, list, depth, emitted);
            && WellNested(rows, depth)
            && (forall r :: r in rows && r.depth == depth ==> r.agent in list)
            && (forall r :: r in rows && r.depth > depth ==> !r.agent.kind.Main?)
    decreases AgentIds(c.agents) - emitted, |list|
  {
    hide Instance.DelegatesOf, Instance.RowOf, RowIds, WellNested, Instance.WellFormed;
    if list == [] {
      EmptyNests(depth);
    } else if list[0].id in emitted {
      EmitNests(c, list[1..], depth, emitted);
    } else {
      var branch := Branch(c, list[0], depth, emitted);
      var delegates := c.DelegatesOf(list[0].id);
      EmitNests(c, delegates, depth + 1, emitted + {list[0].id});
      BranchNests(c, list[0], depth, emitted);
      EmitNests(c, list[1..], depth, emitted + RowIds(branch));
      WellNestedAppend(branch, Emit(c, list[1..], depth, emitted + RowIds(branch)), depth);
    }
  }

  lemma EmptyNests(depth: nat)
    ensures WellNested([], depth)
  {
  }

  lemma NestedIsDeep(rows: seq<Row>, base: nat)
    requires WellNested(rows, base)
    ensures forall r :: r in rows ==> r.depth >= base
  {
  }

  lemma KidsNameRoot(c: Instance, agent: Agent, kids: seq<Row>, depth: nat)
    requires c.WellFormed() && agent in c.agents && FromInstance(c, kids)
    requires forall r :: r in kids && r.depth == depth ==> r.agent in c.DelegatesOf(agent.id)
    ensures forall i :: 0 <= i < |kids| && kids[i].depth == depth ==> agent in kids[i].delegatedBy
  {
    hide Instance.DelegatesOf, Instance.RowOf, Instance.WellFormed;
    Neighbours(c, agent.id);
    forall i | 0 <= i < |kids| && kids[i].depth == depth ensures agent in kids[i].delegatedBy {
      assert kids[i] in kids;
      Neighbours(c, kids[i].agent.id);
    }
  }

  lemma BranchNests(c: Instance, agent: Agent, depth: nat, emitted: set<AgentId>)
    requires c.WellFormed() && agent in c.agents && agent.id !in emitted
    requires var delegates := c.DelegatesOf(agent.id);
             var kids := Emit(c, delegates, depth + 1, emitted + {agent.id});
             && WellNested(kids, depth + 1)
             && (forall r :: r in kids && r.depth == depth + 1 ==> r.agent in delegates)
             && (forall r :: r in kids && r.depth > depth + 1 ==> !r.agent.kind.Main?)
    ensures var rows := Branch(c, agent, depth, emitted);
            && WellNested(rows, depth)
            && (forall r :: r in rows && r.depth == depth ==> r.agent == agent)
            && (forall r :: r in rows && r.depth > depth ==> !r.agent.kind.Main?)
  {
    hide Instance.DelegatesOf, Instance.RowOf, RowIds, Instance.WellFormed, WellNested;
    var root := c.RowOf(agent, depth);
    var delegates := c.DelegatesOf(agent.id);
    var kids := Emit(c, delegates, depth + 1, emitted + {agent.id});
    EmitOnce(c, delegates, depth + 1, emitted + {agent.id});
    Neighbours(c, agent.id);
    KidsNameRoot(c, agent, kids, depth + 1);
    NestedIsDeep(kids, depth + 1);
    WellNestedUnder(root, kids);
  }

  ghost predicate DelegatesWithin(c: Instance, rows: seq<Row>, ids: set<AgentId>) {
    forall r, d {:trigger r in rows, d in c.DelegatesOf(r.agent.id)} ::
      r in rows && d in c.DelegatesOf(r.agent.id) ==> d.id in ids
  }

  lemma RowIdsAppend(a: seq<Row>, b: seq<Row>)
    ensures RowIds(a + b) == RowIds(a) + RowIds(b)
  {
  }

  lemma BranchIds(c: Instance, agent: Agent, depth: nat, emitted: set<AgentId>)
    requires agent in c.agents && agent.id !in emitted
    ensures var kids := Emit(c, c.DelegatesOf(agent.id), depth + 1, emitted + {agent.id});
            RowIds(Branch(c, agent, depth, emitted)) == {agent.id} + RowIds(kids)
  {
    hide Instance.DelegatesOf, Instance.RowOf;
    RowIdsAppend([c.RowOf(agent, depth)], Emit(c, c.DelegatesOf(agent.id), depth + 1, emitted + {agent.id}));
  }

  /** Whatever is emitted has its delegates emitted too, mains aside. */
  lemma {:induction false} EmitClosed(c: Instance, list: seq<Agent>, depth: nat, emitted: set<AgentId>)
    requires forall a :: a in list ==> a in c.agents
    ensures var rows := Emit(c, list, depth, emitted); DelegatesWithin(c, rows, emitted + RowIds(rows))
    decreases AgentIds(c.agents) - emitted, |list|
  {
    hide Instance.DelegatesOf, Instance.RowOf, RowIds;
    if list == [] {
    } else if list[0].id in emitted {
      EmitClosed(c, list[1..], depth, emitted);
    } else {
      var agent := list[0];
      var delegates := c.DelegatesOf(agent.id);
      EmitClosed(c, delegates, depth + 1, emitted + {agent.id});
      EmitOnce(c, delegates, depth + 1, emitted + {agent.id});
      BranchIds(c, agent, depth, emitted);
      var branch := Branch(c, agent, depth, emitted);
      assert DelegatesWithin(c, branch, emitted + RowIds(branch));
      EmitClosed(c, list[1..], depth, emitted + RowIds(branch));
      RowIdsAppend(branch, Emit(c, list[1..], depth, emitted + RowIds(branch)));
    }
  }

  /** The delegations that branches follow: those into agents that are not mains. */
  ghost function BranchEdges(c: Instance): Graph {
    map v | v in AgentIds(c.agents) :: Ids(c.DelegatesOf(v))
  }

  /** Whatever is emitted is reached from the list by branch edges. */
  lemma {:induction false} EmitReaches(c: Instance, list: seq<Agent>, depth: nat, emitted: set<AgentId>, r: Row)
      returns (from: Agent)
    requires forall a :: a in list ==> a in c.agents
    requires r in Emit(c, list, depth, emitted)
    ensures from in list && Reaches(BranchEdges(c), from.id, r.agent.id)
    decreases AgentIds(c.agents) - emitted, |list|
  {
    if list[0].id in emitted {
      from := EmitReaches(c, list[1..], depth, emitted, r);
    } else {
      var root, branch := c.RowOf(list[0], depth), Branch(c, list[0], depth, emitted);
      var delegates := c.DelegatesOf(list[0].id);
      if r in Emit(c, list[1..], depth, emitted + RowIds(branch)) {
        from := EmitReaches(c, list[1..], depth, emitted + RowIds(branch), r);
      } else if r in Emit(c, delegates, depth + 1, emitted + {list[0].id}) {
        var via := EmitReaches(c, delegates, depth + 1, emitted + {list[0].id}, r);
        from := list[0];
        var i :| 0 <= i < |delegates| && delegates[i] == via;
        assert Ids(delegates)[i] in Successors(BranchEdges(c), from.id);
        ReachesEdge(BranchEdges(c), from.id, via.id);
        ReachesTransitive(BranchEdges(c), from.id, via.id, r.agent.id);
      } else {
        assert r == root;
        from := list[0];
        ReachesSelf(BranchEdges(c), from.id);
      }
    }
  }

  lemma {:induction false} EmitAppend(c: Instance, a: seq<Agent>, b: seq<Agent>, depth: nat, emitted: set<AgentId>)
    requires forall x :: x in a + b ==> x in c.agents
    ensures var first := Emit(c, a, depth, emitted);
            Emit(c, a + b, depth, emitted) == first + Emit(c, b, depth, emitted + RowIds(first))
    decreases AgentIds(c.agents) - emitted, |a|
  {
    hide RowIds, Instance.DelegatesOf, Instance.RowOf;
    if a == [] {
      NoRowIds();
      assert a + b == b;
      assert emitted + RowIds([]) == emitted;
    } else {
      assert (a + b)[1..] == a[1..] + b;
      if a[0].id in emitted {
        EmitAppend(c, a[1..], b, depth, emitted);
      } else {
        var branch := Branch(c, a[0], depth, emitted);
        EmitAppend(c, a[1..], b, depth, emitted + RowIds(branch));
        var rest := Emit(c, a[1..], depth, emitted + RowIds(branch));
        RowIdsAppend(branch, rest);
        assert emitted + RowIds(branch + rest) == emitted + RowIds(branch) + RowIds(rest);
      }
    }
  }
}
