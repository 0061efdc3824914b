/** The order in which rows are listed: siblings by name, and at the top mains first, then standalone agents. */
module SiblingOrder {
  import opened DelegationGraph
  import opened Forest
  import opened InstanceTopology
  import opened Ordering
  import opened Preorder
  import opened Topology

  /** Rows at the same depth with nothing shallower between them. */
  ghost predicate Siblings(rows: seq<Row>, i: nat, j: nat) {
    i < j < |rows| && rows[i].depth == rows[j].depth && forall k :: i < k < j ==> rows[k].depth >= rows[i].depth
  }

  ghost predicate SiblingsSorted(rows: seq<Row>) {
    forall i: nat, j: nat :: Siblings(rows, i, j) ==> !AgentBefore(rows[j].agent, rows[i].agent)
  }

  lemma SiblingsWithin(rows: seq<Row>, part: seq<Row>, offset: nat, i: nat, j: nat)
    requires offset + |part| <= |rows| && part == rows[offset..offset + |part|]
    requires offset <= i && j < offset + |part| && Siblings(rows, i, j)
    ensures Siblings(part, i - offset, j - offset)
    ensures part[i - offset] == rows[i] && part[j - offset] == rows[j]
  {
    forall k | i - offset < k < j - offset ensures part[k].depth >= part[i - offset].depth {
      assert part[k] == rows[k + offset];
    }
  }

  lemma TopOfBranch(root: Row, kids: seq<Row>)
    requires SiblingsSorted(kids) && forall k :: 0 <= k < |kids| ==> kids[k].depth > root.depth
    ensures SiblingsSorted([root] + kids)
  {
    hide AgentBefore;
    var rows := [root] + kids;
    assert rows[1..] == kids;
    forall i: nat, j: nat | Siblings(rows, i, j) ensures !AgentBefore(rows[j].agent, rows[i].agent) {
      assert rows[j] == kids[j - 1];
      SiblingsWithin(rows, kids, 1, i, j);
    }
  }

  lemma BranchBeforeRest(branch: seq<Row>, rest: seq<Row>, depth: nat)
    requires SiblingsSorted(branch) && SiblingsSorted(rest)
    requires (forall k :: 0 <= k < |branch| ==> branch[k].depth >= depth) && (rest != [] ==> rest[0].depth == depth)
    requires forall x, y :: x in branch && y in rest && x.depth == y.depth == depth ==> !AgentBefore(y.agent, x.agent)
    ensures SiblingsSorted(branch + rest)
  {
    var rows, n := branch + rest, |branch|;
    forall i: nat, j: nat | Siblings(rows, i, j) ensures !AgentBefore(rows[j].agent, rows[i].agent) {
      if j < n {
        SiblingsWithin(rows, branch, 0, i, j);
      } else if i >= n {
        SiblingsWithin(rows, rest, n, i, j);
      } else {
        assert rows[n] == rest[0];
        assert rows[i] == branch[i] && rows[j] == rest[j - n];
        assert rows[i].depth == depth;
      }
    }
  }

  lemma AgentsAreWeaklyOrdered()
    ensures WeakOrder(AgentBefore)
  {
  }

  lemma DelegatesAreSorted(c: Instance, id: AgentId)
    ensures Sorted(c.DelegatesOf(id), AgentBefore)
  {
    AgentsAreWeaklyOrdered();
    SortSorts(NotMain(Known(ById(c.agents), Successors(c.links.outgoing, id))), AgentBefore);
  }

  lemma FirstIsAtTop(rows: seq<Row>, depth: nat)
    requires WellNested(rows, depth)
    ensures rows != [] ==> rows[0].depth == depth
  {
    if rows != [] {
      assert rows[0].depth > depth ==> HasParent(rows[..0], rows[0]);
    }
  }

  lemma BranchSorts(c: Instance, agent: Agent, depth: nat, emitted: set<AgentId>)
    requires agent in c.agents && agent.id !in emitted
    requires var kids := Emit(c, c.DelegatesOf(agent.id), depth + 1, emitted + {agent.id});
             SiblingsSorted(kids) && WellNested(kids, depth + 1)
    ensures SiblingsSorted(Branch(c, agent, depth, emitted))
  {
    hide Instance.DelegatesOf, Instance.RowOf, WellNested, SiblingsSorted, Emit;
    var kids := Emit(c, c.DelegatesOf(agent.id), depth + 1, emitted + {agent.id});
    AllAtLeast(kids, depth + 1);
    TopOfBranch(c.RowOf(agent, depth), kids);
  }

  /** The tops of a branch and of what is emitted after it are in the order of the list. */
  lemma BranchThenRest(branch: seq<Row>, rest: seq<Row>, list: seq<Agent>, depth: nat)
    requires Sorted(list, AgentBefore) && list != []
    requires SiblingsSorted(branch) && SiblingsSorted(rest) && WellNested(branch, depth) && WellNested(rest, depth)
    requires forall r :: r in branch && r.depth == depth ==> r.agent == list[0]
    requires forall r :: r in rest && r.depth == depth ==> r.agent in list[1..]
    ensures SiblingsSorted(branch + rest)
  {
    hide SiblingsSorted, WellNested, AgentBefore;
    AllAtLeast(branch, depth);
    FirstIsAtTop(rest, depth);
    forall x, y | x in branch && y in rest && x.depth == y.depth == depth ensures !AgentBefore(y.agent, x.agent) {
      var q :| 0 <= q < |list[1..]| && list[1..][q] == y.agent;
      assert list[q + 1] == y.agent;
    }
    BranchBeforeRest(branch, rest, depth);
  }

  /** What is emitted from a sorted list has its siblings sorted at every depth. */
  lemma {:induction false} EmitSorts(c: Instance, list: seq<Agent>, depth: nat, emitted: set<AgentId>)
    requires c.WellFormed() && (forall a :: a in list ==> a in c.agents) && Sorted(list, AgentBefore)
    ensures SiblingsSorted(Emit(c, list, depth, emitted))
    decreases AgentIds(c.agents) - emitted, |list|
  {
    hide Instance.DelegatesOf, Instance.RowOf, RowIds, WellNested, Instance.WellFormed, SiblingsSorted, AgentBefore;
    if list == [] {
      NoSiblings();
    } else if list[0].id in emitted {
      EmitSorts(c, list[1..], depth, emitted);
    } else {
      var agent := list[0];
      var delegates := c.DelegatesOf(agent.id);
      DelegatesAreSorted(c, agent.id);
      EmitSorts(c, delegates, depth + 1, emitted + {agent.id});
      EmitNests(c, delegates, depth + 1, emitted + {agent.id});
      BranchSorts(c, agent, depth, emitted);
      BranchNests(c, agent, depth, emitted);
      var branch := Branch(c, agent, depth, emitted);
      EmitSorts(c, list[1..], depth, emitted + RowIds(branch));
      EmitNests(c, list[1..], depth, emitted + RowIds(branch));
      BranchThenRest(branch, Emit(c, list[1..], depth, emitted + RowIds(branch)), list, depth);
    }
  }

  lemma NoSiblings()
    ensures SiblingsSorted([])
  {
  }

  lemma AllAtLeast(rows: seq<Row>, depth: nat)
    requires WellNested(rows, depth)
    ensures forall k :: 0 <= k < |rows| ==> rows[k].depth >= depth
  {
  }

  lemma {:induction false} MainsSorted(agents: seq<Agent>)
    requires Sorted(agents, AgentBefore)
    ensures Sorted(Mains(agents), AgentBefore)
  {
    if agents != [] {
      MainsSorted(agents[1..]);
      forall y | y in Mains(agents[1..]) ensures !AgentBefore(y, agents[0]) {
        var q :| 0 <= q < |agents[1..]| && agents[1..][q] == y;
        assert agents[q + 1] == y;
      }
    }
  }

  lemma {:induction false} StandalonesSorted(agents: seq<Agent>, incoming: Graph)
    requires Sorted(agents, AgentBefore)
    ensures Sorted(Standalones(agents, incoming), AgentBefore)
  {
    if agents != [] {
      StandalonesSorted(agents[1..], incoming);
      forall y | y in Standalones(agents[1..], incoming) ensures !AgentBefore(y, agents[0]) {
        var q :| 0 <= q < |agents[1..]| && agents[1..][q] == y;
        assert agents[q + 1] == y;
      }
    }
  }

  ghost predicate Tops(rows: seq<Row>, role: Role) {
    forall r :: r in rows && r.depth == 0 ==> r.role == role
  }

  /**
   * The list has three parts: the trees of the mains, of the standalone agents, and of what only cycles lead to.
   * Within each part siblings, the tops included, are ordered by name and runtime id.
   */
  lemma ListedInOrder(agents: seq<Agent>, delegations: seq<Delegation>)
      returns (mains: seq<Row>, standalones: seq<Row>, others: seq<Row>)
    requires UniqueIds(agents)
    ensures RowsOf(agents, delegations) == mains + standalones + others
    ensures SiblingsByName(mains) && SiblingsByName(standalones) && SiblingsByName(others)
    ensures Tops(mains, MainAgent) && Tops(standalones, Standalone) && Tops(others, Delegated)
  {
    hide Instance.WellFormed, SiblingsSorted, SiblingsByName, WellNested, RowIds, Instance.DelegatesOf;
    var c := InstanceOf(agents, delegations);
    InstanceIsWellFormed(agents, delegations);
    AgentsAreWeaklyOrdered();
    SortSorts(agents, AgentBefore);
    MainsSorted(c.agents);
    StandalonesSorted(c.agents, c.links.incoming);
    mains, standalones, others := ThreeParts(c);
    SortedIsByName(mains);
    SortedIsByName(standalones);
    SortedIsByName(others);
  }

  /** Siblings stand by name, and where names tie by runtime id. */
  ghost predicate SiblingsByName(rows: seq<Row>) {
    forall i: nat, j: nat :: Siblings(rows, i, j) ==> ByName(rows[i].agent, rows[j].agent)
  }

  lemma SortedIsByName(rows: seq<Row>)
    requires SiblingsSorted(rows)
    ensures SiblingsByName(rows)
  {
  }

  /** The role of a row is told by the raw incoming links. */
  lemma RoleOf(c: Instance, row: Row)
    requires c.WellFormed() && row.agent in c.agents && row == c.RowOf(row.agent, row.depth)
    ensures row.role == if row.agent.kind.Main? then MainAgent
                        else if Successors(c.links.incoming, row.agent.id) == [] then Standalone
                        else Delegated
  {
    hide Instance.DelegatesOf, Instance.Orchestrators, Successors;
    var id := row.agent.id;
    Neighbours(c, id);
    var incoming := Successors(c.links.incoming, id);
    if incoming != [] {
      assert incoming[0] in incoming;
      assert id in Successors(c.links.outgoing, incoming[0]);
      var a :| a in c.agents && a.id == incoming[0];
      assert a in c.Orchestrators(id);
    }
    assert c.Orchestrators(id) != [] ==> c.Orchestrators(id)[0] in c.Orchestrators(id);
    assert forall a :: a in c.Orchestrators(id) ==> a.id in incoming;
  }

  lemma TopRoles(c: Instance, list: seq<Agent>, emitted: set<AgentId>, role: Role)
    requires c.WellFormed() && (forall a :: a in list ==> a in c.agents)
    requires forall a :: a in list && a.id !in emitted ==>
               role == if a.kind.Main? then MainAgent
                       else if Successors(c.links.incoming, a.id) == [] then Standalone
                       else Delegated
    ensures Tops(Emit(c, list, 0, emitted), role)
  {
    hide Instance.WellFormed, WellNested, Instance.DelegatesOf, Instance.RowOf, Emit, Successors;
    var rows := Emit(c, list, 0, emitted);
    EmitNests(c, list, 0, emitted);
    EmitOnce(c, list, 0, emitted);
    forall r | r in rows && r.depth == 0 ensures r.role == role {
      RoleOf(c, r);
      assert r.agent.id in RowIds(rows);
    }
  }

  lemma ThreeParts(c: Instance) returns (mains: seq<Row>, standalones: seq<Row>, others: seq<Row>)
    requires c.WellFormed() && Sorted(c.agents, AgentBefore)
    requires Sorted(Mains(c.agents), AgentBefore) && Sorted(Standalones(c.agents, c.links.incoming), AgentBefore)
    ensures Rows(c) == mains + standalones + others
    ensures SiblingsSorted(mains) && SiblingsSorted(standalones) && SiblingsSorted(others)
    ensures Tops(mains, MainAgent) && Tops(standalones, Standalone) && Tops(others, Delegated)
  {
    hide Instance.WellFormed, SiblingsSorted, WellNested, RowIds, Instance.DelegatesOf, Instance.RowOf, AgentBefore,
         Emit;
    var a, b := Mains(c.agents), Standalones(c.agents, c.links.incoming);
    mains := Emit(c, a, 0, {});
    standalones := Emit(c, b, 0, {} + RowIds(mains));
    others := Emit(c, c.agents, 0, {} + RowIds(Emit(c, a + b, 0, {})));
    EmitAppend(c, a, b, 0, {});
    EmitAppend(c, a + b, c.agents, 0, {});
    EmitSorts(c, a, 0, {});
    EmitSorts(c, b, 0, {} + RowIds(mains));
    EmitSorts(c, c.agents, 0, {} + RowIds(Emit(c, a + b, 0, {})));
    EmitOnce(c, a + b, 0, {});
    TopRoles(c, a, {}, MainAgent);
    TopRoles(c, b, {} + RowIds(mains), Standalone);
    TopRoles(c, c.agents, {} + RowIds(Emit(c, a + b, 0, {})), Delegated);
  }
}
