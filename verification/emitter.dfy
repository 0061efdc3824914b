/** buildInstanceTopology on mutable state. */
module Emitter {
  import opened Cycles
  import opened DelegationGraph
  import opened Forest
  import opened InstanceTopology
  import opened Ordering
  import opened Topology

  /** Files the delegations of an instance one by one. */
  method BuildLinks(byRuntimeId: map<string, Agent>, delegations: seq<Delegation>) returns (links: Links)
    ensures links == Link(byRuntimeId, delegations)
  {
    links := Links(map[], map[], map[]);
    assert delegations[..0] == [];
    for i := 0 to |delegations|
      invariant links == Link(byRuntimeId, delegations[..i])
    {
      assert delegations[..i + 1][..i] == delegations[..i];
      links := AddDelegation(byRuntimeId, links, delegations[i]);
    }
    assert delegations[..|delegations|] == delegations;
  }

  lemma EmitOne(c: Instance, root: Agent, depth: nat, emitted: set<AgentId>)
    requires root in c.agents
    ensures var rows := Emit(c, [root], depth, emitted);
            if root.id in emitted then
              rows == [] && emitted + RowIds(rows) == emitted + {root.id}
            else
              var kids := Emit(c, c.DelegatesOf(root.id), depth + 1, emitted + {root.id});
              rows == [c.RowOf(root, depth)] + kids && emitted + RowIds(rows) == emitted + {root.id} + RowIds(kids)
  {
    hide RowIds, Instance.DelegatesOf, Instance.RowOf;
    NoRowIds();
    assert [root][1..] == [];
    if root.id !in emitted {
      BranchIds(c, root, depth, emitted);
      assert Emit(c, [root], depth, emitted) == Branch(c, root, depth, emitted) + [];
    }
  }

  lemma EmitNone(c: Instance, depth: nat, emitted: set<AgentId>)
    ensures Emit(c, [], depth, emitted) == [] && emitted + RowIds([]) == emitted
  {
    NoRowIds();
  }

  class TreeEmitter {
    const instance: Instance
    var emitted: set<AgentId>
    var result: seq<Row>

    constructor (instance: Instance)
      ensures this.instance == instance && emitted == {} && result == []
    {
      this.instance, emitted, result := instance, {}, [];
    }

    /** Lists an agent unless it is listed already. */
    method EmitRow(agent: Agent, depth: nat) returns (isNew: bool)
      modifies this
      ensures isNew == (agent.id !in old(emitted))
      ensures emitted == old(emitted) + {agent.id}
      ensures result == old(result) + if isNew then [instance.RowOf(agent, depth)] else []
    {
      if agent.id in emitted {
        return false;
      }
      emitted := emitted + {agent.id};
      result := result + [instance.RowOf(agent, depth)];
      return true;
    }

    method EmitBranch(root: Agent, depth: nat)
      requires root in instance.agents
      modifies this
      ensures var rows := Emit(instance, [root], depth, old(emitted));
              result == old(result) + rows && emitted == old(emitted) + RowIds(rows)
      decreases AgentIds(instance.agents) - emitted, 0
    {
      hide Instance.DelegatesOf, Instance.RowOf, RowIds, Emit;
      EmitOne(instance, root, depth, emitted);
      var isNew := EmitRow(root, depth);
      if !isNew {
        return;
      }
      var delegates := instance.DelegatesOf(root.id);
      EmitAll(delegates, depth + 1);
    }

    method EmitAll(roots: seq<Agent>, depth: nat)
      requires forall a :: a in roots ==> a in instance.agents
      modifies this
      ensures var rows := Emit(instance, roots, depth, old(emitted));
              result == old(result) + rows && emitted == old(emitted) + RowIds(rows)
      decreases AgentIds(instance.agents) - emitted, 1
    {
      hide Instance.DelegatesOf, Instance.RowOf, RowIds, Emit;
      assert roots[..0] == [];
      EmitNone(instance, depth, emitted);
      for i := 0 to |roots|
        invariant var rows := Emit(instance, roots[..i], depth, old(emitted));
                  result == old(result) + rows && emitted == old(emitted) + RowIds(rows)
      {
        ghost var rows := Emit(instance, roots[..i], depth, old(emitted));
        ghost var next := Emit(instance, [roots[i]], depth, emitted);
        assert roots[..i + 1] == roots[..i] + [roots[i]];
        EmitAppend(instance, roots[..i], [roots[i]], depth, old(emitted));
        RowIdsAppend(rows, next);
        EmitBranch(roots[i], depth);
      }
      assert roots[..|roots|] == roots;
    }
  }

  lemma IdsCover(agents: seq<Agent>)
    ensures forall v :: v in Ids(agents) <==> v in AgentIds(agents)
  {
    forall a | a in agents ensures a.id in Ids(agents) {
      var i :| 0 <= i < |agents| && agents[i] == a;
      assert Ids(agents)[i] == a.id;
    }
  }

  lemma SameInstance(agents: seq<Agent>, delegations: seq<Delegation>, c: Instance)
    requires c.agents == Sort(agents, AgentBefore)
    requires c.links == Link(ByRuntimeId(c.agents), delegations)
    requires forall v :: v in c.cyclic <==> v in Ids(c.agents) && OnCycle(c.links.outgoing, v)
    ensures c == InstanceOf(agents, delegations)
  {
    hide OnCycle, Sort, Link;
    IdsCover(c.agents);
    var d := InstanceOf(agents, delegations);
    assert forall v :: v in c.cyclic <==> v in d.cyclic;
  }

  /** The three passes one after another. */
  lemma Passes(c: Instance, first: seq<Row>, second: seq<Row>, third: seq<Row>)
    requires first == Emit(c, Mains(c.agents), 0, {})
    requires second == Emit(c, Standalones(c.agents, c.links.incoming), 0, {} + RowIds(first))
    requires third == Emit(c, c.agents, 0, {} + RowIds(first) + RowIds(second))
    ensures Rows(c) == first + second + third
  {
    hide RowIds;
    var standalones := Standalones(c.agents, c.links.incoming);
    EmitAppend(c, Mains(c.agents), standalones, 0, {});
    RowIdsAppend(first, second);
    assert {} + RowIds(first + second) == {} + RowIds(first) + RowIds(second);
    EmitAppend(c, Roots(c), c.agents, 0, {});
  }

  /** The rows of one instance, for any agents with distinct ids and any delegations. */
  method BuildInstanceTopology(agents: seq<Agent>, delegations: seq<Delegation>) returns (rows: seq<Row>)
    requires UniqueIds(agents)
    ensures rows == RowsOf(agents, delegations)
  {
    hide Instance.DelegatesOf, Instance.RowOf, RowIds, Link, Sort, OnCycle, Emit, Rows, InstanceOf;
    var sorted := Sort(agents, AgentBefore);
    var links := BuildLinks(ByRuntimeId(sorted), delegations);
    LinksStayInside(sorted, delegations, links);
    IdsCover(sorted);
    var cyclic := FindCyclicAgents(Ids(sorted), links.outgoing);
    var instance := Instance(sorted, links, cyclic);
    SameInstance(agents, delegations, instance);

    var emitter := new TreeEmitter(instance);
    emitter.EmitAll(Mains(sorted), 0);
    ghost var first := emitter.result;
    emitter.EmitAll(Standalones(sorted, links.incoming), 0);
    ghost var second := emitter.result[|first|..];
    emitter.EmitAll(sorted, 0);
    ghost var third := emitter.result[|first| + |second|..];
    rows := emitter.result;
    Passes(instance, first, second, third);
  }
}
