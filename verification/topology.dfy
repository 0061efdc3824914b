/** The data of the agent topology and the rows that one runtime instance is flattened into. */
module Topology {
  import opened DelegationGraph
  import opened Ordering

  type ConnectionId = int

  datatype AgentKind = Main | Registered | Subagent

  /**
   * nameKey and runtimeKey are the places of the name and of the runtime id in the collation order
   * that localeCompare follows; names that compare as equal share a nameKey.
   */
  datatype Agent = Agent(
    id: AgentId, connection: ConnectionId, runtimeId: string, kind: AgentKind, nameKey: int, runtimeKey: int)

  /** labelKey is the collation place of the display name, or of the reference when there is none. */
  datatype Delegation = Delegation(
    connection: ConnectionId, orchestrator: string, delegate: string, ref: string, labelKey: int)

  datatype Role = MainAgent | Delegated | Standalone

  datatype Row = Row(
    agent: Agent, depth: nat, role: Role, delegatedBy: seq<Agent>, unresolved: seq<Delegation>,
    inCycle: bool, contextOnly: bool)

  predicate AgentBefore(a: Agent, b: Agent) {
    a.nameKey < b.nameKey || (a.nameKey == b.nameKey && a.runtimeKey < b.runtimeKey)
  }

  /** By name, and where names tie by runtime id. */
  predicate ByName(a: Agent, b: Agent) {
    a.nameKey < b.nameKey || (a.nameKey == b.nameKey && a.runtimeKey <= b.runtimeKey)
  }

  predicate DelegationBefore(a: Delegation, b: Delegation) {
    a.labelKey < b.labelKey
  }

  // ----- Looking agents up -----

  ghost predicate DistinctRows(rows: seq<Row>) {
    forall i, j :: 0 <= i < j < |rows| ==> rows[i].agent.id != rows[j].agent.id
  }

  ghost predicate UniqueIds(agents: seq<Agent>) {
    forall i, j :: 0 <= i < j < |agents| ==> agents[i].id != agents[j].id
  }

  function AgentIds(agents: seq<Agent>): set<AgentId> {
    set a | a in agents :: a.id
  }

  function Ids(agents: seq<Agent>): (ids: seq<AgentId>)
    ensures |ids| == |agents| && forall i :: 0 <= i < |ids| ==> ids[i] == agents[i].id
  {
    seq(|agents|, i requires 0 <= i < |agents| => agents[i].id)
  }

  function RowIds(rows: seq<Row>): set<AgentId> {
    set r | r in rows :: r.agent.id
  }

  /** A later agent with the same key replaces an earlier one. */
  function ById(agents: seq<Agent>): (m: map<AgentId, Agent>)
    ensures m.Keys == AgentIds(agents)
    ensures forall id :: id in m ==> m[id] in agents && m[id].id == id
  {
    if agents == [] then map[] else
      var last := agents[|agents| - 1];
      assert agents == agents[..|agents| - 1] + [last];
      ById(agents[..|agents| - 1])[last.id := last]
  }

  function ByRuntimeId(agents: seq<Agent>): (m: map<string, Agent>)
    ensures forall id :: id in m ==> m[id] in agents && m[id].runtimeId == id
    ensures forall a :: a in agents ==> a.runtimeId in m
  {
    if agents == [] then map[] else
      var last := agents[|agents| - 1];
      assert agents == agents[..|agents| - 1] + [last];
      ByRuntimeId(agents[..|agents| - 1])[last.runtimeId := last]
  }

  /** Of agents with one runtime id the last is looked up. */
  lemma {:induction false} LastIsLookedUp(agents: seq<Agent>, i: nat)
    requires i < |agents| && forall j :: i < j < |agents| ==> agents[j].runtimeId != agents[i].runtimeId
    ensures ByRuntimeId(agents)[agents[i].runtimeId] == agents[i]
  {
    if i < |agents| - 1 {
      LastIsLookedUp(agents[..|agents| - 1], i);
    }
  }

  /** The known agents among ids, in order. */
  function Known(byId: map<AgentId, Agent>, ids: seq<AgentId>): seq<Agent> {
    if ids == [] then []
    else (if ids[0] in byId then [byId[ids[0]]] else []) + Known(byId, ids[1..])
  }

  lemma {:induction false} KnownMembers(byId: map<AgentId, Agent>, ids: seq<AgentId>)
    requires forall id :: id in byId ==> byId[id].id == id
    ensures forall a :: a in Known(byId, ids) <==> a.id in ids && a.id in byId && byId[a.id] == a
  {
    if ids != [] {
      KnownMembers(byId, ids[1..]);
      assert ids == [ids[0]] + ids[1..];
      forall a ensures a in Known(byId, ids) <==> (ids[0] in byId && a == byId[ids[0]]) || a in Known(byId, ids[1..]) {
      }
    }
  }

  function NotMain(agents: seq<Agent>): (r: seq<Agent>)
    ensures forall a :: a in r <==> a in agents && !a.kind.Main?
  {
    if agents == [] then []
    else (if agents[0].kind.Main? then [] else [agents[0]]) + NotMain(agents[1..])
  }

  // ----- The graph of one runtime instance -----

  datatype Links = Links(outgoing: Graph, incoming: Graph, unresolved: map<AgentId, seq<Delegation>>)

  function AddEdge(g: Graph, from: AgentId, to: AgentId): Graph {
    var values := Successors(g, from);
    g[from := if to in values then values else values + [to]]
  }

  /** Files one delegation: as an edge, as unresolved, or nowhere when its orchestrator is unknown. */
  function AddDelegation(byRuntimeId: map<string, Agent>, links: Links, d: Delegation): Links {
    if d.orchestrator !in byRuntimeId then links else
      var from := byRuntimeId[d.orchestrator].id;
      if d.delegate == "" || d.delegate !in byRuntimeId then
        var items := if from in links.unresolved then links.unresolved[from] else [];
        links.(unresolved := links.unresolved[from := items + [d]])
      else
        var to := byRuntimeId[d.delegate].id;
        links.(outgoing := AddEdge(links.outgoing, from, to), incoming := AddEdge(links.incoming, to, from))
  }

  function Link(byRuntimeId: map<string, Agent>, delegations: seq<Delegation>): Links {
    if delegations == [] then Links(map[], map[], map[]) else
      AddDelegation(byRuntimeId, Link(byRuntimeId, delegations[..|delegations| - 1]), delegations[|delegations| - 1])
  }

  ghost predicate IsEdge(byRuntimeId: map<string, Agent>, d: Delegation, from: AgentId, to: AgentId) {
    && d.orchestrator in byRuntimeId && byRuntimeId[d.orchestrator].id == from
    && d.delegate != "" && d.delegate in byRuntimeId && byRuntimeId[d.delegate].id == to
  }

  ghost predicate Delegates(byRuntimeId: map<string, Agent>, delegations: seq<Delegation>, from: AgentId, to: AgentId) {
    exists d :: d in delegations && IsEdge(byRuntimeId, d, from, to)
  }

  lemma AddEdgeAdds(g: Graph, from: AgentId, to: AgentId)
    ensures forall v, w {:trigger w in Successors(AddEdge(g, from, to), v)} ::
              w in Successors(AddEdge(g, from, to), v) <==> w in Successors(g, v) || (v == from && w == to)
    ensures (forall v :: NoRepeats(Successors(g, v))) ==> forall v :: NoRepeats(Successors(AddEdge(g, from, to), v))
  {
    var values, h := Successors(g, from), AddEdge(g, from, to);
    assert Successors(h, from) == if to in values then values else values + [to];
    assert forall v :: v != from ==> Successors(h, v) == Successors(g, v);
  }

  lemma LinkSnoc(byRuntimeId: map<string, Agent>, init: seq<Delegation>, last: Delegation)
    ensures var links, l := Link(byRuntimeId, init + [last]), Link(byRuntimeId, init);
            && links == AddDelegation(byRuntimeId, l, last)
            && (forall v, w :: (w in Successors(links.outgoing, v) <==>
                                w in Successors(l.outgoing, v) || IsEdge(byRuntimeId, last, v, w)))
            && (forall v, w :: (v in Successors(links.incoming, w) <==>
                                v in Successors(l.incoming, w) || IsEdge(byRuntimeId, last, v, w)))
            && ((forall v :: NoRepeats(Successors(l.outgoing, v)) && NoRepeats(Successors(l.incoming, v))) ==>
                forall v :: NoRepeats(Successors(links.outgoing, v)) && NoRepeats(Successors(links.incoming, v)))
  {
    var delegations := init + [last];
    assert delegations[..|delegations| - 1] == init;
    var l := Link(byRuntimeId, init);
    if last.orchestrator in byRuntimeId && last.delegate in byRuntimeId {
      var from, to := byRuntimeId[last.orchestrator].id, byRuntimeId[last.delegate].id;
      AddEdgeAdds(l.outgoing, from, to);
      AddEdgeAdds(l.incoming, to, from);
    }
  }

  /** outgoing and incoming hold exactly the resolved delegations, each once. */
  lemma {:induction false} LinkIsExact(byRuntimeId: map<string, Agent>, delegations: seq<Delegation>)
    ensures var links := Link(byRuntimeId, delegations);
            forall v, w {:trigger w in Successors(links.outgoing, v)} {:trigger v in Successors(links.incoming, w)} ::
              && (w in Successors(links.outgoing, v) <==> Delegates(byRuntimeId, delegations, v, w))
              && (v in Successors(links.incoming, w) <==> Delegates(byRuntimeId, delegations, v, w))
    ensures var links := Link(byRuntimeId, delegations);
            forall v :: NoRepeats(Successors(links.outgoing, v)) && NoRepeats(Successors(links.incoming, v))
  {
    if delegations != [] {
      var n := |delegations| - 1;
      var init, last := delegations[..n], delegations[n];
      assert delegations == init + [last];
      LinkIsExact(byRuntimeId, init);
      LinkSnoc(byRuntimeId, init, last);
      forall v, w ensures Delegates(byRuntimeId, delegations, v, w) <==>
                          Delegates(byRuntimeId, init, v, w) || IsEdge(byRuntimeId, last, v, w)
      {
        if Delegates(byRuntimeId, init, v, w) {
          var d :| d in init && IsEdge(byRuntimeId, d, v, w);
          assert d in delegations;
        }
        if IsEdge(byRuntimeId, last, v, w) {
          assert last in delegations;
        }
      }
    }
  }

  /** The delegations that an orchestrator cannot resolve to an agent of its instance, in order of arrival. */
  function Unresolved(byRuntimeId: map<string, Agent>, delegations: seq<Delegation>, from: AgentId): seq<Delegation> {
    if delegations == [] then [] else
      var n := |delegations| - 1;
      var d := delegations[n];
      Unresolved(byRuntimeId, delegations[..n], from) +
      if d.orchestrator in byRuntimeId && byRuntimeId[d.orchestrator].id == from &&
         (d.delegate == "" || d.delegate !in byRuntimeId) then [d] else []
  }

  /** Every delegation of a known orchestrator is either an edge or kept as unresolved. */
  lemma {:induction false} UnresolvedIsExact(byRuntimeId: map<string, Agent>, delegations: seq<Delegation>,
                                             from: AgentId)
    ensures var unresolved := Link(byRuntimeId, delegations).unresolved;
            (if from in unresolved then unresolved[from] else []) == Unresolved(byRuntimeId, delegations, from)
  {
    if delegations != [] {
      UnresolvedIsExact(byRuntimeId, delegations[..|delegations| - 1], from);
    }
  }
}
