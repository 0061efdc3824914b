/** filterAgentTopology: the matching rows together with everything that delegates to them. */
module Search {
  import opened DelegationGraph
  import opened Preorder
  import opened Topology
  import opened Wrappers

  /** A later row with the same agent replaces an earlier one. */
  function RowById(rows: seq<Row>): (m: map<AgentId, Row>)
    ensures m.Keys == RowIds(rows)
    ensures forall id :: id in m ==> m[id] in rows && m[id].agent.id == id
  {
    if rows == [] then map[] else
      var last := rows[|rows| - 1];
      assert rows == rows[..|rows| - 1] + [last];
      RowById(rows[..|rows| - 1])[last.agent.id := last]
  }

  /** From an agent to the agents that delegate to it, as far as it has a row. */
  ghost function Upwards(rows: seq<Row>): Graph {
    var rowById := RowById(rows);
    map id | id in rowById :: Ids(rowById[id].delegatedBy)
  }

  /** The ids of the rows the query matches. */
  function Matched(rows: seq<Row>, matches: Row -> bool): set<AgentId> {
    set r | r in rows && matches(r) :: r.agent.id
  }

  /** s holds the matches and, with every agent, those that delegate to it. */
  ghost predicate HoldsMatchesAndOrchestrators(rows: seq<Row>, matched: set<AgentId>, s: set<AgentId>) {
    matched <= s && Closed(Upwards(rows), s)
  }

  /** The least such set. */
  ghost predicate IsContext(rows: seq<Row>, matched: set<AgentId>, included: set<AgentId>) {
    && HoldsMatchesAndOrchestrators(rows, matched, included)
    && (forall s :: HoldsMatchesAndOrchestrators(rows, matched, s) ==> included <= s)
  }

  /** The rows whose agent is in s, in their order. */
  function Keep(rows: seq<Row>, s: set<AgentId>): seq<Row> {
    if rows == [] then [] else
      var last := rows[|rows| - 1];
      var kept := Keep(rows[..|rows| - 1], s);
      if last.agent.id in s then kept + [last] else kept
  }

  function MarkContext(rows: seq<Row>, matched: set<AgentId>): (r: seq<Row>)
    ensures |r| == |rows|
    ensures forall i :: 0 <= i < |rows| ==> r[i] == rows[i].(contextOnly := rows[i].agent.id !in matched)
  {
    seq(|rows|, i requires 0 <= i < |rows| => rows[i].(contextOnly := rows[i].agent.id !in matched))
  }

  /** The worklist: everything included is either still pending or has its orchestrators included. */
  ghost predicate Pending(up: Graph, included: set<AgentId>, pending: seq<AgentId>) {
    && (forall id :: id in pending ==> id in included)
    && (forall v, w {:trigger w in Successors(up, v)} ::
          v in included && w in Successors(up, v) ==> v in pending || w in included)
  }

  /** The worklist while the orchestrators of the popped id are being added; `done` of them are. */
  ghost predicate Climbing(up: Graph, included: set<AgentId>, pending: seq<AgentId>, id: AgentId, done: seq<AgentId>) {
    && id in included
    && (forall x :: x in pending ==> x in included)
    && (forall v, w {:trigger w in Successors(up, v)} ::
          v in included && w in Successors(up, v) ==> v in pending || w in included || (v == id && w !in done))
  }

  lemma ClimbOne(up: Graph, included: set<AgentId>, pending: seq<AgentId>, id: AgentId, done: seq<AgentId>, w: AgentId)
    requires Climbing(up, included, pending, id, done)
    ensures Climbing(up, included + {w}, if w in included then pending else pending + [w], id, done + [w])
  {
  }

  /** No closed superset of the matches leaves anything included out. */
  ghost predicate OnlyNeeded(up: Graph, matched: set<AgentId>, included: set<AgentId>) {
    forall s :: Closed(up, s) && matched <= s ==> included <= s
  }

  lemma AddNeeded(up: Graph, matched: set<AgentId>, included: set<AgentId>, id: AgentId, w: AgentId)
    requires OnlyNeeded(up, matched, included) && id in included && w in Successors(up, id)
    ensures OnlyNeeded(up, matched, included + {w})
  {
  }

  /** Every id that any row can bring in. */
  ghost function Universe(rows: seq<Row>): set<AgentId> {
    RowIds(rows) + set r, a | r in rows && a in r.delegatedBy :: a.id
  }

  lemma OrchestratorsInUniverse(rows: seq<Row>, id: AgentId)
    requires id in RowById(rows)
    ensures forall a :: a in RowById(rows)[id].delegatedBy ==> a.id in Universe(rows)
    ensures Successors(Upwards(rows), id) == Ids(RowById(rows)[id].delegatedBy)
  {
  }

  /** Adds the orchestrators of one popped agent. */
  method Climb(rows: seq<Row>, rowById: map<AgentId, Row>, id: AgentId, ghost matched: set<AgentId>,
               included0: set<AgentId>, pending0: seq<AgentId>) returns (included: set<AgentId>, pending: seq<AgentId>)
    requires rowById == RowById(rows) && id in rowById && id in included0
    requires Climbing(Upwards(rows), included0, pending0, id, [])
    requires OnlyNeeded(Upwards(rows), matched, included0) && included0 <= Universe(rows)
    ensures Pending(Upwards(rows), included, pending) && included0 <= included <= Universe(rows)
    ensures included == included0 ==> pending == pending0
    ensures OnlyNeeded(Upwards(rows), matched, included)
  {
    hide Upwards, Universe, OnlyNeeded, Climbing;
    included, pending := included0, pending0;
    var orchestrators := rowById[id].delegatedBy;
    ghost var up, ids := Upwards(rows), Ids(orchestrators);
    OrchestratorsInUniverse(rows, id);
    assert ids[..0] == [];
    for i := 0 to |orchestrators|
      invariant included0 <= included <= Universe(rows)
      invariant included == included0 ==> pending == pending0
      invariant id in included
      invariant Climbing(up, included, pending, id, ids[..i])
      invariant OnlyNeeded(up, matched, included)
    {
      var orchestrator := orchestrators[i];
      assert orchestrator in orchestrators && orchestrator.id == ids[i] && ids[i] in Successors(up, id);
      assert ids[..i + 1] == ids[..i] + [ids[i]];
      ClimbOne(up, included, pending, id, ids[..i], orchestrator.id);
      AddNeeded(up, matched, included, id, orchestrator.id);
      if orchestrator.id !in included {
        pending := pending + [orchestrator.id];
        included := included + {orchestrator.id};
      } else {
        assert included + {orchestrator.id} == included;
      }
    }
    assert ids[..|orchestrators|] == ids;
    ClimbedAll(up, included, pending, id);
  }

  lemma ClimbedAll(up: Graph, included: set<AgentId>, pending: seq<AgentId>, id: AgentId)
    requires Climbing(up, included, pending, id, Successors(up, id))
    ensures Pending(up, included, pending)
  {
  }

  lemma PopPending(up: Graph, included: set<AgentId>, rest: seq<AgentId>, id: AgentId)
    requires Pending(up, included, rest + [id])
    ensures id in included && Climbing(up, included, rest, id, [])
    ensures Successors(up, id) == [] ==> Pending(up, included, rest)
  {
    assert id in rest + [id];
    assert forall x :: x in rest ==> x in rest + [id];
  }

  /** The ids of the matching rows, in the order in which a set of them would list its members. */
  method MatchRows(rows: seq<Row>, matches: Row -> bool) returns (matched: set<AgentId>, order: seq<AgentId>)
    ensures matched == Matched(rows, matches)
    ensures forall id :: id in matched <==> id in order
  {
    matched, order := {}, [];
    assert rows[..0] == [];
    for i := 0 to |rows|
      invariant matched == Matched(rows[..i], matches)
      invariant forall id :: id in matched <==> id in order
    {
      assert rows[..i + 1] == rows[..i] + [rows[i]];
      if matches(rows[i]) {
        if rows[i].agent.id !in matched {
          order := order + [rows[i].agent.id];
        }
        matched := matched + {rows[i].agent.id};
      }
    }
    assert rows[..|rows|] == rows;
  }

  lemma ContextFound(rows: seq<Row>, matched: set<AgentId>, included: set<AgentId>)
    requires matched <= included && Pending(Upwards(rows), included, [])
    requires OnlyNeeded(Upwards(rows), matched, included)
    ensures IsContext(rows, matched, included)
  {
  }

  ghost predicate IsSearchResult(rows: seq<Row>, matched: set<AgentId>, result: seq<Row>) {
    exists included :: (IsContext(rows, matched, included) && result == MarkContext(Keep(rows, included), matched))
  }

  /** The rows of the matches and of everything upwards of them; all rows when there is nothing to search for. */
  method FilterAgentTopology(rows: seq<Row>, blankQuery: bool, matches: Row -> bool) returns (result: seq<Row>)
    ensures blankQuery ==> result == rows
    ensures !blankQuery ==> IsSearchResult(rows, Matched(rows, matches), result)
  {
    hide Upwards, OnlyNeeded, Climbing, Pending, Universe, IsContext, Matched;
    if blankQuery {
      return rows;
    }
    var rowById := RowById(rows);
    var matched, pending := MatchRows(rows, matches);
    var included := matched;
    StartSearch(rows, matches, matched, pending);
    while pending != []
      invariant Pending(Upwards(rows), included, pending) && matched <= included <= Universe(rows)
      invariant OnlyNeeded(Upwards(rows), matched, included)
      decreases Universe(rows) - included, |pending|
    {
      var agentId := pending[|pending| - 1];
      assert pending == pending[..|pending| - 1] + [agentId];
      PopPending(Upwards(rows), included, pending[..|pending| - 1], agentId);
      pending := pending[..|pending| - 1];
      if agentId in rowById {
        included, pending := Climb(rows, rowById, agentId, matched, included, pending);
      } else {
        NoRowNoOrchestrators(rows, agentId);
      }
    }
    result := MarkContext(Keep(rows, included), matched);
    ContextFound(rows, matched, included);
  }

  lemma StartSearch(rows: seq<Row>, matches: Row -> bool, matched: set<AgentId>, pending: seq<AgentId>)
    requires matched == Matched(rows, matches) && forall id :: id in matched <==> id in pending
    ensures Pending(Upwards(rows), matched, pending) && matched <= Universe(rows)
    ensures OnlyNeeded(Upwards(rows), matched, matched)
  {
  }

  lemma NoRowNoOrchestrators(rows: seq<Row>, id: AgentId)
    requires id !in RowById(rows)
    ensures Successors(Upwards(rows), id) == []
  {
  }

  // ----- What the search result means -----

  /** The context is what can be reached upwards from a match. */
  lemma ContextIsUpwardReach(rows: seq<Row>, matched: set<AgentId>, included: set<AgentId>, v: AgentId)
    requires IsContext(rows, matched, included)
    ensures v in included <==> exists m :: m in matched && Reaches(Upwards(rows), m, v)
  {
    var up := Upwards(rows);
    var reached := set x | x in included && exists m :: m in matched && Reaches(up, m, x);
    forall m | m in matched ensures m in reached {
      ReachesSelf(up, m);
    }
    forall x, y | x in reached && y in Successors(up, x) ensures y in reached {
      var m :| m in matched && Reaches(up, m, x);
      ReachesEdge(up, x, y);
      ReachesTransitive(up, m, x, y);
    }
    assert HoldsMatchesAndOrchestrators(rows, matched, reached);
    if m :| m in matched && Reaches(up, m, v) {
      var p :| Walk(up, m, p, v);
      WalkStaysInClosed(up, included, m, p, v);
    }
  }

  lemma {:induction false} KeepIsExact(rows: seq<Row>, s: set<AgentId>)
    ensures forall r :: r in Keep(rows, s) <==> r in rows && r.agent.id in s
  {
    if rows != [] {
      KeepIsExact(rows[..|rows| - 1], s);
      assert rows == rows[..|rows| - 1] + [rows[|rows| - 1]];
    }
  }

  /** From a row to one of its orchestrators, to one of that one's, and so on. */
  ghost predicate Chain(rows: seq<Row>, chain: seq<nat>) {
    && chain != []
    && (forall k :: 0 <= k < |chain| ==> chain[k] < |rows|)
    && (forall k :: 0 < k < |chain| ==> rows[chain[k]].agent.id in Ids(rows[chain[k - 1]].delegatedBy))
  }

  ghost predicate FoundFor(rows: seq<Row>, matches: Row -> bool, i: nat) {
    exists chain :: Chain(rows, chain) && matches(rows[chain[0]]) && chain[|chain| - 1] == i
  }

  /** Rows are found exactly if a chain leads to them from a match, and marked exactly if they do not match. */
  lemma FoundRows(rows: seq<Row>, matches: Row -> bool, found: seq<Row>)
    requires DistinctRows(rows) && IsSearchResult(rows, Matched(rows, matches), found)
    ensures forall i :: 0 <= i < |rows| ==>
              (rows[i].(contextOnly := !matches(rows[i])) in found <==> FoundFor(rows, matches, i))
    ensures forall r :: r in found ==> exists i :: 0 <= i < |rows| && r == rows[i].(contextOnly := !matches(rows[i]))
  {
    hide IsContext, FoundFor;
    var matched := Matched(rows, matches);
    var included :| IsContext(rows, matched, included) && found == MarkContext(Keep(rows, included), matched);
    var kept := Keep(rows, included);
    KeepIsExact(rows, included);
    forall i | 0 <= i < |rows| ensures rows[i].agent.id in matched <==> matches(rows[i]) {
      MatchedByRow(rows, matches, i);
    }
    forall r | r in found ensures exists i :: 0 <= i < |rows| && r == rows[i].(contextOnly := !matches(rows[i])) {
      var k :| 0 <= k < |found| && found[k] == r;
      assert kept[k] in kept;
      var i :| 0 <= i < |rows| && rows[i] == kept[k];
      assert r == rows[i].(contextOnly := !matches(rows[i]));
    }
    forall i | 0 <= i < |rows|
      ensures rows[i].(contextOnly := !matches(rows[i])) in found <==> FoundFor(rows, matches, i)
    {
      KeptRow(rows, included, matched, i);
      ReachedByChain(rows, matches, included, i);
    }
  }

  lemma MatchedByRow(rows: seq<Row>, matches: Row -> bool, i: nat)
    requires DistinctRows(rows) && i < |rows|
    ensures rows[i].agent.id in Matched(rows, matches) <==> matches(rows[i])
  {
  }

  lemma KeptRow(rows: seq<Row>, included: set<AgentId>, matched: set<AgentId>, i: nat)
    requires DistinctRows(rows) && i < |rows|
    ensures rows[i].(contextOnly := rows[i].agent.id !in matched) in MarkContext(Keep(rows, included), matched) <==>
            rows[i].agent.id in included
  {
    var kept, row := Keep(rows, included), rows[i].(contextOnly := rows[i].agent.id !in matched);
    KeepIsExact(rows, included);
    if row in MarkContext(kept, matched) {
      var k :| 0 <= k < |kept| && MarkContext(kept, matched)[k] == row;
      assert kept[k] in kept && kept[k].agent == rows[i].agent;
    }
    if rows[i].agent.id in included {
      var k :| 0 <= k < |kept| && kept[k] == rows[i];
      assert MarkContext(kept, matched)[k] == row;
    }
  }

  lemma ReachedByChain(rows: seq<Row>, matches: Row -> bool, included: set<AgentId>, i: nat)
    requires DistinctRows(rows) && IsContext(rows, Matched(rows, matches), included) && i < |rows|
    ensures rows[i].agent.id in included <==> FoundFor(rows, matches, i)
  {
    hide IsContext, Upwards;
    var up, matched, id := Upwards(rows), Matched(rows, matches), rows[i].agent.id;
    ContextIsUpwardReach(rows, matched, included, id);
    if m :| m in matched && Reaches(up, m, id) {
      var j :| 0 <= j < |rows| && rows[j].agent.id == m && matches(rows[j]);
      var p :| Walk(up, m, p, id);
      var chain := ChainOfWalk(rows, j, p, i);
    }
    if chain :| Chain(rows, chain) && matches(rows[chain[0]]) && chain[|chain| - 1] == i {
      ChainReaches(rows, chain);
      assert rows[chain[0]].agent.id in matched;
    }
  }

  lemma {:induction false} ChainOfWalk(rows: seq<Row>, j: nat, p: seq<AgentId>, i: nat) returns (chain: seq<nat>)
    requires DistinctRows(rows) && i < |rows| && j < |rows|
    requires Walk(Upwards(rows), rows[j].agent.id, p, rows[i].agent.id)
    ensures Chain(rows, chain) && chain[0] == j && chain[|chain| - 1] == i
    decreases |p|
  {
    hide Walk, Upwards, DistinctRows, Ids;
    if p == [] {
      NowhereToGo(rows, j, i);
      return [j];
    }
    var k := FirstStop(rows, j, p, i);
    var rest := ChainOfWalk(rows, k, p[1..], i);
    chain := Prepended(rows, j, rest);
  }

  lemma NowhereToGo(rows: seq<Row>, j: nat, i: nat)
    requires DistinctRows(rows) && i < |rows| && j < |rows|
    requires Walk(Upwards(rows), rows[j].agent.id, [], rows[i].agent.id)
    ensures i == j
  {
    hide Upwards;
  }

  lemma FirstStop(rows: seq<Row>, j: nat, p: seq<AgentId>, i: nat) returns (k: nat)
    requires DistinctRows(rows) && i < |rows| && j < |rows| && p != []
    requires Walk(Upwards(rows), rows[j].agent.id, p, rows[i].agent.id)
    ensures k < |rows| && rows[k].agent.id == p[0] && p[0] in Ids(rows[j].delegatedBy)
    ensures Walk(Upwards(rows), rows[k].agent.id, p[1..], rows[i].agent.id)
  {
    RowByIdFinds(rows, j);
    if |p| == 1 {
      return i;
    }
    assert p[1..][0] in Successors(Upwards(rows), p[0]);
    k :| 0 <= k < |rows| && rows[k].agent.id == p[0];
  }

  lemma Prepended(rows: seq<Row>, j: nat, rest: seq<nat>) returns (chain: seq<nat>)
    requires j < |rows| && Chain(rows, rest) && rows[rest[0]].agent.id in Ids(rows[j].delegatedBy)
    ensures Chain(rows, chain) && chain == [j] + rest
  {
    chain := [j] + rest;
    assert forall k :: 0 < k < |chain| ==> chain[k] == rest[k - 1];
  }

  lemma {:induction false} ChainReaches(rows: seq<Row>, chain: seq<nat>)
    requires DistinctRows(rows) && Chain(rows, chain)
    ensures Reaches(Upwards(rows), rows[chain[0]].agent.id, rows[chain[|chain| - 1]].agent.id)
  {
    var up, n := Upwards(rows), |chain| - 1;
    ReachesSelf(up, rows[chain[0]].agent.id);
    if n > 0 {
      ChainReaches(rows, chain[..n]);
      RowByIdFinds(rows, chain[n - 1]);
      var x, y := rows[chain[n - 1]].agent.id, rows[chain[n]].agent.id;
      ReachesEdge(up, x, y);
      ReachesTransitive(up, rows[chain[0]].agent.id, x, y);
    }
  }

  /** The kept rows stand where they stood: `at` lists the places of all rows whose agent is in s, in order. */
  lemma {:induction false} KeepIsInOrder(rows: seq<Row>, s: set<AgentId>) returns (at: seq<nat>)
    ensures |at| == |Keep(rows, s)|
    ensures forall k :: 0 <= k < |at| ==> at[k] < |rows| && Keep(rows, s)[k] == rows[at[k]]
    ensures forall k, l :: 0 <= k < l < |at| ==> at[k] < at[l]
    ensures forall i :: 0 <= i < |rows| && rows[i].agent.id in s ==> i in at
  {
    at := [];
    if rows != [] {
      var n := |rows| - 1;
      at := KeepIsInOrder(rows[..n], s);
      if rows[n].agent.id in s {
        at := at + [n];
      }
    }
  }

  /** Dropping rows never changes a parent that is kept. */
  lemma {:induction false} KeepKeepsParent(rows: seq<Row>, s: set<AgentId>, depth: nat)
    requires ParentRow(rows, depth).Some? && ParentRow(rows, depth).value.agent.id in s
    ensures ParentRow(Keep(rows, s), depth) == ParentRow(rows, depth)
  {
    var init, last := rows[..|rows| - 1], rows[|rows| - 1];
    if last.depth >= depth {
      KeepKeepsParent(init, s, depth);
    }
    if last.agent.id in s {
      assert Keep(rows, s)[..|Keep(rows, s)| - 1] == Keep(init, s);
    } else {
      assert Keep(rows, s) == Keep(init, s);
    }
  }

  /** The parent of a surviving row survives and is still its nearest shallower predecessor. */
  lemma ParentSurvives(rows: seq<Row>, matched: set<AgentId>, included: set<AgentId>, i: nat)
    requires PreorderForest(rows) && DistinctRows(rows) && IsContext(rows, matched, included)
    requires i < |rows| && rows[i].agent.id in included && rows[i].depth > 0
    ensures var parent := ParentRow(rows[..i], rows[i].depth);
            && parent.Some? && parent.value.agent.id in included
            && ParentRow(Keep(rows[..i], included), rows[i].depth) == parent
  {
    var parent := ParentRow(rows[..i], rows[i].depth).value;
    assert HasParent(rows[..i], rows[i]);
    var id := rows[i].agent.id;
    RowByIdFinds(rows, i);
    var j :| 0 <= j < |rows[i].delegatedBy| && rows[i].delegatedBy[j] == parent.agent;
    assert Ids(rows[i].delegatedBy)[j] in Successors(Upwards(rows), id);
    KeepKeepsParent(rows[..i], included, rows[i].depth);
  }

  lemma {:induction false} RowByIdFinds(rows: seq<Row>, i: nat)
    requires DistinctRows(rows) && i < |rows|
    ensures rows[i].agent.id in RowById(rows) && RowById(rows)[rows[i].agent.id] == rows[i]
  {
    if i < |rows| - 1 {
      RowByIdFinds(rows[..|rows| - 1], i);
    }
  }

  /** The search result is again a preorder forest along the delegations. */
  lemma SearchKeepsForest(rows: seq<Row>, matched: set<AgentId>, included: set<AgentId>)
    requires PreorderForest(rows) && DistinctRows(rows) && IsContext(rows, matched, included)
    ensures PreorderForest(MarkContext(Keep(rows, included), matched))
  {
    assert rows[..|rows|] == rows;
    PrefixKeepsForest(rows, matched, included, |rows|);
    MarksKeepForest(Keep(rows, included), matched);
  }

  lemma {:induction false} PrefixKeepsForest(rows: seq<Row>, matched: set<AgentId>, included: set<AgentId>, n: nat)
    requires PreorderForest(rows) && DistinctRows(rows) && IsContext(rows, matched, included) && n <= |rows|
    ensures PreorderForest(Keep(rows[..n], included))
  {
    hide IsContext;
    if n > 0 {
      PrefixKeepsForest(rows, matched, included, n - 1);
      assert rows[..n][..n - 1] == rows[..n - 1];
      var row := rows[n - 1];
      if row.agent.id in included {
        if row.depth > 0 {
          assert HasParent(rows[..n - 1], row);
          ParentSurvives(rows, matched, included, n - 1);
        }
        NestOneMore(Keep(rows[..n - 1], included), row, 0);
      }
    }
  }

  lemma {:induction false} MarksKeepParent(rows: seq<Row>, matched: set<AgentId>, depth: nat)
    ensures var marked := ParentRow(MarkContext(rows, matched), depth);
            match ParentRow(rows, depth)
            case None => marked == None
            case Some(p) => marked.Some? && marked.value.depth == p.depth && marked.value.agent == p.agent
  {
    if rows != [] {
      var n := |rows| - 1;
      assert MarkContext(rows, matched)[..n] == MarkContext(rows[..n], matched);
      MarksKeepParent(rows[..n], matched, depth);
    }
  }

  lemma MarksKeepForest(rows: seq<Row>, matched: set<AgentId>)
    requires PreorderForest(rows)
    ensures PreorderForest(MarkContext(rows, matched))
  {
    var marked := MarkContext(rows, matched);
    forall i | 0 <= i < |marked| && marked[i].depth > 0 ensures HasParent(marked[..i], marked[i]) {
      assert HasParent(rows[..i], rows[i]);
      assert marked[..i] == MarkContext(rows[..i], matched);
      MarksKeepParent(rows[..i], matched, rows[i].depth);
    }
  }
}
