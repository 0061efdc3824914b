/** Finite directed graphs over agent ids, and reachability along their edges. */
module DelegationGraph {
  // Agent ids are uuids; the program only ever compares them for equality.
  type AgentId = int

  // An insertion-ordered set of delegates for every agent that has any.
  type Graph = map<AgentId, seq<AgentId>>

  function Successors(g: Graph, v: AgentId): seq<AgentId> {
    if v in g then g[v] else []
  }

  /** Following the edges from a through every node of p, in order, ends in b. */
  ghost predicate Walk(g: Graph, a: AgentId, p: seq<AgentId>, b: AgentId)
    decreases |p|
  {
    if p == [] then a == b
    else p[0] in Successors(g, a) && Walk(g, p[0], p[1..], b)
  }

  ghost predicate Reaches(g: Graph, a: AgentId, b: AgentId) {
    exists p :: Walk(g, a, p, b)
  }

  /** v lies on a directed cycle with at least one edge; a self-loop is one. */
  ghost predicate OnCycle(g: Graph, v: AgentId) {
    exists p :: p != [] && Walk(g, v, p, v)
  }

  ghost predicate Closed(g: Graph, s: set<AgentId>) {
    forall v, w {:trigger w in Successors(g, v)} :: v in s && w in Successors(g, v) ==> w in s
  }

  lemma ReachesSelf(g: Graph, a: AgentId)
    ensures Reaches(g, a, a)
  {
    assert Walk(g, a, [], a);
  }

  lemma ReachesEdge(g: Graph, a: AgentId, b: AgentId)
    requires b in Successors(g, a)
    ensures Reaches(g, a, b)
  {
    assert Walk(g, b, [], b);
    assert Walk(g, a, [b], b);
  }

  lemma {:induction false} WalkConcat(g: Graph, a: AgentId, p: seq<AgentId>, b: AgentId, q: seq<AgentId>, c: AgentId)
    requires Walk(g, a, p, b) && Walk(g, b, q, c)
    ensures Walk(g, a, p + q, c)
    decreases |p|
  {
    if p == [] {
      assert p + q == q;
    } else {
      WalkConcat(g, p[0], p[1..], b, q, c);
      assert (p + q)[1..] == p[1..] + q;
    }
  }

  lemma ReachesTransitive(g: Graph, a: AgentId, b: AgentId, c: AgentId)
    requires Reaches(g, a, b) && Reaches(g, b, c)
    ensures Reaches(g, a, c)
  {
    var p :| Walk(g, a, p, b);
    var q :| Walk(g, b, q, c);
    WalkConcat(g, a, p, b, q, c);
  }

  /** A set closed under the edges cannot be left. */
  lemma {:induction false} WalkStaysInClosed(g: Graph, s: set<AgentId>, a: AgentId, p: seq<AgentId>, b: AgentId)
    requires Closed(g, s) && a in s && Walk(g, a, p, b)
    ensures b in s
    decreases |p|
  {
    if p != [] {
      WalkStaysInClosed(g, s, p[0], p[1..], b);
    }
  }

  /** Two different nodes that reach each other are both on a cycle. */
  lemma MutualReachIsCycle(g: Graph, a: AgentId, b: AgentId)
    requires a != b && Reaches(g, a, b) && Reaches(g, b, a)
    ensures OnCycle(g, a)
  {
    var p :| Walk(g, a, p, b);
    var q :| Walk(g, b, q, a);
    WalkConcat(g, a, p, b, q, a);
    assert p + q != [];
  }

  /** If only v itself leaves and re-enters the closed set s, then v's cycles are self-loops. */
  lemma LoneCycleIsSelfLoop(g: Graph, s: set<AgentId>, v: AgentId)
    requires Closed(g, s) && v !in s
    requires forall w :: w in Successors(g, v) ==> w == v || w in s
    ensures OnCycle(g, v) <==> v in Successors(g, v)
  {
    if v in Successors(g, v) {
      assert Walk(g, v, [], v);
      assert Walk(g, v, [v], v);
    }
    if OnCycle(g, v) {
      var p :| p != [] && Walk(g, v, p, v);
      if p[0] in s {
        WalkStaysInClosed(g, s, p[0], p[1..], v);
      }
    }
  }

  lemma EdgeBackIsCycle(g: Graph, p: AgentId, x: AgentId)
    requires x in Successors(g, p) && Reaches(g, x, p)
    ensures OnCycle(g, p)
  {
    var w :| Walk(g, x, w, p);
    assert ([x] + w)[1..] == w;
    assert Walk(g, p, [x] + w, p);
  }

  /** Walking backwards inside a finite set that never runs out of predecessors meets a cycle. */
  lemma {:induction false} BackwardsMeetsCycle(g: Graph, within: set<AgentId>, visited: set<AgentId>, x: AgentId,
                                               v: AgentId)
      returns (onCycle: AgentId)
    requires forall u {:trigger HasPredecessor(g, within, u)} :: u in within ==> HasPredecessor(g, within, u)
    requires visited <= within && x in within - visited
    requires Reaches(g, x, v) && forall s :: s in visited ==> Reaches(g, x, s)
    ensures onCycle in within && OnCycle(g, onCycle) && Reaches(g, onCycle, v)
    decreases within - visited
  {
    hide Reaches, OnCycle;
    assert HasPredecessor(g, within, x);
    var p :| p in within && x in Successors(g, p);
    ReachesEdge(g, p, x);
    ReachesTransitive(g, p, x, v);
    ReachesSelf(g, x);
    if p in visited || p == x {
      EdgeBackIsCycle(g, p, x);
      onCycle := p;
    } else {
      forall s | s in visited + {x} ensures Reaches(g, p, s) {
        ReachesTransitive(g, p, x, s);
      }
      onCycle := BackwardsMeetsCycle(g, within, visited + {x}, p, v);
    }
  }

  ghost predicate HasPredecessor(g: Graph, within: set<AgentId>, u: AgentId) {
    exists p :: p in within && u in Successors(g, p)
  }

  /** Whatever reaches b from a by edges of g does so by edges of a larger graph. */
  lemma {:induction false} WalkInLarger(g: Graph, h: Graph, a: AgentId, p: seq<AgentId>, b: AgentId)
    requires Walk(g, a, p, b)
    requires forall v, w {:trigger w in Successors(g, v)} :: w in Successors(g, v) ==> w in Successors(h, v)
    ensures Walk(h, a, p, b)
    decreases |p|
  {
    if p != [] {
      WalkInLarger(g, h, p[0], p[1..], b);
    }
  }

  ghost predicate SameEdges(g: Graph, h: Graph) {
    forall v, w {:trigger w in Successors(g, v)} {:trigger w in Successors(h, v)} ::
      w in Successors(g, v) <==> w in Successors(h, v)
  }

  lemma SameEdgesSameCycles(g: Graph, h: Graph, v: AgentId)
    requires SameEdges(g, h)
    ensures OnCycle(g, v) <==> OnCycle(h, v)
  {
    if OnCycle(g, v) {
      var p :| p != [] && Walk(g, v, p, v);
      WalkInLarger(g, h, v, p, v);
    }
    if OnCycle(h, v) {
      var p :| p != [] && Walk(h, v, p, v);
      WalkInLarger(h, g, v, p, v);
    }
  }
}
