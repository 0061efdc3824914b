/** Tarjan's strongly connected components, as findCyclicAgents runs it on mutable state. */
module Cycles {
  import opened DelegationGraph

  /**
   * The search state between two steps, without the order of the stack and the low-links.
   * `active` holds the ids whose connect call is still running.
   */
  datatype Search = Search(
    index: nat, indices: map<AgentId, nat>, onStack: set<AgentId>, cyclic: set<AgentId>, active: set<AgentId>)
  {
    function Finished(): set<AgentId> { indices.Keys - onStack }
  }

  ghost predicate Numbered(s: Search) {
    && s.active <= s.onStack <= s.indices.Keys
    && (forall v :: v in s.indices ==> s.indices[v] < s.index)
  }

  /** Running calls reach everything numbered after them. */
  ghost predicate ActiveReachesLater(g: Graph, s: Search)
    requires Numbered(s)
  {
    forall x, y {:trigger Reaches(g, x, y)} :: x in s.active && y in s.onStack && s.indices[x] <= s.indices[y] ==>
        Reaches(g, x, y)
  }

  ghost predicate ReachesActive(g: Graph, s: Search, y: AgentId)
    requires Numbered(s) && y in s.onStack
  {
    exists x :: x in s.active && s.indices[x] <= s.indices[y] && Reaches(g, y, x)
  }

  /** Everything on the stack reaches a running call numbered no later. */
  ghost predicate StackReachesActive(g: Graph, s: Search)
    requires Numbered(s)
  {
    forall y {:trigger ReachesActive(g, s, y)} :: y in s.onStack ==> ReachesActive(g, s, y)
  }

  ghost predicate Exact(g: Graph, s: Search) {
    && s.cyclic <= s.Finished()
    && (forall v :: v in s.Finished() ==> (v in s.cyclic <==> OnCycle(g, v)))
  }

  ghost predicate Expanded(g: Graph, s: Search) {
    forall v, w {:trigger w in Successors(g, v)} :: v in s.indices && v !in s.active && w in Successors(g, v) ==>
        w in s.indices
  }

  ghost predicate Invariant(g: Graph, s: Search) {
    && Numbered(s)
    && ActiveReachesLater(g, s)
    && StackReachesActive(g, s)
    && Closed(g, s.Finished())
    && Expanded(g, s)
    && Exact(g, s)
  }

  /** Entering connect(v). */
  function Enter(s: Search, v: AgentId): Search {
    Search(s.index + 1, s.indices[v := s.index], s.onStack + {v}, s.cyclic, s.active + {v})
  }

  lemma EnterKeepsInvariant(g: Graph, s: Search, v: AgentId)
    requires Invariant(g, s) && v !in s.indices
    requires forall x :: x in s.active ==> Reaches(g, x, v)
    ensures Invariant(g, Enter(s, v))
  {
    hide Reaches, OnCycle;
    var t := Enter(s, v);
    assert t.Finished() == s.Finished();
    ReachesSelf(g, v);
    assert StackReachesActive(g, t) by {
      forall y | y in t.onStack ensures ReachesActive(g, t, y) {
        if y == v {
          assert v in t.active && t.indices[v] <= t.indices[y] && Reaches(g, y, v);
        } else {
          assert ReachesActive(g, s, y);
          var x :| x in s.active && s.indices[x] <= s.indices[y] && Reaches(g, y, x);
          assert x in t.active && t.indices[x] <= t.indices[y];
        }
      }
    }
  }

  /** s is a state that connect calls can make out of before. */
  ghost predicate Extends(before: Search, s: Search) {
    && before.index <= s.index
    && before.indices.Keys <= s.indices.Keys
    && (forall k :: k in before.indices ==> s.indices[k] == before.indices[k])
    && (forall k :: k in s.indices && k !in before.indices ==> before.index <= s.indices[k])
    && before.onStack <= s.onStack
    && before.onStack == s.onStack * before.indices.Keys
  }

  /** Edges from newly stacked ids back into the stack of `before` have an index of at least low. */
  ghost predicate LowCovers(g: Graph, before: Search, s: Search, low: nat)
    requires Numbered(before)
  {
    forall y, w {:trigger w in Successors(g, y)} ::
      y in s.onStack && y !in before.indices && w in Successors(g, y) && w in before.onStack ==>
      low <= before.indices[w]
  }

  ghost predicate LowAttained(g: Graph, s: Search, v: AgentId, low: nat) {
    exists w :: w in s.onStack && w in s.indices && s.indices[w] == low && Reaches(g, v, w)
  }

  /** When v's call ends with v still stacked, y still reaches a running call: the one below v's low-link. */
  lemma StillReachesActive(g: Graph, before: Search, s: Search, v: AgentId, w: AgentId, y: AgentId)
    requires Numbered(s) && StackReachesActive(g, s) && v in s.indices && s.active == before.active + {v}
    requires w in s.onStack && s.indices[w] < s.indices[v] && Reaches(g, v, w)
    requires y in s.onStack
    ensures ReachesActive(g, s.(active := before.active - {v}), y)
  {
    hide Reaches;
    assert ReachesActive(g, s, y);
    var z :| z in s.active && s.indices[z] <= s.indices[y] && Reaches(g, y, z);
    if z == v {
      assert ReachesActive(g, s, w);
      var x :| x in s.active && s.indices[x] <= s.indices[w] && Reaches(g, w, x);
      ReachesTransitive(g, y, v, w);
      ReachesTransitive(g, y, w, x);
    }
  }

  /** Leaving connect(v) without popping: v stays on the stack. */
  lemma LeaveOpenKeepsInvariant(g: Graph, before: Search, s: Search, v: AgentId, low: nat)
    requires Invariant(g, before) && Invariant(g, s) && v !in before.indices
    requires Extends(Enter(before, v), s) && s.active == before.active + {v}
    requires LowAttained(g, s, v, low) && low < before.index
    requires forall w :: w in Successors(g, v) ==> w in s.indices
    ensures Invariant(g, s.(active := before.active))
  {
    hide Reaches, OnCycle, StackReachesActive, Closed, LowAttained;
    var t := s.(active := before.active);
    assert t.Finished() == s.Finished();
    StackStillReachesActive(g, before, s, v, low);
  }

  lemma StackStillReachesActive(g: Graph, before: Search, s: Search, v: AgentId, low: nat)
    requires Numbered(before) && Numbered(s) && StackReachesActive(g, s) && v !in before.indices
    requires Extends(Enter(before, v), s) && s.active == before.active + {v}
    requires LowAttained(g, s, v, low) && low < before.index
    ensures Numbered(s.(active := before.active)) && StackReachesActive(g, s.(active := before.active))
  {
    hide Reaches;
    var t := s.(active := before.active);
    var w :| w in s.onStack && w in s.indices && s.indices[w] == low && Reaches(g, v, w);
    assert before.active - {v} == before.active;
    forall y | y in t.onStack ensures ReachesActive(g, t, y) {
      StillReachesActive(g, before, s, v, w, y);
    }
  }

  /** The ids stacked since connect(v) began: v's strongly connected component once its low-link is its own index. */
  function Component(before: Search, s: Search): set<AgentId> {
    set y | y in s.onStack && y !in before.indices
  }

  ghost predicate HasOther(component: set<AgentId>, v: AgentId) {
    exists u :: u in component && u != v
  }

  /** Popping that component off the stack. */
  ghost function Pop(g: Graph, before: Search, s: Search, v: AgentId): Search {
    var component := Component(before, s);
    var found := if HasOther(component, v) || v in Successors(g, v) then component else {};
    Search(s.index, s.indices, s.onStack - component, s.cyclic + found, before.active)
  }

  lemma ComponentIsCyclic(g: Graph, before: Search, s: Search, v: AgentId)
    requires Invariant(g, before) && Invariant(g, s) && v !in before.indices
    requires Extends(Enter(before, v), s) && s.active == before.active + {v}
    ensures HasOther(Component(before, s), v) ==> forall y :: y in Component(before, s) ==> OnCycle(g, y)
  {
    hide Reaches, OnCycle;
    var component := Component(before, s);
    assert v in component;
    if HasOther(component, v) {
      var u :| u in component && u != v;
      forall y | y in component ensures Reaches(g, v, y) && Reaches(g, y, v) {
        assert ReachesActive(g, s, y);
        var x :| x in s.active && s.indices[x] <= s.indices[y] && Reaches(g, y, x);
        assert Reaches(g, x, v);
        ReachesTransitive(g, y, x, v);
      }
      forall y | y in component ensures OnCycle(g, y) {
        MutualReachIsCycle(g, y, if y == v then u else v);
      }
    }
  }

  lemma PopKeepsInvariant(g: Graph, before: Search, s: Search, v: AgentId)
    requires Invariant(g, before) && Invariant(g, s) && v !in before.indices
    requires Extends(Enter(before, v), s) && s.active == before.active + {v}
    requires LowCovers(g, before, s, before.index)
    requires forall w :: w in Successors(g, v) ==> w in s.indices
    ensures Invariant(g, Pop(g, before, s, v))
  {
    hide Reaches, OnCycle;
    var component := Component(before, s);
    var t := Pop(g, before, s, v);
    assert v in component;
    assert t.onStack == before.onStack;
    assert t.Finished() == s.Finished() + component;
    assert Closed(g, t.Finished());
    ComponentIsCyclic(g, before, s, v);
    if !HasOther(component, v) {
      LoneCycleIsSelfLoop(g, s.Finished(), v);
    }
    assert StackReachesActive(g, t) by {
      forall y | y in t.onStack ensures ReachesActive(g, t, y) {
        assert ReachesActive(g, before, y);
      }
    }
  }

  // ----- One connect call -----

  function Min(a: nat, b: nat): nat { if a <= b then a else b }

  /** connect(v), called in state s, returned in state t with low-link low. */
  ghost predicate Called(g: Graph, s: Search, t: Search, v: AgentId, low: nat) {
    && Invariant(g, t) && t.active == s.active
    && Numbered(s) && Extends(s, t)
    && v !in s.indices && v in t.indices && t.indices[v] == s.index
    && LowCovers(g, s, t, low)
    && (if v in t.onStack then LowAttained(g, t, v, low) && low < s.index else low == s.index)
  }

  /** Like LowCovers, but v itself has only walked the delegates in `done`. */
  ghost predicate LowCoversSoFar(g: Graph, before: Search, s: Search, v: AgentId, done: seq<AgentId>, low: nat)
    requires Numbered(before)
  {
    forall y, w {:trigger w in Successors(g, y)} ::
      y in s.onStack && y !in before.indices && w in Successors(g, y) && w in before.onStack &&
          (y == v ==> w in done) ==>
        low <= before.indices[w]
  }

  /** connect(v), called in state before, has walked the delegates in `done` and is now in state s. */
  ghost predicate Walking(g: Graph, before: Search, s: Search, v: AgentId, done: seq<AgentId>, low: nat) {
    && Invariant(g, before) && v !in before.indices
    && Invariant(g, s) && Extends(Enter(before, v), s) && s.active == before.active + {v}
    && LowCoversSoFar(g, before, s, v, done, low)
    && LowAttained(g, s, v, low) && low <= before.index
    && (forall w :: w in done ==> w in s.indices)
  }

  lemma StartWalking(g: Graph, before: Search, v: AgentId)
    requires Invariant(g, before) && v !in before.indices
    requires forall x :: x in before.active ==> Reaches(g, x, v)
    ensures Walking(g, before, Enter(before, v), v, [], before.index)
  {
    hide Reaches, OnCycle;
    EnterKeepsInvariant(g, before, v);
    ReachesSelf(g, v);
    var s := Enter(before, v);
    assert v in s.onStack && s.indices[v] == before.index;
  }

  /** What connect requires of its caller holds when v meets a new delegate. */
  lemma ActiveReachDelegate(g: Graph, before: Search, s: Search, v: AgentId, done: seq<AgentId>, delegate: AgentId,
                            low: nat)
    requires Walking(g, before, s, v, done, low) && delegate in Successors(g, v)
    ensures Invariant(g, s)
    ensures forall x :: x in s.active ==> Reaches(g, x, delegate)
  {
    hide Reaches, OnCycle;
    ReachesEdge(g, v, delegate);
    forall x | x in s.active ensures Reaches(g, x, delegate) {
      assert Reaches(g, x, v) by {
        assert s.indices[x] <= s.indices[v];
      }
      ReachesTransitive(g, x, v, delegate);
    }
  }

  lemma LowAfterCall(g: Graph, s: Search, t: Search, v: AgentId, delegate: AgentId, low: nat, delegateLow: nat)
    requires Called(g, s, t, delegate, delegateLow) && delegate in Successors(g, v)
    requires LowAttained(g, s, v, low) && low < s.index
    ensures LowAttained(g, t, v, Min(low, delegateLow))
  {
    hide Reaches, OnCycle, Invariant, LowCovers;
    if low <= delegateLow {
      var w :| w in s.onStack && w in s.indices && s.indices[w] == low && Reaches(g, v, w);
      assert w in t.onStack && t.indices[w] == low;
    } else {
      var w :| w in t.onStack && w in t.indices && t.indices[w] == delegateLow && Reaches(g, delegate, w);
      ReachesEdge(g, v, delegate);
      ReachesTransitive(g, v, delegate, w);
    }
  }

  /** A recursive call for a new delegate: v's low-link takes the delegate's into account. */
  lemma WalkNew(g: Graph, before: Search, s: Search, t: Search, v: AgentId, done: seq<AgentId>, delegate: AgentId,
                low: nat, delegateLow: nat)
    requires Walking(g, before, s, v, done, low) && delegate in Successors(g, v)
    requires Called(g, s, t, delegate, delegateLow)
    ensures Walking(g, before, t, v, done + [delegate], Min(low, delegateLow))
  {
    LowAfterCall(g, s, t, v, delegate, low, delegateLow) by {
      hide Reaches, OnCycle;
    }
    hide Reaches, OnCycle, LowAttained;
  }

  /** A delegate that has been visited already. */
  lemma WalkVisited(g: Graph, before: Search, s: Search, v: AgentId, done: seq<AgentId>, delegate: AgentId, low: nat)
    requires Walking(g, before, s, v, done, low) && delegate in Successors(g, v) && delegate in s.indices
    ensures Walking(g, before, s, v, done + [delegate],
                    if delegate in s.onStack then Min(low, s.indices[delegate]) else low)
  {
    hide Reaches, OnCycle;
    ReachesEdge(g, v, delegate);
  }

  lemma CalledGrows(g: Graph, s: Search, t: Search, v: AgentId, low: nat)
    requires Called(g, s, t, v, low)
    ensures s.indices.Keys <= t.indices.Keys && forall k :: k in s.indices ==> t.indices[k] == s.indices[k]
  {
  }

  lemma FinishOpen(g: Graph, before: Search, s: Search, v: AgentId, low: nat)
    requires Walking(g, before, s, v, Successors(g, v), low) && low != before.index
    ensures Called(g, before, s.(active := before.active), v, low)
  {
    hide Reaches, OnCycle;
    LeaveOpenKeepsInvariant(g, before, s, v, low);
  }

  lemma FinishPopped(g: Graph, before: Search, s: Search, v: AgentId)
    requires Walking(g, before, s, v, Successors(g, v), before.index)
    ensures Called(g, before, Pop(g, before, s, v), v, before.index)
  {
    hide Reaches, OnCycle;
    PopKeepsInvariant(g, before, s, v);
  }

  // ----- The stack -----

  /** The stack lists onStack by increasing index. */
  ghost predicate Ordered(stack: seq<AgentId>, onStack: set<AgentId>, indices: map<AgentId, nat>) {
    && (forall i :: 0 <= i < |stack| ==> stack[i] in onStack)
    && (forall v :: v in onStack ==> v in stack)
    && onStack <= indices.Keys
    && (forall i, j :: 0 <= i < j < |stack| ==> indices[stack[i]] < indices[stack[j]])
  }

  lemma PushOrdered(stack: seq<AgentId>, s: Search, v: AgentId)
    requires Numbered(s) && Ordered(stack, s.onStack, s.indices) && v !in s.indices
    ensures Ordered(stack + [v], s.onStack + {v}, s.indices[v := s.index])
  {
    forall i | 0 <= i < |stack| ensures stack[i] != v && s.indices[stack[i]] < s.index {
      assert stack[i] in s.onStack;
    }
  }

  /** Part way through popping: `component` is what has come off the stack of s, everything down to v at most. */
  ghost predicate Popping(s: Search, v: AgentId, stack: seq<AgentId>, onStack: set<AgentId>, component: seq<AgentId>)
    requires v in s.indices
  {
    && Ordered(stack, onStack, s.indices)
    && onStack <= s.onStack <= s.indices.Keys
    && (forall i :: 0 <= i < |component| ==> component[i] in s.onStack && component[i] !in onStack)
    && (forall y :: y in s.onStack && y !in onStack ==> y in component)
    && (forall i, j :: 0 <= i < j < |component| ==> component[i] != component[j])
    && (forall i :: 0 <= i < |component| ==> s.indices[v] <= s.indices[component[i]])
    && (v !in onStack ==> forall y :: y in onStack ==> s.indices[y] < s.indices[v])
  }

  lemma PopStep(s: Search, v: AgentId, stack: seq<AgentId>, onStack: set<AgentId>, component: seq<AgentId>)
    requires v in s.indices && Popping(s, v, stack, onStack, component) && v in onStack
    ensures stack != []
    ensures var top := |stack| - 1;
            Popping(s, v, stack[..top], onStack - {stack[top]}, component + [stack[top]])
  {
    var top := |stack| - 1;
    var rest := stack[..top];
    forall y | y in onStack && y != stack[top]
      ensures y in rest && s.indices[y] < s.indices[stack[top]]
    {
      var i :| 0 <= i < |stack| && stack[i] == y;
      assert rest[i] == y;
    }
    var next := component + [stack[top]];
    assert next[|component|] == stack[top];
    forall y | y in s.onStack && y !in onStack - {stack[top]} ensures y in next {
      if y != stack[top] {
        assert y in component;
      }
    }
  }

  lemma PoppedIsComponent(g: Graph, before: Search, s: Search, v: AgentId, stack: seq<AgentId>, onStack: set<AgentId>,
                          component: seq<AgentId>)
    requires Numbered(before) && Numbered(s) && v !in before.indices && v in s.onStack && v !in onStack
    requires Extends(Enter(before, v), s)
    requires Popping(s, v, stack, onStack, component)
    ensures (set y | y in component) == Component(before, s)
    ensures onStack == s.onStack - Component(before, s)
    ensures HasOther(Component(before, s), v) || v in Successors(g, v) <==>
            |component| > 1 || (|component| == 1 && component[0] in Successors(g, component[0]))
  {
    forall y | y in component ensures y in Component(before, s) {
      var i :| 0 <= i < |component| && component[i] == y;
      assert s.indices[v] <= s.indices[component[i]];
    }
    forall y | y in s.onStack ensures y in component <==> y !in onStack {
    }
    forall y | y in Component(before, s) ensures y in component {
      assert s.indices[v] <= s.indices[y];
    }
    assert v in component;
    if |component| > 1 {
      var i := if component[0] == v then 1 else 0;
      assert component[i] in Component(before, s) && component[i] != v;
    } else {
      assert component == [v];
    }
  }

  lemma InvariantNumbers(g: Graph, s: Search)
    requires Invariant(g, s)
    ensures Numbered(s)
  {
  }

  // ----- The imperative search -----

  class CycleFinder {
    const outgoing: Graph
    ghost const vertices: set<AgentId>
    var index: nat
    var indices: map<AgentId, nat>
    var lowLinks: map<AgentId, nat>
    var stack: seq<AgentId>
    var onStack: set<AgentId>
    var cyclic: set<AgentId>
    ghost var active: set<AgentId>

    constructor (outgoing: Graph, ghost vertices: set<AgentId>)
      requires Closed(outgoing, vertices)
      ensures this.outgoing == outgoing && this.vertices == vertices
      ensures Valid() && indices == map[] && active == {}
    {
      this.outgoing, this.vertices := outgoing, vertices;
      index, indices, lowLinks, stack, onStack, cyclic, active := 0, map[], map[], [], {}, {}, {};
    }

    ghost function View(): Search
      reads this
    {
      Search(index, indices, onStack, cyclic, active)
    }

    /** The parts of the state that View leaves out agree with it. */
    ghost predicate Consistent()
      reads this
    {
      && Ordered(stack, onStack, indices)
      && lowLinks.Keys == indices.Keys <= vertices
      && Closed(outgoing, vertices)
    }

    ghost predicate Valid()
      reads this
    {
      Consistent() && Invariant(outgoing, View())
    }

    method Connect(v: AgentId)
      requires Valid() && v in vertices && v !in indices
      requires forall x :: x in active ==> Reaches(outgoing, x, v)
      modifies this
      ensures Consistent() && v in lowLinks
      ensures Called(outgoing, old(View()), View(), v, lowLinks[v])
      ensures forall k :: k in old(indices) ==> k in lowLinks && lowLinks[k] == old(lowLinks[k])
      decreases vertices - indices.Keys, 0
    {
      hide Reaches, OnCycle, Invariant, Walking, Called, Ordered, Closed, Pop;
      ghost var before := View();
      StartWalking(outgoing, before, v);
      PushOrdered(stack, before, v) by {
        InvariantNumbers(outgoing, before);
      }
      indices := indices[v := index];
      lowLinks := lowLinks[v := index];
      index := index + 1;
      stack := stack + [v];
      onStack := onStack + {v};
      active := active + {v};

      var delegates := Successors(outgoing, v);
      assert delegates[..0] == [];
      for i := 0 to |delegates|
        invariant Consistent() && v in indices && indices[v] == before.index && before.indices.Keys < indices.Keys
        invariant Walking(outgoing, before, View(), v, delegates[..i], lowLinks[v])
        invariant forall k :: k in before.indices ==> k in lowLinks && lowLinks[k] == old(lowLinks[k])
      {
        assert delegates[..i + 1] == delegates[..i] + [delegates[i]];
        Follow(v, delegates[i], before, delegates[..i]);
      }
      assert delegates[..|delegates|] == delegates;

      if lowLinks[v] != indices[v] {
        FinishOpen(outgoing, before, View(), v, lowLinks[v]);
        active := before.active;
        return;
      }
      FinishPopped(outgoing, before, View(), v);
      PopComponent(before, v);
    }

    /** One turn of the loop over v's delegates. */
    method Follow(v: AgentId, delegate: AgentId, ghost before: Search, ghost done: seq<AgentId>)
      requires Consistent() && v in indices && indices[v] == before.index && before.indices.Keys < indices.Keys
      requires Walking(outgoing, before, View(), v, done, lowLinks[v]) && delegate in Successors(outgoing, v)
      modifies this
      ensures Consistent() && v in indices && indices[v] == before.index && before.indices.Keys < indices.Keys
      ensures Walking(outgoing, before, View(), v, done + [delegate], lowLinks[v])
      ensures forall k :: k in before.indices && k != v ==> k in lowLinks && lowLinks[k] == old(lowLinks[k])
      decreases vertices - indices.Keys, 1
    {
      hide Reaches, OnCycle, Invariant, Walking, Called, Ordered;
      ghost var s, low := View(), lowLinks[v];
      if delegate !in indices {
        ActiveReachDelegate(outgoing, before, s, v, done, delegate, low);
        Connect(delegate);
        CalledGrows(outgoing, s, View(), delegate, lowLinks[delegate]);
        WalkNew(outgoing, before, s, View(), v, done, delegate, low, lowLinks[delegate]);
        lowLinks := lowLinks[v := Min(lowLinks[v], lowLinks[delegate])];
      } else {
        WalkVisited(outgoing, before, s, v, done, delegate, low);
        if delegate in onStack {
          lowLinks := lowLinks[v := Min(lowLinks[v], indices[delegate])];
        }
      }
    }

    /** Takes v's component off the stack and records it if it holds a cycle. */
    method PopComponent(ghost before: Search, v: AgentId)
      requires Consistent() && Walking(outgoing, before, View(), v, Successors(outgoing, v), before.index)
      modifies this
      ensures Consistent() && View() == Pop(outgoing, before, old(View()), v)
      ensures lowLinks == old(lowLinks)
    {
      hide Reaches, OnCycle, Invariant, LowCovers, LowCoversSoFar, LowAttained;
      ghost var s := View();
      InvariantNumbers(outgoing, before);
      InvariantNumbers(outgoing, s);
      var component := PopDownTo(v);
      PoppedIsComponent(outgoing, before, s, v, stack, onStack, component);
      if |component| > 1 || (|component| == 1 && component[0] in Successors(outgoing, component[0])) {
        cyclic := cyclic + set id | id in component;
      }
      active := before.active;
    }

    method PopDownTo(v: AgentId) returns (component: seq<AgentId>)
      requires Ordered(stack, onStack, indices) && v in onStack
      modifies this`stack, this`onStack
      ensures v !in onStack && Popping(old(View()), v, stack, onStack, component)
    {
      ghost var s := View();
      component := [];
      var more := true;
      while more
        invariant Popping(s, v, stack, onStack, component)
        invariant more <==> v in onStack
        decreases |stack|
      {
        PopStep(s, v, stack, onStack, component);
        var member := stack[|stack| - 1];
        stack := stack[..|stack| - 1];
        onStack := onStack - {member};
        component := component + [member];
        more := member != v;
      }
    }
  }

  /** Exactly the agents on a directed cycle, for every delegation graph. */
  method FindCyclicAgents(agents: seq<AgentId>, outgoing: Graph) returns (cyclic: set<AgentId>)
    requires forall v, w {:trigger w in Successors(outgoing, v)} :: w in Successors(outgoing, v) ==> w in agents
    ensures forall v :: v in cyclic <==> v in agents && OnCycle(outgoing, v)
  {
    hide Reaches, OnCycle;
    var finder := new CycleFinder(outgoing, set v | v in agents);
    for i := 0 to |agents|
      invariant finder.Valid() && finder.active == {} && fresh(finder)
      invariant finder.outgoing == outgoing && finder.vertices == set v | v in agents
      invariant forall j :: 0 <= j < i ==> agents[j] in finder.indices
    {
      if agents[i] !in finder.indices {
        finder.Connect(agents[i]);
      }
    }
    StackNeedsActive(outgoing, finder.View());
    cyclic := finder.cyclic;
    assert forall v :: v in agents ==> v in finder.View().Finished();
  }

  lemma StackNeedsActive(g: Graph, s: Search)
    requires Invariant(g, s)
    ensures forall y :: y in s.onStack ==> s.active != {}
  {
    forall y | y in s.onStack ensures s.active != {} {
      assert ReachesActive(g, s, y);
    }
  }
}
