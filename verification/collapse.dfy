/** collapseAgentTopology: hiding branches with one depth variable. */
module Collapse {
  import opened DelegationGraph
  import opened Preorder
  import opened Topology
  import opened Wrappers

  /** The chain of nearest shallower rows above a row at depth that follows rows. */
  function Ancestors(rows: seq<Row>, depth: nat): seq<Row> {
    if rows == [] then [] else
      var init, last := rows[..|rows| - 1], rows[|rows| - 1];
      if last.depth < depth then Ancestors(init, last.depth) + [last] else Ancestors(init, depth)
  }

  predicate Hidden(rows: seq<Row>, depth: nat, collapsed: set<AgentId>) {
    exists r :: r in Ancestors(rows, depth) && r.agent.id in collapsed
  }

  /** The rows none of whose strict ancestors is collapsed. */
  function Visible(rows: seq<Row>, collapsed: set<AgentId>): seq<Row> {
    if rows == [] then [] else
      var init, last := rows[..|rows| - 1], rows[|rows| - 1];
      var visible := Visible(init, collapsed);
      if Hidden(init, last.depth, collapsed) then visible else visible + [last]
  }

  /** hiddenBelow is the least depth of a collapsed row that is still open after rows. */
  ghost predicate Marks(rows: seq<Row>, collapsed: set<AgentId>, hiddenBelow: Option<nat>) {
    forall d: nat :: Hidden(rows, d, collapsed) <==> hiddenBelow.Some? && hiddenBelow.value < d
  }

  lemma MarksStep(rows: seq<Row>, row: Row, collapsed: set<AgentId>, hiddenBelow: Option<nat>)
    requires Marks(rows, collapsed, hiddenBelow)
    ensures Marks(rows + [row], collapsed,
                  if Hidden(rows, row.depth, collapsed) then hiddenBelow
                  else if row.agent.id in collapsed then Some(row.depth) else None)
  {
    var next := if Hidden(rows, row.depth, collapsed) then hiddenBelow
                else if row.agent.id in collapsed then Some(row.depth) else None;
    assert (rows + [row])[..|rows|] == rows;
    forall d: nat ensures Hidden(rows + [row], d, collapsed) <==> next.Some? && next.value < d {
      var before, above := Hidden(rows, d, collapsed), Hidden(rows, row.depth, collapsed);
      if row.depth < d {
        assert Ancestors(rows + [row], d) == Ancestors(rows, row.depth) + [row];
        HiddenAppend(Ancestors(rows, row.depth), row, collapsed);
      } else {
        assert Ancestors(rows + [row], d) == Ancestors(rows, d);
      }
    }
  }

  lemma HiddenAppend(ancestors: seq<Row>, row: Row, collapsed: set<AgentId>)
    ensures (exists r :: r in ancestors + [row] && r.agent.id in collapsed) <==>
            (exists r :: r in ancestors && r.agent.id in collapsed) || row.agent.id in collapsed
  {
    assert row in ancestors + [row];
    forall r | r in ancestors ensures r in ancestors + [row] {
    }
  }

  /** One pass and one variable compute Visible for every list of rows. */
  method CollapseAgentTopology(rows: seq<Row>, collapsed: set<AgentId>) returns (visible: seq<Row>)
    ensures visible == Visible(rows, collapsed)
  {
    visible := [];
    var hiddenBelow: Option<nat> := None;
    assert rows[..0] == [];
    for i := 0 to |rows|
      invariant visible == Visible(rows[..i], collapsed)
      invariant Marks(rows[..i], collapsed, hiddenBelow)
    {
      var row := rows[i];
      assert rows[..i + 1] == rows[..i] + [row] && rows[..i + 1][..i] == rows[..i];
      MarksStep(rows[..i], row, collapsed, hiddenBelow);
      if hiddenBelow.Some? && row.depth > hiddenBelow.value {
        continue;
      }
      hiddenBelow := None;
      visible := visible + [row];
      if row.agent.id in collapsed {
        hiddenBelow := Some(row.depth);
      }
    }
    assert rows[..|rows|] == rows;
  }

  // ----- What collapsing means -----

  /** A row whose ancestors are all open keeps exactly those ancestors. */
  lemma {:induction false} OpenAncestorsStay(rows: seq<Row>, depth: nat, collapsed: set<AgentId>)
    requires !Hidden(rows, depth, collapsed)
    ensures Ancestors(Visible(rows, collapsed), depth) == Ancestors(rows, depth)
  {
    if rows != [] {
      var init, last := rows[..|rows| - 1], rows[|rows| - 1];
      if last.depth < depth {
        HiddenAppend(Ancestors(init, last.depth), last, collapsed);
        OpenAncestorsStay(init, last.depth, collapsed);
        assert Visible(rows, collapsed) == Visible(init, collapsed) + [last];
      } else {
        OpenAncestorsStay(init, depth, collapsed);
      }
      if !Hidden(init, last.depth, collapsed) {
        assert Visible(rows, collapsed)[..|Visible(rows, collapsed)| - 1] == Visible(init, collapsed);
      }
    }
  }

  lemma HiddenByUnion(rows: seq<Row>, depth: nat, s: set<AgentId>, t: set<AgentId>)
    ensures Hidden(rows, depth, s + t) <==> Hidden(rows, depth, s) || Hidden(rows, depth, t)
  {
  }

  /** Collapsing s and then t is collapsing both at once. */
  lemma {:induction false} CollapseTwice(rows: seq<Row>, s: set<AgentId>, t: set<AgentId>)
    ensures Visible(Visible(rows, s), t) == Visible(rows, s + t)
  {
    if rows != [] {
      var init, last := rows[..|rows| - 1], rows[|rows| - 1];
      CollapseTwice(init, s, t);
      HiddenByUnion(init, last.depth, s, t);
      if !Hidden(init, last.depth, s) {
        OpenAncestorsStay(init, last.depth, s);
        assert Visible(rows, s)[..|Visible(init, s)|] == Visible(init, s);
      }
    }
  }

  lemma CollapseIsIdempotent(rows: seq<Row>, s: set<AgentId>)
    ensures Visible(Visible(rows, s), s) == Visible(rows, s)
  {
    CollapseTwice(rows, s, s);
    assert s + s == s;
  }

  /** Collapsing more shows no more. */
  lemma {:induction false} CollapseIsAntitone(rows: seq<Row>, s: set<AgentId>, t: set<AgentId>)
    requires s <= t
    ensures Visible(rows, t) == Visible(Visible(rows, s), t)
    ensures multiset(Visible(rows, t)) <= multiset(Visible(rows, s))
  {
    assert s + t == t;
    CollapseTwice(rows, s, t);
    if rows != [] {
      var init, last := rows[..|rows| - 1], rows[|rows| - 1];
      CollapseIsAntitone(init, s, t);
      HiddenByUnion(init, last.depth, s, t);
    }
  }

  /** The nearest ancestor is the parent. */
  lemma {:induction false} ParentIsAncestor(rows: seq<Row>, depth: nat)
    ensures match ParentRow(rows, depth)
            case None => Ancestors(rows, depth) == []
            case Some(p) => Ancestors(rows, depth) != [] && Ancestors(rows, depth)[|Ancestors(rows, depth)| - 1] == p
  {
    if rows != [] && rows[|rows| - 1].depth >= depth {
      ParentIsAncestor(rows[..|rows| - 1], depth);
    }
  }

  /** What stays visible is a preorder forest along the delegations. */
  lemma {:induction false} CollapseKeepsForest(rows: seq<Row>, collapsed: set<AgentId>)
    requires PreorderForest(rows)
    ensures PreorderForest(Visible(rows, collapsed))
  {
    if rows != [] {
      var init, last := rows[..|rows| - 1], rows[|rows| - 1];
      NestedPrefix(rows, |init|);
      CollapseKeepsForest(init, collapsed);
      if !Hidden(init, last.depth, collapsed) {
        VisibleParent(init, last, collapsed);
        NestOneMore(Visible(init, collapsed), last, 0);
      }
    }
  }

  lemma NestedPrefix(rows: seq<Row>, n: nat)
    requires PreorderForest(rows) && n < |rows|
    ensures PreorderForest(rows[..n]) && (rows[n].depth > 0 ==> HasParent(rows[..n], rows[n]))
  {
    forall i | 0 <= i < n && rows[i].depth > 0 ensures HasParent(rows[..n][..i], rows[..n][i]) {
      assert rows[..n][..i] == rows[..i];
    }
  }

  lemma VisibleParent(rows: seq<Row>, row: Row, collapsed: set<AgentId>)
    requires !Hidden(rows, row.depth, collapsed) && (row.depth > 0 ==> HasParent(rows, row))
    ensures row.depth > 0 ==> HasParent(Visible(rows, collapsed), row)
  {
    OpenAncestorsStay(rows, row.depth, collapsed);
    ParentIsAncestor(rows, row.depth);
    ParentIsAncestor(Visible(rows, collapsed), row.depth);
  }

  // ----- The same, said with indices -----

  /** Row j stands above position i: everything between them is deeper than row j. */
  ghost predicate Above(rows: seq<Row>, j: nat, i: nat, depth: nat)
    requires j < i <= |rows|
  {
    rows[j].depth < depth && forall k :: j < k < i ==> rows[k].depth > rows[j].depth
  }

  lemma {:induction false} HiddenIsExact(rows: seq<Row>, depth: nat, collapsed: set<AgentId>)
    ensures Hidden(rows, depth, collapsed) <==>
              exists j :: 0 <= j < |rows| && rows[j].agent.id in collapsed && Above(rows, j, |rows|, depth)
  {
    if rows != [] {
      var n := |rows| - 1;
      var init, last := rows[..n], rows[n];
      var next := if last.depth < depth then last.depth else depth;
      HiddenIsExact(init, next, collapsed);
      forall j | 0 <= j < n ensures Above(rows, j, n + 1, depth) <==> Above(init, j, n, next) {
        assert forall k :: j < k < n ==> init[k] == rows[k];
      }
      HiddenLast(rows, depth, collapsed);
    }
  }

  lemma HiddenLast(rows: seq<Row>, depth: nat, collapsed: set<AgentId>)
    requires rows != []
    ensures var init, last := rows[..|rows| - 1], rows[|rows| - 1];
            Hidden(rows, depth, collapsed) <==>
              if last.depth < depth then last.agent.id in collapsed || Hidden(init, last.depth, collapsed)
              else Hidden(init, depth, collapsed)
  {
    var init, last := rows[..|rows| - 1], rows[|rows| - 1];
    if last.depth < depth {
      HiddenAppend(Ancestors(init, last.depth), last, collapsed);
    }
  }

  /**
   * A row is shown exactly if no collapsed row stands above it, that is, earlier, shallower, and with nothing as
   * shallow in between; the rows shown keep their order.
   */
  lemma VisibleIsExact(rows: seq<Row>, collapsed: set<AgentId>, i: nat)
    requires i < |rows|
    ensures Visible(rows[..i + 1], collapsed) ==
            if exists j :: 0 <= j < i && rows[j].agent.id in collapsed && Above(rows, j, i, rows[i].depth)
            then Visible(rows[..i], collapsed) else Visible(rows[..i], collapsed) + [rows[i]]
  {
    assert rows[..i + 1][..i] == rows[..i] && rows[..i + 1][i] == rows[i];
    HiddenIsExact(rows[..i], rows[i].depth, collapsed);
    forall j | 0 <= j < i ensures Above(rows, j, i, rows[i].depth) <==> Above(rows[..i], j, i, rows[i].depth) {
      assert forall k :: j < k < i ==> rows[..i][k] == rows[k];
    }
  }
}
