/** Reading a forest off a list of rows that carry only their depths. */
module Preorder {
  import opened Topology
  import opened Wrappers

  /** The nearest row from the end of rows that is shallower than depth. */
  function ParentRow(rows: seq<Row>, depth: nat): Option<Row> {
    if rows == [] then None
    else if rows[|rows| - 1].depth < depth then Some(rows[|rows| - 1])
    else ParentRow(rows[..|rows| - 1], depth)
  }

  ghost predicate HasParent(before: seq<Row>, row: Row) {
    var parent := ParentRow(before, row.depth);
    parent.Some? && parent.value.depth + 1 == row.depth && parent.value.agent in row.delegatedBy
  }

  /** Every row is at base or hangs under the nearest earlier shallower row, one level up, by a delegation. */
  ghost predicate WellNested(rows: seq<Row>, base: nat) {
    forall i :: 0 <= i < |rows| ==> rows[i].depth >= base && (rows[i].depth > base ==> HasParent(rows[..i], rows[i]))
  }

  /** The list is the preorder of a forest whose trees follow the delegations. */
  ghost predicate PreorderForest(rows: seq<Row>) {
    WellNested(rows, 0)
  }

  lemma {:induction false} ParentRowFound(rows: seq<Row>, depth: nat) returns (i: nat)
    requires ParentRow(rows, depth).Some?
    ensures i < |rows| && Some(rows[i]) == ParentRow(rows, depth) && rows[i].depth < depth
    ensures forall k :: i < k < |rows| ==> rows[k].depth >= depth
  {
    var n := |rows| - 1;
    if rows[n].depth < depth {
      i := n;
    } else {
      i := ParentRowFound(rows[..n], depth);
      forall k | i < k < |rows| ensures rows[k].depth >= depth {
        if k < n {
          assert rows[..n][k] == rows[k];
        }
      }
    }
  }

  lemma {:induction false} ParentRowMissing(rows: seq<Row>, depth: nat)
    ensures ParentRow(rows, depth) == None ==> forall k :: 0 <= k < |rows| ==> rows[k].depth >= depth
  {
    if rows != [] {
      var n := |rows| - 1;
      ParentRowMissing(rows[..n], depth);
      assert forall k :: 0 <= k < n ==> rows[..n][k] == rows[k];
    }
  }

  /** What ParentRow finds, said with indices. */
  lemma ParentRowIsNearest(rows: seq<Row>, depth: nat)
    ensures ParentRow(rows, depth) == None <==> forall k :: 0 <= k < |rows| ==> rows[k].depth >= depth
    ensures forall p :: ParentRow(rows, depth) == Some(p) ==>
              exists i :: 0 <= i < |rows| && rows[i] == p && p.depth < depth &&
                          forall k :: i < k < |rows| ==> rows[k].depth >= depth
  {
    hide ParentRow;
    ParentRowMissing(rows, depth);
    if ParentRow(rows, depth).Some? {
      var i := ParentRowFound(rows, depth);
      assert rows[i].depth < depth;
    }
  }

  lemma {:induction false} ParentRowAppend(a: seq<Row>, b: seq<Row>, depth: nat)
    ensures ParentRow(a + b, depth) == if ParentRow(b, depth).Some? then ParentRow(b, depth) else ParentRow(a, depth)
  {
    if b == [] {
      assert a + b == a;
    } else {
      assert (a + b)[..|a + b| - 1] == a + b[..|b| - 1];
      ParentRowAppend(a, b[..|b| - 1], depth);
    }
  }

  lemma {:induction false} NoParentAbove(rows: seq<Row>, depth: nat)
    requires forall i :: 0 <= i < |rows| ==> rows[i].depth >= depth
    ensures ParentRow(rows, depth) == None
  {
    if rows != [] {
      NoParentAbove(rows[..|rows| - 1], depth);
    }
  }

  lemma WellNestedAppend(a: seq<Row>, b: seq<Row>, base: nat)
    requires WellNested(a, base) && WellNested(b, base)
    ensures WellNested(a + b, base)
  {
    var rows := a + b;
    forall i | 0 <= i < |rows|
      ensures rows[i].depth >= base && (rows[i].depth > base ==> HasParent(rows[..i], rows[i]))
    {
      if i < |a| {
        assert rows[..i] == a[..i];
      } else {
        assert rows[..i] == a + b[..i - |a|];
        ParentRowAppend(a, b[..i - |a|], rows[i].depth);
      }
    }
  }

  /** Hanging trees under a root that delegates to each of theirs. */
  lemma WellNestedUnder(root: Row, kids: seq<Row>)
    requires WellNested(kids, root.depth + 1)
    requires forall i :: 0 <= i < |kids| && kids[i].depth == root.depth + 1 ==> root.agent in kids[i].delegatedBy
    ensures WellNested([root] + kids, root.depth)
  {
    var rows := [root] + kids;
    forall i | 0 < i < |rows| ensures rows[i].depth >= root.depth && HasParent(rows[..i], rows[i]) {
      assert rows[..i] == [root] + kids[..i - 1];
      assert rows[i] == kids[i - 1];
      ParentRowAppend([root], kids[..i - 1], rows[i].depth);
      assert [root][..0] == [];
      if rows[i].depth == root.depth + 1 {
        NoParentAbove(kids[..i - 1], rows[i].depth);
      }
    }
  }

  lemma NestOneMore(rows: seq<Row>, row: Row, base: nat)
    requires WellNested(rows, base) && row.depth >= base && (row.depth > base ==> HasParent(rows, row))
    ensures WellNested(rows + [row], base)
  {
    var all := rows + [row];
    forall i | 0 <= i < |all|
      ensures all[i].depth >= base && (all[i].depth > base ==> HasParent(all[..i], all[i]))
    {
      if i < |rows| {
        assert all[..i] == rows[..i];
      } else {
        assert all[..i] == rows;
      }
    }
  }
}
