/** Cursors over a table: full scans and lookups. */
module BTreeCursor {
  import opened Wrappers
  import opened BTreeView
  import opened BTreePages
  import opened BTreeTable

  /** The cells left of a position. */
  ghost function Seen(v: View, leaf: nat, cell: nat): seq<Cell>
    requires leaf < |v.leaves| && cell <= |v.leaves[leaf]|
  {
    Flat(v.leaves[..leaf]) + v.leaves[leaf][..cell]
  }

  lemma SeenNext(v: View, leaf: nat, cell: nat)
    requires leaf < |v.leaves| && cell < |v.leaves[leaf]|
    ensures Seen(v, leaf, cell + 1) == Seen(v, leaf, cell) + [v.leaves[leaf][cell]]
  {
    assert v.leaves[leaf][..cell + 1] == v.leaves[leaf][..cell] + [v.leaves[leaf][cell]];
  }

  /** The end of a leaf is the start of the next one. */
  lemma SeenLeaf(v: View, leaf: nat)
    requires leaf + 1 < |v.leaves|
    ensures Seen(v, leaf, |v.leaves[leaf]|) == Seen(v, leaf + 1, 0)
  {
    assert v.leaves[..leaf + 1][..leaf] == v.leaves[..leaf];
  }

  lemma SeenAll(v: View)
    requires |v.leaves| > 0
    ensures Seen(v, |v.leaves| - 1, |v.leaves[|v.leaves| - 1]|) == Flat(v.leaves)
  {
  }

  lemma SeenPart(v: View, leaf: nat, cell: nat)
    requires leaf < |v.leaves| && cell <= |v.leaves[leaf]|
    ensures var n := |Seen(v, leaf, cell)|;
      && n <= |Flat(v.leaves)| && Flat(v.leaves)[..n] == Seen(v, leaf, cell)
      && (cell < |v.leaves[leaf]| ==> n < |Flat(v.leaves)| && Flat(v.leaves)[n] == v.leaves[leaf][cell])
  {
    hide Flat;
    Parts(v.leaves, leaf);
    var rest := Flat(v.leaves[leaf + 1..]);
    assert Flat(v.leaves) == Seen(v, leaf, cell) + (v.leaves[leaf][cell..] + rest);
  }

  class Cursor {
    const table: Table
    var page: nat
    var cell: nat
    var end: bool
    /** Which leaf the page is. */
    ghost var leaf: nat

    ghost predicate Valid()
      reads this, table, table.pages
    {
      && table.Valid() && leaf < |table.view.leaves|
      && (!table.pages[0].leaf ==> leaf <= table.pages[0].count <= |table.pages[0].kids|)
      && page == PageOf(table.pages[..table.numPages], leaf)
      && cell <= |table.view.leaves[leaf]|
      && (if end then leaf == |table.view.leaves| - 1 && cell == |table.view.leaves[leaf]| else cell < |table.view.leaves[leaf]|)
    }

    ghost function Passed(): seq<Cell>
      requires Valid()
      reads this, table, table.pages
    {
      Seen(table.view, leaf, cell)
    }

    /** At the first cell of the leftmost leaf. */
    constructor (t: Table)
      requires t.Valid()
      ensures Valid() && table == t && Passed() == [] && (end <==> Flat(t.view.leaves) == [])
    {
      table := t;
      page := if t.pages[0].leaf then 0 else if t.pages[0].count < |t.pages[0].kids| then Child(t.pages[0], 0) else 0;
      cell := 0;
      leaf := 0;
      new;
      assert t.pages[..t.numPages][0] == t.pages[0];
      LeafPage(t.pages[..t.numPages], t.view, 0);
      end := t.pages[page].count == 0;
      if end {
        SeenAll(t.view);
      } else {
        SeenPart(t.view, 0, 0);
      }
    }

    /** The row under the cursor is the next one in order. */
    method Value() returns (r: Row)
      requires Valid() && !end
      ensures |Passed()| < |Flat(table.view.leaves)| && r == Flat(table.view.leaves)[|Passed()|].row
    {
      hide Flat, ViewOk, Shows;
      LeafPage(table.pages[..table.numPages], table.view, leaf);
      SeenPart(table.view, leaf, cell);
      assert Used(table.pages[page])[cell] == table.view.leaves[leaf][cell];
      r := table.pages[page].cells[cell].row;
    }

    method Advance()
      requires Valid() && !end
      modifies this
      ensures Valid() && |old(Passed())| < |Flat(table.view.leaves)|
      ensures Passed() == old(Passed()) + [Flat(table.view.leaves)[|old(Passed())|]]
      ensures end <==> Passed() == Flat(table.view.leaves)
    {
      hide Flat, Shows, ViewOk, Seen;
      ghost var v := table.view;
      assert table.pages[..table.numPages][0] == table.pages[0];
      LeafPage(table.pages[..table.numPages], v, leaf);
      SeenPart(v, leaf, cell);
      SeenNext(v, leaf, cell);
      cell := cell + 1;
      if cell >= table.pages[page].count {
        var next := table.pages[page].link;
        if leaf + 1 < |v.leaves| {
          LeafPage(table.pages[..table.numPages], v, leaf + 1);
        }
        if next == 0 {
          end := true;
          SeenAll(v);
        } else {
          SeenLeaf(v, leaf);
          page := next;
          cell := 0;
          leaf := leaf + 1;
          LeafPage(table.pages[..table.numPages], v, leaf);
          NoneEmpty(v, leaf);
        }
      }
      if !end {
        SeenPart(v, leaf, cell);
      }
    }
  }

  lemma NoneEmpty(v: View, i: nat)
    requires ViewOk(v) && |v.leaves| > 1 && i < |v.leaves|
    ensures v.leaves[i] != []
  {
  }

  /** A full scan: every cell's row, left to right. */
  method Select(t: Table) returns (rows: seq<Row>)
    requires t.Valid()
    ensures |rows| == |Flat(t.view.leaves)| && forall k :: 0 <= k < |rows| ==> rows[k] == Flat(t.view.leaves)[k].row
  {
    hide Flat, Table.Valid, Cursor.Valid, Cursor.Passed;
    rows := [];
    var c := new Cursor(t);
    while !c.end
      invariant c.Valid() && c.table == t && |rows| == |c.Passed()| <= |Flat(t.view.leaves)|
      invariant forall k :: 0 <= k < |rows| ==> rows[k] == Flat(t.view.leaves)[k].row
      invariant c.end ==> c.Passed() == Flat(t.view.leaves)
      decreases |Flat(t.view.leaves)| - |rows|
    {
      var r := c.Value();
      rows := rows + [r];
      c.Advance();
    }
  }

  /** The row with an id, if the table has one. */
  method Find(t: Table, id: U32) returns (r: Option<Row>)
    requires t.Valid()
    ensures r == if id in Content(t.view) then Some(Content(t.view)[id]) else None
  {
    hide Flat, ViewOk, Shows, Content, Route, Bound;
    var pg, cell, i := t.TableFind(id);
    LeafPage(t.pages[..t.numPages], t.view, i);
    Lookup(t.view, id);
    var leaf := t.pages[pg];
    assert cell < leaf.count ==> leaf.cells[cell] == t.view.leaves[i][cell];
    if cell < leaf.count && leaf.cells[cell].key == id {
      return Some(leaf.cells[cell].row);
    }
    return None;
  }

  /** A list of rows is exactly this map, in increasing id order. */
  ghost predicate Lists(rows: seq<Row>, m: map<U32, Row>) {
    && (forall i, j :: 0 <= i < j < |rows| ==> rows[i].id < rows[j].id)
    && (forall i :: 0 <= i < |rows| ==> rows[i].id in m && m[rows[i].id] == rows[i])
    && (forall id :: id in m ==> m[id] in rows && m[id].id == id)
  }

  ghost predicate RowsOfCells(rows: seq<Row>, s: seq<Cell>) {
    |rows| == |s| && forall k :: 0 <= k < |rows| ==> rows[k] == s[k].row
  }

  lemma {:induction false} RowsList(rows: seq<Row>, s: seq<Cell>)
    requires Ascending(s) && KeysMatch(s) && RowsOfCells(rows, s)
    ensures Lists(rows, Rows(s))
  {
    hide Lists;
    if s != [] {
      var n := |s| - 1;
      RowsList(rows[..n], s[..n]);
      assert rows == rows[..n] + [rows[n]];
      forall i | 0 <= i < n ensures rows[..n][i].id < rows[n].id {
        assert s[i].key < s[n].key && s[i].key == s[i].row.id && rows[i] == s[i].row;
      }
      ListsOneMore(rows[..n], Rows(s[..n]), rows[n]);
    } else {
      assert Lists(rows, Rows(s)) by { ListsNone(); }
    }
  }

  lemma ListsNone()
    ensures Lists([], map[])
  {
  }

  lemma ListsOneMore(rows: seq<Row>, m: map<U32, Row>, r: Row)
    requires Lists(rows, m) && forall i :: 0 <= i < |rows| ==> rows[i].id < r.id
    ensures Lists(rows + [r], m[r.id := r])
  {
    var all, m' := rows + [r], m[r.id := r];
    forall id | id in m' ensures m'[id] in all && m'[id].id == id {
      if id == r.id {
        assert all[|rows|] == r;
      } else {
        assert m[id] in rows;
      }
    }
  }

  lemma {:induction false} FlatKeys(ls: seq<seq<Cell>>)
    requires forall i :: 0 <= i < |ls| ==> LeafOk(ls[i])
    ensures KeysMatch(Flat(ls))
  {
    if ls != [] {
      FlatKeys(ls[..|ls| - 1]);
    }
  }

  /** After any insertions, a full scan lists exactly the accepted rows, by id. */
  lemma ScanLists(history: seq<Row>, rows: seq<Row>)
    requires RowsOfCells(rows, Flat(Run(history).0.leaves))
    ensures |Run(history).1| == |history| && Lists(rows, Accepted(history, Run(history).1))
  {
    hide Flat, Run, Accepted, Insert, Rows;
    RunContent(history);
    var v := Run(history).0;
    Shape(v);
    FlatKeys(v.leaves);
    RowsList(rows, Flat(v.leaves));
  }
}
