/** The table's operations on its pages, each tied to the tree the pages hold. */
module BTreeTable {
  import opened BTreeView
  import opened BTreePages

  lemma BoundUnique(s: seq<Cell>, key: int, r: nat)
    requires r <= |s|
    requires forall i :: 0 <= i < r ==> s[i].key < key
    requires forall i :: r <= i < |s| ==> key <= s[i].key
    ensures r == Bound(s, key)
  {
    hide Bound;
    var b := Bound(s, key);
    var atB := if b < |s| then s[b].key else 0;
    var atR := if r < |s| then s[r].key else 0;
  }

  lemma RouteUnique(seps: seq<U32>, key: int, r: nat)
    requires r <= |seps|
    requires forall i :: 0 <= i < r ==> seps[i] < key
    requires forall i :: r <= i < |seps| ==> key <= seps[i]
    ensures r == Route(seps, key)
  {
    hide Route;
    var b := Route(seps, key);
    var atB := if b < |seps| then seps[b] else 0;
    var atR := if r < |seps| then seps[r] else 0;
  }

  method LeafLowerBound(leaf: Node, key: U32) returns (lo: nat)
    requires Sized(leaf) && leaf.leaf && Ascending(Used(leaf))
    ensures lo == Bound(Used(leaf), key)
  {
    hide Bound;
    lo := 0;
    var hi := leaf.count;
    while lo < hi
      invariant lo <= hi <= leaf.count
      invariant forall i :: 0 <= i < lo ==> Used(leaf)[i].key < key
      invariant forall i :: hi <= i < leaf.count ==> key <= Used(leaf)[i].key
    {
      var mid := (lo + hi) / 2;
      assert leaf.cells[mid] == Used(leaf)[mid];
      if leaf.cells[mid].key < key { lo := mid + 1; } else { hi := mid; }
    }
    BoundUnique(Used(leaf), key, lo);
  }

  /** The child to descend into, by binary search over the separators. */
  method InternalChildIndex(n: Node, key: U32, ghost v: View) returns (lo: nat)
    requires ViewOk(v) && RootShows(n, v)
    ensures lo == Route(v.seps, key) && lo <= n.count
  {
    hide Route, Within;
    lo := 0;
    var hi := n.count;
    while lo < hi
      invariant lo <= hi <= n.count
      invariant forall i :: 0 <= i < lo ==> v.seps[i] < key
      invariant forall i :: hi <= i < n.count ==> key <= v.seps[i]
    {
      var mid := (lo + hi) / 2;
      assert Key(n, mid) == v.seps[mid];
      if Key(n, mid) >= key { hi := mid; } else { lo := mid + 1; }
    }
    RouteUnique(v.seps, key, lo);
  }

  /** The cells of a full leaf with the new one in its place. */
  method Merged(leaf: Node, pos: nat, c: Cell) returns (tmp: array<Cell>)
    requires Sized(leaf) && leaf.leaf && leaf.count == LEAF_MAX_CELLS && pos <= LEAF_MAX_CELLS
    ensures fresh(tmp) && tmp[..] == Widen(Used(leaf), pos, c)
  {
    tmp := new Cell[LEAF_MAX_CELLS + 1](_ => c);
    var i, j := 0, 0;
    while i <= LEAF_MAX_CELLS
      invariant i <= LEAF_MAX_CELLS + 1 && j == (if i <= pos then i else i - 1)
      invariant tmp[..i] == Widen(Used(leaf), pos, c)[..i]
    {
      if i == pos {
        tmp[i] := c;
      } else {
        tmp[i] := leaf.cells[j];
        j := j + 1;
      }
      i := i + 1;
    }
    assert tmp[..] == tmp[..i];
  }

  /** Copies w to the start of the page's cells and sets the count. */
  function Fill(n: Node, w: seq<Cell>): (r: Node)
    requires Sized(n) && n.leaf && |w| <= LEAF_MAX_CELLS
    ensures IsLeaf(r, w, n.link)
  {
    n.(cells := w + n.cells[|w|..], count := |w|)
  }

  lemma ShiftOne(was: seq<Cell>, now: seq<Cell>, i: nat, n: nat)
    requires 0 < i <= n < |was| == |now| && now[..i] == was[..i] && now[i + 1..n + 1] == was[i..n]
    ensures var after := now[i := now[i - 1]]; after[..i - 1] == was[..i - 1] && after[i..n + 1] == was[i - 1..n]
  {
    var after := now[i := now[i - 1]];
    assert now[..i][i - 1] == was[..i][i - 1];
    assert after[i..n + 1] == [after[i]] + now[i + 1..n + 1];
    assert was[i - 1..n] == [was[i - 1]] + was[i..n];
    assert after[..i - 1] == now[..i][..i - 1];
  }

  class Table {
    const pages: array<Node>
    var numPages: nat
    /** The tree the pages hold. */
    ghost var view: View

    ghost predicate Valid()
      reads this, pages
    {
      && pages.Length == TABLE_MAX_PAGES && 1 <= numPages <= TABLE_MAX_PAGES
      && Shows(pages[..numPages], view) && ViewOk(view)
    }

    /** A new database: one empty root leaf. */
    constructor ()
      ensures Valid() && fresh(pages) && view == Empty()
    {
      pages := new Node[TABLE_MAX_PAGES](_ => Blank(true));
      numPages := 1;
      view := Empty();
      new;
      EmptyOk();
      assert Used(pages[0]) == [];
    }

    /** The leaf a key belongs to, and its lower bound there. */
    method TableFind(key: U32) returns (pg: nat, cell: nat, ghost i: nat)
      requires Valid()
      ensures i == Route(view.seps, key) && pg < numPages && i < |view.leaves|
      ensures (!pages[0].leaf ==> i <= pages[0].count <= |pages[0].kids|) && pg == PageOf(pages[..numPages], i)
      ensures cell == Bound(view.leaves[i], key)
    {
      hide Bound, Route, Ascending, RootShows, Within;
      assert pages[..numPages][0] == pages[0];
      pg := 0;
      i := Route(view.seps, key);
      if !pages[0].leaf {
        assert RootShows(pages[0], view);
        var idx := InternalChildIndex(pages[0], key, view);
        assert pages[0].count <= |pages[0].kids| by { LeafPage(pages[..numPages], view, idx); }
        assert ChildShows(pages[..numPages], view, idx);
        pg := Child(pages[0], idx);
      }
      LeafPage(pages[..numPages], view, i);
      assert LeafOk(view.leaves[i]);
      assert pages[..numPages][pg] == pages[pg];
      cell := LeafLowerBound(pages[pg], key);
    }

    /** Shifts the cells from pos on by one and writes the new cell there. */
    method LeafInsert(pg: nat, pos: nat, c: Cell)
      requires pg < pages.Length && Sized(pages[pg]) && pages[pg].leaf
      requires pos <= pages[pg].count < LEAF_MAX_CELLS
      modifies pages
      ensures IsLeaf(pages[pg], old(Widen(Used(pages[pg]), pos, c)), old(pages[pg].link))
      ensures forall k :: 0 <= k < pages.Length && k != pg ==> pages[k] == old(pages[k])
    {
      var n := pages[pg].count;
      ghost var was := pages[pg];
      var i := n;
      while i > pos
        invariant pos <= i <= n
        invariant pages[pg] == was.(cells := pages[pg].cells) && |pages[pg].cells| == LEAF_MAX_CELLS
        invariant pages[pg].cells[..i] == was.cells[..i] && pages[pg].cells[i + 1..n + 1] == was.cells[i..n]
        invariant forall k :: 0 <= k < pages.Length && k != pg ==> pages[k] == old(pages[k])
      {
        ShiftOne(was.cells, pages[pg].cells, i, n);
        pages[pg] := pages[pg].(cells := pages[pg].cells[i := pages[pg].cells[i - 1]]);
        i := i - 1;
      }
      ghost var moved := pages[pg].cells;
      pages[pg] := pages[pg].(cells := pages[pg].cells[pos := c]);
      pages[pg] := pages[pg].(count := n + 1);
      assert Used(pages[pg]) == moved[..pos] + [c] + moved[pos + 1..n + 1];
    }

    /** Moves the full root leaf into two new leaves and makes the root internal. */
    method SplitRoot(pos: nat, c: Cell)
      requires Valid() && |view.leaves| == 1 && |view.leaves[0]| == LEAF_MAX_CELLS && pos <= LEAF_MAX_CELLS
      requires ViewOk(SplitAt(view, 0, Widen(view.leaves[0], pos, c)))
      modifies this, pages
      ensures Valid() && view == old(SplitAt(view, 0, Widen(view.leaves[0], pos, c)))
    {
      hide ViewOk, SplitAt;
      assert pages[..1][0] == pages[0];
      var leftPg := numPages;
      numPages := numPages + 1;
      var rightPg := numPages;
      numPages := numPages + 1;
      var tmp := Merged(pages[0], pos, c);
      ghost var wide := tmp[..];
      ghost var ps := old(pages[..numPages]);
      pages[leftPg], pages[rightPg] := Blank(true), Blank(true);
      pages[leftPg] := Fill(pages[leftPg], tmp[..LEAF_LEFT_SPLIT]);
      pages[rightPg] := Fill(pages[rightPg], tmp[LEAF_LEFT_SPLIT..]);
      pages[leftPg] := pages[leftPg].(link := rightPg);
      var left := pages[leftPg];
      pages[0] := Blank(false).(count := 1);
      pages[0] := pages[0].(kids := pages[0].kids[0 := Kid(leftPg, left.cells[left.count - 1].key)]);
      pages[0] := pages[0].(link := rightPg);
      assert Used(left) == wide[..LEAF_LEFT_SPLIT];
      assert left.cells[left.count - 1] == Used(left)[left.count - 1];
      RootSplit(ps, view, wide, pages[0], pages[1], pages[2]);
      assert pages[..numPages] == [pages[0], pages[1], pages[2]];
      view := SplitAt(view, 0, wide);
    }

    /** Moves the upper half of a full leaf and the new cell to a new page. */
    method SplitPage(pg: nat, newPg: U32, pos: nat, c: Cell)
      requires pg < pages.Length && newPg < pages.Length && pg != newPg && pages[newPg] == Blank(true)
      requires Sized(pages[pg]) && pages[pg].leaf && pages[pg].count == LEAF_MAX_CELLS && pos <= LEAF_MAX_CELLS
      modifies pages
      ensures IsLeaf(pages[pg], old(Widen(Used(pages[pg]), pos, c))[..LEAF_LEFT_SPLIT], newPg)
      ensures IsLeaf(pages[newPg], old(Widen(Used(pages[pg]), pos, c))[LEAF_LEFT_SPLIT..], old(pages[pg].link))
      ensures forall k :: 0 <= k < pages.Length && k != pg && k != newPg ==> pages[k] == old(pages[k])
    {
      var tmp := Merged(pages[pg], pos, c);
      pages[newPg] := pages[newPg].(link := pages[pg].link);
      pages[pg] := pages[pg].(link := newPg);
      pages[pg] := Fill(pages[pg], tmp[..LEAF_LEFT_SPLIT]);
      pages[newPg] := Fill(pages[newPg], tmp[LEAF_LEFT_SPLIT..]);
    }

    /** Splits a full leaf under the root, unless there is no room for a page. */
    method SplitLeaf(pg: nat, pos: nat, c: Cell, ghost i: nat) returns (res: InsResult)
      requires Valid() && |view.leaves| > 1 && i < |view.leaves| && |view.leaves[i]| == LEAF_MAX_CELLS && pos <= LEAF_MAX_CELLS
      requires i <= pages[0].count <= |pages[0].kids| && pg == Child(pages[0], i)
      requires !Full(view) ==> ViewOk(SplitAt(view, i, Widen(view.leaves[i], pos, c)))
      modifies this, pages
      ensures Valid()
      ensures res == if old(Full(view)) then InsFull else InsOk
      ensures view == if res == InsFull then old(view) else old(SplitAt(view, i, Widen(view.leaves[i], pos, c)))
    {
      hide ViewOk, SplitAt;
      ghost var ps := pages[..numPages];
      assert ps[0] == pages[0] && |ps| == numPages;
      assert ChildShows(ps, view, i);
      assert ps[pg] == pages[pg];
      if pages[0].count >= INTERNAL_MAX_KEYS || numPages + 1 >= TABLE_MAX_PAGES {
        return InsFull;
      }
      var newPg := numPages;
      numPages := numPages + 1;
      pages[newPg] := Blank(true);
      ghost var wide := Widen(view.leaves[i], pos, c);
      SplitPage(pg, newPg, pos, c);
      assert pages[pg].cells[LEAF_LEFT_SPLIT - 1] == Used(pages[pg])[LEAF_LEFT_SPLIT - 1];
      var root := AddChild(pages[0], pg, newPg, pages[pg].cells[pages[pg].count - 1].key, i);
      pages[0] := root;
      LeafSplit(ps, view, i, wide, pages[0], pages[pg], pages[newPg]);
      assert pages[..numPages] == ps[0 := pages[0]][pg := pages[pg]] + [pages[newPg]];
      view := SplitAt(view, i, wide);
      res := InsOk;
    }

    method Insert(r: Row) returns (res: InsResult)
      requires Valid()
      modifies this, pages
      ensures Valid() && (view, res) == BTreeView.Insert(old(view), r)
    {
      hide Bound, Route, ViewOk, Shows, SplitAt;
      var pg, cell, i := TableFind(r.id);
      ghost var ps := pages[..numPages];
      LeafPage(ps, view, i);
      InsertShape(view, r);
      assert ps[pg] == pages[pg] && ps[0] == pages[0];
      var leaf := pages[pg];
      ghost var was := view.leaves[i];
      assert cell < leaf.count ==> leaf.cells[cell] == was[cell];
      if cell < leaf.count && leaf.cells[cell].key == r.id { return InsDup; }
      if leaf.count < LEAF_MAX_CELLS {
        LeafInsert(pg, cell, Cell(r.id, r));
        ghost var w := Widen(was, cell, CellOf(r));
        WriteLeaf(ps, view, i, pg, pages[pg], w);
        assert pages[..numPages] == ps[pg := pages[pg]];
        view := view.(leaves := view.leaves[i := w]);
        return InsOk;
      }
      if pg == 0 {
        SplitRoot(cell, Cell(r.id, r));
        return InsOk;
      }
      res := SplitLeaf(pg, cell, Cell(r.id, r), i);
    }
  }

  /** Registers a new page right after an old one among the root's children. */
  method AddChild(was: Node, leafPg: nat, newPg: U32, max: U32, ghost i: nat) returns (root: Node)
    requires Sized(was) && !was.leaf && was.count < INTERNAL_MAX_KEYS
    requires i <= was.count && leafPg == Child(was, i)
    requires forall j, k :: 0 <= j < k <= was.count ==> Child(was, j) != Child(was, k)
    ensures Sized(root) && !root.leaf && KidAdded(was, root, i, newPg, max)
  {
    root := was;
    var n, idx := was.count, 0;
    while idx <= n && Child(root, idx) != leafPg
      invariant idx <= i
    {
      idx := idx + 1;
    }
    assert idx == i;
    var oldKey := if idx < n then Key(root, idx) else 0;
    var j := n;
    while j > idx
      invariant idx <= j <= n && root == was.(kids := root.kids) && |root.kids| == INTERNAL_MAX_KEYS
      invariant forall k :: 0 <= k <= j < |root.kids| ==> root.kids[k] == was.kids[k]
      invariant forall k :: j < k <= n ==> root.kids[k] == was.kids[k - 1]
    {
      root := root.(kids := root.kids[j := Kid(root.kids[j].child, root.kids[j - 1].key)]);
      root := root.(kids := root.kids[j := Kid(root.kids[j - 1].child, root.kids[j].key)]);
      j := j - 1;
    }
    var oldRight := root.link;
    root := root.(count := n + 1);
    root := root.(kids := root.kids[idx := Kid(leafPg, root.kids[idx].key)]);
    root := root.(kids := root.kids[idx := Kid(root.kids[idx].child, max)]);
    if idx == n {
      root := root.(link := newPg);
    } else {
      root := root.(kids := root.kids[idx + 1 := Kid(newPg, root.kids[idx + 1].key)]);
      root := root.(kids := root.kids[idx + 1 := Kid(root.kids[idx + 1].child, oldKey)]);
      root := root.(link := oldRight);
    }
  }
}
