/** The B-tree database, seen as its leaves in order and the keys between them. */
module BTreeView {
  const PAGE_SIZE: int := 4096
  const ROW_SIZE: int := 4 + 33 + 256
  const CELL_SIZE: int := 4 + ROW_SIZE
  const HEADER: int := 10
  const LEAF_MAX_CELLS: int := (PAGE_SIZE - HEADER) / CELL_SIZE
  const LEAF_RIGHT_SPLIT: int := (LEAF_MAX_CELLS + 1) / 2
  const LEAF_LEFT_SPLIT: int := LEAF_MAX_CELLS + 1 - LEAF_RIGHT_SPLIT
  const INTERNAL_MAX_KEYS: int := (PAGE_SIZE - HEADER) / 8
  const TABLE_MAX_PAGES: int := 400

  type U32 = x: int | 0 <= x < 0x1_0000_0000

  datatype Row = Row(id: U32, username: string, email: string)

  /** A leaf cell: the key and the serialized row. */
  datatype Cell = Cell(key: U32, row: Row)

  datatype InsResult = InsOk | InsDup | InsFull

  /** Leaves from left to right, and the separator after each but the last. */
  datatype View = View(leaves: seq<seq<Cell>>, seps: seq<U32>)

  ghost predicate Ascending(s: seq<Cell>) { forall i, j :: 0 <= i < j < |s| ==> s[i].key < s[j].key }

  ghost predicate KeysMatch(s: seq<Cell>) { forall i :: 0 <= i < |s| ==> s[i].key == s[i].row.id }

  ghost predicate LeafOk(s: seq<Cell>) { |s| <= LEAF_MAX_CELLS && Ascending(s) && KeysMatch(s) }

  /** Sorted leaves, none empty once there are several, with strictly ascending
      separators that bound the leaves on both sides. */
  ghost predicate ViewOk(v: View) {
    && |v.leaves| >= 1 && |v.seps| == |v.leaves| - 1
    && (forall i :: 0 <= i < |v.leaves| ==> LeafOk(v.leaves[i]))
    && (|v.leaves| > 1 ==> forall i :: 0 <= i < |v.leaves| ==> v.leaves[i] != [])
    && (forall i, j :: 0 <= i < j < |v.seps| ==> v.seps[i] < v.seps[j])
    && (forall i :: 0 <= i < |v.leaves| ==> Within(v.leaves[i], Lo(v.seps, i), Hi(v.seps, i)))
  }

  /** All keys of a leaf lie in (lo, hi]. */
  ghost predicate Within(s: seq<Cell>, lo: int, hi: int) { forall x :: 0 <= x < |s| ==> lo < s[x].key <= hi }

  ghost function Lo(seps: seq<U32>, i: nat): int
    requires i <= |seps|
  {
    if i == 0 then -1 else seps[i - 1]
  }

  ghost function Hi(seps: seq<U32>, i: nat): int
    requires i <= |seps|
  {
    if i == |seps| then 0xFFFF_FFFF else seps[i]
  }

  function Flat(ls: seq<seq<Cell>>): seq<Cell> {
    if ls == [] then [] else Flat(ls[..|ls| - 1]) + ls[|ls| - 1]
  }

  function Rows(s: seq<Cell>): map<U32, Row> {
    if s == [] then map[] else Rows(s[..|s| - 1])[s[|s| - 1].key := s[|s| - 1].row]
  }

  /** The table: rows by id. */
  function Content(v: View): map<U32, Row> { Rows(Flat(v.leaves)) }

  /** The leaf a key belongs to: the first whose separator is not below it. */
  function Route(seps: seq<U32>, key: int): (r: nat)
    ensures r <= |seps|
    ensures forall i :: 0 <= i < r ==> seps[i] < key
    ensures r < |seps| ==> key <= seps[r]
  {
    if seps == [] || key <= seps[0] then 0 else 1 + Route(seps[1..], key)
  }

  /** First cell whose key is not below `key`. */
  function Bound(s: seq<Cell>, key: int): (r: nat)
    ensures r <= |s|
    ensures forall i :: 0 <= i < r ==> s[i].key < key
    ensures r < |s| ==> key <= s[r].key
  {
    if s == [] || key <= s[0].key then 0 else 1 + Bound(s[1..], key)
  }

  function Widen(s: seq<Cell>, pos: nat, c: Cell): seq<Cell>
    requires pos <= |s|
  {
    s[..pos] + [c] + s[pos..]
  }

  function CellOf(r: Row): Cell { Cell(r.id, r) }

  /** No key slot or no page is left for another leaf. */
  predicate Full(v: View) {
    |v.leaves| > 1 && (|v.seps| >= INTERNAL_MAX_KEYS || |v.leaves| + 1 + 1 >= TABLE_MAX_PAGES)
  }

  /** One insertion, as the table performs it. */
  function Insert(v: View, r: Row): (View, InsResult)
    requires |v.seps| == |v.leaves| - 1
  {
    var i := Route(v.seps, r.id);
    var leaf := v.leaves[i];
    var pos := Bound(leaf, r.id);
    if pos < |leaf| && leaf[pos].key == r.id then (v, InsDup)
    else
      var wide := Widen(leaf, pos, CellOf(r));
      if |leaf| < LEAF_MAX_CELLS then (v.(leaves := v.leaves[i := wide]), InsOk)
      else if Full(v) then (v, InsFull)
      else (SplitAt(v, i, wide), InsOk)
  }

  function SplitAt(v: View, i: nat, wide: seq<Cell>): View
    requires i < |v.leaves| && |v.seps| == |v.leaves| - 1
  {
    if |wide| < LEAF_LEFT_SPLIT then v
    else
      var left, right := wide[..LEAF_LEFT_SPLIT], wide[LEAF_LEFT_SPLIT..];
      View(v.leaves[..i] + [left, right] + v.leaves[i + 1..], v.seps[..i] + [left[|left| - 1].key] + v.seps[i..])
  }

  // ----- rows as a map -----

  lemma {:induction false} RowsCat(a: seq<Cell>, b: seq<Cell>)
    ensures Rows(a + b) == Rows(a) + Rows(b)
  {
    if b == [] {
      assert a + b == a;
    } else {
      assert (a + b)[..|a + b| - 1] == a + b[..|b| - 1];
      RowsCat(a, b[..|b| - 1]);
    }
  }

  lemma {:induction false} RowsLack(s: seq<Cell>, key: U32)
    requires Lacks(s, key)
    ensures key !in Rows(s)
  {
    if s != [] {
      RowsLack(s[..|s| - 1], key);
    }
  }

  lemma RowsMiddle(a: seq<Cell>, c: Cell, b: seq<Cell>)
    requires Lacks(b, c.key)
    ensures Rows(a + ([c] + b)) == Rows(a + b)[c.key := c.row]
  {
    hide Rows;
    RowsCat(a, [c] + b);
    RowsCat([c], b);
    RowsCat(a, b);
    RowsLack(b, c.key);
    RowsOne(c);
    MapMiddle(Rows(a), c, Rows(b));
  }

  lemma RowsOne(c: Cell)
    ensures Rows([c]) == map[c.key := c.row]
  {
    assert [c][..0] == [];
  }

  lemma MapMiddle(a: map<U32, Row>, c: Cell, b: map<U32, Row>)
    requires c.key !in b
    ensures a + (map[c.key := c.row] + b) == (a + b)[c.key := c.row]
  {
  }

  lemma {:induction false} FlatCat(a: seq<seq<Cell>>, b: seq<seq<Cell>>)
    ensures Flat(a + b) == Flat(a) + Flat(b)
  {
    if b == [] {
      assert a + b == a;
    } else {
      assert (a + b)[..|a + b| - 1] == a + b[..|b| - 1];
      FlatCat(a, b[..|b| - 1]);
    }
  }

  lemma FlatOne(x: seq<Cell>)
    ensures Flat([x]) == x
  {
    assert [x][..0] == [];
  }

  /** Replacing one leaf by leaves with the concatenation w. */
  lemma FlatReplace(a: seq<seq<Cell>>, mid: seq<seq<Cell>>, b: seq<seq<Cell>>, w: seq<Cell>)
    requires Flat(mid) == w
    ensures Flat(a + mid + b) == Flat(a) + (w + Flat(b))
  {
    hide Flat;
    FlatCat(a + mid, b);
    FlatCat(a, mid);
  }

  // ----- what the order gives -----

  /** Leaves left of the route hold smaller keys, leaves right of it larger ones. */
  lemma RouteSplits(v: View, key: U32, j: nat, x: nat)
    requires ViewOk(v) && j < |v.leaves| && x < |v.leaves[j]|
    ensures j < Route(v.seps, key) ==> v.leaves[j][x].key < key
    ensures j > Route(v.seps, key) ==> key < v.leaves[j][x].key
  {
    hide Route;
    var i := Route(v.seps, key);
    assert Within(v.leaves[j], Lo(v.seps, j), Hi(v.seps, j));
    if j > i {
      assert i == j - 1 || v.seps[i] < v.seps[j - 1];
    }
  }

  lemma {:induction false} FlatHas(ls: seq<seq<Cell>>, k: nat) returns (j: nat, x: nat)
    requires k < |Flat(ls)|
    ensures j < |ls| && x < |ls[j]| && ls[j][x] == Flat(ls)[k]
  {
    var n := |ls| - 1;
    var head := Flat(ls[..n]);
    if k < |head| {
      j, x := FlatHas(ls[..n], k);
    } else {
      j, x := n, k - |head|;
    }
  }

  ghost predicate AllBelow(s: seq<Cell>, key: int) { forall k :: 0 <= k < |s| ==> s[k].key < key }

  ghost predicate AllAbove(s: seq<Cell>, key: int) { forall k :: 0 <= k < |s| ==> key < s[k].key }

  ghost predicate Lacks(s: seq<Cell>, key: int) { forall k :: 0 <= k < |s| ==> s[k].key != key }

  /** Cells left of the routed leaf are below the key, cells right of it above. */
  lemma Beside(v: View, key: U32, i: nat)
    requires ViewOk(v) && i == Route(v.seps, key)
    ensures |v.seps| == |v.leaves| - 1 && AllBelow(Flat(v.leaves[..i]), key) && AllAbove(Flat(v.leaves[i + 1..]), key)
  {
    hide Flat, Route, ViewOk;
    Shape(v);
    var a, b := Flat(v.leaves[..i]), Flat(v.leaves[i + 1..]);
    forall k | 0 <= k < |a| ensures a[k].key < key {
      var j, x := FlatHas(v.leaves[..i], k);
      RouteSplits(v, key, j, x);
    }
    forall k | 0 <= k < |b| ensures key < b[k].key {
      var j, x := FlatHas(v.leaves[i + 1..], k);
      RouteSplits(v, key, i + 1 + j, x);
    }
  }

  lemma Shape(v: View)
    requires ViewOk(v)
    ensures |v.seps| == |v.leaves| - 1 && forall i :: 0 <= i < |v.leaves| ==> LeafOk(v.leaves[i])
  {
  }

  lemma Parts(ls: seq<seq<Cell>>, i: nat)
    requires i < |ls|
    ensures Flat(ls) == Flat(ls[..i]) + (ls[i] + Flat(ls[i + 1..]))
  {
    hide Flat;
    assert ls == ls[..i] + ls[i..];
    assert ls[i..] == [ls[i]] + ls[i + 1..];
    FlatCat(ls[..i], ls[i..]);
    FlatCat([ls[i]], ls[i + 1..]);
    FlatOne(ls[i]);
  }

  /** A key is in the table exactly when it stands at its bound in its leaf. */
  lemma Lookup(v: View, key: U32)
    requires ViewOk(v)
    ensures var leaf := v.leaves[Route(v.seps, key)]; var pos := Bound(leaf, key);
      && (key in Content(v) <==> pos < |leaf| && leaf[pos].key == key)
      && (key in Content(v) ==> Content(v)[key] == leaf[pos].row)
  {
    hide Flat, Route, Bound, Rows, ViewOk;
    Shape(v);
    var i := Route(v.seps, key);
    var leaf := v.leaves[i];
    var pos := Bound(leaf, key);
    var a, b := Flat(v.leaves[..i]), Flat(v.leaves[i + 1..]);
    Parts(v.leaves, i);
    Beside(v, key, i);
    assert Ascending(leaf);
    if pos < |leaf| && leaf[pos].key == key {
      assert pos + 1 < |leaf| ==> leaf[pos + 1].key > key;
      RestLacks(leaf, pos + 1, b, key);
      assert leaf == leaf[..pos] + ([leaf[pos]] + leaf[pos + 1..]);
      assert a + (leaf + b) == (a + leaf[..pos]) + ([leaf[pos]] + (leaf[pos + 1..] + b));
      RowsMiddle(a + leaf[..pos], leaf[pos], leaf[pos + 1..] + b);
    } else {
      NotThere(leaf, key);
      Apart(a, leaf, b, key);
      RowsLack(a + (leaf + b), key);
    }
  }

  lemma NotThere(leaf: seq<Cell>, key: U32)
    requires Ascending(leaf) && (var pos := Bound(leaf, key); !(pos < |leaf| && leaf[pos].key == key))
    ensures Lacks(leaf, key)
  {
    hide Bound;
    var pos := Bound(leaf, key);
    forall x | 0 <= x < |leaf| ensures leaf[x].key != key {
      if x > pos {
        assert leaf[pos].key < leaf[x].key;
      }
    }
  }

  lemma Apart(a: seq<Cell>, s: seq<Cell>, b: seq<Cell>, key: U32)
    requires Lacks(a, key) && Lacks(s, key) && Lacks(b, key)
    ensures Lacks(a + (s + b), key)
  {
  }

  /** Nothing from the bound on, nor in any later leaf, repeats a key just placed or absent. */
  lemma RestLacks(leaf: seq<Cell>, pos: nat, b: seq<Cell>, key: U32)
    requires Ascending(leaf) && pos <= |leaf| && AllAbove(b, key)
    requires pos == 0 || leaf[pos - 1].key <= key
    requires pos < |leaf| ==> leaf[pos].key > key
    ensures Lacks(leaf[pos..] + b, key)
  {
    var r := leaf[pos..];
    forall k | 0 <= k < |r| ensures r[k].key != key {
      assert k == 0 || leaf[pos].key < leaf[pos + k].key;
    }
  }

  /** What one insertion does to the table. */
  lemma InsertContent(v: View, r: Row)
    requires ViewOk(v)
    ensures var (v', res) := Insert(v, r);
      && (res == InsDup <==> r.id in Content(v))
      && Content(v') == (if res == InsOk then Content(v)[r.id := r] else Content(v))
      && (res != InsOk ==> v' == v)
  {
    hide Flat, Route, Bound, Rows, ViewOk, SplitAt;
    Shape(v);
    Lookup(v, r.id);
    var i := Route(v.seps, r.id);
    var leaf := v.leaves[i];
    var pos := Bound(leaf, r.id);
    var (v', res) := Insert(v, r);
    if res == InsOk {
      var wide := Widen(leaf, pos, CellOf(r));
      InsertFlat(v, i, wide);
      var a, b := Flat(v.leaves[..i]), Flat(v.leaves[i + 1..]);
      assert a + (wide + b) == (a + leaf[..pos]) + ([CellOf(r)] + (leaf[pos..] + b));
      assert a + (leaf + b) == (a + leaf[..pos]) + (leaf[pos..] + b);
      Beside(v, r.id, i);
      assert Ascending(leaf);
      RestLacks(leaf, pos, b, r.id);
      RowsMiddle(a + leaf[..pos], CellOf(r), leaf[pos..] + b);
      Parts(v.leaves, i);
    }
  }

  /** Splitting a leaf does not change the sequence of cells. */
  lemma InsertFlat(v: View, i: nat, wide: seq<Cell>)
    requires i < |v.leaves| && |v.seps| == |v.leaves| - 1
    ensures Flat(v.leaves[i := wide]) == Flat(v.leaves[..i]) + (wide + Flat(v.leaves[i + 1..]))
    ensures |wide| >= LEAF_LEFT_SPLIT ==>
      Flat(SplitAt(v, i, wide).leaves) == Flat(v.leaves[..i]) + (wide + Flat(v.leaves[i + 1..]))
  {
    hide Flat;
    assert v.leaves[i := wide] == v.leaves[..i] + [wide] + v.leaves[i + 1..];
    FlatOne(wide);
    FlatReplace(v.leaves[..i], [wide], v.leaves[i + 1..], wide);
    if |wide| >= LEAF_LEFT_SPLIT {
      var left, right := wide[..LEAF_LEFT_SPLIT], wide[LEAF_LEFT_SPLIT..];
      assert [left, right] == [left] + [right];
      FlatCat([left], [right]);
      FlatOne(left);
      FlatOne(right);
      assert left + right == wide;
      FlatReplace(v.leaves[..i], [left, right], v.leaves[i + 1..], wide);
    }
  }

  // ----- the shape is kept -----

  lemma WidenOk(leaf: seq<Cell>, r: Row)
    requires LeafOk(leaf)
    ensures var pos := Bound(leaf, r.id);
      !(pos < |leaf| && leaf[pos].key == r.id) ==>
        Ascending(Widen(leaf, pos, CellOf(r))) && KeysMatch(Widen(leaf, pos, CellOf(r)))
  {
    hide Bound;
    var pos := Bound(leaf, r.id);
    if !(pos < |leaf| && leaf[pos].key == r.id) {
      var a, b := leaf[..pos], leaf[pos..];
      assert KeysMatch(a) && KeysMatch(b) && Ascending(a) && Ascending(b);
      forall k | 0 <= k < |b| ensures r.id < b[k].key {
        assert k == 0 || leaf[pos].key < leaf[pos + k].key;
      }
      Joined(a, CellOf(r), b);
    }
  }

  lemma Joined(a: seq<Cell>, c: Cell, b: seq<Cell>)
    requires Ascending(a) && Ascending(b) && AllBelow(a, c.key) && AllAbove(b, c.key)
    requires KeysMatch(a) && KeysMatch(b) && c.key == c.row.id
    ensures Ascending(a + [c] + b) && KeysMatch(a + [c] + b)
  {
    var w := a + [c] + b;
    forall i, j | 0 <= i < j < |w| ensures w[i].key < w[j].key {
      if i < |a| && j > |a| {
        assert w[i].key < c.key < w[j].key;
      }
    }
  }

  /** The inserted key respects the separators around its leaf. */
  lemma WidenBounded(v: View, r: Row)
    requires ViewOk(v)
    ensures var i := Route(v.seps, r.id); var w := Widen(v.leaves[i], Bound(v.leaves[i], r.id), CellOf(r));
      Within(w, Lo(v.seps, i), Hi(v.seps, i))
  {
    hide Bound, Route;
    var i := Route(v.seps, r.id);
    assert Within(v.leaves[i], Lo(v.seps, i), Hi(v.seps, i));
  }

  lemma InsertShape(v: View, r: Row)
    requires ViewOk(v)
    ensures ViewOk(Insert(v, r).0)
  {
    hide Route, Bound, SplitAt, Flat, ViewOk;
    Shape(v);
    var i := Route(v.seps, r.id);
    var leaf := v.leaves[i];
    var pos := Bound(leaf, r.id);
    var w := Widen(leaf, pos, CellOf(r));
    WidenOk(leaf, r);
    WidenBounded(v, r);
    if !(pos < |leaf| && leaf[pos].key == r.id) {
      if |leaf| < LEAF_MAX_CELLS {
        WideShape(v, i, w);
      } else {
        SplitShape(v, i, w);
      }
    }
  }

  lemma WideShape(v: View, i: nat, w: seq<Cell>)
    requires ViewOk(v) && i < |v.leaves| && LeafOk(w) && w != [] && Within(w, Lo(v.seps, i), Hi(v.seps, i))
    ensures ViewOk(v.(leaves := v.leaves[i := w]))
  {
    hide LeafOk, Within;
  }

  lemma SplitShape(v: View, i: nat, w: seq<Cell>)
    requires ViewOk(v) && i < |v.leaves| && |w| == LEAF_MAX_CELLS + 1 && Ascending(w) && KeysMatch(w)
    requires Within(w, Lo(v.seps, i), Hi(v.seps, i))
    ensures ViewOk(SplitAt(v, i, w))
  {
    hide LeafOk, Within;
    var left, right := w[..LEAF_LEFT_SPLIT], w[LEAF_LEFT_SPLIT..];
    var m := left[|left| - 1].key;
    var s := SplitAt(v, i, w);
    Halves(w, Lo(v.seps, i), Hi(v.seps, i));
    forall j | 0 <= j < |s.leaves| ensures Within(s.leaves[j], Lo(s.seps, j), Hi(s.seps, j)) && LeafOk(s.leaves[j]) && s.leaves[j] != [] {
      if j < i {
        assert s.leaves[j] == v.leaves[j] && Lo(s.seps, j) == Lo(v.seps, j) && Hi(s.seps, j) == Hi(v.seps, j);
      } else if j == i {
        assert s.leaves[j] == left && Lo(s.seps, j) == Lo(v.seps, i) && Hi(s.seps, j) == m;
      } else if j == i + 1 {
        assert s.leaves[j] == right && Lo(s.seps, j) == m && Hi(s.seps, j) == Hi(v.seps, i);
      } else {
        assert s.leaves[j] == v.leaves[j - 1] && Lo(s.seps, j) == Lo(v.seps, j - 1) && Hi(s.seps, j) == Hi(v.seps, j - 1);
      }
    }
    forall j, k | 0 <= j < k < |s.seps| ensures s.seps[j] < s.seps[k] {
      if j == i {
        assert s.seps[k] == v.seps[k - 1] && v.seps[i] <= v.seps[k - 1];
      } else if k == i {
        assert s.seps[j] == v.seps[j] && v.seps[j] <= v.seps[i - 1];
      }
    }
  }

  /** Both halves of a split leaf, on either side of the new separator. */
  lemma Halves(w: seq<Cell>, lo: int, hi: int)
    requires |w| == LEAF_MAX_CELLS + 1 && Ascending(w) && KeysMatch(w) && Within(w, lo, hi)
    ensures var left, right := w[..LEAF_LEFT_SPLIT], w[LEAF_LEFT_SPLIT..]; var m := left[|left| - 1].key;
      && LeafOk(left) && LeafOk(right) && left != [] && right != []
      && Within(left, lo, m) && Within(right, m, hi) && lo < m < hi
  {
    var left, right := w[..LEAF_LEFT_SPLIT], w[LEAF_LEFT_SPLIT..];
    var m := left[|left| - 1].key;
    assert m == w[LEAF_LEFT_SPLIT - 1].key;
    forall x | 0 <= x < |right| ensures m < right[x].key <= hi && right[x].key == right[x].row.id {
      assert right[x] == w[LEAF_LEFT_SPLIT + x];
    }
    forall x | 0 <= x < |left| ensures lo < left[x].key <= m {
      assert left[x] == w[x];
    }
    assert w[LEAF_LEFT_SPLIT].key <= hi;
  }

  // ----- how much the table holds -----

  /** Both halves of a split keep this many cells. */
  const LEAF_MIN_CELLS: int := LEAF_LEFT_SPLIT

  /** No fewer rows than this can be in a table that refuses one. */
  const CAPACITY: int := (TABLE_MAX_PAGES - 3) * LEAF_MIN_CELLS + LEAF_MAX_CELLS

  /** Every leaf of a table with several is half full. */
  ghost predicate Filled(v: View) {
    |v.leaves| > 1 ==> forall i :: 0 <= i < |v.leaves| ==> |v.leaves[i]| >= LEAF_MIN_CELLS
  }

  lemma InsertFilled(v: View, r: Row)
    requires ViewOk(v) && Filled(v)
    ensures Filled(Insert(v, r).0)
  {
    hide Route, Bound, Flat, ViewOk;
    Shape(v);
    var i := Route(v.seps, r.id);
    var w := Widen(v.leaves[i], Bound(v.leaves[i], r.id), CellOf(r));
    if |w| == LEAF_MAX_CELLS + 1 {
      SplitFilled(v, i, w);
    }
  }

  lemma SplitFilled(v: View, i: nat, w: seq<Cell>)
    requires Filled(v) && i < |v.leaves| && |v.seps| == |v.leaves| - 1 && |w| == LEAF_MAX_CELLS + 1
    ensures Filled(SplitAt(v, i, w))
  {
    var s := SplitAt(v, i, w);
    forall j | 0 <= j < |s.leaves| ensures |s.leaves[j]| >= LEAF_MIN_CELLS {
      if j < i {
        assert s.leaves[j] == v.leaves[j];
      } else if j > i + 1 {
        assert s.leaves[j] == v.leaves[j - 1];
      }
    }
  }

  lemma {:induction false} FlatSize(ls: seq<seq<Cell>>)
    requires forall i :: 0 <= i < |ls| ==> |ls[i]| >= LEAF_MIN_CELLS
    ensures |Flat(ls)| >= LEAF_MIN_CELLS * |ls|
  {
    if ls != [] {
      FlatSize(ls[..|ls| - 1]);
    }
  }

  /** A refusal needs a full leaf and 397 others. */
  lemma FullSize(v: View, r: Row)
    requires ViewOk(v) && Filled(v) && Insert(v, r).1 == InsFull
    ensures |Flat(v.leaves)| >= CAPACITY
  {
    hide Route, Bound, Flat, ViewOk;
    Shape(v);
    var i := Route(v.seps, r.id);
    Parts(v.leaves, i);
    FlatSize(v.leaves[..i]);
    FlatSize(v.leaves[i + 1..]);
  }

  /** Different keys make as many rows as cells. */
  lemma {:induction false} RowsSize(s: seq<Cell>)
    requires Ascending(s)
    ensures |Rows(s)| == |s|
  {
    if s != [] {
      var n := |s| - 1;
      RowsSize(s[..n]);
      RowsLack(s[..n], s[n].key);
    }
  }

  // ----- the whole table is sorted -----

  /** All cells, left to right, are in strictly increasing key order. */
  lemma {:induction false} FlatAscending(v: View, k: nat)
    requires ViewOk(v) && k <= |v.leaves|
    ensures Ascending(Flat(v.leaves[..k]))
    ensures k > 0 ==> forall x :: 0 <= x < |Flat(v.leaves[..k])| ==> Flat(v.leaves[..k])[x].key <= Hi(v.seps, k - 1)
  {
    if k > 0 {
      FlatAscending(v, k - 1);
      assert v.leaves[..k][..k - 1] == v.leaves[..k - 1];
      var head, last := Flat(v.leaves[..k - 1]), v.leaves[k - 1];
      assert Flat(v.leaves[..k]) == head + last;
      assert Within(last, Lo(v.seps, k - 1), Hi(v.seps, k - 1));
      if k == 1 {
        assert v.leaves[..0] == [];
      } else {
        assert Hi(v.seps, k - 2) == Lo(v.seps, k - 1) < Hi(v.seps, k - 1) by {
          assert Lo(v.seps, k - 1) < last[0].key <= Hi(v.seps, k - 1);
        }
      }
    }
  }

  lemma Sorted(v: View)
    requires ViewOk(v)
    ensures Ascending(Flat(v.leaves))
  {
    assert v.leaves[..|v.leaves|] == v.leaves;
    FlatAscending(v, |v.leaves|);
  }

  lemma ContentSize(v: View)
    requires ViewOk(v)
    ensures |Content(v)| == |Flat(v.leaves)|
  {
    Sorted(v);
    RowsSize(Flat(v.leaves));
  }

  // ----- whole runs -----

  function Empty(): View { View([[]], []) }

  lemma EmptyOk()
    ensures ViewOk(Empty()) && Filled(Empty()) && Content(Empty()) == map[]
  {
    assert Flat([[]]) == [] by { FlatOne([]); }
  }

  /** Any sequence of insertions, with what each answered. */
  ghost function Run(rows: seq<Row>): (View, seq<InsResult>) {
    if rows == [] then (Empty(), [])
    else
      var (v, rs) := Run(rows[..|rows| - 1]);
      if ViewOk(v) then
        var (v', r) := Insert(v, rows[|rows| - 1]);
        (v', rs + [r])
      else (v, rs + [InsFull])
  }

  /** The map of the accepted rows. */
  function Accepted(rows: seq<Row>, rs: seq<InsResult>): map<U32, Row>
    requires |rows| == |rs|
  {
    if rows == [] then map[]
    else
      var m := Accepted(rows[..|rows| - 1], rs[..|rs| - 1]);
      var r := rows[|rows| - 1];
      if rs[|rs| - 1] == InsOk then m[r.id := r] else m
  }

  /** `InsDup` exactly when the id is already there, for each of the first n answers. */
  ghost predicate DupsRight(rows: seq<Row>, rs: seq<InsResult>, n: nat)
    requires |rows| == |rs| && n <= |rows|
  {
    forall i :: 0 <= i < n ==> (rs[i] == InsDup <==> rows[i].id in Accepted(rows[..i], rs[..i]))
  }

  lemma DupsPrefix(rows: seq<Row>, rs: seq<InsResult>, n: nat)
    requires |rows| == |rs| && n <= |rows| && DupsRight(rows[..n], rs[..n], n)
    ensures DupsRight(rows, rs, n)
  {
    hide Accepted;
    forall i | 0 <= i < n ensures rs[i] == InsDup <==> rows[i].id in Accepted(rows[..i], rs[..i]) {
      assert rows[..n][..i] == rows[..i] && rs[..n][..i] == rs[..i];
      assert rows[..n][i] == rows[i] && rs[..n][i] == rs[i];
    }
  }

  /** `InsFull` only for a new id, and only when the table holds its capacity. */
  ghost predicate FullsRight(rows: seq<Row>, rs: seq<InsResult>, n: nat)
    requires |rows| == |rs| && n <= |rows|
  {
    forall i :: 0 <= i < n && rs[i] == InsFull ==>
      rows[i].id !in Accepted(rows[..i], rs[..i]) && |Accepted(rows[..i], rs[..i])| >= CAPACITY
  }

  lemma FullsPrefix(rows: seq<Row>, rs: seq<InsResult>, n: nat)
    requires |rows| == |rs| && n <= |rows| && FullsRight(rows[..n], rs[..n], n)
    ensures FullsRight(rows, rs, n)
  {
    hide Accepted;
    forall i | 0 <= i < n && rs[i] == InsFull
      ensures rows[i].id !in Accepted(rows[..i], rs[..i]) && |Accepted(rows[..i], rs[..i])| >= CAPACITY
    {
      assert rows[..n][..i] == rows[..i] && rs[..n][..i] == rs[..i];
      assert rows[..n][i] == rows[i] && rs[..n][i] == rs[i];
    }
  }

  /** Every reachable table is a valid tree whose rows are the accepted ones, its
      cells are in increasing order, `InsDup` means the id is already there, and a
      new id is refused only by a table that holds at least 2792 rows. */
  lemma {:induction false} RunContent(rows: seq<Row>)
    ensures var (v, rs) := Run(rows);
      && ViewOk(v) && Filled(v) && |rs| == |rows| && Content(v) == Accepted(rows, rs) && Ascending(Flat(v.leaves))
      && DupsRight(rows, rs, |rows|) && FullsRight(rows, rs, |rows|)
  {
    hide ViewOk, Content, Insert, Flat, Ascending, Filled, Run, Accepted, DupsRight, FullsRight;
    if rows == [] {
      EmptyOk();
      Sorted(Empty());
      RunEmpty();
    } else {
      var n := |rows| - 1;
      RunContent(rows[..n]);
      var (v, rs) := Run(rows[..n]);
      Shape(v);
      InsertShape(v, rows[n]);
      InsertFilled(v, rows[n]);
      RunLast(rows);
      RunAnswers(v, rows, rs);
      Sorted(Insert(v, rows[n]).0);
    }
  }

  lemma RunEmpty()
    ensures Run([]) == (Empty(), []) && Accepted([], []) == map[] && DupsRight([], [], 0) && FullsRight([], [], 0)
  {
  }

  lemma RunLast(rows: seq<Row>)
    requires rows != [] && ViewOk(Run(rows[..|rows| - 1]).0)
    requires var v := Run(rows[..|rows| - 1]).0; |v.seps| == |v.leaves| - 1
    ensures var (v, rs) := Run(rows[..|rows| - 1]); var (v', r) := Insert(v, rows[|rows| - 1]);
      Run(rows) == (v', rs + [r])
  {
    hide ViewOk, Insert;
  }

  /** The last insertion is answered right, and the map follows it. */
  lemma RunAnswers(v: View, rows: seq<Row>, rs: seq<InsResult>)
    requires rows != [] && |rs| == |rows| - 1 && ViewOk(v) && Filled(v) && |v.seps| == |v.leaves| - 1
    requires var before := rows[..|rs|];
      Content(v) == Accepted(before, rs) && DupsRight(before, rs, |rs|) && FullsRight(before, rs, |rs|)
    ensures var (v', r) := Insert(v, rows[|rs|]); var all := rs + [r];
      Content(v') == Accepted(rows, all) && DupsRight(rows, all, |rows|) && FullsRight(rows, all, |rows|)
  {
    hide ViewOk, Content, Insert, Flat, Filled, Accepted, DupsRight, FullsRight;
    var row := rows[|rs|];
    var r := Insert(v, row).1;
    InsertContent(v, row);
    AcceptedNext(rows, rs, r);
    if r == InsFull {
      FullSize(v, row);
      ContentSize(v);
    }
    DupsNext(rows, rs, r);
    FullsNext(rows, rs, r);
  }

  lemma AcceptedNext(rows: seq<Row>, rs: seq<InsResult>, r: InsResult)
    requires |rows| == |rs| + 1
    ensures var m := Accepted(rows[..|rs|], rs); var row := rows[|rs|];
      Accepted(rows, rs + [r]) == if r == InsOk then m[row.id := row] else m
  {
    assert (rs + [r])[..|rs|] == rs;
  }

  lemma DupsNext(rows: seq<Row>, rs: seq<InsResult>, r: InsResult)
    requires |rows| == |rs| + 1 && DupsRight(rows[..|rs|], rs, |rs|)
    requires r == InsDup <==> rows[|rs|].id in Accepted(rows[..|rs|], rs)
    ensures DupsRight(rows, rs + [r], |rows|)
  {
    hide Accepted;
    assert (rs + [r])[..|rs|] == rs;
    DupsPrefix(rows, rs + [r], |rs|);
  }

  lemma FullsNext(rows: seq<Row>, rs: seq<InsResult>, r: InsResult)
    requires |rows| == |rs| + 1 && FullsRight(rows[..|rs|], rs, |rs|)
    requires var m := Accepted(rows[..|rs|], rs); r == InsFull ==> rows[|rs|].id !in m && |m| >= CAPACITY
    ensures FullsRight(rows, rs + [r], |rows|)
  {
    hide Accepted;
    assert (rs + [r])[..|rs|] == rs;
    FullsPrefix(rows, rs + [r], |rs|);
  }
}
