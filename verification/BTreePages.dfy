/** The pages of a database file and the tree they hold. */
module BTreePages {
  import opened BTreeView

  /** One child slot of an internal page. */
  datatype Kid = Kid(child: U32, key: U32)

  /** A page buffer: header fields and the slots behind them. `link` is the next
      leaf of a leaf and the right child of an internal node. */
  datatype Node = Node(leaf: bool, count: nat, link: U32, cells: seq<Cell>, kids: seq<Kid>)

  function Blank(leaf: bool): Node {
    Node(leaf, 0, 0, seq(LEAF_MAX_CELLS, _ => Cell(0, Row(0, "", ""))), seq(INTERNAL_MAX_KEYS, _ => Kid(0, 0)))
  }

  /** The slots of a page exist, and its count does not exceed them. */
  ghost predicate Sized(n: Node) {
    && |n.cells| == LEAF_MAX_CELLS && |n.kids| == INTERNAL_MAX_KEYS
    && n.count <= (if n.leaf then LEAF_MAX_CELLS else INTERNAL_MAX_KEYS)
  }

  /** The cells in use. */
  function Used(n: Node): seq<Cell>
    requires n.count <= |n.cells|
  {
    n.cells[..n.count]
  }

  /** A child of an internal page; the one past the last key is the right child. */
  function Child(n: Node, i: nat): U32
    requires i <= n.count <= |n.kids|
  {
    if i == n.count then n.link else n.kids[i].child
  }

  function Key(n: Node, i: nat): U32
    requires i < n.count <= |n.kids|
  {
    n.kids[i].key
  }

  ghost predicate IsLeaf(n: Node, cells: seq<Cell>, next: int) {
    Sized(n) && n.leaf && Used(n) == cells && n.link == next
  }

  /** The root page lists one child per leaf and the separators between them. */
  ghost predicate RootShows(r: Node, v: View) {
    && Sized(r) && !r.leaf && |v.leaves| >= 2 && r.count == |v.seps| == |v.leaves| - 1
    && (forall i :: 0 <= i < |v.seps| ==> Key(r, i) == v.seps[i])
    && (forall i, j :: 0 <= i < j <= r.count ==> Child(r, i) != Child(r, j))
  }

  /** The page that follows leaf i in the leaf chain; 0 ends the chain. */
  function After(r: Node, i: nat): int
    requires i <= r.count <= |r.kids|
  {
    if i == r.count then 0 else Child(r, i + 1)
  }

  ghost predicate ChildShows(ps: seq<Node>, v: View, i: nat)
    requires |ps| > 0 && RootShows(ps[0], v) && i < |v.leaves|
  {
    && 1 <= Child(ps[0], i) < |ps|
    && IsLeaf(ps[Child(ps[0], i)], v.leaves[i], After(ps[0], i))
  }

  /** The pages hold exactly this tree: a single root leaf, or a root over leaves
      chained in child order, with no page left over. */
  ghost predicate Shows(ps: seq<Node>, v: View) {
    && |v.seps| == |v.leaves| - 1
    && if |v.leaves| == 1 then |ps| == 1 && IsLeaf(ps[0], v.leaves[0], 0)
       else
         && |ps| == |v.leaves| + 1
         && RootShows(ps[0], v)
         && forall i :: 0 <= i < |v.leaves| ==> ChildShows(ps, v, i)
  }

  /** The page of leaf i. */
  function PageOf(ps: seq<Node>, i: nat): nat
    requires |ps| > 0 && (!ps[0].leaf ==> i <= ps[0].count <= |ps[0].kids|)
  {
    if ps[0].leaf then 0 else Child(ps[0], i)
  }

  /** What is known about the page of one leaf. */
  lemma LeafPage(ps: seq<Node>, v: View, i: nat)
    requires Shows(ps, v) && i < |v.leaves|
    ensures |ps| > 0 && Sized(ps[0]) && (!ps[0].leaf ==> i <= ps[0].count)
    ensures ps[0].leaf <==> |v.leaves| == 1
    ensures PageOf(ps, i) < |ps| && (PageOf(ps, i) == 0 <==> ps[0].leaf)
    ensures IsLeaf(ps[PageOf(ps, i)], v.leaves[i], if i + 1 < |v.leaves| then PageOf(ps, i + 1) else 0)
  {
    if |v.leaves| > 1 {
      assert ChildShows(ps, v, i);
    }
  }

  /** Writing one leaf page changes one leaf of the tree. */
  lemma WriteLeaf(ps: seq<Node>, v: View, i: nat, pg: nat, n: Node, w: seq<Cell>)
    requires Shows(ps, v) && i < |v.leaves| && |ps| > 0 && (!ps[0].leaf ==> i <= ps[0].count <= |ps[0].kids|)
    requires pg == PageOf(ps, i) < |ps| && IsLeaf(n, w, ps[pg].link)
    ensures Shows(ps[pg := n], v.(leaves := v.leaves[i := w]))
  {
    hide IsLeaf;
    LeafPage(ps, v, i);
    var qs, u := ps[pg := n], v.(leaves := v.leaves[i := w]);
    if |v.leaves| > 1 {
      assert ChildShows(ps, v, i);
      assert RootShows(qs[0], u);
      assert IsLeaf(n, w, After(ps[0], i)) by { Linked(ps[pg], v.leaves[i], After(ps[0], i)); }
      forall j | 0 <= j < |u.leaves| ensures ChildShows(qs, u, j) {
        assert ChildShows(ps, v, j);
        assert j != i ==> Child(ps[0], j) != Child(ps[0], i);
      }
    } else {
      Linked(ps[0], v.leaves[0], 0);
    }
  }

  lemma Linked(n: Node, cells: seq<Cell>, next: int)
    requires IsLeaf(n, cells, next)
    ensures n.link == next
  {
  }

  /** A full root leaf becomes a root over two leaves. */
  lemma RootSplit(ps: seq<Node>, v: View, wide: seq<Cell>, root: Node, left: Node, right: Node)
    requires Shows(ps, v) && |v.leaves| == 1 && |wide| == LEAF_MAX_CELLS + 1
    requires IsLeaf(left, wide[..LEAF_LEFT_SPLIT], 2) && IsLeaf(right, wide[LEAF_LEFT_SPLIT..], 0)
    requires Sized(root) && !root.leaf && root.count == 1 && Child(root, 0) == 1 && Child(root, 1) == 2
    requires Key(root, 0) == wide[LEAF_LEFT_SPLIT - 1].key
    ensures Shows([root, left, right], SplitAt(v, 0, wide))
  {
    hide IsLeaf;
    var u := SplitAt(v, 0, wide);
    assert u.leaves == [wide[..LEAF_LEFT_SPLIT], wide[LEAF_LEFT_SPLIT..]];
    assert u.seps == [wide[LEAF_LEFT_SPLIT - 1].key];
    var qs := [root, left, right];
    assert RootShows(qs[0], u);
    assert ChildShows(qs, u, 0);
    assert ChildShows(qs, u, 1);
  }

  /** The root gained a child after slot idx, which now ends at key `max`. */
  ghost predicate KidAdded(r: Node, r': Node, idx: nat, page: U32, max: U32)
    requires Sized(r) && Sized(r') && !r.leaf && !r'.leaf
  {
    && idx <= r.count && r'.count == r.count + 1
    && (forall j :: 0 <= j <= r'.count ==> Child(r', j) == MovedChild(r, idx, page, j))
    && (forall j :: 0 <= j < r'.count ==> Key(r', j) == MovedKey(r, idx, max, j))
  }

  function MovedChild(r: Node, idx: nat, page: U32, j: nat): U32
    requires idx <= r.count <= |r.kids| && j <= r.count + 1
  {
    if j <= idx then Child(r, j) else if j == idx + 1 then page else Child(r, j - 1)
  }

  function MovedKey(r: Node, idx: nat, max: U32, j: nat): U32
    requires idx <= r.count <= |r.kids| && j <= r.count
  {
    if j < idx then Key(r, j) else if j == idx then max else Key(r, j - 1)
  }

  /** A full leaf under the root becomes two leaves, the right one on a new page. */
  lemma LeafSplit(ps: seq<Node>, v: View, i: nat, wide: seq<Cell>, root: Node, left: Node, right: Node)
    requires Shows(ps, v) && |v.leaves| > 1 && i < |v.leaves| && |wide| == LEAF_MAX_CELLS + 1
    requires |ps| < 0x1_0000_0000 && Sized(root) && !root.leaf
    requires KidAdded(ps[0], root, i, |ps|, wide[LEAF_LEFT_SPLIT - 1].key)
    requires IsLeaf(left, wide[..LEAF_LEFT_SPLIT], |ps|) && IsLeaf(right, wide[LEAF_LEFT_SPLIT..], After(ps[0], i))
    ensures Child(ps[0], i) < |ps|
    ensures Shows(ps[0 := root][Child(ps[0], i) := left] + [right], SplitAt(v, i, wide))
  {
    hide IsLeaf, KidAdded, ChildShows;
    ChildPage(ps, v, i);
    var u := SplitAt(v, i, wide);
    var qs := ps[0 := root][Child(ps[0], i) := left] + [right];
    assert qs[0] == root;
    SplitRootShows(ps, v, i, wide, root);
    forall j | 0 <= j < |u.leaves| ensures ChildShows(qs, u, j) {
      SplitChildShows(ps, v, i, wide, qs, u, j);
    }
  }

  lemma ChildPage(ps: seq<Node>, v: View, i: nat)
    requires Shows(ps, v) && |v.leaves| > 1 && i < |v.leaves|
    ensures 1 <= Child(ps[0], i) < |ps| && forall j :: 0 <= j < |v.leaves| && j != i ==> Child(ps[0], j) != Child(ps[0], i)
  {
    hide IsLeaf;
    assert ChildShows(ps, v, i);
  }

  /** Each child of the split tree, one at a time. */
  lemma SplitChildShows(ps: seq<Node>, v: View, i: nat, wide: seq<Cell>, qs: seq<Node>, u: View, j: nat)
    requires Shows(ps, v) && |v.leaves| > 1 && i < |v.leaves| && |wide| == LEAF_MAX_CELLS + 1
    requires u == SplitAt(v, i, wide) && |qs| == |ps| + 1 < 0x1_0000_0001 && RootShows(qs[0], u) && j <= |v.leaves|
    requires KidAdded(ps[0], qs[0], i, |ps|, wide[LEAF_LEFT_SPLIT - 1].key)
    requires forall k :: 0 < k < |ps| && k != Child(ps[0], i) ==> qs[k] == ps[k]
    requires Child(ps[0], i) < |ps| && IsLeaf(qs[Child(ps[0], i)], wide[..LEAF_LEFT_SPLIT], |ps|)
    requires IsLeaf(qs[|ps|], wide[LEAF_LEFT_SPLIT..], After(ps[0], i))
    ensures ChildShows(qs, u, j)
  {
    hide IsLeaf;
    ChildPage(ps, v, i);
    var root := qs[0];
    if j < i {
      assert ChildShows(ps, v, j) && u.leaves[j] == v.leaves[j];
      assert After(root, j) == After(ps[0], j);
    } else if j == i {
      assert u.leaves[j] == wide[..LEAF_LEFT_SPLIT] && After(root, j) == |ps|;
    } else if j == i + 1 {
      assert u.leaves[j] == wide[LEAF_LEFT_SPLIT..] && After(root, j) == After(ps[0], i);
    } else {
      assert ChildShows(ps, v, j - 1) && u.leaves[j] == v.leaves[j - 1];
      assert After(root, j) == After(ps[0], j - 1);
    }
  }

  lemma SplitRootShows(ps: seq<Node>, v: View, i: nat, wide: seq<Cell>, root: Node)
    requires Shows(ps, v) && |v.leaves| > 1 && i < |v.leaves| && |wide| == LEAF_MAX_CELLS + 1
    requires |ps| < 0x1_0000_0000 && Sized(root) && !root.leaf
    requires KidAdded(ps[0], root, i, |ps|, wide[LEAF_LEFT_SPLIT - 1].key)
    ensures RootShows(root, SplitAt(v, i, wide))
  {
    hide IsLeaf;
    var u := SplitAt(v, i, wide);
    forall j | 0 <= j < |u.seps| ensures Key(root, j) == u.seps[j] {
      if j < i {
        assert Key(ps[0], j) == v.seps[j] == u.seps[j];
      } else if j > i {
        assert Key(ps[0], j - 1) == v.seps[j - 1] == u.seps[j];
      }
    }
    forall j, k | 0 <= j < k <= root.count ensures Child(root, j) != Child(root, k) {
      ChildBefore(ps, v, i, root, j, wide[LEAF_LEFT_SPLIT - 1].key);
      ChildBefore(ps, v, i, root, k, wide[LEAF_LEFT_SPLIT - 1].key);
      if j != i + 1 && k != i + 1 {
        assert Child(ps[0], if j <= i then j else j - 1) != Child(ps[0], if k <= i then k else k - 1);
      }
    }
  }

  /** Only slot i + 1 names the new page. */
  lemma ChildBefore(ps: seq<Node>, v: View, i: nat, root: Node, j: nat, max: U32)
    requires Shows(ps, v) && |v.leaves| > 1 && i < |v.leaves|
    requires |ps| < 0x1_0000_0000 && Sized(root) && !root.leaf && j <= root.count
    requires KidAdded(ps[0], root, i, |ps|, max)
    ensures root.count == ps[0].count + 1
    ensures j == i + 1 ==> Child(root, j) == |ps|
    ensures j != i + 1 ==> Child(root, j) == Child(ps[0], if j <= i then j else j - 1) < |ps|
  {
    hide IsLeaf;
    if j != i + 1 {
      assert ChildShows(ps, v, if j <= i then j else j - 1);
    }
  }
}
