/** A table that refuses a row with no more rows than its capacity: ids that come in
    increasing order leave every leaf but the last half full. */
module BTreeCapacity {
  import opened BTreeView

  function RowOf(i: nat): Row
    requires i < 0x1_0000_0000
  {
    Row(i, "", "")
  }

  /** The rows from lo on, in order. */
  function Span(lo: nat, hi: nat): (s: seq<Cell>)
    requires lo <= hi < 0x1_0000_0000
    ensures |s| == hi - lo && forall x :: 0 <= x < hi - lo ==> s[x] == CellOf(RowOf(lo + x))
  {
    seq(hi - lo, x requires 0 <= x < hi - lo => CellOf(RowOf(lo + x)))
  }

  /** How many leaves of seven the first n rows fill when they come in order. */
  function Steps(n: nat): nat { if n < 7 then 0 else (n - 7) / 7 }

  function Stair(n: nat): (v: View)
    requires n < 0x1_0000_0000
    ensures |v.leaves| == Steps(n) + 1 && |v.seps| == Steps(n)
  {
    View(seq(Steps(n), j requires 0 <= j < Steps(n) => Span(7 * j, 7 * j + 7)) + [Span(7 * Steps(n), n)],
         seq(Steps(n), j requires 0 <= j < Steps(n) => 7 * j + 6))
  }

  /** The next id belongs at the end of the last leaf. */
  lemma StairEnd(n: nat)
    requires n < 0xFFFF_FFFF
    ensures var v, k := Stair(n), Steps(n);
      Route(v.seps, n) == k && v.leaves[k] == Span(7 * k, n) && Bound(v.leaves[k], n) == n - 7 * k
    ensures Widen(Span(7 * Steps(n), n), n - 7 * Steps(n), CellOf(RowOf(n))) == Span(7 * Steps(n), n + 1)
  {
    hide Route, Bound;
    var v, k := Stair(n), Steps(n);
    RouteLast(v.seps, n);
    BoundLast(v.leaves[k], n);
  }

  lemma StairGrows(n: nat)
    requires n < 0xFFFF_FFFF && Steps(n + 1) == Steps(n)
    ensures var v, k := Stair(n), Steps(n); v.(leaves := v.leaves[k := Span(7 * k, n + 1)]) == Stair(n + 1)
  {
    var v, k := Stair(n), Steps(n);
    assert v.leaves[k := Span(7 * k, n + 1)] == Stair(n + 1).leaves;
  }

  lemma StairSplits(n: nat)
    requires n < 0xFFFF_FFFF && Steps(n + 1) == Steps(n) + 1 && n + 1 == 7 * Steps(n) + 14
    ensures SplitAt(Stair(n), Steps(n), Span(7 * Steps(n), n + 1)) == Stair(n + 1)
  {
    var v, k := Stair(n), Steps(n);
    var w := Span(7 * k, n + 1);
    assert w[..7] == Span(7 * k, 7 * k + 7) && w[7..] == Span(7 * k + 7, n + 1);
    assert SplitAt(v, k, w).leaves == Stair(n + 1).leaves;
    assert SplitAt(v, k, w).seps == Stair(n + 1).seps;
  }

  lemma StepsNext(n: nat)
    ensures n - 7 * Steps(n) < 13 ==> Steps(n + 1) == Steps(n)
    ensures n - 7 * Steps(n) >= 13 ==> Steps(n + 1) == Steps(n) + 1 && n + 1 == 7 * Steps(n) + 14
    ensures n < CAPACITY ==> Steps(n) < 398 - 1 || n - 7 * Steps(n) < 13
    ensures n == CAPACITY ==> Steps(n) == 397 && n - 7 * Steps(n) == 13
    ensures 0 <= n - 7 * Steps(n) <= 13
  {
  }

  lemma StairStep(n: nat)
    requires n <= CAPACITY
    ensures n < CAPACITY ==> Insert(Stair(n), RowOf(n)) == (Stair(n + 1), InsOk)
    ensures n == CAPACITY ==> Insert(Stair(n), RowOf(n)) == (Stair(n), InsFull)
  {
    hide Route, Bound, Stair, Span, Steps, SplitAt, Widen;
    StepsNext(n);
    StairEnd(n);
    if n - 7 * Steps(n) < 13 {
      StairGrows(n);
    } else if n < CAPACITY {
      StairSplits(n);
    }
  }

  lemma RouteLast(seps: seq<U32>, key: int)
    requires forall i :: 0 <= i < |seps| ==> seps[i] < key
    ensures Route(seps, key) == |seps|
  {
    var r := Route(seps, key);
  }

  lemma BoundLast(s: seq<Cell>, key: int)
    requires forall i :: 0 <= i < |s| ==> s[i].key < key
    ensures Bound(s, key) == |s|
  {
    var r := Bound(s, key);
  }

  function Upwards(n: nat): seq<Row>
    requires n < 0x1_0000_0000
  {
    seq(n, i requires 0 <= i < n => RowOf(i))
  }

  lemma RunNext(rows: seq<Row>, n: nat)
    requires |rows| == n + 1
    ensures var (v, rs) := Run(rows[..n]);
      ViewOk(v) && |v.seps| == |v.leaves| - 1 && Run(rows) == (Insert(v, rows[n]).0, rs + [Insert(v, rows[n]).1])
  {
    RunContent(rows[..n]);
    hide Insert, Content, Flat, Accepted, Filled, DupsRight, FullsRight, Ascending;
    assert |rows| - 1 == n;
  }

  function Accepts(n: nat): seq<InsResult> { seq(n, _ => InsOk) }

  lemma {:induction false} RunUpwards(n: nat)
    requires n <= CAPACITY
    ensures Run(Upwards(n)) == (Stair(n), Accepts(n))
  {
    if n == 0 {
      assert Stair(0).leaves == [[]] && Stair(0).seps == [];
      assert Upwards(0) == [];
    } else {
      hide Run, Insert, Stair, ViewOk;
      UpwardsNext(n - 1);
      RunUpwards(n - 1);
      RunNext(Upwards(n), n - 1);
      StairStep(n - 1);
      assert Accepts(n - 1) + [InsOk] == Accepts(n);
    }
  }

  lemma Refused(n: nat)
    requires n <= CAPACITY && Insert(Stair(n), RowOf(n)).1 == InsFull
    ensures Run(Upwards(n + 1)).1 == Accepts(n) + [InsFull]
  {
    UpwardsNext(n);
    hide *;
    RunUpwards(n);
    RunNext(Upwards(n + 1), n);
  }

  lemma UpwardsNext(n: nat)
    requires n < 0xFFFF_FFFF
    ensures |Upwards(n + 1)| == n + 1 && Upwards(n + 1)[..n] == Upwards(n) && Upwards(n + 1)[n] == RowOf(n)
  {
  }

  /** Ids in increasing order reach the bound: so many rows are accepted, and the next
      one is refused. */
  lemma FullAtCapacity(n: nat)
    requires n == CAPACITY
    ensures n == 2792 && Run(Upwards(n + 1)).1 == Accepts(n) + [InsFull]
  {
    hide Run, Insert, Stair, Upwards, Accepts;
    StairStep(n);
    Refused(n);
  }
}
