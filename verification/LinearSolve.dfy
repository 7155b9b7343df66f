/** Gaussian elimination with partial pivoting, over exact reals. */
module LinearSolve {
  import opened Wrappers

  type Vec = seq<real>

  /** sum of row[j] * x[j] for lo <= j < hi. */
  function Dot(row: Vec, x: Vec, lo: nat, hi: nat): real
    requires hi <= |row| && hi <= |x|
  {
    if lo >= hi then 0.0 else Dot(row, x, lo, hi - 1) + row[hi - 1] * x[hi - 1]
  }

  /** An augmented row: coefficients, then the right-hand side. */
  ghost predicate Sat(row: Vec, x: Vec) { |row| == |x| + 1 && Dot(row, x, 0, |x|) == row[|x|] }

  ghost predicate AllSat(m: seq<Vec>, x: Vec) { forall r :: 0 <= r < |m| ==> Sat(m[r], x) }

  ghost predicate Shaped(m: seq<Vec>, n: nat) { |m| == n && forall r :: 0 <= r < n ==> |m[r]| == n + 1 }

  /** The same vectors solve both systems. */
  ghost predicate SameSolutions(m: seq<Vec>, m': seq<Vec>) { forall x :: AllSat(m, x) <==> AllSat(m', x) }

  /** Columns before c are zero below the diagonal, and the pivots there are not. */
  ghost predicate Eliminated(m: seq<Vec>, n: nat, c: nat)
    requires Shaped(m, n) && c <= n
  {
    && (forall i, j :: 0 <= j < c && j < i < n ==> m[i][j] == 0.0)
    && (forall i :: 0 <= i < c ==> m[i][i] != 0.0)
  }

  function AbsR(x: real): real { if x < 0.0 then -x else x }

  // ----- row operations keep the solutions -----

  lemma Distribute(f: real, a: real, b: real, x: real, s: real)
    ensures (a - f * b) * x == a * x - f * (b * x)
    ensures f * (s + b * x) == f * s + f * (b * x)
  {
  }

  /** a' is a minus f times b. */
  ghost predicate Combined(a': Vec, a: Vec, f: real, b: Vec, n: nat) {
    |a'| >= n && |a| >= n && |b| >= n && forall j :: 0 <= j < n ==> a'[j] == a[j] - f * b[j]
  }

  lemma {:induction false} DotCombined(a': Vec, a: Vec, f: real, b: Vec, x: Vec, n: nat)
    requires n <= |x| && Combined(a', a, f, b, n)
    ensures Dot(a', x, 0, n) == Dot(a, x, 0, n) - f * Dot(b, x, 0, n)
  {
    if n > 0 {
      DotCombined(a', a, f, b, x, n - 1);
      Distribute(f, a[n - 1], b[n - 1], x[n - 1], Dot(b, x, 0, n - 1));
      assert a'[n - 1] * x[n - 1] == (a[n - 1] - f * b[n - 1]) * x[n - 1];
    }
  }

  // ----- back substitution -----

  lemma {:induction false} DotZero(row: Vec, x: Vec, lo: nat, mid: nat, hi: nat)
    requires lo <= mid <= hi <= |row| && hi <= |x| && forall j :: lo <= j < mid ==> row[j] == 0.0
    ensures Dot(row, x, lo, hi) == Dot(row, x, mid, hi)
    decreases hi
  {
    if hi > mid {
      DotZero(row, x, lo, mid, hi - 1);
    } else if lo < hi {
      DotZero(row, x, lo, mid - 1, hi - 1);
    }
  }

  lemma {:induction false} DotFirst(row: Vec, x: Vec, lo: nat, hi: nat)
    requires lo < hi <= |row| && hi <= |x|
    ensures Dot(row, x, lo, hi) == row[lo] * x[lo] + Dot(row, x, lo + 1, hi)
    decreases hi
  {
    if lo < hi - 1 {
      DotFirst(row, x, lo, hi - 1);
    } else {
      assert Dot(row, x, lo, hi - 1) == 0.0;
    }
  }

  lemma {:induction false} DotSame(row: Vec, x: Vec, y: Vec, lo: nat, hi: nat)
    requires hi <= |row| && hi <= |x| && hi <= |y| && forall j :: lo <= j < hi ==> x[j] == y[j]
    ensures Dot(row, x, lo, hi) == Dot(row, y, lo, hi)
    decreases hi
  {
    if lo < hi {
      DotSame(row, x, y, lo, hi - 1);
    }
  }

  /** In a triangular row, satisfaction fixes the entry at the pivot. */
  lemma PivotRow(row: Vec, x: Vec, i: nat)
    requires i < |x| && |row| == |x| + 1 && row[i] != 0.0 && forall j :: 0 <= j < i ==> row[j] == 0.0
    ensures Sat(row, x) <==> x[i] == (row[|x|] - Dot(row, x, i + 1, |x|)) / row[i]
  {
    hide Dot;
    DotZero(row, x, 0, i, |x|);
    DotFirst(row, x, i, |x|);
    var s := Dot(row, x, i + 1, |x|);
    Divide(row[i], x[i], s, row[|x|]);
  }

  lemma Divide(p: real, x: real, s: real, b: real)
    requires p != 0.0
    ensures p * x + s == b <==> x == (b - s) / p
  {
    var q := (b - s) / p;
    assert q * p == b - s;
    assert (x - q) * p == p * x + s - b;
    if (x - q) * p == 0.0 {
      assert x - q == 0.0 by { NoZeroDivisors(x - q, p); }
    }
  }

  lemma NoZeroDivisors(a: real, p: real)
    requires a * p == 0.0 && p != 0.0
    ensures a == 0.0
  {
    assert a == a * p / p;
  }

  /** A triangular system has at most one solution. */
  lemma {:induction false} Unique(m: seq<Vec>, n: nat, x: Vec, y: Vec, k: nat)
    requires Shaped(m, n) && Eliminated(m, n, n) && |x| == |y| == n && AllSat(m, x) && AllSat(m, y) && k <= n
    ensures forall j :: k <= j < n ==> x[j] == y[j]
    decreases n - k
  {
    if k < n {
      Unique(m, n, x, y, k + 1);
      PivotRow(m[k], x, k);
      PivotRow(m[k], y, k);
      assert Sat(m[k], x) && Sat(m[k], y);
      DotSame(m[k], x, y, k + 1, n);
    }
  }

  /** A row of A and its right-hand side. */
  function Augment(a: seq<Vec>, b: Vec): seq<Vec>
    requires |a| == |b|
  {
    seq(|a|, i requires 0 <= i < |a| => a[i] + [b[i]])
  }

  function Zero(n: nat): Vec { seq(n, _ => 0.0) }

  ghost predicate Square(a: seq<Vec>, n: nat) { |a| == n && forall i :: 0 <= i < n ==> |a[i]| == n }

  /** A x = b. */
  ghost predicate Solves(a: seq<Vec>, b: Vec, x: Vec) {
    |a| == |b| && forall i :: 0 <= i < |a| ==> |a[i]| == |x| && Dot(a[i], x, 0, |x|) == b[i]
  }

  lemma {:induction false} DotPrefix(row: Vec, x: Vec, v: real, lo: nat, hi: nat)
    requires hi <= |row| && hi <= |x|
    ensures Dot(row + [v], x, lo, hi) == Dot(row, x, lo, hi)
    decreases hi
  {
    if lo < hi {
      DotPrefix(row, x, v, lo, hi - 1);
    }
  }

  lemma AugmentSolves(a: seq<Vec>, b: Vec, x: Vec)
    requires |a| == |b| && forall i :: 0 <= i < |a| ==> |a[i]| == |x|
    ensures AllSat(Augment(a, b), x) <==> Solves(a, b, x)
  {
    forall i | 0 <= i < |a| ensures Sat(Augment(a, b)[i], x) <==> Dot(a[i], x, 0, |x|) == b[i] {
      DotPrefix(a[i], x, b[i], 0, |x|);
    }
    if Solves(a, b, x) {
      forall i | 0 <= i < |a| ensures Sat(Augment(a, b)[i], x) {
        assert Dot(a[i], x, 0, |x|) == b[i];
      }
    }
    if AllSat(Augment(a, b), x) {
      forall i | 0 <= i < |a| ensures Dot(a[i], x, 0, |x|) == b[i] {
        assert Sat(Augment(a, b)[i], x);
      }
    }
  }

  // ----- the elimination -----

  const TINY: real := 0.000000000001

  /** The first of the rows from c on with the largest entry in column c. */
  function Best(m: seq<Vec>, c: nat, hi: nat): (p: nat)
    requires c < hi <= |m| && forall r :: 0 <= r < |m| ==> c < |m[r]|
    ensures c <= p < hi && forall r :: c <= r < hi ==> AbsR(m[r][c]) <= AbsR(m[p][c])
    ensures forall r :: c <= r < p ==> AbsR(m[r][c]) < AbsR(m[p][c])
  {
    if hi == c + 1 then c
    else
      var p := Best(m, c, hi - 1);
      if AbsR(m[hi - 1][c]) > AbsR(m[p][c]) then hi - 1 else p
  }

  function Swap(m: seq<Vec>, p: nat, c: nat): seq<Vec>
    requires p < |m| && c < |m|
  {
    m[c := m[p]][p := m[c]]
  }

  /** Row r less what clears its entry in column c. */
  function Lowered(m: seq<Vec>, n: nat, r: nat, c: nat): (v: Vec)
    requires Shaped(m, n) && c < n && r < n && m[c][c] != 0.0
    ensures |v| == n + 1
  {
    seq(n + 1, j requires 0 <= j <= n => if j < c then m[r][j] else m[r][j] - m[r][c] / m[c][c] * m[c][j])
  }

  function Cleared(m: seq<Vec>, n: nat, c: nat): (m': seq<Vec>)
    requires Shaped(m, n) && c < n && m[c][c] != 0.0
    ensures Shaped(m', n)
  {
    seq(n, r requires 0 <= r < n => if r <= c then m[r] else Lowered(m, n, r, c))
  }

  /** The triangular system, or None as soon as a column has only tiny entries left. */
  function Reduce(m: seq<Vec>, n: nat, c: nat): (r: Option<seq<Vec>>)
    requires Shaped(m, n) && c <= n
    ensures r.Some? ==> Shaped(r.value, n)
    decreases n - c
  {
    if c == n then Some(m)
    else
      var p := Best(m, c, n);
      if AbsR(m[p][c]) < TINY then None else Reduce(Cleared(Swap(m, p, c), n, c), n, c + 1)
  }

  ghost predicate InKernel(m: seq<Vec>, u: Vec) {
    forall r :: 0 <= r < |m| ==> |m[r]| == |u| && Dot(m[r], u, 0, |u|) == 0.0
  }

  /** The rows are orthogonal to the same vectors: they span the same space. Systems
      with no solution at all are still told apart by this. */
  ghost predicate SameRowSpace(m: seq<Vec>, m': seq<Vec>) { forall u :: InKernel(m, u) <==> InKernel(m', u) }

  /** One step of elimination clears one more column and keeps the row space. */
  lemma ClearedOk(m: seq<Vec>, n: nat, c: nat)
    requires Shaped(m, n) && c < n && Eliminated(m, n, c) && m[c][c] != 0.0
    ensures Eliminated(Cleared(m, n, c), n, c + 1) && SameRowSpace(m, Cleared(m, n, c))
  {
    var m' := Cleared(m, n, c);
    assert Eliminated(m', n, c + 1) by {
      forall i | c < i < n ensures m'[i][c] == 0.0 {
        Cancels(m[i][c], m[c][c]);
      }
    }
    forall u ensures InKernel(m, u) <==> InKernel(m', u) {
      if |u| == n + 1 {
        hide Dot;
        forall r | c < r < n ensures Dot(m'[r], u, 0, n + 1) == Dot(m[r], u, 0, n + 1) - m[r][c] / m[c][c] * Dot(m[c], u, 0, n + 1) {
          LoweredDot(m, n, r, c, u);
        }
        KernelSame(m, m', n, c, u);
      } else {
        assert |m[c]| != |u| && |m'[c]| != |u|;
      }
    }
  }

  lemma LoweredDot(m: seq<Vec>, n: nat, r: nat, c: nat, u: Vec)
    requires Shaped(m, n) && c < n && r < n && m[c][c] != 0.0 && |u| == n + 1
    requires forall j :: 0 <= j < c ==> m[c][j] == 0.0
    ensures Dot(Lowered(m, n, r, c), u, 0, n + 1) == Dot(m[r], u, 0, n + 1) - m[r][c] / m[c][c] * Dot(m[c], u, 0, n + 1)
  {
    hide Dot;
    var f := m[r][c] / m[c][c];
    var v := Lowered(m, n, r, c);
    forall j | 0 <= j <= n ensures v[j] == m[r][j] - f * m[c][j] {
      if j < c {
        assert f * m[c][j] == f * 0.0 == 0.0;
      }
    }
    DotCombined(v, m[r], f, m[c], u, n + 1);
  }

  lemma KernelSame(m: seq<Vec>, m': seq<Vec>, n: nat, c: nat, u: Vec)
    requires Shaped(m, n) && Shaped(m', n) && c < n && |u| == n + 1 && m[c][c] != 0.0 && forall r :: 0 <= r <= c ==> m'[r] == m[r]
    requires forall r :: c < r < n ==> Dot(m'[r], u, 0, n + 1) == Dot(m[r], u, 0, n + 1) - m[r][c] / m[c][c] * Dot(m[c], u, 0, n + 1)
    ensures InKernel(m, u) <==> InKernel(m', u)
  {
    hide Dot;
    if InKernel(m, u) {
      assert Dot(m[c], u, 0, |u|) == 0.0;
      forall r | 0 <= r < n ensures Dot(m'[r], u, 0, |u|) == 0.0 {
        assert Dot(m[r], u, 0, |u|) == 0.0;
      }
    }
    if InKernel(m', u) {
      assert Dot(m'[c], u, 0, |u|) == 0.0;
      forall r | 0 <= r < n ensures Dot(m[r], u, 0, |u|) == 0.0 {
        assert Dot(m'[r], u, 0, |u|) == 0.0;
      }
    }
  }

  lemma SwapOk(m: seq<Vec>, n: nat, p: nat, c: nat)
    requires Shaped(m, n) && c <= p < n && Eliminated(m, n, c)
    ensures Shaped(Swap(m, p, c), n) && Eliminated(Swap(m, p, c), n, c) && SameRowSpace(m, Swap(m, p, c))
  {
    var m' := Swap(m, p, c);
    forall u ensures InKernel(m, u) <==> InKernel(m', u) {
      if InKernel(m', u) {
        forall r | 0 <= r < n ensures |m[r]| == |u| && Dot(m[r], u, 0, |u|) == 0.0 {
          assert Dot(m'[r], u, 0, |u|) == 0.0 && Dot(m'[p], u, 0, |u|) == 0.0 && Dot(m'[c], u, 0, |u|) == 0.0;
        }
      }
    }
  }

  /** A system that elimination completes is triangular and has the same row space. */
  lemma {:induction false} ReduceMeans(m: seq<Vec>, n: nat, c: nat)
    requires Shaped(m, n) && c <= n && Eliminated(m, n, c) && Reduce(m, n, c).Some?
    ensures Eliminated(Reduce(m, n, c).value, n, n) && SameRowSpace(m, Reduce(m, n, c).value)
    decreases n - c
  {
    if c < n {
      var p := Best(m, c, n);
      SwapOk(m, n, p, c);
      var m1 := Swap(m, p, c);
      ClearedOk(m1, n, c);
      ReduceMeans(Cleared(m1, n, c), n, c + 1);
    }
  }

  // ----- what giving up means -----

  /** Rows before c take u to zero and no row takes it to TINY or more. Nothing is said
      about right-hand sides: u ends in zero. */
  ghost predicate Shrinks(m: seq<Vec>, n: nat, c: nat, u: Vec) {
    && Shaped(m, n) && c <= n && |u| == n + 1 && u[n] == 0.0
    && (forall r :: 0 <= r < n ==> AbsR(Dot(m[r], u, 0, n + 1)) < TINY)
    && (forall r :: 0 <= r < c ==> Dot(m[r], u, 0, n + 1) == 0.0)
  }

  /** At a column of tiny entries: one in that column, and before it whatever the
      triangular rows need. */
  lemma {:induction false} TinyColumn(m: seq<Vec>, n: nat, c: nat) returns (u: Vec)
    requires Shaped(m, n) && c < n && Eliminated(m, n, c) && forall r :: c <= r < n ==> AbsR(m[r][c]) < TINY
    ensures Shrinks(m, n, c, u) && u[c] == 1.0
  {
    u := Upwards(m, n, c, c);
    forall r | 0 <= r < n ensures AbsR(Dot(m[r], u, 0, n + 1)) < TINY {
      if r >= c {
        DotZero(m[r], u, 0, c, n + 1);
        DotFirst(m[r], u, c, n + 1);
        DotVanishes(m[r], u, c + 1, n + 1);
      }
    }
  }

  /** Back substitution above column c, from row c - 1 down to row i. */
  lemma {:induction false} Upwards(m: seq<Vec>, n: nat, c: nat, i: nat) returns (u: Vec)
    requires Shaped(m, n) && c < n && Eliminated(m, n, c) && i <= c
    ensures |u| == n + 1 && u[c] == 1.0 && (forall j :: c < j <= n ==> u[j] == 0.0)
    ensures forall r :: c - i <= r < c ==> Dot(m[r], u, 0, n + 1) == 0.0
    decreases i
  {
    if i == 0 {
      u := seq(n + 1, j => if j == c then 1.0 else 0.0);
    } else {
      var was := Upwards(m, n, c, i - 1);
      var k := c - i;
      u := was[k := -Dot(m[k], was, k + 1, n + 1) / m[k][k]];
      forall r | k < r < c ensures Dot(m[r], u, 0, n + 1) == 0.0 {
        hide Dot;
        DotZero(m[r], u, 0, r, n + 1);
        DotZero(m[r], was, 0, r, n + 1);
        DotSame(m[r], u, was, r, n + 1);
      }
      RowVanishes(m[k], was, k, n + 1);
    }
  }

  /** The entry at the pivot that makes a triangular row vanish. */
  lemma RowVanishes(row: Vec, x: Vec, k: nat, n: nat)
    requires k < n && |row| == n && |x| == n && row[k] != 0.0 && forall j :: 0 <= j < k ==> row[j] == 0.0
    ensures Dot(row, x[k := -Dot(row, x, k + 1, n) / row[k]], 0, n) == 0.0
  {
    hide Dot;
    var s := Dot(row, x, k + 1, n);
    var u := x[k := -s / row[k]];
    DotZero(row, u, 0, k, n);
    DotFirst(row, u, k, n);
    DotSame(row, u, x, k + 1, n);
    PivotCancels(row[k], s);
  }

  lemma PivotCancels(p: real, s: real)
    requires p != 0.0
    ensures p * (-s / p) + s == 0.0
  {
  }

  lemma {:induction false} DotVanishes(row: Vec, x: Vec, lo: nat, hi: nat)
    requires hi <= |row| && hi <= |x| && forall j :: lo <= j < hi ==> x[j] == 0.0
    ensures Dot(row, x, lo, hi) == 0.0
    decreases hi
  {
    if lo < hi {
      DotVanishes(row, x, lo, hi - 1);
    }
  }

  /** Elimination gives up only if some combination of columns, one of them taken
      once, is tiny in every row. Clearing takes multiples of a pivot row from others,
      and the combination takes pivot rows to zero, so no entry of it is changed. */
  lemma {:induction false} ReduceFails(m: seq<Vec>, n: nat, c: nat) returns (u: Vec, k: nat)
    requires Shaped(m, n) && c <= n && Eliminated(m, n, c) && Reduce(m, n, c) == None
    ensures k < n && Shrinks(m, n, c, u) && u[k] == 1.0
    decreases n - c
  {
    hide Dot, SameRowSpace;
    var p := Best(m, c, n);
    if AbsR(m[p][c]) < TINY {
      k := c;
      u := TinyColumn(m, n, c);
    } else {
      SwapOk(m, n, p, c);
      var m1 := Swap(m, p, c);
      ClearedOk(m1, n, c);
      u, k := ReduceFails(Cleared(m1, n, c), n, c + 1);
      Unclear(m1, n, c, u);
      Unswap(m, n, p, c, u);
    }
  }

  lemma Unclear(m: seq<Vec>, n: nat, c: nat, u: Vec)
    requires Shaped(m, n) && c < n && Eliminated(m, n, c) && m[c][c] != 0.0 && Shrinks(Cleared(m, n, c), n, c + 1, u)
    ensures Shrinks(m, n, c + 1, u)
  {
    hide Dot;
    var m' := Cleared(m, n, c);
    assert m'[c] == m[c];
    forall r | 0 <= r < n ensures Dot(m'[r], u, 0, n + 1) == Dot(m[r], u, 0, n + 1) {
      if r > c {
        LoweredDot(m, n, r, c, u);
      }
    }
  }

  lemma Unswap(m: seq<Vec>, n: nat, p: nat, c: nat, u: Vec)
    requires Shaped(m, n) && c <= p < n && Shrinks(Swap(m, p, c), n, c + 1, u)
    ensures Shrinks(m, n, c, u)
  {
    hide Dot;
    var m' := Swap(m, p, c);
    forall r | 0 <= r < n ensures m[r] == m'[if r == c then p else if r == p then c else r] {
    }
  }

  /** Some combination of the columns of A, one of them taken exactly once, is under
      TINY in every entry: A is singular up to a change of one column by less than TINY. */
  ghost predicate NearlySingular(a: seq<Vec>) { exists z: Vec, c: nat :: Combines(a, z, c) }

  ghost predicate Combines(a: seq<Vec>, z: Vec, c: nat) {
    && |z| == |a| && c < |a| && z[c] == 1.0
    && forall r :: 0 <= r < |a| ==> |a[r]| == |a| && AbsR(Dot(a[r], z, 0, |a|)) < 0.000000000001
  }

  /** Whether elimination completes; it does not depend on the right-hand side. */
  ghost predicate Eliminates(a: seq<Vec>)
    requires Square(a, |a|)
  {
    Reduce(Augment(a, Zero(|a|)), |a|, 0).Some?
  }

  lemma FailsNearly(a: seq<Vec>)
    requires Square(a, |a|) && !Eliminates(a)
    ensures NearlySingular(a)
  {
    var n := |a|;
    var u, c := ReduceFails(Augment(a, Zero(n)), n, 0);
    var z := u[..n];
    forall r | 0 <= r < n ensures AbsR(Dot(a[r], z, 0, n)) < TINY {
      var row := a[r] + [0.0];
      assert Augment(a, Zero(n))[r] == row;
      DotSame(row, u, z, 0, n);
      DotPrefix(a[r], z, 0.0, 0, n);
    }
    assert Combines(a, z, c);
  }

  /** Two systems with the same coefficients. */
  ghost predicate SameLeft(m: seq<Vec>, m': seq<Vec>, n: nat) {
    Shaped(m, n) && Shaped(m', n) && forall r, j :: 0 <= r < n && 0 <= j < n ==> m[r][j] == m'[r][j]
  }

  lemma {:induction false} RightIsFree(m: seq<Vec>, m': seq<Vec>, n: nat, c: nat)
    requires SameLeft(m, m', n) && c <= n
    ensures Reduce(m, n, c).Some? <==> Reduce(m', n, c).Some?
    decreases n - c
  {
    if c < n {
      BestSame(m, m', n, c, n);
      var p := Best(m, c, n);
      if AbsR(m[p][c]) >= TINY {
        var m1, m1' := Swap(m, p, c), Swap(m', p, c);
        assert SameLeft(m1, m1', n);
        ClearedSame(m1, m1', n, c);
        RightIsFree(Cleared(m1, n, c), Cleared(m1', n, c), n, c + 1);
      }
    }
  }

  lemma ClearedSame(m: seq<Vec>, m': seq<Vec>, n: nat, c: nat)
    requires SameLeft(m, m', n) && c < n && m[c][c] != 0.0
    ensures SameLeft(Cleared(m, n, c), Cleared(m', n, c), n)
  {
    var x, y := Cleared(m, n, c), Cleared(m', n, c);
    forall r, j | 0 <= r < n && 0 <= j < n ensures x[r][j] == y[r][j] {
      if r > c {
        LoweredAt(m, n, r, c, j);
        LoweredAt(m', n, r, c, j);
      }
    }
  }

  lemma LoweredAt(m: seq<Vec>, n: nat, r: nat, c: nat, j: nat)
    requires Shaped(m, n) && c < r < n && j <= n && m[c][c] != 0.0
    ensures Cleared(m, n, c)[r][j] == if j < c then m[r][j] else m[r][j] - m[r][c] / m[c][c] * m[c][j]
  {
  }

  lemma {:induction false} BestSame(m: seq<Vec>, m': seq<Vec>, n: nat, c: nat, hi: nat)
    requires SameLeft(m, m', n) && c < hi <= n
    ensures Best(m, c, hi) == Best(m', c, hi)
    decreases hi
  {
    if hi > c + 1 {
      BestSame(m, m', n, c, hi - 1);
    }
  }

  lemma AnyRight(a: seq<Vec>, b: Vec)
    requires Square(a, |a|) && |b| == |a|
    ensures Reduce(Augment(a, b), |a|, 0).Some? <==> Eliminates(a)
  {
    var m, m', n := Augment(a, b), Augment(a, Zero(|a|)), |a|;
    forall r, j | 0 <= r < n && 0 <= j < n ensures m[r][j] == m'[r][j] {
      assert m[r][j] == a[r][j];
    }
    RightIsFree(m, m', n, 0);
  }

  /** Rows that span the same space are satisfied by the same vectors. */
  lemma RowSpaceSolutions(m: seq<Vec>, m': seq<Vec>, n: nat)
    requires Shaped(m, n) && Shaped(m', n) && SameRowSpace(m, m')
    ensures SameSolutions(m, m')
  {
    forall x ensures AllSat(m, x) <==> AllSat(m', x) {
      if |x| == n {
        SatKernel(m, n, x);
        SatKernel(m', n, x);
      } else if n > 0 {
        assert !Sat(m[0], x) && !Sat(m'[0], x);
      }
    }
  }

  /** A solution followed by -1 is orthogonal to the augmented rows. */
  lemma SatKernel(m: seq<Vec>, n: nat, x: Vec)
    requires Shaped(m, n) && |x| == n
    ensures AllSat(m, x) <==> InKernel(m, x + [-1.0])
  {
    var u := x + [-1.0];
    forall r | 0 <= r < n ensures Sat(m[r], x) <==> Dot(m[r], u, 0, n + 1) == 0.0 {
      DotSame(m[r], u, x, 0, n);
    }
    if AllSat(m, x) {
      forall r | 0 <= r < n ensures Dot(m[r], u, 0, n + 1) == 0.0 {
        assert Sat(m[r], x);
      }
    }
    if InKernel(m, u) {
      forall r | 0 <= r < n ensures Sat(m[r], x) {
        assert Dot(m[r], u, 0, |u|) == 0.0;
      }
    }
  }

  lemma Cancels(a: real, p: real)
    requires p != 0.0
    ensures a - a / p * p == 0.0
  {
  }

  // ----- the algorithm -----

  /** The row at or below c with the largest entry in column c, the first of equals. */
  method Pivot(m: seq<Vec>, n: nat, c: nat) returns (p: nat)
    requires Shaped(m, n) && c < n
    ensures c <= p < n && forall r :: c <= r < n ==> AbsR(m[r][c]) <= AbsR(m[p][c])
    ensures p == Best(m, c, n)
  {
    p := c;
    var r := c + 1;
    while r < n
      invariant c < r <= n && p == Best(m, c, r)
    {
      if AbsR(m[r][c]) > AbsR(m[p][c]) { p := r; }
      r := r + 1;
    }
  }

  /** Row r minus f times row c, from column c on. */
  method Subtract(m: seq<Vec>, n: nat, r: nat, c: nat, f: real) returns (m': seq<Vec>)
    requires Shaped(m, n) && c < r < n
    ensures Shaped(m', n) && m' == m[r := m'[r]]
    ensures forall j :: 0 <= j <= n ==> m'[r][j] == if j < c then m[r][j] else m[r][j] - f * m[c][j]
  {
    m' := m;
    var j := c;
    while j <= n
      invariant c <= j <= n + 1 && Shaped(m', n) && m' == m[r := m'[r]]
      invariant forall k :: c <= k < j ==> m'[r][k] == m[r][k] - f * m[c][k]
      invariant forall k :: 0 <= k < c || j <= k <= n ==> m'[r][k] == m[r][k]
    {
      m' := m'[r := m'[r][j := m'[r][j] - f * m'[c][j]]];
      j := j + 1;
    }
  }

  /** Clears column c below the pivot. */
  method ClearColumn(m: seq<Vec>, n: nat, c: nat) returns (m': seq<Vec>)
    requires Shaped(m, n) && c < n && m[c][c] != 0.0
    ensures m' == Cleared(m, n, c)
  {
    m' := m;
    var r := c + 1;
    while r < n
      invariant c < r <= n && Shaped(m', n)
      invariant forall i :: 0 <= i < n ==> m'[i] == if c < i < r then Lowered(m, n, i, c) else m[i]
    {
      var f := m'[r][c] / m'[c][c];
      assert m'[r] == m[r] && m'[c] == m[c];
      m' := Subtract(m', n, r, c, f);
      ghost var lowered := Lowered(m, n, r, c);
      assert forall j :: 0 <= j <= n ==> m'[r][j] == lowered[j];
      assert m'[r] == lowered;
      r := r + 1;
    }
  }

  /** The only vector that A takes to zero is zero. */
  ghost predicate Regular(a: seq<Vec>) { forall z :: |z| == |a| && InKernel(a, z) ==> z == Zero(|a|) }

  /** On success, the one and only x with A x = b. It succeeds exactly if elimination
      of A completes, whatever b is: always fails if A is singular, and never unless A
      is singular up to TINY. */
  method Solve(a: seq<Vec>, b: Vec) returns (r: Option<Vec>)
    requires Square(a, |a|) && |b| == |a|
    ensures r.Some? <==> Eliminates(a)
    ensures r.None? ==> NearlySingular(a)
    ensures r.Some? ==> |r.value| == |a| && Solves(a, b, r.value)
    ensures r.Some? ==> forall y :: |y| == |a| && Solves(a, b, y) ==> y == r.value
    ensures r.Some? ==> Regular(a)
  {
    hide Best, Swap, Cleared, SameRowSpace;
    var n := |a|;
    var m := Augment(a, b);
    AnyRight(a, b);
    if Eliminates(a) {
      ReduceMeans(m, n, 0);
    } else {
      FailsNearly(a);
    }
    var c := 0;
    while c < n
      invariant c <= n && Shaped(m, n) && Reduce(Augment(a, b), n, 0) == Reduce(m, n, c)
    {
      var p := Pivot(m, n, c);
      if AbsR(m[p][c]) < TINY { return None; }
      Swaps(m, p, c);
      m := Swap(m, p, c);
      m := ClearColumn(m, n, c);
      c := c + 1;
    }
    var x := BackSubstitute(m, n);
    RowSpaceSolutions(Augment(a, b), m, n);
    AugmentSolves(a, b, x);
    forall y | |y| == n && Solves(a, b, y) ensures y == x {
      AugmentSolves(a, b, y);
      Unique(m, n, x, y, 0);
    }
    UniqueRegular(a, b, x);
    return Some(x);
  }

  /** Regular is not enough: a system of one equation with a small coefficient has
      one solution, and is rejected. */
  lemma SmallIsRejected(v: real, b: real)
    requires 0.0 < v < TINY
    ensures Regular([[v]]) && Reduce(Augment([[v]], [b]), 1, 0) == None
  {
    var a := [[v]];
    forall z: Vec | |z| == 1 && InKernel(a, z) ensures z == Zero(1) {
      assert Dot(a[0], z, 0, 1) == v * z[0];
      NoZeroDivisors(z[0], v);
    }
  }

  /** And singular up to TINY is not enough to be rejected: the second pivot here is
      one and a half times TINY, of which a combination of the columns leaves half in
      either row. */
  lemma NearIsSolved()
    ensures var a := [[1.0, 1.0], [1.0, 1.0 + 1.5 * TINY]]; NearlySingular(a) && Eliminates(a)
  {
    var e := 1.5 * TINY;
    var a := [[1.0, 1.0], [1.0, 1.0 + e]];
    var w := [-1.0 - 0.5 * e, 1.0];
    assert Dot(a[0], w, 0, 1) == -1.0 - 0.5 * e && Dot(a[1], w, 0, 1) == -1.0 - 0.5 * e;
    assert Dot(a[0], w, 0, 2) == -0.5 * e && Dot(a[1], w, 0, 2) == 0.5 * e;
    assert Combines(a, w, 1);
    var m := Augment(a, Zero(2));
    assert a[0] + [0.0] == [1.0, 1.0, 0.0] && a[1] + [0.0] == [1.0, 1.0 + e, 0.0];
    assert m == [[1.0, 1.0, 0.0], [1.0, 1.0 + e, 0.0]];
    assert Best(m, 0, 2) == 0;
    var m1 := Cleared(Swap(m, 0, 0), 2, 0);
    assert m1[1][1] == e;
    assert Best(m1, 1, 2) == 1;
  }

  lemma Swaps(m: seq<Vec>, p: nat, c: nat)
    requires p < |m| && c < |m|
    ensures Swap(m, p, c)[c] == m[p] && |Swap(m, p, c)| == |m|
    ensures forall n :: Shaped(m, n) ==> Shaped(Swap(m, p, c), n)
  {
  }

  /** Adding a vector that A takes to zero gives another solution. */
  lemma UniqueRegular(a: seq<Vec>, b: Vec, x: Vec)
    requires Square(a, |a|) && |x| == |a| && Solves(a, b, x) && forall y :: |y| == |a| && Solves(a, b, y) ==> y == x
    ensures Regular(a)
  {
    var n := |a|;
    forall z | |z| == n && InKernel(a, z) ensures z == Zero(n) {
      var y := seq(n, i requires 0 <= i < n => x[i] + z[i]);
      forall i | 0 <= i < n ensures Dot(a[i], y, 0, n) == b[i] {
        DotSum(a[i], x, z, y, n);
        assert Dot(a[i], z, 0, |z|) == 0.0;
      }
      assert Solves(a, b, y);
      forall i | 0 <= i < n ensures z[i] == 0.0 {
        assert y[i] == x[i];
      }
    }
  }

  lemma {:induction false} DotSum(row: Vec, x: Vec, z: Vec, y: Vec, n: nat)
    requires n <= |row| && n <= |x| && n <= |z| && n <= |y| && forall j :: 0 <= j < n ==> y[j] == x[j] + z[j]
    ensures Dot(row, y, 0, n) == Dot(row, x, 0, n) + Dot(row, z, 0, n)
  {
    if n > 0 {
      DotSum(row, x, z, y, n - 1);
      assert row[n - 1] * y[n - 1] == row[n - 1] * x[n - 1] + row[n - 1] * z[n - 1];
    }
  }

  method BackSubstitute(m: seq<Vec>, n: nat) returns (x: Vec)
    requires Shaped(m, n) && Eliminated(m, n, n)
    ensures |x| == n && AllSat(m, x)
  {
    x := seq(n, _ => 0.0);
    var i := n;
    while i > 0
      invariant i <= n && |x| == n
      invariant forall k :: i <= k < n ==> Sat(m[k], x)
    {
      i := i - 1;
      ghost var was := x;
      x := x[i := (m[i][n] - Dot(m[i], x, i + 1, n)) / m[i][i]];
      DotSame(m[i], was, x, i + 1, n);
      PivotRow(m[i], x, i);
      forall k | i < k < n ensures Sat(m[k], x) {
        assert Sat(m[k], was);
        PivotRow(m[k], was, k);
        PivotRow(m[k], x, k);
        DotSame(m[k], was, x, k + 1, n);
      }
    }
  }
}
