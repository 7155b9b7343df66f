/** Matrix products: the triple loop, and the register- and cache-blocked forms.
    The inputs are only read; C is written in place. Arithmetic is exact. */
module Matmul {
  /** Rows advanced together, and the panel sizes. */
  const MR: nat := 4
  const LANES: nat := 8
  const KC: nat := 256
  const NC: nat := 512

  type Matrix = seq<seq<real>>

  ghost predicate Sized(m: Matrix, rows: nat, cols: nat) { |m| == rows && forall i :: 0 <= i < rows ==> |m[i]| == cols }

  /** Both factors, with the inner sizes agreeing. */
  ghost predicate Factors(a: Matrix, b: Matrix, m: nat, k: nat, n: nat) { Sized(a, m, k) && Sized(b, k, n) }

  /** Part of one entry of the product: the terms lo <= k < hi. */
  function Sum(a: Matrix, b: Matrix, i: nat, j: nat, lo: nat, hi: nat): real
    requires i < |a| && hi <= |a[i]| && hi <= |b| && forall k :: 0 <= k < |b| ==> j < |b[k]|
  {
    if hi <= lo then 0.0 else Sum(a, b, i, j, lo, hi - 1) + a[i][hi - 1] * b[hi - 1][j]
  }

  lemma {:induction false} SumSplit(a: Matrix, b: Matrix, i: nat, j: nat, lo: nat, mid: nat, hi: nat)
    requires lo <= mid <= hi && i < |a| && hi <= |a[i]| && hi <= |b| && forall k :: 0 <= k < |b| ==> j < |b[k]|
    ensures Sum(a, b, i, j, lo, mid) + Sum(a, b, i, j, mid, hi) == Sum(a, b, i, j, lo, hi)
    decreases hi
  {
    if mid < hi {
      SumSplit(a, b, i, j, lo, mid, hi - 1);
    }
  }

  /** C is the product, entry by entry. */
  ghost predicate IsProduct(a: Matrix, b: Matrix, c: array2<real>, k: nat)
    requires Factors(a, b, c.Length0, k, c.Length1)
    reads c
  {
    forall i, j :: 0 <= i < c.Length0 && 0 <= j < c.Length1 ==> c[i, j] == Sum(a, b, i, j, 0, k)
  }

  method Clear(c: array2<real>)
    modifies c
    ensures forall i, j :: 0 <= i < c.Length0 && 0 <= j < c.Length1 ==> c[i, j] == 0.0
  {
    forall i, j | 0 <= i < c.Length0 && 0 <= j < c.Length1 {
      c[i, j] := 0.0;
    }
  }

  /** One entry's terms lo <= k < hi, added to a starting value. */
  method DotFrom(a: Matrix, b: Matrix, i: nat, j: nat, lo: nat, hi: nat, start: real) returns (sum: real)
    requires lo <= hi && i < |a| && hi <= |a[i]| && hi <= |b| && forall k :: 0 <= k < |b| ==> j < |b[k]|
    ensures sum == start + Sum(a, b, i, j, lo, hi)
  {
    sum := start;
    var k := lo;
    while k < hi
      invariant lo <= k <= hi && sum == start + Sum(a, b, i, j, lo, k)
    {
      sum := sum + a[i][k] * b[k][j];
      k := k + 1;
    }
  }

  method Naive(a: Matrix, b: Matrix, c: array2<real>, ghost k: nat)
    requires Factors(a, b, c.Length0, k, c.Length1) && k == |b|
    modifies c
    ensures IsProduct(a, b, c, k)
  {
    Clear(c);
    var i := 0;
    while i < c.Length0
      invariant i <= c.Length0
      invariant forall r, j :: 0 <= r < i && 0 <= j < c.Length1 ==> c[r, j] == Sum(a, b, r, j, 0, k)
    {
      var j := 0;
      while j < c.Length1
        invariant j <= c.Length1
        invariant forall r, q :: 0 <= r < i && 0 <= q < c.Length1 ==> c[r, q] == Sum(a, b, r, q, 0, k)
        invariant forall q :: 0 <= q < j ==> c[i, q] == Sum(a, b, i, q, 0, k)
      {
        c[i, j] := DotFrom(a, b, i, j, 0, |b|, 0.0);
        j := j + 1;
      }
      i := i + 1;
    }
  }

  /** Adds the k-th terms to the registers, row by row and all lanes at once. */
  method AddTerms(a: Matrix, b: Matrix, acc: array2<real>, i0: nat, j0: nat, k: nat, rows: nat, ghost m: nat, ghost kk: nat, ghost n: nat)
    requires Factors(a, b, m, kk, n) && k < kk && i0 + rows <= m && j0 + LANES <= n
    requires acc.Length0 == MR && acc.Length1 == LANES && rows <= MR
    modifies acc
    ensures forall q, l :: 0 <= q < rows && 0 <= l < LANES ==> acc[q, l] == old(acc[q, l]) + a[i0 + q][k] * b[k][j0 + l]
  {
    var r := 0;
    while r < rows
      invariant r <= rows
      invariant forall q, l :: 0 <= q < MR && 0 <= l < LANES ==>
        acc[q, l] == if q < r then old(acc[q, l]) + a[i0 + q][k] * b[k][j0 + l] else old(acc[q, l])
    {
      forall l | 0 <= l < LANES {
        acc[r, l] := a[i0 + r][k] * b[k][j0 + l] + acc[r, l];
      }
      r := r + 1;
    }
  }

  /** The tile's new values, in registers: C's values plus the terms k0 <= k < k0 + kc. */
  method TileSums(a: Matrix, b: Matrix, c: array2<real>, i0: nat, j0: nat, k0: nat, kc: nat, rows: nat, ghost kk: nat)
    returns (acc: array2<real>)
    requires Factors(a, b, c.Length0, kk, c.Length1) && k0 + kc <= kk
    requires rows <= MR && i0 + rows <= c.Length0 && j0 + LANES <= c.Length1
    ensures fresh(acc) && acc.Length0 == MR && acc.Length1 == LANES
    ensures forall q, l :: 0 <= q < rows && 0 <= l < LANES ==>
      acc[q, l] == c[i0 + q, j0 + l] + Sum(a, b, i0 + q, j0 + l, k0, k0 + kc)
  {
    acc := new real[MR, LANES]((_, _) => 0.0);
    var r := 0;
    while r < rows
      invariant r <= rows
      invariant forall q, l :: 0 <= q < r && 0 <= l < LANES ==> acc[q, l] == c[i0 + q, j0 + l]
    {
      forall l | 0 <= l < LANES {
        acc[r, l] := c[i0 + r, j0 + l];
      }
      r := r + 1;
    }
    var k := k0;
    while k < k0 + kc
      invariant k0 <= k <= k0 + kc
      invariant forall q, l :: 0 <= q < rows && 0 <= l < LANES ==>
        acc[q, l] == c[i0 + q, j0 + l] + Sum(a, b, i0 + q, j0 + l, k0, k)
    {
      AddTerms(a, b, acc, i0, j0, k, rows, c.Length0, kk, c.Length1);
      k := k + 1;
    }
  }

  /** Adds terms k0 <= k < k0 + kc to a tile of up to four rows and eight columns. */
  method AccumulateTile(a: Matrix, b: Matrix, c: array2<real>, i0: nat, j0: nat, k0: nat, kc: nat, rows: nat, ghost kk: nat)
    requires Factors(a, b, c.Length0, kk, c.Length1) && k0 + kc <= kk
    requires rows <= MR && i0 + rows <= c.Length0 && j0 + LANES <= c.Length1
    modifies c
    ensures forall i, j :: 0 <= i < c.Length0 && 0 <= j < c.Length1 ==>
      c[i, j] == if i0 <= i < i0 + rows && j0 <= j < j0 + LANES then old(c[i, j]) + Sum(a, b, i, j, k0, k0 + kc) else old(c[i, j])
  {
    var acc := TileSums(a, b, c, i0, j0, k0, kc, rows, kk);
    forall i, j | i0 <= i < i0 + rows && j0 <= j < j0 + LANES
      ensures acc[i - i0, j - j0] == old(c[i, j]) + Sum(a, b, i, j, k0, k0 + kc)
    {
      assert acc[i - i0, j - j0] == c[i0 + (i - i0), j0 + (j - j0)] + Sum(a, b, i0 + (i - i0), j0 + (j - j0), k0, k0 + kc);
    }
    var r := 0;
    while r < rows
      invariant r <= rows
      invariant forall i, j :: 0 <= i < c.Length0 && 0 <= j < c.Length1 ==>
        c[i, j] == if i0 <= i < i0 + r && j0 <= j < j0 + LANES then acc[i - i0, j - j0] else old(c[i, j])
      modifies c
    {
      forall l | 0 <= l < LANES {
        c[i0 + r, j0 + l] := acc[r, l];
      }
      r := r + 1;
    }
  }

  /** The columns left over in a block of rows, one entry at a time. */
  method CleanUp(a: Matrix, b: Matrix, c: array2<real>, i0: nat, rows: nat, from: nat, to: nat, k0: nat, kc: nat, ghost kk: nat, reset: bool)
    requires Factors(a, b, c.Length0, kk, c.Length1) && k0 + kc <= kk
    requires i0 + rows <= c.Length0 && from <= to <= c.Length1
    modifies c
    ensures forall i, j :: 0 <= i < c.Length0 && 0 <= j < c.Length1 ==>
      c[i, j] == if i0 <= i < i0 + rows && from <= j < to then Start(old(c[i, j]), reset) + Sum(a, b, i, j, k0, k0 + kc) else old(c[i, j])
  {
    var r := 0;
    while r < rows
      invariant r <= rows
      invariant forall i, j :: 0 <= i < c.Length0 && 0 <= j < c.Length1 ==>
        c[i, j] == if i0 <= i < i0 + r && from <= j < to then Start(old(c[i, j]), reset) + Sum(a, b, i, j, k0, k0 + kc) else old(c[i, j])
    {
      var j := from;
      while j < to
        invariant from <= j <= to
        invariant forall i, q :: 0 <= i < c.Length0 && 0 <= q < c.Length1 ==>
          c[i, q] == if (i0 <= i < i0 + r && from <= q < to) || (i == i0 + r && from <= q < j)
                     then Start(old(c[i, q]), reset) + Sum(a, b, i, q, k0, k0 + kc) else old(c[i, q])
      {
        c[i0 + r, j] := DotFrom(a, b, i0 + r, j, k0, k0 + kc, Start(c[i0 + r, j], reset));
        j := j + 1;
      }
      r := r + 1;
    }
  }

  function Start(x: real, reset: bool): real { if reset then 0.0 else x }

  function Min(x: nat, y: nat): nat { if x < y then x else y }

  /** Which terms of entry (i, j) are in C so far: all before k0, and this panel's
      too for columns before j0 and for the rows already swept. */
  function Done(i: nat, j: nat, k0: nat, kc: nat, j0: nat, nc: nat, rows: nat): nat {
    if j < j0 || (j < j0 + nc && i < rows) then k0 + kc else k0
  }

  ghost predicate Partial(a: Matrix, b: Matrix, c: array2<real>, kk: nat, k0: nat, kc: nat, j0: nat, nc: nat, rows: nat)
    requires Factors(a, b, c.Length0, kk, c.Length1) && k0 + kc <= kk
    reads c
  {
    forall i, j :: 0 <= i < c.Length0 && 0 <= j < c.Length1 ==> c[i, j] == Sum(a, b, i, j, 0, Done(i, j, k0, kc, j0, nc, rows))
  }

  /** Adds terms k0 <= k < k0 + kc to columns [j0, j0 + nc) of up to four rows. */
  method Block(a: Matrix, b: Matrix, c: array2<real>, i: nat, rows: nat, j0: nat, nc: nat, k0: nat, kc: nat, ghost kk: nat, reset: bool)
    requires Factors(a, b, c.Length0, kk, c.Length1) && k0 + kc <= kk
    requires rows <= MR && i + rows <= c.Length0 && j0 + nc <= c.Length1
    requires reset ==> forall q, j :: i <= q < i + rows && j0 <= j < j0 + nc ==> c[q, j] == 0.0
    modifies c
    ensures forall q, j :: 0 <= q < c.Length0 && 0 <= j < c.Length1 ==>
      c[q, j] == if i <= q < i + rows && j0 <= j < j0 + nc then old(c[q, j]) + Sum(a, b, q, j, k0, k0 + kc) else old(c[q, j])
  {
    var nc8 := nc - nc % LANES;
    var jj := 0;
    while jj < nc8
      invariant jj <= nc8 && jj % LANES == 0
      invariant forall q, j :: 0 <= q < c.Length0 && 0 <= j < c.Length1 ==>
        c[q, j] == if i <= q < i + rows && j0 <= j < j0 + jj then old(c[q, j]) + Sum(a, b, q, j, k0, k0 + kc) else old(c[q, j])
    {
      AccumulateTile(a, b, c, i, j0 + jj, k0, kc, rows, kk);
      jj := jj + LANES;
    }
    CleanUp(a, b, c, i, rows, j0 + jj, j0 + nc, k0, kc, kk, reset);
  }

  /** Panels of 256 terms and 512 columns; every row is swept over a panel before
      the next one is touched. */
  method Tiled(a: Matrix, b: Matrix, c: array2<real>)
    requires Factors(a, b, c.Length0, |b|, c.Length1)
    modifies c
    ensures IsProduct(a, b, c, |b|)
  {
    Clear(c);
    var kk, k0 := |b|, 0;
    while k0 < kk
      invariant k0 <= kk && Partial(a, b, c, kk, k0, 0, 0, 0, 0)
    {
      var kc := Min(KC, kk - k0);
      var j0 := 0;
      while j0 < c.Length1
        invariant j0 <= c.Length1 && Partial(a, b, c, kk, k0, kc, j0, 0, 0)
      {
        var nc := Min(NC, c.Length1 - j0);
        var i := 0;
        while i < c.Length0
          invariant i <= c.Length0 && Partial(a, b, c, kk, k0, kc, j0, nc, i)
        {
          var rows := Min(MR, c.Length0 - i);
          label Before:
          Block(a, b, c, i, rows, j0, nc, k0, kc, kk, false);
          forall q, j | 0 <= q < c.Length0 && 0 <= j < c.Length1
            ensures c[q, j] == Sum(a, b, q, j, 0, Done(q, j, k0, kc, j0, nc, i + rows))
          {
            assert old@Before(c[q, j]) == Sum(a, b, q, j, 0, Done(q, j, k0, kc, j0, nc, i));
            SumSplit(a, b, q, j, 0, k0, k0 + kc);
          }
          i := i + rows;
        }
        j0 := j0 + nc;
      }
      k0 := k0 + kc;
    }
  }

  /** Blocks of four rows over all columns and all terms. */
  method Kernel(a: Matrix, b: Matrix, c: array2<real>)
    requires Factors(a, b, c.Length0, |b|, c.Length1)
    modifies c
    ensures IsProduct(a, b, c, |b|)
  {
    Clear(c);
    var i := 0;
    while i < c.Length0
      invariant i <= c.Length0
      invariant forall q, j :: 0 <= q < c.Length0 && 0 <= j < c.Length1 ==> c[q, j] == if q < i then Sum(a, b, q, j, 0, |b|) else 0.0
    {
      var rows := Min(MR, c.Length0 - i);
      Block(a, b, c, i, rows, 0, c.Length1, 0, |b|, |b|, true);
      i := i + rows;
    }
  }

  /** All three forms leave the same matrix. */
  method AllThree(a: Matrix, b: Matrix, c: array2<real>, d: array2<real>, e: array2<real>)
    requires c.Length0 == d.Length0 == e.Length0 && c.Length1 == d.Length1 == e.Length1
    requires c != d && c != e && d != e && Factors(a, b, c.Length0, |b|, c.Length1)
    modifies c, d, e
    ensures forall i, j :: 0 <= i < c.Length0 && 0 <= j < c.Length1 ==> c[i, j] == d[i, j] == e[i, j]
  {
    Naive(a, b, c, |b|);
    Tiled(a, b, d);
    Kernel(a, b, e);
    forall i, j | 0 <= i < c.Length0 && 0 <= j < c.Length1 ensures c[i, j] == d[i, j] == e[i, j] {
      assert c[i, j] == Sum(a, b, i, j, 0, |b|);
    }
  }
}
