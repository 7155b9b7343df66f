/** Ordinary least squares by the normal equations, over exact reals. */
module LeastSquares {
  import opened Wrappers
  import opened LinearSolve

  function Inner(a: Vec, x: Vec): real
    requires |a| == |x|
  {
    Dot(a, x, 0, |x|)
  }

  /** The bias, then the features. */
  function WithBias(row: Vec): Vec { [1.0] + row }

  /** The bias plus the features weighted by the rest. */
  function Predict(w: Vec, row: Vec): real
    requires |w| == |row| + 1
  {
    w[0] + Inner(w[1..], row)
  }

  /** Rows of k values with as many targets. */
  ghost predicate Data(rows: seq<Vec>, y: Vec, k: nat) { |rows| == |y| && forall i :: 0 <= i < |rows| ==> |rows[i]| == k }

  /** Squared error of the predictions. */
  function SquaredError(w: Vec, xs: seq<Vec>, y: Vec): real
    requires |xs| == |y| && forall i :: 0 <= i < |xs| ==> |w| == |xs[i]| + 1
  {
    if xs == [] then 0.0
    else
      var n := |xs| - 1;
      var e := Predict(w, xs[n]) - y[n];
      SquaredError(w, xs[..n], y[..n]) + e * e
  }

  // ----- vectors -----

  function Scaled(c: real, a: Vec): Vec { seq(|a|, i requires 0 <= i < |a| => c * a[i]) }

  function Plus(a: Vec, b: Vec): Vec
    requires |a| == |b|
  {
    seq(|a|, i requires 0 <= i < |a| => a[i] + b[i])
  }

  function Minus(a: Vec, b: Vec): Vec
    requires |a| == |b|
  {
    seq(|a|, i requires 0 <= i < |a| => a[i] - b[i])
  }

  lemma {:induction false} DotLinear(a: Vec, c: real, b: Vec, x: Vec, n: nat)
    requires |a| == |b| == |x| && n <= |x|
    ensures Dot(Plus(a, Scaled(c, b)), x, 0, n) == Dot(a, x, 0, n) + c * Dot(b, x, 0, n)
  {
    if n > 0 {
      DotLinear(a, c, b, x, n - 1);
      Expand(a[n - 1], c, b[n - 1], x[n - 1], Dot(b, x, 0, n - 1));
    }
  }

  lemma Expand(a: real, c: real, b: real, x: real, s: real)
    ensures (a + c * b) * x == a * x + c * (b * x)
    ensures c * (s + b * x) == c * s + c * (b * x)
  {
  }

  lemma {:induction false} DotMinus(a: Vec, x: Vec, z: Vec, n: nat)
    requires |a| == |x| == |z| && n <= |x|
    ensures Dot(a, Minus(x, z), 0, n) == Dot(a, x, 0, n) - Dot(a, z, 0, n)
  {
    if n > 0 {
      DotMinus(a, x, z, n - 1);
      assert a[n - 1] * (x[n - 1] - z[n - 1]) == a[n - 1] * x[n - 1] - a[n - 1] * z[n - 1];
    }
  }

  lemma {:induction false} DotSwap(a: Vec, b: Vec, n: nat)
    requires n <= |a| && n <= |b|
    ensures Dot(a, b, 0, n) == Dot(b, a, 0, n)
  {
    if n > 0 {
      DotSwap(a, b, n - 1);
    }
  }

  lemma {:induction false} DotZeros(x: Vec, n: nat)
    requires n <= |x|
    ensures Dot(seq(|x|, _ => 0.0), x, 0, n) == 0.0
  {
    if n > 0 {
      DotZeros(x, n - 1);
    }
  }

  // ----- the normal equations -----

  /** Row i of the Gram matrix: the sum over rows r of r[i] * r. */
  function GramRow(rows: seq<Vec>, k: nat, i: nat): (v: Vec)
    requires i < k && forall j :: 0 <= j < |rows| ==> |rows[j]| == k
    ensures |v| == k
  {
    if rows == [] then Zero(k)
    else
      var n := |rows| - 1;
      Plus(GramRow(rows[..n], k, i), Scaled(rows[n][i], rows[n]))
  }

  /** Entry i of the right-hand side: the sum over rows of r[i] * t. */
  function Moment(rows: seq<Vec>, y: Vec, k: nat, i: nat): real
    requires i < k && Data(rows, y, k)
  {
    if rows == [] then 0.0
    else
      var n := |rows| - 1;
      Moment(rows[..n], y[..n], k, i) + rows[n][i] * y[n]
  }

  /** The residual of a row. */
  function Residual(r: Vec, w: Vec, t: real): real
    requires |r| == |w|
  {
    Inner(r, w) - t
  }

  /** The sum over rows of residual times row: the error's gradient, halved. */
  function Gradient(rows: seq<Vec>, y: Vec, w: Vec): (v: Vec)
    requires Data(rows, y, |w|)
    ensures |v| == |w|
  {
    if rows == [] then Zero(|w|)
    else
      var n := |rows| - 1;
      Plus(Gradient(rows[..n], y[..n], w), Scaled(Residual(rows[n], w, y[n]), rows[n]))
  }

  /** Each normal equation says one entry of the gradient is zero. */
  lemma {:induction false} GradientEntry(rows: seq<Vec>, y: Vec, w: Vec, i: nat)
    requires Data(rows, y, |w|) && i < |w|
    ensures Gradient(rows, y, w)[i] == Inner(GramRow(rows, |w|, i), w) - Moment(rows, y, |w|, i)
  {
    hide Dot;
    if rows == [] {
      DotZeros(w, |w|);
    } else {
      var n := |rows| - 1;
      var r := rows[n];
      GradientEntry(rows[..n], y[..n], w, i);
      DotLinear(GramRow(rows[..n], |w|, i), r[i], r, w, |w|);
      var e := Residual(r, w, y[n]);
      assert e * r[i] == r[i] * Inner(r, w) - r[i] * y[n];
      assert Gradient(rows, y, w)[i] == Gradient(rows[..n], y[..n], w)[i] + e * r[i];
    }
  }

  /** Half the derivative of the error in direction d. */
  function Slope(rows: seq<Vec>, y: Vec, w: Vec, d: Vec): real
    requires Data(rows, y, |w|) && |d| == |w|
  {
    if rows == [] then 0.0
    else
      var n := |rows| - 1;
      Slope(rows[..n], y[..n], w, d) + Residual(rows[n], w, y[n]) * Inner(rows[n], d)
  }

  lemma {:induction false} SlopeIsGradient(rows: seq<Vec>, y: Vec, w: Vec, d: Vec)
    requires Data(rows, y, |w|) && |d| == |w|
    ensures Slope(rows, y, w, d) == Inner(Gradient(rows, y, w), d)
  {
    if rows == [] {
      DotZeros(d, |d|);
    } else {
      hide Dot, Plus, Scaled, Residual;
      var n := |rows| - 1;
      SlopeIsGradient(rows[..n], y[..n], w, d);
      DotLinear(Gradient(rows[..n], y[..n], w), Residual(rows[n], w, y[n]), rows[n], d, |d|);
    }
  }

  /** The squared error, and the squared length of the rows' images of d. */
  function Error(rows: seq<Vec>, y: Vec, w: Vec): real
    requires Data(rows, y, |w|)
  {
    if rows == [] then 0.0
    else
      var n := |rows| - 1;
      Error(rows[..n], y[..n], w) + Square2(Residual(rows[n], w, y[n]))
  }

  function Square2(x: real): (r: real)
    ensures r >= 0.0 && (r == 0.0 ==> x == 0.0)
  {
    SquareSign(x);
    x * x
  }

  lemma SquareSign(x: real)
    ensures x * x >= 0.0 && (x * x == 0.0 ==> x == 0.0)
  {
    if x != 0.0 && x * x == 0.0 {
      NoZeroDivisors(x, x);
    }
  }

  function Spread(rows: seq<Vec>, d: Vec): (r: real)
    requires forall j :: 0 <= j < |rows| ==> |rows[j]| == |d|
    ensures r >= 0.0
  {
    if rows == [] then 0.0
    else Spread(rows[..|rows| - 1], d) + Square2(Inner(rows[|rows| - 1], d))
  }

  lemma SquareSum(e: real, g: real)
    ensures Square2(e + g) == Square2(e) + 2.0 * (e * g) + Square2(g)
  {
    assert (e + g) * (e + g) == e * e + 2.0 * (e * g) + g * g;
  }

  /** error(v) = error(w) + 2 slope(w, v - w) + spread(v - w). */
  lemma {:induction false} Taylor(rows: seq<Vec>, y: Vec, w: Vec, v: Vec)
    requires Data(rows, y, |w|) && |v| == |w|
    ensures Error(rows, y, v) == Error(rows, y, w) + 2.0 * Slope(rows, y, w, Minus(v, w)) + Spread(rows, Minus(v, w))
  {
    hide Square2, Dot;
    if rows != [] {
      var n := |rows| - 1;
      Taylor(rows[..n], y[..n], w, v);
      DotMinus(rows[n], v, w, |w|);
      var e, g := Residual(rows[n], w, y[n]), Inner(rows[n], Minus(v, w));
      assert Residual(rows[n], v, y[n]) == e + g;
      SquareSum(e, g);
    }
  }

  /** With all gradient entries zero the slope is zero in every direction. */
  lemma ZeroGradient(rows: seq<Vec>, y: Vec, w: Vec, d: Vec)
    requires Data(rows, y, |w|) && |d| == |w|
    requires forall i :: 0 <= i < |w| ==> Gradient(rows, y, w)[i] == 0.0
    ensures Slope(rows, y, w, d) == 0.0
  {
    SlopeIsGradient(rows, y, w, d);
    assert Gradient(rows, y, w) == Zero(|d|);
    DotZeros(d, |d|);
  }

  /** No spread means every row sees the same prediction. */
  lemma {:induction false} NoSpread(rows: seq<Vec>, d: Vec)
    requires forall j :: 0 <= j < |rows| ==> |rows[j]| == |d|
    requires Spread(rows, d) == 0.0
    ensures forall j :: 0 <= j < |rows| ==> Inner(rows[j], d) == 0.0
  {
    if rows != [] {
      NoSpread(rows[..|rows| - 1], d);
    }
  }

  lemma {:induction false} GradientSame(rows: seq<Vec>, y: Vec, w: Vec, v: Vec)
    requires Data(rows, y, |w|) && |v| == |w|
    requires forall j :: 0 <= j < |rows| ==> Inner(rows[j], v) == Inner(rows[j], w)
    ensures Gradient(rows, y, v) == Gradient(rows, y, w)
  {
    if rows != [] {
      var n := |rows| - 1;
      GradientSame(rows[..n], y[..n], w, v);
    }
  }

  ghost predicate Normal(rows: seq<Vec>, y: Vec, w: Vec)
    requires Data(rows, y, |w|)
  {
    forall i :: 0 <= i < |w| ==> Inner(GramRow(rows, |w|, i), w) == Moment(rows, y, |w|, i)
  }

  /** A solution of the normal equations has the least error, and a solution that
      is the only one is the only minimum. */
  lemma LeastError(rows: seq<Vec>, y: Vec, w: Vec, v: Vec)
    requires Data(rows, y, |w|) && |v| == |w| && Normal(rows, y, w)
    ensures Error(rows, y, w) <= Error(rows, y, v)
    ensures Error(rows, y, w) == Error(rows, y, v) ==> Normal(rows, y, v)
  {
    var d := Minus(v, w);
    forall i | 0 <= i < |w| ensures Gradient(rows, y, w)[i] == 0.0 {
      GradientEntry(rows, y, w, i);
    }
    Taylor(rows, y, w, v);
    ZeroGradient(rows, y, w, d);
    if Error(rows, y, w) == Error(rows, y, v) {
      NoSpread(rows, d);
      forall j | 0 <= j < |rows| ensures Inner(rows[j], v) == Inner(rows[j], w) {
        DotMinus(rows[j], v, w, |w|);
      }
      GradientSame(rows, y, w, v);
      forall i | 0 <= i < |v| ensures Inner(GramRow(rows, |v|, i), v) == Moment(rows, y, |v|, i) {
        GradientEntry(rows, y, v, i);
      }
    }
  }

  // ----- the fit -----

  function Design(xs: seq<Vec>): seq<Vec> { seq(|xs|, i requires 0 <= i < |xs| => WithBias(xs[i])) }

  lemma PredictIsInner(w: Vec, row: Vec)
    requires |w| == |row| + 1
    ensures Predict(w, row) == Inner(WithBias(row), w)
  {
    var a := WithBias(row);
    DotFirst(a, w, 0, |w|);
    Shifted(a, w, |row|);
    assert a[1..] == row;
    DotSwap(row, w[1..], |row|);
  }

  lemma {:induction false} Shifted(a: Vec, w: Vec, n: nat)
    requires n + 1 <= |a| && n + 1 <= |w|
    ensures Dot(a, w, 1, n + 1) == Dot(a[1..], w[1..], 0, n)
  {
    if n > 0 {
      Shifted(a, w, n - 1);
    }
  }

  lemma {:induction false} ErrorIsSquared(w: Vec, xs: seq<Vec>, y: Vec)
    requires |xs| == |y| && forall i :: 0 <= i < |xs| ==> |w| == |xs[i]| + 1
    ensures Data(Design(xs), y, |w|) && SquaredError(w, xs, y) == Error(Design(xs), y, w)
  {
    if xs != [] {
      var n := |xs| - 1;
      ErrorIsSquared(w, xs[..n], y[..n]);
      assert Design(xs)[..n] == Design(xs[..n]);
      PredictIsInner(w, xs[n]);
    }
  }

  /** Entry (i, j) of the Gram matrix, summed over the rows. */
  method GramEntry(rows: seq<Vec>, ghost k: nat, i: nat, j: nat) returns (s: real)
    requires i < k && j < k && forall r :: 0 <= r < |rows| ==> |rows[r]| == k
    ensures s == GramRow(rows, k, i)[j]
  {
    s := 0.0;
    var r := 0;
    assert rows[..0] == [];
    while r < |rows|
      invariant r <= |rows| && s == GramRow(rows[..r], k, i)[j]
    {
      s := s + rows[r][i] * rows[r][j];
      assert rows[..r + 1][..r] == rows[..r];
      r := r + 1;
    }
    assert rows[..|rows|] == rows;
  }

  method MomentEntry(rows: seq<Vec>, y: Vec, ghost k: nat, i: nat) returns (s: real)
    requires i < k && Data(rows, y, k)
    ensures s == Moment(rows, y, k, i)
  {
    s := 0.0;
    var r := 0;
    assert rows[..0] == [] && y[..0] == [];
    while r < |rows|
      invariant r <= |rows| && s == Moment(rows[..r], y[..r], k, i)
    {
      s := s + rows[r][i] * y[r];
      assert rows[..r + 1][..r] == rows[..r] && y[..r + 1][..r] == y[..r];
      r := r + 1;
    }
    assert rows[..|rows|] == rows && y[..|y|] == y;
  }

  function Gram(rows: seq<Vec>, k: nat): seq<Vec>
    requires forall j :: 0 <= j < |rows| ==> |rows[j]| == k
  {
    seq(k, i requires 0 <= i < k => GramRow(rows, k, i))
  }

  function Moments(rows: seq<Vec>, y: Vec, k: nat): Vec
    requires Data(rows, y, k)
  {
    seq(k, i requires 0 <= i < k => Moment(rows, y, k, i))
  }

  /** Some weights other than zero predict zero for every row: the features are
      collinear, with the constant counted as one. */
  ghost predicate Collinear(rows: seq<Vec>, k: nat) {
    exists z: Vec :: |z| == k && z != Zero(k) && InKernel(rows, z)
  }

  lemma {:induction false} GramKernel(rows: seq<Vec>, k: nat, i: nat, z: Vec)
    requires i < k == |z| && InKernel(rows, z)
    ensures Inner(GramRow(rows, k, i), z) == 0.0
  {
    hide Dot;
    if rows == [] {
      DotZeros(z, k);
    } else {
      var n := |rows| - 1;
      assert Dot(rows[n], z, 0, |z|) == 0.0;
      forall r | 0 <= r < n ensures |rows[..n][r]| == |z| && Dot(rows[..n][r], z, 0, |z|) == 0.0 {
        assert Dot(rows[r], z, 0, |z|) == 0.0;
      }
      GramKernel(rows[..n], k, i, z);
      DotLinear(GramRow(rows[..n], k, i), rows[n][i], rows[n], z, k);
    }
  }

  /** Collinear features make the normal equations singular. */
  lemma CollinearSingular(rows: seq<Vec>, k: nat)
    requires (forall j :: 0 <= j < |rows| ==> |rows[j]| == k) && Collinear(rows, k)
    ensures !Regular(Gram(rows, k))
  {
    hide Dot;
    var z: Vec :| |z| == k && z != Zero(k) && InKernel(rows, z);
    forall i | 0 <= i < k ensures Dot(Gram(rows, k)[i], z, 0, |z|) == 0.0 {
      GramKernel(rows, k, i, z);
    }
    assert InKernel(Gram(rows, k), z);
  }

  /** The coefficients and right-hand sides of the normal equations, entry by entry. */
  method FormEquations(rows: seq<Vec>, y: Vec, k: nat) returns (gram: seq<Vec>, moments: Vec)
    requires Data(rows, y, k)
    ensures gram == Gram(rows, k) && moments == Moments(rows, y, k)
  {
    hide GramRow, Moment;
    gram, moments := [], [];
    while |gram| < k
      invariant |gram| == |moments| <= k
      invariant forall i :: 0 <= i < |gram| ==> gram[i] == GramRow(rows, k, i) && moments[i] == Moment(rows, y, k, i)
    {
      var line: Vec := [];
      while |line| < k
        invariant |line| <= k && forall j :: 0 <= j < |line| ==> line[j] == GramRow(rows, k, |gram|)[j]
      {
        var s := GramEntry(rows, k, |gram|, |line|);
        line := line + [s];
      }
      assert line == GramRow(rows, k, |gram|);
      var t := MomentEntry(rows, y, k, |gram|);
      gram, moments := gram + [line], moments + [t];
    }
  }

  /** The only solution of the normal equations has the least error, and it alone. */
  lemma OnlyLeast(xs: seq<Vec>, y: Vec, k: nat, w: Vec, v: Vec)
    requires |xs| == |y| && k > 0 && |w| == k == |v| && forall i :: 0 <= i < |xs| ==> |xs[i]| == k - 1
    requires Data(Design(xs), y, k) && Solves(Gram(Design(xs), k), Moments(Design(xs), y, k), w)
    requires Solves(Gram(Design(xs), k), Moments(Design(xs), y, k), v) ==> v == w
    ensures SquaredError(w, xs, y) <= SquaredError(v, xs, y)
    ensures SquaredError(w, xs, y) == SquaredError(v, xs, y) ==> v == w
  {
    var rows := Design(xs);
    hide GramRow, Moment, SquaredError, Error, Design;
    ErrorIsSquared(w, xs, y);
    ErrorIsSquared(v, xs, y);
    SolvesNormal(rows, y, k, Gram(rows, k), Moments(rows, y, k), w);
    SolvesNormal(rows, y, k, Gram(rows, k), Moments(rows, y, k), v);
    LeastError(rows, y, w, v);
  }

  lemma DesignData(xs: seq<Vec>, y: Vec, k: nat)
    requires |xs| == |y| && k > 0 && forall i :: 0 <= i < |xs| ==> |xs[i]| == k - 1
    ensures Data(Design(xs), y, k)
  {
  }

  /** Weights with the least squared error of all, and no others reach it. It fails
      exactly if elimination of the Gram matrix does: always on collinear features,
      and only if that matrix is singular up to TINY. */
  method NormalEquation(xs: seq<Vec>, y: Vec) returns (r: Option<Vec>)
    requires |xs| == |y| && |xs| > 0 && forall i :: 0 <= i < |xs| ==> |xs[i]| == |xs[0]|
    ensures r.Some? ==> |r.value| == |xs[0]| + 1
    ensures r.Some? ==> forall v: Vec :: |v| == |xs[0]| + 1 ==>
      && SquaredError(r.value, xs, y) <= SquaredError(v, xs, y)
      && (SquaredError(r.value, xs, y) == SquaredError(v, xs, y) ==> v == r.value)
    ensures Data(Design(xs), y, |xs[0]| + 1) && (r.Some? <==> Eliminates(Gram(Design(xs), |xs[0]| + 1)))
    ensures r.None? ==> NearlySingular(Gram(Design(xs), |xs[0]| + 1))
    ensures Collinear(Design(xs), |xs[0]| + 1) ==> r == None
  {
    var rows := Design(xs);
    var k := |xs[0]| + 1;
    DesignData(xs, y, k);
    hide GramRow, Moment, SquaredError, Design, Solves, Regular, NearlySingular, Eliminates, Collinear;
    var gram, moments := FormEquations(rows, y, k);
    r := Solve(gram, moments);
    if Collinear(rows, k) {
      CollinearSingular(rows, k);
    }
    if r.Some? {
      forall v: Vec | |v| == k
        ensures SquaredError(r.value, xs, y) <= SquaredError(v, xs, y)
        ensures SquaredError(r.value, xs, y) == SquaredError(v, xs, y) ==> v == r.value
      {
        OnlyLeast(xs, y, k, r.value, v);
      }
    }
  }

  /** The linear system is the normal equations. */
  lemma SolvesNormal(rows: seq<Vec>, y: Vec, k: nat, gram: seq<Vec>, moments: Vec, w: Vec)
    requires Data(rows, y, k) && |w| == k == |gram| == |moments|
    requires forall i :: 0 <= i < k ==> gram[i] == GramRow(rows, k, i) && moments[i] == Moment(rows, y, k, i)
    ensures Solves(gram, moments, w) <==> Normal(rows, y, w)
  {
  }
}
