/** Division and products of integers, as several of the programs need them. */
module Arithmetic {
  function Abs(x: int): nat { if x < 0 then -x else x }

  /** Division toward zero, as C and x86 divide; Dafny's own rounds so that the
      remainder is not negative. */
  function TruncDiv(a: int, b: int): int
    requires b != 0
  {
    if a >= 0 then a / b else -((-a) / b)
  }

  lemma DivMod(x: int, d: int)
    requires d != 0
    ensures x == x / d * d + x % d && 0 <= x % d < Abs(d)
  {
  }

  lemma Scale(a: int, b: int, d: int)
    requires a <= b && d >= 0
    ensures a * d <= b * d
  {
    assert (b - a) * d >= 0;
  }

  /** A multiple of d smaller than d in size is zero. */
  lemma Small(k: int, d: int)
    requires d != 0
    ensures Abs(k * d) < Abs(d) ==> k == 0
  {
    if d > 0 {
      SmallUp(k, d);
    } else {
      SmallUp(-k, -d);
      assert (-k) * (-d) == k * d;
    }
  }

  lemma SmallUp(k: int, d: int)
    requires d > 0
    ensures -d < k * d < d ==> k == 0
  {
    if k >= 1 {
      Scale(1, k, d);
    } else if k <= -1 {
      Scale(k, -1, d);
    }
  }

  /** Quotient and remainder are determined. */
  lemma ModUnique(x: int, d: int, q: int, r: int)
    requires d != 0 && x == q * d + r && 0 <= r < Abs(d)
    ensures x / d == q && x % d == r
  {
    DivMod(x, d);
    var k := x / d - q;
    assert k * d == x / d * d - q * d;
    Small(k, d);
  }
}
