/** Bucket counts: primality by trial division, the next prime, and why a prime
    count makes every probe sequence visit every bucket.

    That there is a next prime is Euclid's theorem. That the probes differ is his
    lemma, for factors below the prime.
*/
module HashPrime {
  import opened Arithmetic

  ghost predicate Prime(x: int) { x >= 2 && forall d :: 2 <= d < x ==> !Divides(d, x) }

  predicate Divides(d: int, x: int)
    requires d > 0
  {
    x % d == 0
  }

  lemma Multiple(d: int, k: int)
    requires d > 0
    ensures Divides(d, k * d) && Divides(d, d * k)
  {
    ModUnique(k * d, d, k, 0);
  }

  /** A proper divisor comes with a cofactor, and one of the two is at most the root. */
  lemma SmallDivisor(d: int, x: int) returns (e: int)
    requires 2 <= d < x && Divides(d, x)
    ensures 2 <= e < x && Divides(e, x) && e * e <= x
  {
    DivMod(x, d);
    var q := x / d;
    assert q * d == x;
    if q < 2 {
      Scale(q, 1, d);
      assert false;
    }
    if d <= q {
      e := d;
      Scale(d, q, d);
    } else {
      e := q;
      Scale(q, d, q);
      Multiple(q, d);
      Scale(2, d, q);
    }
  }

  lemma EvenDivisor(e: int, x: int)
    requires e > 0 && Divides(e, x) && e % 2 == 0
    ensures x % 2 == 0
  {
    DivMod(x, e);
    var q := x / e;
    assert x == (q * (e / 2)) * 2;
    ModUnique(x, 2, q * (e / 2), 0);
  }

  /** No divisor up to the root means no divisor. */
  lemma NoSmallDivisor(x: int, i: int)
    requires x >= 2 && i >= 2 && i * i > x && forall d :: 2 <= d < i ==> !Divides(d, x)
    ensures Prime(x)
  {
    forall d | 2 <= d < x ensures !Divides(d, x) {
      if Divides(d, x) {
        var e := SmallDivisor(d, x);
        assert e >= i;
        Scale(i, e, i);
        Scale(i, e, e);
        assert false;
      }
    }
  }

  /** Trying the odd number i also settles i + 1. */
  lemma Tried(x: int, i: int)
    requires x % 2 == 1 && i >= 3 && i % 2 == 1 && i * i <= x && forall d :: 2 <= d < i ==> !Divides(d, x)
    ensures i < x
    ensures x % i == 0 ==> !Prime(x)
    ensures x % i != 0 ==> forall d :: 2 <= d < i + 2 ==> !Divides(d, x)
  {
    Scale(3, i, i);
    if x % i == 0 {
      assert Divides(i, x);
    } else if Divides(i + 1, x) {
      EvenDivisor(i + 1, x);
    }
  }

  lemma OddOnly(x: int)
    requires x >= 4
    ensures x % 2 == 0 ==> !Prime(x)
    ensures x % 2 != 0 ==> forall d :: 2 <= d < 3 ==> !Divides(d, x)
  {
    assert Divides(2, x) <==> x % 2 == 0;
  }

  lemma SmallPrimes()
    ensures Prime(2) && Prime(3)
  {
    assert 3 % 2 == 1;
  }

  /** 1 if x is prime, 0 if not, -1 below 2. */
  method IsPrime(x: int) returns (r: int)
    ensures r == (if x < 2 then -1 else if Prime(x) then 1 else 0)
  {
    hide Prime, Divides;
    SmallPrimes();
    if x < 2 { return -1; }
    if x < 4 { return 1; }
    OddOnly(x);
    if x % 2 == 0 { return 0; }
    var i := 3;
    while i * i <= x
      invariant 3 <= i && i % 2 == 1
      invariant forall d :: 2 <= d < i ==> !Divides(d, x)
      decreases x - i
    {
      Tried(x, i);
      if x % i == 0 { return 0; }
      i := i + 2;
    }
    NoSmallDivisor(x, i);
    return 1;
  }

  // ----- there is always a next prime -----

  function Factorial(n: nat): (r: nat)
    ensures r >= 1
  {
    if n == 0 then 1 else n * Factorial(n - 1)
  }

  lemma {:induction false} FactorialDivides(d: nat, n: nat)
    requires 1 <= d <= n
    ensures Divides(d, Factorial(n))
  {
    if d == n {
      Multiple(n, Factorial(n - 1));
    } else {
      FactorialDivides(d, n - 1);
      var f := Factorial(n - 1);
      DivMod(f, d);
      assert Factorial(n) == (n * (f / d)) * d;
      Multiple(d, n * (f / d));
    }
  }

  lemma {:induction false} LeastDivisor(x: nat, d: nat) returns (p: nat)
    requires 2 <= d <= x && Divides(d, x)
    ensures Prime(p) && Divides(p, x)
    decreases d
  {
    if e: nat :| 2 <= e < d && Divides(e, d) {
      DivMod(d, e);
      DivMod(x, d);
      assert x == (x / d * (d / e)) * e;
      Multiple(e, x / d * (d / e));
      p := LeastDivisor(x, e);
    } else {
      p := d;
    }
  }

  /** Euclid: a prime at or above any x. */
  lemma PrimeAbove(x: int) returns (p: nat)
    ensures Prime(p) && x <= p
  {
    var n: nat := if x < 2 then 2 else x;
    var m := Factorial(n) + 1;
    Multiple(m, 1);
    p := LeastDivisor(m, m);
    if p < x {
      FactorialDivides(p, n);
      DivMod(Factorial(n), p);
      DivMod(m, p);
      ModUnique(m, p, Factorial(n) / p, 1);
      assert false;
    }
  }

  /** The least prime at or above x. */
  method NextPrime(x: int) returns (p: int)
    ensures Prime(p) && x <= p && forall q :: x <= q < p ==> !Prime(q)
  {
    p := x;
    ghost var w := PrimeAbove(x);
    var r := IsPrime(p);
    while r != 1
      invariant x <= p <= w && r == (if p < 2 then -1 else if Prime(p) then 1 else 0)
      invariant forall q :: x <= q < p ==> !Prime(q)
      decreases w - p
    {
      p := p + 1;
      r := IsPrime(p);
    }
  }

  // ----- multiples of a step, modulo a prime -----

  /** If the prime p divides n * s for some 0 < n < p, it divides s. */
  lemma {:induction false} EuclidLemma(p: int, n: int, s: int)
    requires Prime(p) && 0 < n < p && Divides(p, n * s)
    ensures Divides(p, s)
    decreases n
  {
    if n > 1 {
      DivMod(p, n);
      var q, r := p / n, p % n;
      assert r != 0 by { assert !Divides(n, p); }
      DivMod(n * s, p);
      var k := n * s / p;
      calc {
        r * s;
        (p - q * n) * s;
        p * s - q * (n * s);
        p * s - q * (k * p);
        (s - q * k) * p;
      }
      Multiple(p, s - q * k);
      EuclidLemma(p, r, s);
    }
  }

  /** Steps of the same probe sequence land on different buckets. */
  lemma ProbesDiffer(p: int, a: int, s: int, t: int, u: int)
    requires Prime(p) && 0 < s < p && 0 <= t < u < p
    ensures (a + t * s) % p != (a + u * s) % p
  {
    if (a + t * s) % p == (a + u * s) % p {
      DivMod(a + t * s, p);
      DivMod(a + u * s, p);
      var k := (a + u * s) / p - (a + t * s) / p;
      assert (u - t) * s == k * p;
      Multiple(p, k);
      EuclidLemma(p, u - t, s);
      DivMod(s, p);
      ModUnique(s, p, 0, s);
      assert false;
    }
  }

  /** The buckets met by the first n probes. */
  ghost function Met(p: int, a: int, s: int, n: nat): set<int>
    requires p > 0
  {
    if n == 0 then {} else Met(p, a, s, n - 1) + {(a + (n - 1) * s) % p}
  }

  lemma {:induction false} MetWhich(p: int, a: int, s: int, n: nat, x: int)
    requires p > 0
    ensures x in Met(p, a, s, n) <==> exists t :: 0 <= t < n && Hits(p, a, s, t, x)
  {
    if n > 0 {
      MetWhich(p, a, s, n - 1, x);
      if x == (a + (n - 1) * s) % p {
        assert Hits(p, a, s, n - 1, x);
      }
    }
  }

  ghost predicate Hits(p: int, a: int, s: int, t: int, x: int)
    requires p > 0
  {
    x == (a + t * s) % p
  }

  lemma {:induction false} MetCount(p: int, a: int, s: int, n: nat)
    requires Prime(p) && 0 < s < p && n <= p
    ensures |Met(p, a, s, n)| == n && forall x :: x in Met(p, a, s, n) ==> 0 <= x < p
  {
    if n > 0 {
      MetCount(p, a, s, n - 1);
      var x := (a + (n - 1) * s) % p;
      DivMod(a + (n - 1) * s, p);
      if x in Met(p, a, s, n - 1) {
        MetWhich(p, a, s, n - 1, x);
        var t :| 0 <= t < n - 1 && Hits(p, a, s, t, x);
        ProbesDiffer(p, a, s, t, n - 1);
      }
    }
  }

  lemma {:induction false} FullRange(s: set<int>, n: nat)
    requires |s| == n && forall x :: x in s ==> 0 <= x < n
    ensures forall x :: 0 <= x < n ==> x in s
    decreases n
  {
    if n > 0 {
      var rest := s - {n - 1};
      if n - 1 !in s {
        assert rest == s;
        TooMany(s, n - 1);
      } else {
        FullRange(rest, n - 1);
        forall x | 0 <= x < n ensures x in s {
          assert x == n - 1 || x in rest;
        }
      }
    }
  }

  lemma {:induction false} TooMany(s: set<int>, n: nat)
    requires forall x :: x in s ==> 0 <= x < n
    ensures |s| <= n
    decreases n
  {
    if n == 0 {
      assert forall x :: x !in s;
      assert s == {};
    } else {
      TooMany(s - {n - 1}, n - 1);
    }
  }

  /** On a prime number of buckets a probe whose step is not the bucket count
      meets every bucket within the first p attempts. */
  lemma ProbeVisits(p: int, a: int, s: int, x: int) returns (t: nat)
    requires Prime(p) && 0 < s < p && 0 <= x < p
    ensures t < p && x == (a + t * s) % p
  {
    MetCount(p, a, s, p);
    FullRange(Met(p, a, s, p), p);
    MetWhich(p, a, s, p, x);
    t :| 0 <= t < p && Hits(p, a, s, t, x);
  }

  /** After p attempts a probe repeats itself. */
  lemma ProbeRepeats(p: int, a: int, s: int, t: nat)
    requires p > 0
    ensures (a + t * s) % p == (a + (t % p) * s) % p
  {
    DivMod(t, p);
    var y := a + (t % p) * s;
    DivMod(y, p);
    calc {
      a + t * s;
      a + (t / p * p + t % p) * s;
      (t / p * s) * p + y;
      (t / p * s + y / p) * p + y % p;
    }
    ModUnique(a + t * s, p, t / p * s + y / p, y % p);
  }
}
