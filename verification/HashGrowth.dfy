/** What the hash table's operations do - `None` if they run forever - and when they end. */
module HashGrowth {
  import opened Arithmetic
  import opened Wrappers
  import opened HashPrime
  import opened HashBuckets

  const INITIAL_BASE_SIZE: int := 53

  datatype Shape = Shape(base: int, s: seq<Bucket>)

  ghost predicate Sound(h: Hashes, x: Shape) {
    InRange(h) && INITIAL_BASE_SIZE <= x.base && IsLeast(x.base, |x.s|) && Good(h, x.s)
  }

  /** The bucket count for a base size. */
  ghost predicate IsLeast(base: int, p: nat) {
    Prime(p) && base <= p && forall q :: base <= q < p ==> !Prime(q)
  }

  lemma LeastGrows(base: int, p: nat, base': int, p': nat)
    requires IsLeast(base, p) && IsLeast(base', p') && base <= base'
    ensures p <= p' && (base == base' ==> p == p')
  {
    hide Prime;
    assert base <= p' < p ==> !Prime(p');
    assert base' <= p < p' ==> !Prime(p);
  }

  lemma {:induction false} LeastFrom(base: int, x: int, w: nat) returns (p: nat)
    requires Prime(w) && base <= x <= w && forall q :: base <= q < x ==> !Prime(q)
    ensures IsLeast(base, p)
    decreases w - x
  {
    if Prime(x) {
      p := x;
    } else {
      p := LeastFrom(base, x + 1, w);
    }
  }

  lemma LeastExists(base: int)
    ensures exists p: nat :: IsLeast(base, p)
  {
    var w := PrimeAbove(base);
    var p := LeastFrom(base, base, w);
  }

  /** A new table. */
  ghost function Fresh(base: int): (r: Shape)
    ensures r.base == base && IsLeast(base, |r.s|) && forall i :: 0 <= i < |r.s| ==> r.s[i].Empty?
  {
    LeastExists(base);
    var p: nat :| IsLeast(base, p);
    Shape(base, seq(p, _ => Empty))
  }

  // ----- the base sizes of one table -----

  /** b comes from a base size by doubling it any number of times. */
  predicate Doubled(base: int, b: int) {
    b == base || (1 <= base < b && b % 2 == 0 && Doubled(base, b / 2))
  }

  lemma OnceDoubled(base: int)
    requires base >= 1
    ensures Doubled(base, base * 2) && forall b :: Doubled(base * 2, b) ==> Doubled(base, b)
  {
    MoreDoubled(base, base * 2);
  }

  lemma MoreDoubled(base: int, b: int)
    requires Doubled(base, b)
    ensures base <= b && forall c :: Doubled(b, c) ==> Doubled(base, c)
  {
    forall c | Doubled(b, c) ensures Doubled(base, c) {
      DoubledOn(base, b, c);
    }
  }

  lemma {:induction false} DoubledOn(base: int, b: int, c: int)
    requires Doubled(base, b) && Doubled(b, c)
    ensures Doubled(base, c)
    decreases c - b
  {
    if c != b {
      DoubledOn(base, b, c / 2);
    }
  }

  // ----- the operations -----

  function Load(s: seq<Bucket>): int
    requires |s| > 0
  {
    Items(s) * 100 / |s|
  }

  /** How far a base size is below twice the count: what makes nested growth end. */
  function Room(count: nat, base: int): nat {
    if 2 * count > base then 2 * count - base else 0
  }

  lemma Crowded(count: nat, size: nat)
    requires size > 0 && count * 100 / size > 70
    ensures size < 2 * count
  {
    DivMod(count * 100, size);
    Scale(71, count * 100 / size, size);
  }

  ghost function Inserted(h: Hashes, x: Shape, key: string, value: string): (r: Option<Shape>)
    requires Sound(h, x)
    ensures r.Some? ==>
      && Sound(h, r.value) && Doubled(x.base, r.value.base)
      && MapOf(r.value.s) == MapOf(x.s)[key := value]
    decreases Room(Items(x.s), x.base), 0
  {
    Goods(h, x.s);
    var grown := Grown(h, x);
    if grown.None? then None
    else
      var p := Stop(h, grown.value.s, key);
      if p.None? then None
      else
        PutAt(h, grown.value.s, key, value, p.value);
        Some(grown.value.(s := grown.value.s[p.value := Item(key, value)]))
  }

  /** The table an insertion probes. */
  ghost function Grown(h: Hashes, x: Shape): (r: Option<Shape>)
    requires Sound(h, x)
    ensures r.Some? ==> Sound(h, r.value) && Doubled(x.base, r.value.base) && MapOf(r.value.s) == MapOf(x.s)
    decreases Room(Items(x.s), x.base), 0, 0
  {
    Goods(h, x.s);
    if Load(x.s) > 70 then
      Crowded(Items(x.s), |x.s|);
      OnceDoubled(x.base);
      Resized(h, x, x.base * 2)
    else Some(x)
  }

  ghost function Resized(h: Hashes, x: Shape, base: int): (r: Option<Shape>)
    requires Sound(h, x)
    ensures r.Some? ==> Sound(h, r.value) && MapOf(r.value.s) == MapOf(x.s)
    ensures r.Some? ==> if base < INITIAL_BASE_SIZE then r.value == x else Doubled(base, r.value.base)
    decreases Room(Items(x.s), base), 2
  {
    if base < INITIAL_BASE_SIZE then Some(x)
    else
      assert x.s[..|x.s|] == x.s;
      Refilled(h, x.s, base, |x.s|)
  }

  /** A new table that the first i buckets were inserted into. */
  ghost function Refilled(h: Hashes, s: seq<Bucket>, base: int, i: nat): (r: Option<Shape>)
    requires InRange(h) && Good(h, s) && INITIAL_BASE_SIZE <= base && i <= |s|
    ensures r.Some? ==> Sound(h, r.value) && Doubled(base, r.value.base) && MapOf(r.value.s) == MapOf(s[..i])
    decreases Room(Items(s), base), 1, i
  {
    if i == 0 then
      FreshSound(h, base);
      Some(Fresh(base))
    else
      var before := Refilled(h, s, base, i - 1);
      if before.None? then None
      else
        Goods(h, before.value.s);
        Prefix(h, s, before.value.s, i - 1);
        if s[i - 1].Item? then
          MoreDoubled(base, before.value.base);
          Inserted(h, before.value, s[i - 1].key, s[i - 1].value)
        else before
  }

  lemma FreshSound(h: Hashes, base: int)
    requires InRange(h) && INITIAL_BASE_SIZE <= base
    ensures Sound(h, Fresh(base)) && MapOf(Fresh(base).s) == map[] && Items(Fresh(base).s) == 0
  {
    AllEmpty(h, Fresh(base).s);
  }

  /** The table a deletion probes. */
  ghost function Shrunk(h: Hashes, x: Shape): (r: Option<Shape>)
    requires Sound(h, x)
    ensures r.Some? ==> Sound(h, r.value) && MapOf(r.value.s) == MapOf(x.s)
  {
    Goods(h, x.s);
    if Load(x.s) < 10 then Resized(h, x, x.base / 2) else Some(x)
  }

  ghost function Removed(h: Hashes, x: Shape, key: string): (r: Option<Shape>)
    requires Sound(h, x)
    ensures r.Some? ==> Sound(h, r.value) && MapOf(r.value.s) == MapOf(x.s) - {key}
  {
    var shrunk := Shrunk(h, x);
    if shrunk.None? then None
    else
      var p := Stop(h, shrunk.value.s, key);
      if p.None? then None
      else
        TakeAt(h, shrunk.value.s, key, p.value);
        if shrunk.value.s[p.value].Item? then Some(shrunk.value.(s := shrunk.value.s[p.value := Deleted])) else shrunk
  }

  // ----- when they end -----

  /** For these keys no step is the bucket count, in a table of this base size or of
      any that doubling it reaches: every probe run for them could visit every bucket. */
  ghost predicate Strides(h: Hashes, keys: set<string>, base: int) {
    forall key, b, n: nat :: key in keys && Doubled(base, b) && IsLeast(b, n) ==> h.b(key, n) + 1 != n
  }

  lemma StridesFewer(h: Hashes, keys: set<string>, base: int, keys': set<string>, base': int)
    requires Strides(h, keys, base) && keys' <= keys && Doubled(base, base')
    ensures Strides(h, keys', base')
  {
    MoreDoubled(base, base');
  }

  /** The keys among the first buckets are keys of all of them. */
  lemma KeysBefore(s: seq<Bucket>, i: nat)
    requires Distinct(s) && i <= |s|
    ensures MapOf(s[..i]).Keys <= MapOf(s).Keys
    ensures i < |s| && s[i].Item? ==> s[i].key in MapOf(s)
  {
    forall key | key in MapOf(s[..i]) ensures key in MapOf(s) {
      var p := MapHas(s[..i], key);
      MapGets(s, p);
    }
    if i < |s| && s[i].Item? {
      MapGets(s, i);
    }
  }

  predicate NoTombs(s: seq<Bucket>) { Deleted !in s }

  /** How often a base size was doubled, at least. */
  function Doublings(base: int): nat { if base < 2 * INITIAL_BASE_SIZE then 0 else 1 + Doublings(base / 2) }

  lemma {:induction false} FewDoublings(base: int)
    requires base >= INITIAL_BASE_SIZE
    ensures INITIAL_BASE_SIZE * (Doublings(base) + 1) <= base
    decreases base
  {
    if base >= 2 * INITIAL_BASE_SIZE {
      FewDoublings(base / 2);
    }
  }

  lemma {:induction false} DoublingsGrow(a: int, b: int)
    requires a <= b
    ensures Doublings(a) <= Doublings(b)
    decreases if b < 0 then 0 else b
  {
    if a >= 2 * INITIAL_BASE_SIZE {
      DoublingsGrow(a / 2, b / 2);
    }
  }

  /** A rebuilt table: no tombstones, and at most 70% full but for one key and one
      more for each doubling that the gaps between primes made useless. */
  ghost predicate Airy(x: Shape) {
    NoTombs(x.s) && Items(x.s) * 100 < 71 * |x.s| + 100 * (1 + Doublings(x.base))
  }

  lemma {:induction false} AllTaken(s: seq<Bucket>)
    requires forall i :: 0 <= i < |s| ==> s[i].Item?
    ensures Items(s) == |s|
  {
    if s != [] {
      AllTaken(s[..|s| - 1]);
    }
  }

  lemma AiryEmpty(h: Hashes, x: Shape)
    requires Sound(h, x) && Airy(x)
    ensures HasEmpty(x.s)
  {
    if !HasEmpty(x.s) {
      forall i | 0 <= i < |x.s| ensures x.s[i].Item? {
        assert !x.s[i].Empty? && x.s[i] in x.s;
      }
      AllTaken(x.s);
      FewDoublings(x.base);
    }
  }

  lemma LoadBound(s: seq<Bucket>)
    requires |s| > 0
    ensures Load(s) <= 70 <==> Items(s) * 100 < 71 * |s|
  {
    DivMod(Items(s) * 100, |s|);
    if Load(s) <= 70 {
      Scale(Load(s), 70, |s|);
    } else {
      Scale(71, Load(s), |s|);
    }
  }

  lemma StopExactly(h: Hashes, x: Shape, key: string)
    requires Sound(h, x)
    ensures Stop(h, x.s, key) == None <==> forall n: nat :: Clear(h, x.s, key, n)
    ensures Strides(h, {key}, x.base) ==> (Stop(h, x.s, key).Some? <==> key in MapOf(x.s) || HasEmpty(x.s))
  {
    hide Probe, Clear, MapOf, Stop;
    Goods(h, x.s);
    StopNone(h, x.s, key);
    EndsExactly(h, x.s, key);
  }

  lemma SameItems(h: Hashes, x: Shape, y: Shape)
    requires Sound(h, x) && Sound(h, y) && MapOf(x.s) == MapOf(y.s)
    ensures Items(x.s) == Items(y.s)
  {
    MapSize(x.s);
    MapSize(y.s);
  }

  lemma PutAiry(h: Hashes, x: Shape, key: string, value: string, p: nat)
    requires Sound(h, x) && NoTombs(x.s) && Stop(h, x.s, key) == Some(p)
    requires Items(x.s) * 100 < 71 * |x.s| + 100 * Doublings(x.base)
    ensures Airy(x.(s := x.s[p := Item(key, value)]))
  {
    PutAt(h, x.s, key, value, p);
    hide Stop, Good;
    var s' := x.s[p := Item(key, value)];
    forall i | 0 <= i < |s'| ensures s'[i] != Deleted {
      assert x.s[i] in x.s;
    }
  }

  lemma {:induction false} InsertedAiry(h: Hashes, x: Shape, key: string, value: string)
    requires Sound(h, x) && Strides(h, MapOf(x.s).Keys + {key}, x.base) && Airy(x)
    ensures Inserted(h, x, key, value).Some? && Airy(Inserted(h, x, key, value).value)
    decreases Room(Items(x.s), x.base), 0
  {
    hide Stop, Strides, HasEmpty, Good, Items, MapOf;
    Goods(h, x.s);
    LoadBound(x.s);
    var keys := MapOf(x.s).Keys + {key};
    StridesFewer(h, keys, x.base, {key}, x.base);
    if Load(x.s) > 70 {
      Crowded(Items(x.s), |x.s|);
      StridesFewer(h, keys, x.base, MapOf(x.s).Keys, x.base * 2);
      ResizedAiry(h, x, x.base * 2);
      var g := Grown(h, x).value;
      StridesFewer(h, keys, x.base, {key}, g.base);
      SameItems(h, x, g);
      LeastGrows(x.base, |x.s|, g.base, |g.s|);
      DoublingsGrow(x.base * 2, g.base);
      AiryEmpty(h, g);
      StopExactly(h, g, key);
      PutAiry(h, g, key, value, Stop(h, g.s, key).value);
    } else {
      AiryEmpty(h, x);
      StopExactly(h, x, key);
      PutAiry(h, x, key, value, Stop(h, x.s, key).value);
    }
  }

  /** Rebuilding ends if no key there has a step that is a bucket count, and leaves
      room. */
  lemma {:induction false} RefilledAiry(h: Hashes, s: seq<Bucket>, base: int, i: nat)
    requires InRange(h) && Good(h, s) && INITIAL_BASE_SIZE <= base && i <= |s|
    requires Strides(h, MapOf(s).Keys, base)
    ensures Refilled(h, s, base, i).Some? && Airy(Refilled(h, s, base, i).value)
    decreases Room(Items(s), base), 1, i
  {
    hide Strides, Good, MapOf;
    if i == 0 {
      FreshSound(h, base);
      assert NoTombs(Fresh(base).s);
    } else {
      RefilledAiry(h, s, base, i - 1);
      var before := Refilled(h, s, base, i - 1).value;
      Goods(h, before.s);
      Prefix(h, s, before.s, i - 1);
      if s[i - 1].Item? {
        assert Distinct(s) by { Goods(h, s); }
        KeysBefore(s, i - 1);
        StridesFewer(h, MapOf(s).Keys, base, MapOf(before.s).Keys + {s[i - 1].key}, before.base);
        InsertedAiry(h, before, s[i - 1].key, s[i - 1].value);
      }
    }
  }

  lemma {:induction false} ResizedAiry(h: Hashes, x: Shape, base: int)
    requires Sound(h, x) && Strides(h, MapOf(x.s).Keys, base) && INITIAL_BASE_SIZE <= base
    ensures Resized(h, x, base).Some? && Airy(Resized(h, x, base).value)
    decreases Room(Items(x.s), base), 2
  {
    hide Strides, Good, MapOf, Airy;
    RefilledAiry(h, x.s, base, |x.s|);
  }

  /** An insertion runs forever exactly when growing does or the probes of the table
      that is then there do. If no key in play has a step that is a bucket count: if
      and only if the table is not grown, the key is new and no bucket is empty. */
  lemma InsertEnds(h: Hashes, x: Shape, key: string, value: string)
    requires Sound(h, x)
    ensures Inserted(h, x, key, value).Some? <==>
      Grown(h, x).Some? && !forall n: nat :: Clear(h, Grown(h, x).value.s, key, n)
    ensures |x.s| > 0 && (Strides(h, MapOf(x.s).Keys + {key}, x.base) ==>
      (Inserted(h, x, key, value).Some? <==> Load(x.s) > 70 || key in MapOf(x.s) || HasEmpty(x.s)))
  {
    hide Stop, Strides, HasEmpty, Good, MapOf, Clear;
    Goods(h, x.s);
    var g := Grown(h, x);
    if g.Some? {
      StopExactly(h, g.value, key);
    }
    var keys := MapOf(x.s).Keys + {key};
    if Strides(h, keys, x.base) {
      StridesFewer(h, keys, x.base, {key}, x.base);
      if Load(x.s) > 70 {
        Crowded(Items(x.s), |x.s|);
        StridesFewer(h, keys, x.base, MapOf(x.s).Keys, x.base * 2);
        ResizedAiry(h, x, x.base * 2);
        AiryEmpty(h, g.value);
        StridesFewer(h, keys, x.base, {key}, g.value.base);
      }
    }
  }

  predicate Shrinks(x: Shape)
    requires |x.s| > 0
  {
    Load(x.s) < 10 && x.base >= 2 * INITIAL_BASE_SIZE
  }

  /** The same for a deletion, which first shrinks a table under 10% full whose base
      size is at least twice the smallest. */
  lemma DeleteEnds(h: Hashes, x: Shape, key: string)
    requires Sound(h, x)
    ensures Removed(h, x, key).Some? <==>
      Shrunk(h, x).Some? && !forall n: nat :: Clear(h, Shrunk(h, x).value.s, key, n)
    ensures |x.s| > 0 && (Strides(h, MapOf(x.s).Keys + {key}, if Shrinks(x) then x.base / 2 else x.base) ==>
      (Removed(h, x, key).Some? <==> Shrinks(x) || key in MapOf(x.s) || HasEmpty(x.s)))
  {
    hide Stop, Strides, HasEmpty, Good, MapOf, Clear;
    Goods(h, x.s);
    var g := Shrunk(h, x);
    if g.Some? {
      StopExactly(h, g.value, key);
    }
    var keys, least := MapOf(x.s).Keys + {key}, if Shrinks(x) then x.base / 2 else x.base;
    if Strides(h, keys, least) {
      if Shrinks(x) {
        StridesFewer(h, keys, least, MapOf(x.s).Keys, x.base / 2);
        ResizedAiry(h, x, x.base / 2);
        AiryEmpty(h, g.value);
        StridesFewer(h, keys, least, {key}, g.value.base);
      } else {
        StridesFewer(h, keys, least, {key}, x.base);
      }
    }
  }

  // ----- runs -----

  datatype Op = Ins(key: string, value: string) | Del(key: string)

  ghost function Step(h: Hashes, x: Shape, op: Op): Option<Shape>
    requires Sound(h, x)
  {
    match op
    case Ins(key, value) => Inserted(h, x, key, value)
    case Del(key) => Removed(h, x, key)
  }

  /** The operations on a new table, None if one of them runs forever. */
  ghost function Run(h: Hashes, ops: seq<Op>): (r: Option<Shape>)
    requires InRange(h)
    ensures r.Some? ==> Sound(h, r.value) && MapOf(r.value.s) == Plain(ops)
  {
    if ops == [] then
      FreshSound(h, INITIAL_BASE_SIZE);
      Some(Fresh(INITIAL_BASE_SIZE))
    else
      var before := Run(h, ops[..|ops| - 1]);
      if before.None? then None else Step(h, before.value, ops[|ops| - 1])
  }

  /** The same operations on a map. */
  function Plain(ops: seq<Op>): map<string, string> {
    if ops == [] then map[]
    else
      var before := Plain(ops[..|ops| - 1]);
      match ops[|ops| - 1]
      case Ins(key, value) => before[key := value]
      case Del(key) => before - {key}
  }

  /** The hashes of keys of one character, as ht_hash computes them. */
  ghost predicate ByCharacter(h: Hashes) {
    forall c: char, n: nat :: n > 0 ==> h.a([c], n) == c as int % n && h.b([c], n) == c as int % n
  }

  /** With the hash of the source exactly two of the keys "a" to "z" have such a step
      in some table: "i" in the smallest one, "j" in the next. */
  lemma LettersStride(h: Hashes, c: char)
    requires ByCharacter(h) && 'a' <= c <= 'z'
    ensures Strides(h, {[c]}, INITIAL_BASE_SIZE) <==> c != 'i' && c != 'j'
  {
    FirstSizes();
    var i := c as int;
    if c == 'i' || c == 'j' {
      var b, n: nat := if c == 'i' then 53 else 106, if c == 'i' then 53 else 107;
      assert Doubled(53, b) && IsLeast(b, n) && h.b([c], n) + 1 == n && [c] in {[c]};
    } else {
      forall key, b, n: nat | key in {[c]} && Doubled(53, b) && IsLeast(b, n) ensures h.b(key, n) + 1 != n {
        assert h.b(key, n) == i % n;
        SizesUpTo(b);
        if n > 123 {
          assert i % n == i;
        }
      }
    }
  }

  /** The base sizes below 212 are 53 and 106. */
  lemma SizesUpTo(b: int)
    requires Doubled(53, b)
    ensures b == 53 || b == 106 || b >= 212
  {
    MoreDoubled(53, b);
    if b != 53 {
      MoreDoubled(53, b / 2);
      if b / 2 != 53 {
        MoreDoubled(53, b / 2 / 2);
      }
    }
  }

  lemma FirstSizes()
    ensures IsLeast(53, 53) && forall n: nat :: IsLeast(53, n) ==> n == 53
    ensures IsLeast(106, 107) && forall n: nat :: IsLeast(106, n) ==> n == 107
  {
    FirstSize();
    assert Divides(2, 106);
    assert 107 % 2 == 1 && 107 % 3 == 2 && 107 % 4 == 3 && 107 % 5 == 2 && 107 % 6 == 5 && 107 % 7 == 2;
    assert 107 % 8 == 3 && 107 % 9 == 8 && 107 % 10 == 7;
    assert forall d :: 2 <= d < 11 ==> !Divides(d, 107);
    NoSmallDivisor(107, 11);
    forall n: nat | IsLeast(106, n) ensures n == 107 {
      LeastGrows(106, n, 106, 107);
    }
    forall n: nat | IsLeast(53, n) ensures n == 53 {
      LeastGrows(53, n, 53, 53);
    }
  }

  lemma FirstSize()
    ensures Prime(53) && IsLeast(53, 53) && forall base: int, n: nat :: base == 53 && IsLeast(base, n) ==> n == 53
  {
    assert 53 % 2 == 1 && 53 % 3 == 2 && 53 % 4 == 1 && 53 % 5 == 3 && 53 % 6 == 5 && 53 % 7 == 4;
    assert forall d :: 2 <= d < 8 ==> !Divides(d, 53);
    NoSmallDivisor(53, 8);
  }

  /** n buckets with tombstones, the others empty. */
  function Buried(n: nat): seq<Bucket>
    requires n <= 53
  {
    seq(53, i => if i < n then Deleted else Empty)
  }

  /** The characters from '5' to 'i': as many as a new table has buckets, with
      different first hashes. */
  function Name(n: nat): string
    requires n < 53
  {
    [(53 + n) as char]
  }

  /** Inserting and deleting the first n of these keys, one after another. */
  function Churn(n: nat): seq<Op>
    requires n <= 53
  {
    if n == 0 then [] else Churn(n - 1) + [Ins(Name(n - 1), ""), Del(Name(n - 1))]
  }

  lemma {:induction false} NoItems(s: seq<Bucket>)
    requires forall i :: 0 <= i < |s| ==> !s[i].Item?
    ensures Items(s) == 0 && MapOf(s) == map[]
  {
    if s != [] {
      NoItems(s[..|s| - 1]);
    }
  }

  lemma FirstProbe(h: Hashes, s: seq<Bucket>, key: string)
    requires InRange(h) && |s| > 0 && !Passes(s[h.a(key, |s|)], key)
    ensures Stop(h, s, key) == Some(h.a(key, |s|))
  {
    ModUnique(h.a(key, |s|), |s|, 0, h.a(key, |s|));
    assert StopsAt(h, s, key, 0);
    StopIs(h, s, key, 0);
  }

  lemma BuriedRound(h: Hashes, n: nat)
    requires InRange(h) && ByCharacter(h) && n < 53 && Sound(h, Shape(53, Buried(n)))
    ensures var x := Inserted(h, Shape(53, Buried(n)), Name(n), "");
      x.Some? && Removed(h, x.value, Name(n)) == Some(Shape(53, Buried(n + 1)))
  {
    hide Stop, Good, MapOf, Items;
    var key, s := Name(n), Buried(n);
    NoItems(s);
    assert h.a(key, 53) == n;
    FirstProbe(h, s, key);
    var s1 := s[n := Item(key, "")];
    ItemsUpdate(s, n, Item(key, ""));
    assert Inserted(h, Shape(53, s), key, "") == Some(Shape(53, s1));
    FirstProbe(h, s1, key);
    assert s1[n := Deleted] == Buried(n + 1);
  }

  lemma {:induction false} Churned(h: Hashes, n: nat)
    requires InRange(h) && ByCharacter(h) && n <= 53
    ensures Run(h, Churn(n)) == Some(Shape(53, Buried(n)))
  {
    if n == 0 {
      FirstSize();
      FreshSound(h, 53);
      assert Fresh(53).s == Buried(0);
    } else {
      Churned(h, n - 1);
      hide Inserted, Removed, Buried;
      BuriedRound(h, n - 1);
      var ops := Churn(n);
      var one := ops[..|ops| - 1];
      assert one[..|one| - 1] == Churn(n - 1) && one[|one| - 1] == Ins(Name(n - 1), "");
    }
  }

  /** Tombstones alone: after inserting and deleting 53 keys of one character, every
      bucket of the table is a tombstone, and a search, an insertion or a deletion
      of any key runs forever. */
  lemma TombstonesLoop(h: Hashes, key: string, value: string)
    requires InRange(h) && ByCharacter(h)
    ensures var x := Run(h, Churn(53));
      && x.Some? && Plain(Churn(53)) == map[]
      && (forall n: nat :: Clear(h, x.value.s, key, n))
      && Inserted(h, x.value, key, value) == None && Removed(h, x.value, key) == None
  {
    Churned(h, 53);
    var x := Run(h, Churn(53)).value;
    hide Inserted, Removed, Run, Good;
    NoItems(x.s);
    forall n: nat ensures Clear(h, x.s, key, n) {
    }
    InsertEnds(h, x, key, value);
    DeleteEnds(h, x, key);
  }

  /** A step of the bucket count: in a table that holds "4" alone, looking for or
      inserting "i" runs forever beside 52 empty buckets. */
  lemma FullStepLoops(h: Hashes, value: string)
    requires InRange(h) && ByCharacter(h)
    ensures var x := Run(h, [Ins("4", value)]);
      && x.Some? && HasEmpty(x.value.s) && Items(x.value.s) == 1
      && (forall n: nat :: Clear(h, x.value.s, "i", n))
      && Inserted(h, x.value, "i", value) == None && Removed(h, x.value, "i") == None
  {
    FirstSize();
    FreshSound(h, 53);
    var s := Fresh(53).s;
    assert h.a("4", 53) == 52 && h.a("i", 53) == 52 && h.b("i", 53) == 52;
    FirstProbe(h, s, "4");
    ItemsUpdate(s, 52, Item("4", value));
    var ops := [Ins("4", value)];
    assert ops[..0] == [];
    var x := Shape(53, s[52 := Item("4", value)]);
    assert Run(h, ops) == Some(x);
    hide Inserted, Removed, Run, Good, Stop;
    EndsExactly(h, x.s, "i");
    InsertEnds(h, x, "i", value);
    DeleteEnds(h, x, "i");
    assert x.s[0].Empty?;
  }
}
