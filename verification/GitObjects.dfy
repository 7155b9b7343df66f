/** Git objects as bytes: digits, headers, tree entries, and sorted names. */
module GitObjects {
  import opened ByteStrings
  import opened Wrappers

  const NUL: Byte := 0
  const SPACE: Byte := 32
  const SLASH: Byte := 47
  const ZERO: Byte := 48

  const SHA_SIZE: nat := 20

  // ----- numbers in ASCII -----

  /** n in the given base, most significant digit first. */
  function Digits(n: nat, base: nat): (r: Bytes)
    requires 2 <= base <= 10
    ensures |r| > 0 && forall i :: 0 <= i < |r| ==> ZERO <= r[i] < ZERO + base
  {
    if n < base then [ZERO + n] else Digits(n / base, base) + [ZERO + n % base]
  }

  function FromDigits(b: Bytes, base: nat): int {
    if b == [] then 0 else base * FromDigits(b[..|b| - 1], base) + (b[|b| - 1] - ZERO)
  }

  lemma {:induction false} DigitsRoundTrip(n: nat, base: nat)
    requires 2 <= base <= 10
    ensures FromDigits(Digits(n, base), base) == n
  {
    if n >= base {
      DigitsRoundTrip(n / base, base);
      FromDigitsMore(Digits(n / base, base), ZERO + n % base, base);
      Divided(n, base);
    } else {
      assert [] + [ZERO + n] == [ZERO + n];
      FromDigitsMore([], ZERO + n, base);
    }
  }

  lemma FromDigitsMore(b: Bytes, x: Byte, base: nat)
    ensures FromDigits(b + [x], base) == base * FromDigits(b, base) + (x - ZERO)
  {
    assert (b + [x])[..|b|] == b;
  }

  lemma Divided(n: nat, base: nat)
    requires base > 0
    ensures n == base * (n / base) + n % base
  {
  }

  // ----- objects -----

  const TREE: Bytes := [116, 114, 101, 101]

  /** Kind, space, decimal length, NUL, data. */
  function Raw(data: Bytes): Bytes { TREE + [SPACE] + Digits(|data|, 10) + [NUL] + data }

  /** The first place of x at or after `from`, or the length. */
  function Find(b: Bytes, x: Byte, from: nat): (r: nat)
    requires from <= |b|
    ensures from <= r <= |b| && (r < |b| ==> b[r] == x) && forall i :: from <= i < r ==> b[i] != x
    decreases |b| - from
  {
    if from == |b| || b[from] == x then from else Find(b, x, from + 1)
  }

  lemma FindAt(b: Bytes, x: Byte, from: nat, r: nat)
    requires from <= r < |b| && b[r] == x && forall i :: from <= i < r ==> b[i] != x
    ensures Find(b, x, from) == r
  {
    var f := Find(b, x, from);
    var atF := if f < |b| then b[f] else x;
  }

  /** What follows the header, if the length in it is right. */
  function Payload(raw: Bytes): Option<Bytes> {
    var nul := Find(raw, NUL, 0);
    var sp := Find(raw, SPACE, 0);
    if nul == |raw| || sp >= nul then None
    else if FromDigits(raw[sp + 1..nul], 10) != |raw| - nul - 1 then None
    else Some(raw[nul + 1..])
  }

  lemma RawRoundTrip(data: Bytes)
    ensures Payload(Raw(data)) == Some(data)
  {
    hide Digits, FromDigits, Find;
    var raw, d := Raw(data), Digits(|data|, 10);
    DigitsRoundTrip(|data|, 10);
    assert raw[4] == SPACE && raw[5 + |d|] == NUL;
    forall i | 0 <= i < 5 + |d| ensures raw[i] != NUL {
      if i >= 5 {
        assert raw[i] == d[i - 5];
      }
    }
    FindAt(raw, NUL, 0, 5 + |d|);
    FindAt(raw, SPACE, 0, 4);
    assert raw[5..5 + |d|] == d;
    assert raw[6 + |d|..] == data;
  }

  // ----- tree entries -----

  datatype Item = Item(mode: Bytes, name: Bytes, sha: Bytes)

  predicate GoodItem(i: Item) {
    SPACE !in i.mode && NUL !in i.mode && NUL !in i.name && |i.sha| == SHA_SIZE
  }

  function EncodeItem(i: Item): Bytes { i.mode + [SPACE] + i.name + [NUL] + i.sha }

  function EncodeItems(s: seq<Item>): Bytes {
    if s == [] then [] else EncodeItem(s[0]) + EncodeItems(s[1..])
  }

  /** The first entry of a tree object and its length. */
  function ParseItem(data: Bytes): (r: Option<(Item, nat)>)
    ensures r.Some? ==> 0 < r.value.1 <= |data|
  {
    var sp := Find(data, SPACE, 0);
    if sp == |data| then None
    else
      var nul := Find(data, NUL, sp);
      if nul == |data| || nul + 1 + SHA_SIZE > |data| then None
      else Some((Item(data[..sp], data[sp + 1..nul], data[nul + 1..nul + 1 + SHA_SIZE]), nul + 1 + SHA_SIZE))
  }

  /** All entries of a tree object. */
  function ParseTree(data: Bytes): Option<seq<Item>>
    decreases |data|
  {
    if data == [] then Some([])
    else match ParseItem(data)
      case None => None
      case Some(p) => Prepend([p.0], ParseTree(data[p.1..]))
  }

  function Prepend(items: seq<Item>, r: Option<seq<Item>>): Option<seq<Item>> {
    match r
    case None => None
    case Some(rest) => Some(items + rest)
  }

  lemma PrependMore(items: seq<Item>, i: Item, r: Option<seq<Item>>)
    ensures Prepend(items, Prepend([i], r)) == Prepend(items + [i], r) && Prepend([], r) == r
  {
    if r.Some? {
      assert items + ([i] + r.value) == items + [i] + r.value;
      assert [] + r.value == r.value;
    }
  }

  lemma TreeStart(data: Bytes)
    ensures Prepend([], ParseTree(data[0..])) == ParseTree(data)
  {
    assert data[0..] == data;
    PrependMore([], Item([], [], []), ParseTree(data));
  }

  lemma TreeEnd(data: Bytes, items: seq<Item>)
    ensures Prepend(items, ParseTree(data[|data|..])) == Some(items)
  {
    assert data[|data|..] == [] && items + [] == items;
  }

  /** One entry taken off the front of what is left. */
  lemma TreeStep(data: Bytes, pos: nat, items: seq<Item>)
    requires pos < |data|
    ensures var r := Prepend(items, ParseTree(data[pos..]));
      match ParseItem(data[pos..])
      case None => r == None
      case Some(p) => pos + p.1 <= |data| && r == Prepend(items + [p.0], ParseTree(data[pos + p.1..]))
  {
    hide ParseItem;
    if ParseItem(data[pos..]).Some? {
      var p := ParseItem(data[pos..]).value;
      assert data[pos..][p.1..] == data[pos + p.1..];
      PrependMore(items, p.0, ParseTree(data[pos + p.1..]));
    }
  }

  method ReadTree(data: Bytes) returns (r: Option<seq<Item>>)
    ensures r == ParseTree(data)
  {
    hide Prepend, ParseItem, ParseTree;
    var items: seq<Item>, pos := [], 0;
    TreeStart(data);
    while pos < |data|
      invariant pos <= |data|
      invariant ParseTree(data) == Prepend(items, ParseTree(data[pos..]))
      decreases |data| - pos
    {
      TreeStep(data, pos, items);
      var p := ParseItem(data[pos..]);
      if p.None? { return None; }
      items := items + [p.value.0];
      pos := pos + p.value.1;
    }
    TreeEnd(data, items);
    return Some(items);
  }

  /** Any names without NUL, spaces included, come back. */
  lemma {:induction false} TreeRoundTrip(s: seq<Item>)
    requires forall i :: 0 <= i < |s| ==> GoodItem(s[i])
    ensures ParseTree(EncodeItems(s)) == Some(s)
  {
    hide ParseItem, EncodeItem, GoodItem;
    if s != [] {
      var i, rest := s[0], EncodeItems(s[1..]);
      TreeRoundTrip(s[1..]);
      ItemParses(i, rest);
      assert [i] + s[1..] == s;
    }
  }

  lemma ItemParses(i: Item, rest: Bytes)
    requires GoodItem(i)
    ensures ParseTree(EncodeItem(i) + rest) == Prepend([i], ParseTree(rest))
  {
    hide Find;
    var b := EncodeItem(i) + rest;
    var sp := |i.mode|;
    var nul := sp + 1 + |i.name|;
    assert b[..sp] == i.mode && b[sp + 1..nul] == i.name && b[nul + 1..nul + 1 + SHA_SIZE] == i.sha && b[nul + 1 + SHA_SIZE..] == rest;
    forall k | 0 <= k < sp ensures b[k] != SPACE {
      assert b[k] == i.mode[k];
    }
    forall k | sp <= k < nul ensures b[k] != NUL {
      assert k == sp || b[k] == i.name[k - sp - 1];
    }
    FindAt(b, SPACE, 0, sp);
    FindAt(b, NUL, sp, nul);
  }

  // ----- sorted names -----

  ghost predicate Ascending(ks: seq<Bytes>) { forall i, j :: 0 <= i < j < |ks| ==> Less(ks[i], ks[j]) }

  function InsertKey(ks: seq<Bytes>, k: Bytes): seq<Bytes> {
    if ks == [] then [k]
    else if Less(k, ks[0]) then [k] + ks
    else [ks[0]] + InsertKey(ks[1..], k)
  }

  lemma {:induction false} InsertKeyAscends(ks: seq<Bytes>, k: Bytes)
    requires Ascending(ks) && k !in ks
    ensures Ascending(InsertKey(ks, k)) && forall x :: x in InsertKey(ks, k) <==> x == k || x in ks
  {
    hide Less;
    if ks != [] {
      var t := ks[1..];
      assert ks == [ks[0]] + t;
      if Less(k, ks[0]) {
        forall i | 0 <= i < |ks| ensures Less(k, ks[i]) {
          if i > 0 {
            LessTrans(k, ks[0], ks[i]);
          }
        }
      } else {
        LessTotal(k, ks[0]);
        InsertKeyAscends(t, k);
        var r := InsertKey(t, k);
        forall i | 0 <= i < |r| ensures Less(ks[0], r[i]) {
          assert r[i] in r;
          if r[i] != k {
            var j :| 0 <= j < |t| && t[j] == r[i];
            assert Less(ks[0], ks[j + 1]);
          }
        }
      }
    }
  }

  /** A set has only one sorted listing. */
  lemma {:induction false} SortedUnique(a: seq<Bytes>, b: seq<Bytes>)
    requires Ascending(a) && Ascending(b) && forall x :: x in a <==> x in b
    ensures a == b
  {
    hide Less;
    assert b != [] ==> b[0] in b;
    if a != [] {
      assert a[0] in b;
      var j :| 0 <= j < |b| && b[j] == a[0];
      assert b[0] in a;
      var i :| 0 <= i < |a| && a[i] == b[0];
      if j > 0 || i > 0 {
        FirstsClash(a, b, i, j);
      }
      forall x ensures x in a[1..] <==> x in b[1..] {
        TailIn(a, x);
        TailIn(b, x);
      }
      SortedUnique(a[1..], b[1..]);
      assert a == [a[0]] + a[1..] && b == [b[0]] + b[1..];
    }
  }

  lemma TailIn(a: seq<Bytes>, x: Bytes)
    requires a != [] && Ascending(a)
    ensures x in a[1..] <==> x in a && x != a[0]
  {
    hide Less;
    if x in a[1..] {
      var i :| 1 <= i < |a| && a[i] == x;
      assert Less(a[0], a[i]);
      LessIrreflexive(x);
    }
  }

  lemma FirstsClash(a: seq<Bytes>, b: seq<Bytes>, i: nat, j: nat)
    requires Ascending(a) && Ascending(b) && i < |a| && j < |b| && a[i] == b[0] && b[j] == a[0]
    ensures i == 0 && j == 0
  {
    hide Less;
    assert i > 0 ==> Less(a[0], b[0]);
    assert j > 0 ==> Less(b[0], a[0]);
    LessIrreflexive(a[0]);
    if Less(a[0], b[0]) {
      LessAsymmetric(a[0], b[0]);
    }
  }

  /** Sorts a set of names by insertion; there is only one result. */
  method Sort(keys: set<Bytes>) returns (ks: seq<Bytes>)
    ensures Ascending(ks) && forall x :: x in ks <==> x in keys
  {
    ks := [];
    var rest := keys;
    while rest != {}
      invariant rest <= keys && Ascending(ks) && forall x :: x in ks <==> x in keys && x !in rest
      decreases |rest|
    {
      var k :| k in rest;
      InsertKeyAscends(ks, k);
      ks := InsertKey(ks, k);
      rest := rest - {k};
    }
  }

  lemma {:induction false} SortedExists(keys: set<Bytes>) returns (ks: seq<Bytes>)
    ensures Ascending(ks) && forall x :: x in ks <==> x in keys
    decreases |keys|
  {
    if keys == {} {
      ks := [];
    } else {
      var k :| k in keys;
      var rest := SortedExists(keys - {k});
      InsertKeyAscends(rest, k);
      ks := InsertKey(rest, k);
    }
  }

  /** The sorted listing. */
  ghost function Sorted(keys: set<Bytes>): (ks: seq<Bytes>)
    ensures Ascending(ks) && forall x :: x in ks <==> x in keys
  {
    assert exists ks :: IsSorted(ks, keys) by {
      var ks := SortedExists(keys);
      assert IsSorted(ks, keys);
    }
    var ks :| IsSorted(ks, keys);
    ks
  }

  ghost predicate IsSorted(ks: seq<Bytes>, keys: set<Bytes>) { Ascending(ks) && forall x :: x in ks <==> x in keys }
}
