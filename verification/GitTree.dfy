/** Writing an index as tree objects and flattening them again. A tree's data holds
    the ids of its subtrees, so everything is stated for any hash that has no
    collision among the objects in play. */
module GitTree {
  import opened ByteStrings
  import opened Wrappers
  import opened GitObjects

  datatype Entry = Entry(mode: nat, sha: Bytes)

  /** Paths to mode and blob id. */
  type Index = map<Bytes, Entry>

  type Hash = Bytes -> Bytes
  type Store = map<Bytes, Bytes>

  const DIR_MODE: nat := 16384
  const DIR_TEXT: Bytes := [52, 48, 48, 48, 48]

  /** Paths without NUL, blob ids of the right size, and no entry that looks like a directory. */
  ghost predicate Proper(m: Index) {
    forall p :: p in m ==> NUL !in p && |m[p].sha| == SHA_SIZE && m[p].mode != DIR_MODE
  }

  ghost predicate ShaSized(h: Hash) { forall x :: |h(x)| == SHA_SIZE }

  ghost predicate Bounded(m: Index, bound: nat) { forall p :: p in m ==> |p| <= bound }

  // ----- names under a prefix -----

  predicate Starts(p: Bytes, prefix: Bytes) { |prefix| <= |p| && p[..|prefix|] == prefix }

  function Rest(p: Bytes, prefix: Bytes): Bytes
    requires Starts(p, prefix)
  {
    p[|prefix|..]
  }

  /** A file's own name, or its first directory with the slash: what git sorts by. */
  function KeyOf(rest: Bytes): Bytes {
    var s := Find(rest, SLASH, 0);
    if s < |rest| then rest[..s + 1] else rest
  }

  /** The names in the directory `prefix`. */
  ghost function Keys(m: Index, prefix: Bytes): set<Bytes> {
    set p | p in m && Starts(p, prefix) :: KeyOf(Rest(p, prefix))
  }

  predicate IsDir(k: Bytes) { SLASH in k }

  /** A directory key has its only slash at the end. */
  lemma KeyShape(rest: Bytes)
    ensures var k := KeyOf(rest);
      && Starts(rest, k)
      && (IsDir(k) <==> SLASH in rest)
      && (IsDir(k) ==> |k| > 0 && k[|k| - 1] == SLASH && SLASH !in k[..|k| - 1])
      && (!IsDir(k) ==> k == rest)
      && (NUL !in rest ==> NUL !in k)
  {
    var s := Find(rest, SLASH, 0);
    if s < |rest| {
      assert KeyOf(rest)[s] == SLASH;
    }
  }

  /** The paths a key stands for. */
  lemma KeyMeans(p: Bytes, prefix: Bytes, k: Bytes)
    requires Starts(p, prefix)
    requires IsDir(k) ==> k[|k| - 1] == SLASH && SLASH !in k[..|k| - 1]
    ensures KeyOf(Rest(p, prefix)) == k <==> if IsDir(k) then Starts(p, prefix + k) else p == prefix + k && SLASH !in k
  {
    var rest := Rest(p, prefix);
    assert p == prefix + rest;
    KeyShape(rest);
    if IsDir(k) {
      if Starts(p, prefix + k) {
        assert rest[..|k|] == k by {
          assert p[..|prefix + k|][|prefix|..] == rest[..|k|];
        }
        forall i | 0 <= i < |k| - 1 ensures rest[i] != SLASH {
          assert rest[i] == k[..|k| - 1][i];
        }
        assert rest[|k| - 1] == SLASH;
        FindAt(rest, SLASH, 0, |k| - 1);
      }
      if KeyOf(rest) == k {
        assert p[..|prefix + k|] == prefix + rest[..|k|];
      }
    }
  }

  lemma KeyIn(m: Index, prefix: Bytes, k: Bytes) returns (p: Bytes)
    requires k in Keys(m, prefix)
    ensures p in m && Starts(p, prefix) && KeyOf(Rest(p, prefix)) == k && p == prefix + Rest(p, prefix)
    ensures IsDir(k) ==> |k| > 0 && k[|k| - 1] == SLASH && SLASH !in k[..|k| - 1] && Starts(p, prefix + k)
    ensures !IsDir(k) ==> p == prefix + k
  {
    p :| p in m && Starts(p, prefix) && KeyOf(Rest(p, prefix)) == k;
    KeyShape(Rest(p, prefix));
    KeyMeans(p, prefix, k);
  }

  lemma KeyFacts(m: Index, prefix: Bytes, bound: nat, k: Bytes)
    requires Bounded(m, bound) && k in Keys(m, prefix)
    ensures |prefix| + |k| <= bound
    ensures IsDir(k) ==> |k| > 0 && k[|k| - 1] == SLASH && SLASH !in k[..|k| - 1]
    ensures !IsDir(k) ==> prefix + k in m
  {
    var p := KeyIn(m, prefix, k);
    if IsDir(k) {
      assert |prefix + k| <= |p|;
    }
  }

  // ----- the tree objects of an index -----

  /** The entry a key becomes. */
  ghost function ItemOf(m: Index, prefix: Bytes, bound: nat, h: Hash, k: Bytes): Item
    requires Bounded(m, bound) && k in Keys(m, prefix)
    decreases bound - |prefix|, 0
  {
    KeyFacts(m, prefix, bound, k);
    if IsDir(k) then Item(DIR_TEXT, k[..|k| - 1], TreeId(m, prefix + k, bound, h))
    else Item(Digits(m[prefix + k].mode, 8), k, m[prefix + k].sha)
  }

  ghost function Items(m: Index, prefix: Bytes, bound: nat, h: Hash, ks: seq<Bytes>): (r: seq<Item>)
    requires Bounded(m, bound) && forall k :: k in ks ==> k in Keys(m, prefix)
    ensures |r| == |ks|
    decreases bound - |prefix|, 1, |ks|
  {
    if ks == [] then [] else Items(m, prefix, bound, h, ks[..|ks| - 1]) + [ItemOf(m, prefix, bound, h, ks[|ks| - 1])]
  }

  ghost function TreeItems(m: Index, prefix: Bytes, bound: nat, h: Hash): seq<Item>
    requires Bounded(m, bound)
    decreases bound - |prefix|, 2
  {
    Items(m, prefix, bound, h, Sorted(Keys(m, prefix)))
  }

  ghost function TreeRaw(m: Index, prefix: Bytes, bound: nat, h: Hash): Bytes
    requires Bounded(m, bound)
    decreases bound - |prefix|, 3
  {
    Raw(EncodeItems(TreeItems(m, prefix, bound, h)))
  }

  ghost function TreeId(m: Index, prefix: Bytes, bound: nat, h: Hash): Bytes
    requires Bounded(m, bound)
    decreases bound - |prefix|, 4
  {
    h(TreeRaw(m, prefix, bound, h))
  }

  // ----- the object store -----

  /** Different objects of U have different ids. */
  ghost predicate NoClash(u: iset<Bytes>, h: Hash) { forall x, y :: x in u && y in u && h(x) == h(y) ==> x == y }

  /** Every object lies under its own id. */
  ghost predicate Sound(store: Store, u: iset<Bytes>, h: Hash) {
    forall s :: s in store ==> store[s] in u && h(store[s]) == s
  }

  /** All tree objects of the index below a prefix are in U. */
  ghost predicate TreesIn(m: Index, prefix: Bytes, bound: nat, h: Hash, u: iset<Bytes>)
    requires Bounded(m, bound)
    decreases bound - |prefix|
  {
    && TreeRaw(m, prefix, bound, h) in u
    && forall k :: k in Keys(m, prefix) ==> KeyBound(m, prefix, bound, k) && (IsDir(k) ==> TreesIn(m, prefix + k, bound, h, u))
  }

  /** They are all stored. */
  ghost predicate Stored(store: Store, m: Index, prefix: Bytes, bound: nat, h: Hash)
    requires Bounded(m, bound)
    decreases bound - |prefix|
  {
    && TreeId(m, prefix, bound, h) in store && store[TreeId(m, prefix, bound, h)] == TreeRaw(m, prefix, bound, h)
    && forall k :: k in Keys(m, prefix) ==> KeyBound(m, prefix, bound, k) && (IsDir(k) ==> Stored(store, m, prefix + k, bound, h))
  }

  ghost predicate KeyBound(m: Index, prefix: Bytes, bound: nat, k: Bytes)
    requires Bounded(m, bound) && k in Keys(m, prefix)
    ensures KeyBound(m, prefix, bound, k)
    ensures |prefix| + |k| <= bound && (IsDir(k) ==> |k| > 0)
  {
    KeyFacts(m, prefix, bound, k);
    true
  }

  lemma {:induction false} StoredGrows(store: Store, store': Store, m: Index, prefix: Bytes, bound: nat, h: Hash)
    requires Bounded(m, bound) && Stored(store, m, prefix, bound, h)
    requires forall s :: s in store ==> s in store' && store'[s] == store[s]
    ensures Stored(store', m, prefix, bound, h)
    decreases bound - |prefix|
  {
    forall k | k in Keys(m, prefix) ensures KeyBound(m, prefix, bound, k) && (IsDir(k) ==> Stored(store', m, prefix + k, bound, h)) {
      if IsDir(k) {
        StoredGrows(store, store', m, prefix + k, bound, h);
      }
    }
  }

  // ----- flattening -----

  /** The map of every blob under a tree; None if an object is missing or malformed,
      or the trees nest deeper than `fuel`. */
  function Flatten(store: Store, sha: Bytes, prefix: Bytes, fuel: nat): Option<Index>
    decreases fuel, 1, 0
  {
    if fuel == 0 || sha !in store then None
    else match Payload(store[sha])
      case None => None
      case Some(data) =>
        match ParseTree(data)
        case None => None
        case Some(items) => FlattenItems(store, items, prefix, fuel)
  }

  function FlattenItems(store: Store, items: seq<Item>, prefix: Bytes, fuel: nat): Option<Index>
    requires fuel > 0
    decreases fuel, 0, |items|
  {
    if items == [] then Some(map[])
    else
      var i := items[|items| - 1];
      match FlattenItems(store, items[..|items| - 1], prefix, fuel)
      case None => None
      case Some(out) =>
        if i.mode == DIR_TEXT then
          match Flatten(store, i.sha, prefix + i.name + [SLASH], fuel - 1)
          case None => None
          case Some(sub) => Some(out + sub)
        else
          var mode := FromDigits(i.mode, 8);
          if mode < 0 then None else Some(out[prefix + i.name := Entry(mode, i.sha)])
  }

  /** The entries at and below a prefix. */
  ghost function Below(m: Index, prefix: Bytes): Index { map p | p in m && Starts(p, prefix) :: m[p] }

  /** Those whose first name is one of these keys. */
  ghost function Covered(m: Index, prefix: Bytes, ks: seq<Bytes>): Index {
    map p | p in m && Starts(p, prefix) && KeyOf(Rest(p, prefix)) in ks :: m[p]
  }

  lemma CoveredMore(m: Index, prefix: Bytes, bound: nat, ks: seq<Bytes>, k: Bytes)
    requires Bounded(m, bound) && k in Keys(m, prefix)
    ensures IsDir(k) ==> Covered(m, prefix, ks + [k]) == Covered(m, prefix, ks) + Below(m, prefix + k)
    ensures !IsDir(k) ==> prefix + k in m && Covered(m, prefix, ks + [k]) == Covered(m, prefix, ks)[prefix + k := m[prefix + k]]
  {
    hide KeyOf, Keys, IsDir;
    KeyFacts(m, prefix, bound, k);
    forall p | p in m && Starts(p, prefix)
      ensures KeyOf(Rest(p, prefix)) == k <==> if IsDir(k) then Starts(p, prefix + k) else p == prefix + k
    {
      KeyMeans(p, prefix, k);
      assert !IsDir(k) ==> SLASH !in k by { DirKey(k); }
    }
    forall p | Starts(p, prefix + k) ensures Starts(p, prefix) {
      assert p[..|prefix + k|][..|prefix|] == p[..|prefix|];
    }
    assert Starts(prefix + k, prefix);
  }

  lemma DirKey(k: Bytes)
    ensures IsDir(k) <==> SLASH in k
  {
  }

  // ----- flattening what was written -----

  lemma ItemsGood(m: Index, prefix: Bytes, bound: nat, h: Hash, ks: seq<Bytes>)
    requires Proper(m) && Bounded(m, bound) && ShaSized(h) && forall k :: k in ks ==> k in Keys(m, prefix)
    ensures forall i :: 0 <= i < |ks| ==> GoodItem(Items(m, prefix, bound, h, ks)[i])
  {
    if ks != [] {
      var n := |ks| - 1;
      ItemsGood(m, prefix, bound, h, ks[..n]);
      ItemGood(m, prefix, bound, h, ks[n]);
    }
  }

  lemma ItemGood(m: Index, prefix: Bytes, bound: nat, h: Hash, k: Bytes)
    requires Proper(m) && Bounded(m, bound) && ShaSized(h) && k in Keys(m, prefix)
    ensures GoodItem(ItemOf(m, prefix, bound, h, k))
  {
    hide KeyOf, TreeRaw, Digits;
    var p := KeyIn(m, prefix, k);
    var rest := Rest(p, prefix);
    assert NUL !in rest by { forall i | 0 <= i < |rest| ensures rest[i] in p { assert rest[i] == p[|prefix| + i]; } }
    KeyShape(rest);
    KeyFacts(m, prefix, bound, k);
  }

  /** Only a directory's mode reads "40000". */
  lemma ModeText(mode: nat)
    requires mode != DIR_MODE
    ensures Digits(mode, 8) != DIR_TEXT && FromDigits(Digits(mode, 8), 8) == mode
  {
    hide Digits, FromDigits;
    DigitsRoundTrip(mode, 8);
    DigitsRoundTrip(DIR_MODE, 8);
    NextDigit(4, 0, 4);
    NextDigit(32, 4, 0);
    NextDigit(256, 32, 0);
    NextDigit(2048, 256, 0);
    NextDigit(DIR_MODE, 2048, 0);
    assert [ZERO + 4] + [ZERO] + [ZERO] + [ZERO] + [ZERO] == DIR_TEXT;
  }

  lemma NextDigit(n: nat, q: nat, d: nat)
    requires n == 8 * q + d && d < 8
    ensures Digits(n, 8) == if q == 0 then [ZERO + d] else Digits(q, 8) + [ZERO + d]
  {
  }

  lemma {:induction false} ItemsAt(m: Index, prefix: Bytes, bound: nat, h: Hash, ks: seq<Bytes>, i: nat)
    requires Bounded(m, bound) && (forall k :: k in ks ==> k in Keys(m, prefix)) && i < |ks|
    ensures Items(m, prefix, bound, h, ks)[i] == ItemOf(m, prefix, bound, h, ks[i])
    decreases |ks|
  {
    hide Keys, ItemOf;
    if i < |ks| - 1 {
      ItemsAt(m, prefix, bound, h, ks[..|ks| - 1], i);
    }
  }

  /** What git compares: a directory's name ends in a slash. */
  function GitName(i: Item): Bytes { if i.mode == [52, 48, 48, 48, 48] then i.name + [47] else i.name }

  /** The entries of a tree stand in the order of these names, byte by byte. */
  lemma TreeOrder(m: Index, prefix: Bytes, bound: nat, h: Hash, i: nat, j: nat)
    requires Proper(m) && Bounded(m, bound) && i < j < |TreeItems(m, prefix, bound, h)|
    ensures var s := TreeItems(m, prefix, bound, h);
      exists k: nat :: SmallerAt(GitName(s[i]), GitName(s[j]), k)
  {
    hide Keys, ItemOf, GitName, Less;
    var ks := Sorted(Keys(m, prefix));
    ItemsAt(m, prefix, bound, h, ks, i);
    ItemsAt(m, prefix, bound, h, ks, j);
    assert ks[i] in ks && ks[j] in ks;
    NameOfItem(m, prefix, bound, h, ks[i]);
    NameOfItem(m, prefix, bound, h, ks[j]);
    LessMeans(ks[i], ks[j]);
  }

  lemma NameOfItem(m: Index, prefix: Bytes, bound: nat, h: Hash, k: Bytes)
    requires Proper(m) && Bounded(m, bound) && k in Keys(m, prefix)
    ensures GitName(ItemOf(m, prefix, bound, h, k)) == k
  {
    hide Keys, TreeId;
    KeyFacts(m, prefix, bound, k);
    if IsDir(k) {
      assert k[..|k| - 1] + [47] == k;
    } else {
      ModeText(m[prefix + k].mode);
    }
  }

  /** The object of an index with one plain file whose name is one byte: "tree 29",
      NUL, "100644", a space, the name, NUL, the id. */
  lemma OneFileTree(c: Byte, sha: Bytes, h: Hash)
    requires c != 0 && c != 47 && |sha| == 20
    ensures TreeRaw(map[[c] := Entry(33188, sha)], [], 1, h)
      == [116, 114, 101, 101, 32, 50, 57, 0, 49, 48, 48, 54, 52, 52, 32, c, 0] + sha
  {
    hide Keys, Items, EncodeItems, Raw, Digits, ItemOf;
    var m: Index, k: Bytes := map[[c] := Entry(33188, sha)], [c];
    OneKey(m, k);
    var ks := Sorted(Keys(m, []));
    OneSorted(ks, k);
    ItemsAt(m, [], 1, h, ks, 0);
    FileItem(m, k, h);
    var item := Item([49, 48, 48, 54, 52, 52], k, sha);
    assert TreeItems(m, [], 1, h) == [item];
    OneItem(item);
    var data := EncodeItems([item]);
    assert data == [49, 48, 48, 54, 52, 52, 32, c, 0] + sha;
    Header29(data);
  }

  lemma OneKey(m: Index, k: Bytes)
    requires |k| == 1 && k[0] != 47 && m.Keys == {k}
    ensures Keys(m, []) == {k} && !IsDir(k)
  {
    assert Starts(k, []) && Rest(k, []) == k && KeyOf(k) == k;
    assert k in Keys(m, []);
  }

  lemma FileItem(m: Index, k: Bytes, h: Hash)
    requires k in m && Bounded(m, 1) && k in Keys(m, []) && !IsDir(k) && m[k].mode == 33188
    ensures ItemOf(m, [], 1, h, k) == Item([49, 48, 48, 54, 52, 52], k, m[k].sha)
  {
    hide Keys, Digits;
    assert [] + k == k;
    FileMode();
  }

  lemma OneSorted(ks: seq<Bytes>, k: Bytes)
    requires Ascending(ks) && forall x :: x in ks <==> x == k
    ensures ks == [k]
  {
    hide Less;
    assert k in ks;
    if |ks| > 1 {
      assert ks[0] in ks && ks[1] in ks && Less(ks[0], ks[1]);
      LessIrreflexive(k);
    }
  }

  lemma FileMode()
    ensures Digits(33188, 8) == [49, 48, 48, 54, 52, 52]
  {
    hide Digits;
    NextDigit(1, 0, 1);
    NextDigit(8, 1, 0);
    NextDigit(64, 8, 0);
    NextDigit(518, 64, 6);
    NextDigit(4148, 518, 4);
    NextDigit(33188, 4148, 4);
    assert [ZERO + 1] + [ZERO] + [ZERO] + [ZERO + 6] + [ZERO + 4] + [ZERO + 4] == [49, 48, 48, 54, 52, 52];
  }

  lemma OneItem(i: Item)
    ensures EncodeItems([i]) == i.mode + [32] + i.name + [0] + i.sha
  {
    assert [i][1..] == [];
    assert EncodeItem(i) + [] == EncodeItem(i);
  }

  lemma Header29(data: Bytes)
    requires |data| == 29
    ensures Raw(data) == [116, 114, 101, 101, 32, 50, 57, 0] + data
  {
    assert Digits(2, 10) == [50];
    assert Digits(29, 10) == [50] + [57];
    assert TREE + [SPACE] + Digits(29, 10) + [NUL] == [116, 114, 101, 101, 32, 50, 57, 0];
  }

  /** Flattening the tree of a prefix gives back the entries below it, for any
      store that holds its objects and any sufficient fuel. */
  lemma {:induction false} FlattenTree(store: Store, m: Index, prefix: Bytes, bound: nat, h: Hash, fuel: nat)
    requires Proper(m) && Bounded(m, bound) && ShaSized(h) && Stored(store, m, prefix, bound, h)
    requires |prefix| <= bound ==> fuel > bound - |prefix|
    requires fuel > 0
    ensures Flatten(store, TreeId(m, prefix, bound, h), prefix, fuel) == Some(Below(m, prefix))
    decreases fuel, 1, 0
  {
    hide KeyOf, Keys, EncodeItems, ParseTree, Raw, Payload, Covered;
    var ks := Sorted(Keys(m, prefix));
    var items := TreeItems(m, prefix, bound, h);
    ItemsGood(m, prefix, bound, h, ks);
    assert items == Items(m, prefix, bound, h, ks);
    TreeRoundTrip(items);
    RawRoundTrip(EncodeItems(items));
    FlattenKeys(store, m, prefix, bound, h, fuel, ks);
    CoveredAll(m, prefix, ks);
  }

  lemma CoveredAll(m: Index, prefix: Bytes, ks: seq<Bytes>)
    requires forall k :: k in ks <==> k in Keys(m, prefix)
    ensures Covered(m, prefix, ks) == Below(m, prefix)
  {
    hide KeyOf;
    forall p | p in m && Starts(p, prefix) ensures KeyOf(Rest(p, prefix)) in ks {
      assert KeyOf(Rest(p, prefix)) in Keys(m, prefix);
    }
  }

  lemma {:induction false} FlattenKeys(store: Store, m: Index, prefix: Bytes, bound: nat, h: Hash, fuel: nat, ks: seq<Bytes>)
    requires Proper(m) && Bounded(m, bound) && ShaSized(h) && Stored(store, m, prefix, bound, h)
    requires |prefix| <= bound ==> fuel > bound - |prefix|
    requires fuel > 0 && forall k :: k in ks ==> k in Keys(m, prefix)
    ensures FlattenItems(store, Items(m, prefix, bound, h, ks), prefix, fuel) == Some(Covered(m, prefix, ks))
    decreases fuel, 0, |ks|
  {
    hide KeyOf, Keys, Flatten, FlattenItems, Items, Digits, FromDigits, Covered, Below, TreeId;
    FlattenNone(store, m, prefix, bound, h, fuel);
    if ks == [] {
      CoveredNone(m, prefix);
    } else {
      var n := |ks| - 1;
      var k := ks[n];
      FlattenKeys(store, m, prefix, bound, h, fuel, ks[..n]);
      CoveredMore(m, prefix, bound, ks[..n], k);
      assert ks[..n] + [k] == ks;
      KeyFacts(m, prefix, bound, k);
      ItemsLast(m, prefix, bound, h, ks);
      FlattenLast(store, Items(m, prefix, bound, h, ks[..n]), ItemOf(m, prefix, bound, h, k), prefix, fuel);
      if IsDir(k) {
        assert KeyBound(m, prefix, bound, k);
        FlattenTree(store, m, prefix + k, bound, h, fuel - 1);
        assert prefix + k[..|k| - 1] + [SLASH] == prefix + k;
      } else {
        ModeText(m[prefix + k].mode);
      }
    }
  }

  lemma ItemsLast(m: Index, prefix: Bytes, bound: nat, h: Hash, ks: seq<Bytes>)
    requires Bounded(m, bound) && ks != [] && forall k :: k in ks ==> k in Keys(m, prefix)
    ensures Items(m, prefix, bound, h, ks)
         == Items(m, prefix, bound, h, ks[..|ks| - 1]) + [ItemOf(m, prefix, bound, h, ks[|ks| - 1])]
  {
  }

  lemma FlattenNone(store: Store, m: Index, prefix: Bytes, bound: nat, h: Hash, fuel: nat)
    requires Bounded(m, bound) && fuel > 0
    ensures FlattenItems(store, Items(m, prefix, bound, h, []), prefix, fuel) == Some(map[])
  {
  }

  /** One more entry of a tree. */
  lemma FlattenLast(store: Store, items: seq<Item>, i: Item, prefix: Bytes, fuel: nat)
    requires fuel > 0 && FlattenItems(store, items, prefix, fuel).Some?
    ensures var out := FlattenItems(store, items, prefix, fuel).value;
      FlattenItems(store, items + [i], prefix, fuel)
      == (if i.mode == DIR_TEXT then
            match Flatten(store, i.sha, prefix + i.name + [SLASH], fuel - 1)
            case None => None
            case Some(sub) => Some(out + sub)
          else if FromDigits(i.mode, 8) < 0 then None
          else Some(out[prefix + i.name := Entry(FromDigits(i.mode, 8), i.sha)]))
  {
    hide Flatten, FromDigits;
    assert (items + [i])[..|items|] == items;
  }

  lemma CoveredNone(m: Index, prefix: Bytes)
    ensures Covered(m, prefix, []) == map[]
  {
  }

  lemma BelowAll(m: Index)
    ensures Below(m, []) == m
  {
  }

  /** Equal tree ids mean equal indexes, when no two of their objects clash. */
  lemma SameIdSameIndex(store: Store, m: Index, n: Index, bound: nat, h: Hash)
    requires Proper(m) && Proper(n) && Bounded(m, bound) && Bounded(n, bound) && ShaSized(h)
    requires Stored(store, m, [], bound, h) && Stored(store, n, [], bound, h)
    ensures TreeId(m, [], bound, h) == TreeId(n, [], bound, h) <==> m == n
  {
    FlattenTree(store, m, [], bound, h, bound + 1);
    FlattenTree(store, n, [], bound, h, bound + 1);
    BelowAll(m);
    BelowAll(n);
  }

  // ----- the repository -----

  class Repo {
    const h: Hash
    var objects: Store
    var index: Index
    /** The tree of the commit HEAD points at, if there is one. */
    var headTree: Option<Bytes>
    /** The index that tree was written from. */
    ghost var headIndex: Index
    /** Objects among which the hash has no collision, and a bound on path lengths. */
    ghost const u: iset<Bytes>
    ghost const bound: nat

    ghost predicate Valid()
      reads this
    {
      && ShaSized(h) && NoClash(u, h) && Sound(objects, u, h)
      && Proper(index) && Bounded(index, bound) && Proper(headIndex) && Bounded(headIndex, bound)
      && (headTree.Some? ==> headTree.value == TreeId(headIndex, [], bound, h) && Stored(objects, headIndex, [], bound, h))
    }

    constructor (h: Hash, ghost u: iset<Bytes>, ghost bound: nat)
      requires ShaSized(h) && NoClash(u, h)
      ensures Valid() && this.h == h && this.u == u && this.bound == bound && headTree == None && index == map[] && objects == map[]
    {
      this.h, this.u, this.bound := h, u, bound;
      objects, index, headTree, headIndex := map[], map[], None, map[];
    }

    /** Stores an object under its id unless it is there already. */
    method WriteObject(data: Bytes) returns (sha: Bytes)
      requires Valid() && Raw(data) in u
      modifies this`objects
      ensures Valid() && sha == h(Raw(data)) && objects == old(objects)[sha := Raw(data)]
      ensures Grown(old(objects), objects)
    {
      var raw := Raw(data);
      sha := h(raw);
      if sha !in objects {
        objects := objects[sha := raw];
        if headTree.Some? {
          StoredGrows(old(objects), objects, headIndex, [], bound, h);
        }
      } else {
        assert objects == objects[sha := raw];
      }
    }

    /** Writes the trees below a prefix, subtrees first, and returns their root's id. */
    method TreeFor(m: Index, prefix: Bytes) returns (sha: Bytes)
      requires Valid() && Proper(m) && Bounded(m, bound) && TreesIn(m, prefix, bound, h, u)
      modifies this`objects
      ensures Valid() && sha == TreeId(m, prefix, bound, h) && Stored(objects, m, prefix, bound, h)
      ensures Grown(old(objects), objects)
      decreases bound - |prefix|, 1
    {
      hide KeyOf, Keys, NoClash, Sound, Raw, EncodeItem, EncodeItems, Items;
      var keys := Names(m, prefix);
      var ids := Subtrees(m, prefix, keys);
      var ks := Sort(keys);
      SortedUnique(ks, Sorted(keys));
      var data := Join(m, prefix, ids, ks);
      assert Raw(data) == TreeRaw(m, prefix, bound, h);
      ghost var before := objects;
      sha := WriteObject(data);
      forall j | j in keys ensures KeyBound(m, prefix, bound, j) && (IsDir(j) ==> Stored(objects, m, prefix + j, bound, h)) {
        if IsDir(j) {
          StoredGrows(before, objects, m, prefix + j, bound, h);
        }
      }
    }

    /** What is known of the subtrees done so far. */
    ghost predicate Done(m: Index, prefix: Bytes, ids: map<Bytes, Bytes>, k: Bytes)
      requires Bounded(m, bound) && k in Keys(m, prefix)
      reads this
    {
      && KeyBound(m, prefix, bound, k)
      && (IsDir(k) ==> k in ids && ids[k] == TreeId(m, prefix + k, bound, h) && Stored(objects, m, prefix + k, bound, h))
    }

    /** Writes each subdirectory's tree. */
    method Subtrees(m: Index, prefix: Bytes, keys: set<Bytes>) returns (ids: map<Bytes, Bytes>)
      requires Valid() && Proper(m) && Bounded(m, bound) && TreesIn(m, prefix, bound, h, u) && keys == Keys(m, prefix)
      modifies this`objects
      ensures Valid() && Grown(old(objects), objects) && forall k :: k in keys ==> Done(m, prefix, ids, k)
      decreases bound - |prefix|, 0
    {
      hide KeyOf, Keys, NoClash, Sound, Items, Raw, TreeId;
      ids := map[];
      var todo := keys;
      while todo != {}
        invariant todo <= keys && Valid() && Grown(old(objects), objects)
        invariant forall k :: k in keys && k !in todo ==> Done(m, prefix, ids, k)
        decreases |todo|
      {
        var k :| k in todo;
        assert KeyBound(m, prefix, bound, k);
        if IsDir(k) {
          ghost var before, had := objects, ids;
          label Before:
          var id := TreeFor(m, prefix + k);
          ids := ids[k := id];
          forall j | j in keys && j !in todo ensures Done(m, prefix, ids, j) {
            assert old@Before(Done(m, prefix, had, j));
            if IsDir(j) {
              StoredGrows(before, objects, m, prefix + j, bound, h);
            }
          }
        }
        todo := todo - {k};
      }
    }

    /** The encoded entries, in order. */
    method Join(m: Index, prefix: Bytes, ids: map<Bytes, Bytes>, ks: seq<Bytes>) returns (data: Bytes)
      requires Bounded(m, bound) && forall k :: k in ks ==> k in Keys(m, prefix)
      requires forall k :: k in ks && IsDir(k) ==>
        k in ids && KeyBound(m, prefix, bound, k) && ids[k] == TreeId(m, prefix + k, bound, h)
      ensures data == EncodeItems(Items(m, prefix, bound, h, ks))
    {
      hide KeyOf, Keys, EncodeItem;
      data := [];
      var i := 0;
      assert ks[..0] == [];
      while i < |ks|
        invariant i <= |ks| && data == EncodeItems(Items(m, prefix, bound, h, ks[..i]))
      {
        var k := ks[i];
        assert k in ks;
        KeyFacts(m, prefix, bound, k);
        var item := if IsDir(k) then Item(DIR_TEXT, k[..|k| - 1], ids[k]) else Item(Digits(m[prefix + k].mode, 8), k, m[prefix + k].sha);
        assert ks[..i + 1][..i] == ks[..i];
        ItemsLast(m, prefix, bound, h, ks[..i + 1]);
        EncodeLast(Items(m, prefix, bound, h, ks[..i]), item);
        data := data + EncodeItem(item);
        i := i + 1;
      }
      assert ks[..i] == ks;
    }

    method WriteTree() returns (sha: Bytes)
      requires Valid() && TreesIn(index, [], bound, h, u)
      modifies this`objects
      ensures Valid() && sha == TreeId(index, [], bound, h) && Stored(objects, index, [], bound, h)
      ensures Grown(old(objects), objects)
    {
      sha := TreeFor(index, []);
    }

    /** Reads a tree and all its subtrees back into a map. */
    method FlattenTreeAt(sha: Bytes, prefix: Bytes, ghost fuel: nat) returns (out: Index)
      requires Flatten(objects, sha, prefix, fuel).Some?
      ensures out == Flatten(objects, sha, prefix, fuel).value
      decreases fuel
    {
      hide Payload, ParseTree, FromDigits;
      var items := ReadTree(Payload(objects[sha]).value);
      ghost var all := items.value;
      out := map[];
      var i := 0;
      assert all[..|all|] == all && all[..0] == [];
      while i < |items.value|
        invariant i <= |all| && FlattenItems(objects, all[..i], prefix, fuel) == Some(out)
      {
        var it := items.value[i];
        assert all[..i + 1][..i] == all[..i];
        SomePrefix(objects, all, prefix, fuel, i + 1);
        if it.mode == DIR_TEXT {
          var sub := FlattenTreeAt(it.sha, prefix + it.name + [SLASH], fuel - 1);
          out := out + sub;
        } else {
          out := out[prefix + it.name := Entry(FromDigits(it.mode, 8), it.sha)];
        }
        i := i + 1;
      }
    }

    /** Commits the index; refused exactly when it is HEAD's tree already. */
    method Commit() returns (done: bool)
      requires Valid() && TreesIn(index, [], bound, h, u)
      modifies this
      ensures Valid() && index == old(index)
      ensures done <==> !(old(headTree).Some? && old(index) == old(headIndex))
      ensures done ==> headTree.Some? && headIndex == index
      ensures !done ==> headTree == old(headTree) && headIndex == old(headIndex)
    {
      var tree := WriteTree();
      if headTree.Some? {
        SameIdSameIndex(objects, index, headIndex, bound, h);
      }
      if headTree == Some(tree) { return false; }
      headTree := Some(tree);
      headIndex := index;
      return true;
    }
  }

  /** Nothing stored is lost or changed. */
  ghost predicate Grown(store: Store, store': Store) { forall s :: s in store ==> s in store' && store'[s] == store[s] }

  /** The names in a directory, from a pass over all paths. */
  method Names(m: Index, prefix: Bytes) returns (keys: set<Bytes>)
    ensures keys == Keys(m, prefix)
  {
    hide KeyOf;
    keys := {};
    var todo := m.Keys;
    while todo != {}
      invariant todo <= m.Keys
      invariant keys == set p | p in m && p !in todo && Starts(p, prefix) :: KeyOf(Rest(p, prefix))
      decreases |todo|
    {
      var p :| p in todo;
      if Starts(p, prefix) {
        keys := keys + {KeyOf(Rest(p, prefix))};
      }
      todo := todo - {p};
    }
  }

  lemma {:induction false} EncodeLast(s: seq<Item>, i: Item)
    ensures EncodeItems(s + [i]) == EncodeItems(s) + EncodeItem(i)
  {
    hide EncodeItem;
    if s != [] {
      assert (s + [i])[1..] == s[1..] + [i];
      EncodeLast(s[1..], i);
    } else {
      assert [i][1..] == [];
    }
  }

  /** A tree that flattens has prefixes that flatten. */
  lemma {:induction false} SomePrefix(store: Store, items: seq<Item>, prefix: Bytes, fuel: nat, n: nat)
    requires fuel > 0 && n <= |items| && FlattenItems(store, items, prefix, fuel).Some?
    ensures FlattenItems(store, items[..n], prefix, fuel).Some?
    decreases |items|
  {
    hide Flatten, FromDigits;
    if n < |items| {
      SomePrefix(store, items[..|items| - 1], prefix, fuel, n);
      assert items[..|items| - 1][..n] == items[..n];
    } else {
      assert items[..n] == items;
    }
  }
}
