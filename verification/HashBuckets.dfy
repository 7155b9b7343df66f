/** The buckets of the open-addressing hash table as a map: double hashing with
    tombstones, over any pair of hash functions into the table. */
module HashBuckets {
  import opened Arithmetic
  import opened Wrappers
  import opened HashPrime

  datatype Bucket = Empty | Deleted | Item(key: string, value: string)

  /** The two hashes of a key for a bucket count. */
  datatype Hashes = Hashes(a: (string, nat) -> nat, b: (string, nat) -> nat)

  /** Both hashes are bucket numbers. */
  ghost predicate InRange(h: Hashes) { forall k: string, n: nat :: n > 0 ==> h.a(k, n) < n && h.b(k, n) < n }

  /** The bucket of an attempt. */
  function Probe(h: Hashes, key: string, n: nat, attempt: nat): (r: nat)
    requires n > 0
    ensures r < n
  {
    (h.a(key, n) + attempt * (h.b(key, n) + 1)) % n
  }

  // ----- the buckets as a map -----

  function MapOf(s: seq<Bucket>): map<string, string> {
    if s == [] then map[]
    else
      var b := s[|s| - 1];
      if b.Item? then MapOf(s[..|s| - 1])[b.key := b.value] else MapOf(s[..|s| - 1])
  }

  function Items(s: seq<Bucket>): nat {
    if s == [] then 0 else Items(s[..|s| - 1]) + if s[|s| - 1].Item? then 1 else 0
  }

  /** No key is in two buckets. */
  ghost predicate Distinct(s: seq<Bucket>) {
    forall i, j :: 0 <= i < j < |s| && s[i].Item? && s[j].Item? ==> s[i].key != s[j].key
  }

  /** A bucket that a probe for this key does not stop at. */
  predicate Passes(b: Bucket, key: string) { b.Deleted? || (b.Item? && b.key != key) }

  /** The first t probes for a key pass. */
  ghost predicate Clear(h: Hashes, s: seq<Bucket>, key: string, t: nat) {
    |s| > 0 && forall u: nat :: u < t ==> Passes(s[Probe(h, key, |s|, u)], key)
  }

  ghost predicate ReachedAt(h: Hashes, s: seq<Bucket>, key: string, t: nat, p: nat) {
    |s| > 0 && Probe(h, key, |s|, t) == p && Clear(h, s, key, t)
  }

  /** Every key's probe sequence leads to its bucket without meeting an empty one. */
  ghost predicate Reachable(h: Hashes, s: seq<Bucket>) {
    forall p: nat :: p < |s| && s[p].Item? ==> Reached(h, s, p)
  }

  ghost predicate Reached(h: Hashes, s: seq<Bucket>, p: nat)
    requires p < |s| && s[p].Item?
  {
    exists t: nat :: ReachedAt(h, s, s[p].key, t, p)
  }

  ghost predicate Good(h: Hashes, s: seq<Bucket>) { Prime(|s|) && Distinct(s) && Reachable(h, s) }

  lemma {:induction false} MapHas(s: seq<Bucket>, key: string) returns (p: nat)
    requires key in MapOf(s)
    ensures p < |s| && s[p] == Item(key, MapOf(s)[key])
  {
    var n := |s| - 1;
    if s[n].Item? && s[n].key == key {
      p := n;
    } else {
      p := MapHas(s[..n], key);
    }
  }

  lemma {:induction false} MapGets(s: seq<Bucket>, p: nat)
    requires Distinct(s) && p < |s| && s[p].Item?
    ensures s[p].key in MapOf(s) && MapOf(s)[s[p].key] == s[p].value
  {
    var n := |s| - 1;
    if p < n {
      MapGets(s[..n], p);
      assert s[..n][p] == s[p];
    }
  }

  lemma {:induction false} MapSize(s: seq<Bucket>)
    requires Distinct(s)
    ensures |MapOf(s)| == Items(s)
  {
    if s != [] {
      var n := |s| - 1;
      MapSize(s[..n]);
      if s[n].Item? {
        MapLacks(s[..n], s[n].key);
      }
    }
  }

  lemma {:induction false} MapLacks(s: seq<Bucket>, key: string)
    requires forall q :: 0 <= q < |s| && s[q].Item? ==> s[q].key != key
    ensures key !in MapOf(s)
  {
    if s != [] {
      MapLacks(s[..|s| - 1], key);
    }
  }

  lemma {:induction false} ItemsUpdate(s: seq<Bucket>, p: nat, b: Bucket)
    requires p < |s|
    ensures Items(s[p := b]) + (if s[p].Item? then 1 else 0) == Items(s) + if b.Item? then 1 else 0
  {
    var n := |s| - 1;
    if p < n {
      ItemsUpdate(s[..n], p, b);
      assert s[p := b][..n] == s[..n][p := b];
    } else {
      assert s[p := b][..n] == s[..n];
    }
  }

  /** Maps with the same lookups are the same. */
  lemma SameMap(s: seq<Bucket>, m: map<string, string>)
    requires Distinct(s)
    requires forall p :: 0 <= p < |s| && s[p].Item? ==> s[p].key in m && m[s[p].key] == s[p].value
    requires forall k :: k in m ==> exists p :: 0 <= p < |s| && s[p] == Item(k, m[k])
    ensures MapOf(s) == m
  {
    forall k | k in MapOf(s) ensures k in m && m[k] == MapOf(s)[k] {
      var p := MapHas(s, k);
    }
    forall k | k in m ensures k in MapOf(s) {
      var p :| 0 <= p < |s| && s[p] == Item(k, m[k]);
      MapGets(s, p);
    }
  }

  // ----- what one probe run finds -----

  /** A run that stops at an empty bucket shows the key is absent. */
  lemma StopsEmpty(h: Hashes, s: seq<Bucket>, key: string, t: nat)
    requires Good(h, s) && Clear(h, s, key, t) && s[Probe(h, key, |s|, t)].Empty?
    ensures key !in MapOf(s)
  {
    if key in MapOf(s) {
      var p := MapHas(s, key);
      assert Reached(h, s, p);
      var u: nat :| ReachedAt(h, s, key, u, p);
      StopsBefore(h, s, key, t, u, p);
    }
  }

  lemma StopsBefore(h: Hashes, s: seq<Bucket>, key: string, t: nat, u: nat, p: nat)
    requires Clear(h, s, key, t) && s[Probe(h, key, |s|, t)].Empty? && p < |s| && ReachedAt(h, s, key, u, p)
    ensures !(s[p].Item? && s[p].key == key)
  {
    hide Probe;
    var atT := Passes(s[Probe(h, key, |s|, t)], key);
    var atU := Passes(s[Probe(h, key, |s|, u)], key);
  }

  lemma StopsFound(s: seq<Bucket>, key: string, p: nat)
    requires Distinct(s) && p < |s| && s[p].Item? && s[p].key == key
    ensures key in MapOf(s) && MapOf(s)[key] == s[p].value
  {
    MapGets(s, p);
  }

  /** If a whole round of probes passes, the run never stops. */
  lemma NeverStops(h: Hashes, s: seq<Bucket>, key: string, t: nat)
    requires |s| > 0 && Clear(h, s, key, |s|)
    ensures Clear(h, s, key, t)
  {
    forall u: nat | u < t ensures Passes(s[Probe(h, key, |s|, u)], key) {
      ProbeRepeats(|s|, h.a(key, |s|), h.b(key, |s|) + 1, u);
      DivMod(u, |s|);
      assert Probe(h, key, |s|, u) == Probe(h, key, |s|, u % |s|);
    }
  }

  /** A step other than the bucket count visits every bucket, so it stops while
      one is empty. */
  lemma StopsWhileEmpty(h: Hashes, s: seq<Bucket>, key: string, p: nat)
    requires InRange(h) && Prime(|s|) && p < |s| && s[p].Empty? && h.b(key, |s|) + 1 != |s|
    ensures !Clear(h, s, key, |s|)
  {
    var t := ProbeVisits(|s|, h.a(key, |s|), h.b(key, |s|) + 1, p);
    assert Probe(h, key, |s|, t) == p;
  }

  ghost predicate HasEmpty(s: seq<Bucket>) { exists p :: 0 <= p < |s| && s[p].Empty? }

  /** A step equal to the bucket count stays on the first bucket. */
  lemma StandsStill(h: Hashes, s: seq<Bucket>, key: string, t: nat)
    requires InRange(h) && |s| > 0 && h.b(key, |s|) + 1 == |s|
    ensures Probe(h, key, |s|, t) == h.a(key, |s|)
  {
    ModUnique(h.a(key, |s|) + t * |s|, |s|, t, h.a(key, |s|));
  }

  /** When a probe run for a key goes on forever. If the step is the bucket count:
      exactly when the first bucket is passed, however many others are empty. For
      any other step: exactly when the key is absent and no bucket is empty, so
      tombstones alone can do it. */
  lemma EndsExactly(h: Hashes, s: seq<Bucket>, key: string)
    requires InRange(h) && Good(h, s)
    ensures (forall n: nat :: Clear(h, s, key, n)) <==>
      if h.b(key, |s|) + 1 == |s| then Passes(s[h.a(key, |s|)], key) else key !in MapOf(s) && !HasEmpty(s)
  {
    hide Probe, Prime;
    Goods(h, s);
    if h.b(key, |s|) + 1 == |s| {
      StandsStill(h, s, key, 0);
      if Passes(s[h.a(key, |s|)], key) {
        forall n: nat ensures Clear(h, s, key, n) {
          forall u: nat | u < n ensures Passes(s[Probe(h, key, |s|, u)], key) {
            StandsStill(h, s, key, u);
          }
        }
      } else {
        assert !Clear(h, s, key, 1);
      }
    } else if key in MapOf(s) {
      var p := MapHas(s, key);
      assert Reached(h, s, p);
      var u: nat :| ReachedAt(h, s, key, u, p);
      assert !Passes(s[Probe(h, key, |s|, u)], key);
      assert !Clear(h, s, key, u + 1);
    } else if HasEmpty(s) {
      var p :| 0 <= p < |s| && s[p].Empty?;
      StopsWhileEmpty(h, s, key, p);
    } else {
      AbsentKey(s, key);
      forall n: nat ensures Clear(h, s, key, n) {
        forall u: nat | u < n ensures Passes(s[Probe(h, key, |s|, u)], key) {
          var p := Probe(h, key, |s|, u);
          assert !s[p].Empty?;
        }
      }
    }
  }

  // ----- where a probe run stops -----

  ghost predicate StopsAt(h: Hashes, s: seq<Bucket>, key: string, t: nat) {
    Clear(h, s, key, t) && !Passes(s[Probe(h, key, |s|, t)], key)
  }

  /** The bucket at which the probe run for a key stops; None if it goes on forever. */
  ghost function Stop(h: Hashes, s: seq<Bucket>, key: string): (r: Option<nat>)
    ensures r.Some? ==> r.value < |s|
  {
    if exists t: nat :: StopsAt(h, s, key, t) then
      var t: nat :| StopsAt(h, s, key, t);
      Some(Probe(h, key, |s|, t))
    else None
  }

  lemma StopIs(h: Hashes, s: seq<Bucket>, key: string, t: nat)
    requires StopsAt(h, s, key, t)
    ensures Stop(h, s, key) == Some(Probe(h, key, |s|, t))
  {
    hide Probe;
    forall u: nat | StopsAt(h, s, key, u) ensures u == t {
      var atU, atT := Passes(s[Probe(h, key, |s|, u)], key), Passes(s[Probe(h, key, |s|, t)], key);
    }
  }

  lemma StopNone(h: Hashes, s: seq<Bucket>, key: string)
    requires |s| > 0
    ensures Stop(h, s, key) == None <==> forall n: nat :: Clear(h, s, key, n)
  {
    hide Probe;
    if t: nat :| StopsAt(h, s, key, t) {
      assert !Clear(h, s, key, t + 1);
    } else {
      forall n: nat ensures Clear(h, s, key, n) {
        NeverStopsBy(h, s, key, n);
      }
    }
  }

  lemma {:induction false} NeverStopsBy(h: Hashes, s: seq<Bucket>, key: string, n: nat)
    requires |s| > 0 && forall t: nat :: !StopsAt(h, s, key, t)
    ensures Clear(h, s, key, n)
  {
    hide Probe;
    if n > 0 {
      NeverStopsBy(h, s, key, n - 1);
      assert !StopsAt(h, s, key, n - 1);
    }
  }

  // ----- what the writes keep -----

  /** Filling an empty bucket at the end of its key's probe run. */
  lemma PutNew(h: Hashes, s: seq<Bucket>, key: string, value: string, t: nat)
    requires Good(h, s) && Clear(h, s, key, t) && s[Probe(h, key, |s|, t)].Empty?
    ensures var s' := s[Probe(h, key, |s|, t) := Item(key, value)];
      Good(h, s') && MapOf(s') == MapOf(s)[key := value] && Items(s') == Items(s) + 1
  {
    hide Probe, Prime;
    var p := Probe(h, key, |s|, t);
    var s' := s[p := Item(key, value)];
    StopsEmpty(h, s, key, t);
    AbsentKey(s, key);
    ItemsUpdate(s, p, Item(key, value));
    forall q: nat | q < |s'| && s'[q].Item? ensures Reached(h, s', q) {
      if q == p {
        assert ReachedAt(h, s', key, t, p) by {
          forall u: nat | u < t ensures Passes(s'[Probe(h, key, |s|, u)], key) {
            assert Passes(s[Probe(h, key, |s|, u)], key);
          }
        }
      } else {
        assert Reached(h, s, q);
        var u: nat :| ReachedAt(h, s, s[q].key, u, q);
        StillClear(h, s, p, Item(key, value), s[q].key, u);
        assert ReachedAt(h, s', s[q].key, u, q);
      }
    }
    MapWrite(s, p, key, value);
  }

  lemma AbsentKey(s: seq<Bucket>, key: string)
    requires Distinct(s) && key !in MapOf(s)
    ensures forall q :: 0 <= q < |s| && s[q].Item? ==> s[q].key != key
  {
    forall q | 0 <= q < |s| && s[q].Item? ensures s[q].key != key {
      MapGets(s, q);
    }
  }

  /** Writing a bucket that is not an empty one's stop keeps other runs going. */
  lemma StillClear(h: Hashes, s: seq<Bucket>, p: nat, b: Bucket, key: string, u: nat)
    requires p < |s| && Clear(h, s, key, u) && Passes(b, key)
    ensures Clear(h, s[p := b], key, u)
  {
    hide Probe;
    forall v: nat | v < u ensures Passes(s[p := b][Probe(h, key, |s|, v)], key) {
      assert Passes(s[Probe(h, key, |s|, v)], key);
    }
  }

  lemma MapWrite(s: seq<Bucket>, p: nat, key: string, value: string)
    requires p < |s| && Distinct(s) && Distinct(s[p := Item(key, value)])
    requires s[p].Item? ==> s[p].key == key
    ensures MapOf(s[p := Item(key, value)]) == MapOf(s)[key := value]
  {
    var s', m := s[p := Item(key, value)], MapOf(s)[key := value];
    forall q | 0 <= q < |s'| && s'[q].Item? ensures s'[q].key in m && m[s'[q].key] == s'[q].value {
      if q != p {
        MapGets(s, q);
        assert s'[q].key != s'[p].key;
      }
    }
    forall k | k in m ensures exists q :: 0 <= q < |s'| && s'[q] == Item(k, m[k]) {
      if k == key {
        assert s'[p] == Item(k, m[k]);
      } else {
        var q := MapHas(s, k);
        assert s'[q] == Item(k, m[k]);
      }
    }
    SameMap(s', m);
  }

  /** Overwriting the key's own bucket. */
  lemma PutOver(h: Hashes, s: seq<Bucket>, p: nat, value: string)
    requires Good(h, s) && p < |s| && s[p].Item?
    ensures var s' := s[p := Item(s[p].key, value)];
      Good(h, s') && MapOf(s') == MapOf(s)[s[p].key := value] && Items(s') == Items(s)
  {
    hide Probe, Prime;
    var key, s' := s[p].key, s[p := Item(s[p].key, value)];
    ItemsUpdate(s, p, Item(key, value));
    forall q: nat | q < |s'| && s'[q].Item? ensures Reached(h, s', q) {
      assert Reached(h, s, q);
      var u: nat :| ReachedAt(h, s, s[q].key, u, q);
      KeepsOver(h, s, p, value, s[q].key, u);
      assert ReachedAt(h, s', s[q].key, u, q);
    }
    MapWrite(s, p, key, value);
  }

  lemma KeepsOver(h: Hashes, s: seq<Bucket>, p: nat, value: string, key: string, u: nat)
    requires p < |s| && s[p].Item? && Clear(h, s, key, u)
    ensures Clear(h, s[p := Item(s[p].key, value)], key, u)
  {
    hide Probe;
    forall v: nat | v < u ensures Passes(s[p := Item(s[p].key, value)][Probe(h, key, |s|, v)], key) {
      assert Passes(s[Probe(h, key, |s|, v)], key);
    }
  }

  /** A tombstone in the key's bucket. */
  lemma Bury(h: Hashes, s: seq<Bucket>, p: nat)
    requires Good(h, s) && p < |s| && s[p].Item?
    ensures Good(h, s[p := Deleted]) && MapOf(s[p := Deleted]) == MapOf(s) - {s[p].key} && Items(s[p := Deleted]) == Items(s) - 1
  {
    hide Probe, Prime;
    var s', key := s[p := Deleted], s[p].key;
    ItemsUpdate(s, p, Deleted);
    forall q: nat | q < |s'| && s'[q].Item? ensures Reached(h, s', q) {
      assert Reached(h, s, q);
      var u: nat :| ReachedAt(h, s, s[q].key, u, q);
      StillClear(h, s, p, Deleted, s[q].key, u);
      assert ReachedAt(h, s', s[q].key, u, q);
    }
    var m := MapOf(s) - {key};
    forall q | 0 <= q < |s'| && s'[q].Item? ensures s'[q].key in m && m[s'[q].key] == s'[q].value {
      MapGets(s, q);
      assert s[q].key != s[p].key;
    }
    forall k | k in m ensures exists q :: 0 <= q < |s'| && s'[q] == Item(k, m[k]) {
      var q := MapHas(s, k);
      assert s'[q] == Item(k, m[k]);
    }
    SameMap(s', m);
  }

  /** Writing a key where its run stops. */
  lemma PutAt(h: Hashes, s: seq<Bucket>, key: string, value: string, p: nat)
    requires Good(h, s) && Stop(h, s, key) == Some(p)
    ensures var s' := s[p := Item(key, value)];
      && Good(h, s') && MapOf(s') == MapOf(s)[key := value]
      && Items(s') == Items(s) + (if key in MapOf(s) then 0 else 1)
  {
    hide Probe, Prime, MapOf, Good, Items;
    Goods(h, s);
    var t: nat :| StopsAt(h, s, key, t);
    StopIs(h, s, key, t);
    if s[p].Item? {
      StopsFound(s, key, p);
      PutOver(h, s, p, value);
    } else {
      StopsEmpty(h, s, key, t);
      PutNew(h, s, key, value, t);
    }
  }

  /** Taking a key out where its run stops. */
  lemma TakeAt(h: Hashes, s: seq<Bucket>, key: string, p: nat)
    requires Good(h, s) && Stop(h, s, key) == Some(p)
    ensures s[p].Item? <==> key in MapOf(s)
    ensures s[p].Item? ==> Good(h, s[p := Deleted]) && MapOf(s[p := Deleted]) == MapOf(s) - {key} && Items(s[p := Deleted]) == Items(s) - 1
  {
    hide Probe, Prime, MapOf, Good, Items;
    Goods(h, s);
    var t: nat :| StopsAt(h, s, key, t);
    StopIs(h, s, key, t);
    if s[p].Item? {
      StopsFound(s, key, p);
      Bury(h, s, p);
    } else {
      StopsEmpty(h, s, key, t);
    }
  }

  lemma {:induction false} AllEmpty(h: Hashes, s: seq<Bucket>)
    requires forall i :: 0 <= i < |s| ==> s[i].Empty?
    ensures MapOf(s) == map[] && Items(s) == 0 && Distinct(s) && Reachable(h, s)
  {
    if s != [] {
      AllEmpty(h, s[..|s| - 1]);
    }
  }

  /** What one more bucket of the old table adds to the new one. */
  lemma Prefix(h: Hashes, s: seq<Bucket>, moved: seq<Bucket>, i: nat)
    requires Good(h, s) && i < |s| && Distinct(moved) && MapOf(moved) == MapOf(s[..i])
    ensures Items(moved) <= Items(s)
    ensures MapOf(s[..i + 1]) == if s[i].Item? then MapOf(moved)[s[i].key := s[i].value] else MapOf(moved)
  {
    MapSize(moved);
    MapSize(s[..i]);
    ItemsPrefix(s, i);
    assert s[..i + 1][..i] == s[..i];
  }

  lemma {:induction false} ItemsPrefix(s: seq<Bucket>, i: nat)
    requires i <= |s|
    ensures Items(s[..i]) <= Items(s)
  {
    if i < |s| {
      ItemsPrefix(s[..|s| - 1], i);
      assert s[..|s| - 1][..i] == s[..i];
    } else {
      assert s[..i] == s;
    }
  }

  lemma Goods(h: Hashes, s: seq<Bucket>)
    requires Good(h, s)
    ensures |s| >= 2 && Distinct(s) && Prime(|s|)
  {
  }
}
