/** The open-addressing hash table: buckets in an array, probed and rebuilt in
    place. Every operation does what its function on the base size and the buckets
    says, and ends exactly when that function has a value. */
module HashTable {
  import opened Wrappers
  import opened HashPrime
  import opened HashBuckets
  import opened HashGrowth

  class Table {
    const h: Hashes
    var baseSize: int
    var size: nat
    var count: nat
    var items: array<Bucket>

    ghost predicate Valid()
      reads this, items
    {
      Sound(h, State()) && size == items.Length && count == Items(items[..])
    }

    ghost function State(): Shape
      reads this, items
    {
      Shape(baseSize, items[..])
    }

    ghost function Contents(): map<string, string>
      reads this, items
    {
      MapOf(items[..])
    }

    constructor (h: Hashes, baseSize: int)
      requires InRange(h) && baseSize >= INITIAL_BASE_SIZE
      ensures Valid() && this.h == h && State() == Fresh(baseSize)
      ensures fresh(items) && Contents() == map[] && count == 0
    {
      this.h := h;
      this.baseSize := baseSize;
      var n := NextPrime(baseSize);
      size := n;
      count := 0;
      items := new Bucket[n](_ => Empty);
      new;
      FreshSound(h, baseSize);
      LeastGrows(baseSize, size, baseSize, |Fresh(baseSize).s|);
      assert items[..] == Fresh(baseSize).s;
    }

    /** Probes for a key: the bucket that holds it or the first empty one. `stops`
        is false exactly when the loop would run forever. */
    method Find(key: string) returns (stops: bool, p: nat)
      requires Valid()
      ensures !stops <==> forall n: nat :: Clear(h, items[..], key, n)
      ensures Stop(h, items[..], key) == if stops then Some(p) else None
      ensures stops ==> p < size && (items[p].Empty? || (items[p].Item? && items[p].key == key))
      ensures stops ==> (items[p].Item? <==> key in Contents()) && (items[p].Item? ==> items[p].value == Contents()[key])
    {
      hide Probe, Good, MapOf, Items, Distinct, Stop, IsLeast;
      ghost var s := items[..];
      Goods(h, s);
      StopNone(h, s, key);
      var i := 0;
      while i < size
        invariant i <= size && Clear(h, s, key, i)
      {
        p := Probe(h, key, size, i);
        if items[p].Empty? {
          assert StopsAt(h, s, key, i);
          StopsEmpty(h, s, key, i);
          StopIs(h, s, key, i);
          return true, p;
        }
        if items[p].Item? && items[p].key == key {
          assert StopsAt(h, s, key, i);
          StopsFound(s, key, p);
          StopIs(h, s, key, i);
          return true, p;
        }
        i := i + 1;
      }
      forall n: nat ensures Clear(h, s, key, n) {
        NeverStops(h, s, key, n);
      }
      return false, 0;
    }

    /** The map's answer, if the search ends. */
    method Search(key: string) returns (ends: bool, r: Option<string>)
      requires Valid()
      ensures !ends <==> forall n: nat :: Clear(h, items[..], key, n)
      ensures ends ==> r == if key in Contents() then Some(Contents()[key]) else None
    {
      hide MapOf, Good, Probe, Clear, Stop;
      var stops, p := Find(key);
      if !stops { return false, None; }
      return true, if items[p].Item? then Some(items[p].value) else None;
    }

    /** Inserts or overwrites; grows the table first when more than 70% full. */
    method Insert(key: string, value: string) returns (ends: bool)
      requires Valid()
      modifies this, items
      ensures Valid() && (items == old(items) || fresh(items))
      ensures ends <==> Inserted(h, old(State()), key, value).Some?
      ensures ends ==> State() == Inserted(h, old(State()), key, value).value
      ensures ends ==> Contents() == old(Contents())[key := value]
      decreases Room(count, baseSize), 0
    {
      hide MapOf, Good, Items, InRange, Resized, Stop;
      Goods(h, items[..]);
      var load := count * 100 / size;
      if load > 70 {
        Crowded(count, size);
        ends := Resize(baseSize * 2);
        if !ends { return; }
      }
      assert Grown(h, old(State())) == Some(State());
      var stops, p := Find(key);
      if !stops { return false; }
      ghost var s := items[..];
      PutAt(h, s, key, value, p);
      if !items[p].Item? {
        count := count + 1;
      }
      items[p] := Item(key, value);
      assert items[..] == s[p := Item(key, value)];
      return true;
    }

    /** Rebuilds the table around another base size, without its tombstones. */
    method Resize(newBase: int) returns (ends: bool)
      requires Valid()
      modifies this, items
      ensures Valid() && (items == old(items) || fresh(items))
      ensures ends <==> Resized(h, old(State()), newBase).Some?
      ensures ends ==> State() == Resized(h, old(State()), newBase).value
      decreases Room(count, newBase), 1
    {
      hide MapOf, Good, Items, Inserted, Fresh, IsLeast;
      if newBase < INITIAL_BASE_SIZE { return true; }
      var other := new Table(h, newBase);
      var i := 0;
      ghost var s := items[..];
      Goods(h, s);
      while i < size
        invariant i <= size && Valid() && items == old(items) && items[..] == s && State() == old(State())
        invariant fresh(other) && fresh(other.items) && other.Valid() && other.h == h
        invariant Refilled(h, s, newBase, i) == Some(other.State())
      {
        Goods(h, other.items[..]);
        Prefix(h, s, other.items[..], i);
        if items[i].Item? {
          ends := other.Insert(items[i].key, items[i].value);
          if !ends {
            NoRefill(h, s, newBase, i + 1, size);
            return;
          }
        }
        i := i + 1;
      }
      baseSize := other.baseSize;
      count := other.count;
      size := other.size;
      items := other.items;
      return true;
    }

    /** Removes a key, leaving a tombstone; shrinks the table first when nearly empty. */
    method Delete(key: string) returns (ends: bool)
      requires Valid()
      modifies this, items
      ensures Valid() && (items == old(items) || fresh(items))
      ensures ends <==> Removed(h, old(State()), key).Some?
      ensures ends ==> State() == Removed(h, old(State()), key).value
      ensures ends ==> Contents() == old(Contents()) - {key}
    {
      hide MapOf, Good, Items, InRange, Resized, Stop, IsLeast;
      Goods(h, items[..]);
      var load := count * 100 / size;
      if load < 10 {
        ends := Resize(baseSize / 2);
        if !ends { return; }
      }
      assert HashGrowth.Shrunk(h, old(State())) == Some(State());
      var stops, p := Find(key);
      if !stops { return false; }
      ghost var s := items[..];
      TakeAt(h, s, key, p);
      if items[p].Item? {
        items[p] := Deleted;
        assert items[..] == s[p := Deleted];
        count := count - 1;
      }
      return true;
    }
  }

  /** Once refilling is stuck it stays so. */
  lemma {:induction false} NoRefill(h: Hashes, s: seq<Bucket>, base: int, i: nat, n: nat)
    requires InRange(h) && Good(h, s) && INITIAL_BASE_SIZE <= base && i <= n <= |s| && Refilled(h, s, base, i) == None
    ensures Refilled(h, s, base, n) == None
    decreases n
  {
    if i < n {
      NoRefill(h, s, base, i, n - 1);
    }
  }

  /** The count is the number of live keys. */
  lemma CountIsSize(t: Table)
    requires t.Valid()
    ensures t.count == |t.Contents()|
  {
    MapSize(t.items[..]);
  }
}
