/** The memtable: a sorted array of entries in which no value means deleted. */
module LsmMemtable {
  import opened ByteStrings
  import opened Wrappers

  datatype Entry = Entry(key: Bytes, val: Option<Bytes>)

  /** What a layer of the store says about keys: a value, or that it is deleted. */
  type Layer = map<Bytes, Option<Bytes>>

  ghost predicate Sorted(es: seq<Entry>) {
    forall i, j :: 0 <= i < j < |es| ==> Less(es[i].key, es[j].key)
  }

  /** First index whose key is not below `key`. */
  function LowerBound(es: seq<Entry>, key: Bytes): (r: nat)
    ensures r <= |es|
    ensures forall i :: 0 <= i < r ==> Less(es[i].key, key)
    ensures r < |es| ==> !Less(es[r].key, key)
  {
    if es == [] || !Less(es[0].key, key) then 0 else 1 + LowerBound(es[1..], key)
  }

  function Insert(es: seq<Entry>, key: Bytes, val: Option<Bytes>): seq<Entry> {
    var i := LowerBound(es, key);
    if i < |es| && es[i].key == key then es[i := Entry(key, val)]
    else es[..i] + [Entry(key, val)] + es[i..]
  }

  function ToLayer(es: seq<Entry>): Layer {
    if es == [] then map[] else ToLayer(es[..|es| - 1])[es[|es| - 1].key := es[|es| - 1].val]
  }

  /** From the lower bound on, no key is below `key`. */
  lemma BoundSplits(es: seq<Entry>, key: Bytes, j: nat)
    requires Sorted(es) && LowerBound(es, key) <= j < |es|
    ensures !Less(es[j].key, key)
    ensures j > LowerBound(es, key) ==> Less(key, es[j].key)
  {
    hide Less, LowerBound;
    var i := LowerBound(es, key);
    LessTotal(es[i].key, key);
    if i < j {
      assert Less(es[i].key, es[j].key);
      if es[i].key != key {
        LessTrans(key, es[i].key, es[j].key);
      }
      LessAsymmetric(key, es[j].key);
    }
  }

  lemma InsertSorted(es: seq<Entry>, key: Bytes, val: Option<Bytes>)
    requires Sorted(es)
    ensures Sorted(Insert(es, key, val))
  {
    var i := LowerBound(es, key);
    var r := Insert(es, key, val);
    if i < |es| {
      LessTotal(es[i].key, key);
      forall j | i <= j < |es| ensures es[i].key != key ==> Less(key, es[j].key) {
        BoundSplits(es, key, j);
      }
    }
  }

  lemma {:induction false} LayerCat(a: seq<Entry>, b: seq<Entry>)
    ensures ToLayer(a + b) == ToLayer(a) + ToLayer(b)
  {
    if b == [] {
      assert a + b == a;
    } else {
      assert (a + b)[..|a + b| - 1] == a + b[..|b| - 1];
      LayerCat(a, b[..|b| - 1]);
    }
  }

  lemma {:induction false} LayerLacks(es: seq<Entry>, key: Bytes)
    requires forall i :: 0 <= i < |es| ==> es[i].key != key
    ensures key !in ToLayer(es)
  {
    if es != [] {
      LayerLacks(es[..|es| - 1], key);
    }
  }

  lemma LayerOne(e: Entry)
    ensures ToLayer([e]) == map[e.key := e.val]
  {
    assert [e][..0] == [];
  }

  /** An entry in the middle, whose key does not come again. */
  lemma LayerMiddle(a: seq<Entry>, e: Entry, b: seq<Entry>)
    requires forall j :: 0 <= j < |b| ==> b[j].key != e.key
    ensures ToLayer(a + [e] + b) == (ToLayer(a) + ToLayer(b))[e.key := e.val]
    ensures e.key !in ToLayer(b)
  {
    hide ToLayer;
    LayerCat(a + [e], b);
    LayerCat(a, [e]);
    LayerOne(e);
    LayerLacks(b, e.key);
    Swap(ToLayer(a), e, ToLayer(b));
  }

  lemma Swap(a: Layer, e: Entry, b: Layer)
    requires e.key !in b
    ensures a + map[e.key := e.val] + b == (a + b)[e.key := e.val]
  {
  }

  lemma Split(es: seq<Entry>, i: nat)
    requires i < |es|
    ensures es == es[..i] + [es[i]] + es[i + 1..]
  {
  }

  /** Keys differ in a sorted array. */
  lemma OtherKeys(es: seq<Entry>, key: Bytes, j: nat)
    requires Sorted(es) && j < |es| && j != LowerBound(es, key)
    ensures es[j].key != key
  {
    hide Less, LowerBound;
    LessIrreflexive(key);
    if j > LowerBound(es, key) {
      BoundSplits(es, key, j);
    }
  }

  /** A key is present exactly when it stands at its lower bound. */
  lemma FindAt(es: seq<Entry>, key: Bytes)
    requires Sorted(es)
    ensures var i := LowerBound(es, key);
      && (key in ToLayer(es) <==> i < |es| && es[i].key == key)
      && (key in ToLayer(es) ==> ToLayer(es)[key] == es[i].val)
  {
    var i := LowerBound(es, key);
    forall j | 0 <= j < |es| && j != i ensures es[j].key != key {
      OtherKeys(es, key, j);
    }
    if i < |es| && es[i].key == key {
      Split(es, i);
      LayerMiddle(es[..i], es[i], es[i + 1..]);
    } else {
      LayerLacks(es, key);
    }
  }

  lemma InsertLayer(es: seq<Entry>, key: Bytes, val: Option<Bytes>)
    requires Sorted(es)
    ensures ToLayer(Insert(es, key, val)) == ToLayer(es)[key := val]
  {
    hide ToLayer, Less, Sorted, LowerBound;
    var i := LowerBound(es, key);
    var e := Entry(key, val);
    forall j | 0 <= j < |es| && j != i ensures es[j].key != key {
      OtherKeys(es, key, j);
    }
    if i < |es| && es[i].key == key {
      var a, b := es[..i], es[i + 1..];
      Split(es, i);
      assert es[i := e] == a + [e] + b;
      LayerMiddle(a, es[i], b);
      LayerMiddle(a, e, b);
    } else {
      var a, b := es[..i], es[i..];
      assert es == a + b;
      LayerCat(a, b);
      LayerMiddle(a, e, b);
    }
  }

  lemma Inserted(now: seq<Entry>, es: seq<Entry>, idx: nat, e: Entry)
    requires idx <= |es| && |now| == |es| + 1 && now[idx] == e
    requires forall j :: 0 <= j < idx ==> now[j] == es[j]
    requires forall j :: idx < j < |now| ==> now[j] == es[j - 1]
    ensures now == es[..idx] + [e] + es[idx..]
  {
  }

  class Memtable {
    var entries: array<Entry>
    var len: nat

    ghost predicate Valid()
      reads this, entries
    {
      len <= entries.Length && Sorted(entries[..len])
    }

    ghost function Contents(): seq<Entry>
      reads this, entries
      requires Valid()
    {
      entries[..len]
    }

    constructor ()
      ensures Valid() && Contents() == [] && fresh(entries)
    {
      entries := new Entry[0];
      len := 0;
    }

    method Bound(key: Bytes) returns (idx: nat)
      requires Valid()
      ensures idx == LowerBound(Contents(), key)
    {
      var lo, hi := 0, len;
      ghost var es := Contents();
      while lo < hi
        invariant 0 <= lo <= hi <= len
        invariant lo <= LowerBound(es, key) <= hi
      {
        var mid := lo + (hi - lo) / 2;
        if Less(entries[mid].key, key) {
          if LowerBound(es, key) <= mid {
            BoundSplits(es, key, mid);
          }
          lo := mid + 1;
        } else {
          assert es[mid] == entries[mid];
          hi := mid;
        }
      }
      idx := lo;
    }

    method Put(key: Bytes, val: Option<Bytes>)
      requires Valid()
      modifies this, entries
      ensures Valid() && Contents() == Insert(old(Contents()), key, val)
      ensures entries == old(entries) || fresh(entries)
    {
      var idx := Bound(key);
      ghost var es := Contents();
      InsertSorted(es, key, val);
      if idx < len && entries[idx].key == key {
        entries[idx] := Entry(key, val);
        assert entries[..len] == es[idx := Entry(key, val)];
        return;
      }
      if len == entries.Length {
        Grow();
      }
      assert entries[..len] == es;
      InsertAt(idx, Entry(key, val));
    }

    /** Makes room at `idx` by moving the tail up by one, and puts an entry there. */
    method InsertAt(idx: nat, e: Entry)
      requires len < entries.Length && idx <= len
      modifies this`len, entries
      ensures len == old(len) + 1 && len <= entries.Length
      ensures entries[..len] == old(entries[..len][..idx] + [e] + entries[..len][idx..])
    {
      ghost var es := entries[..len];
      var i := len;
      while i > idx
        invariant idx <= i <= len == |es|
        invariant forall j :: 0 <= j < i ==> entries[j] == es[j]
        invariant forall j :: i < j <= len ==> entries[j] == es[j - 1]
      {
        entries[i] := entries[i - 1];
        i := i - 1;
      }
      entries[idx] := e;
      len := len + 1;
      Inserted(entries[..len], es, idx, e);
    }

    method Grow()
      requires Valid() && len == entries.Length
      modifies this`entries
      ensures fresh(entries) && entries.Length > len && entries[..len] == old(entries[..len])
    {
      var cap := if entries.Length != 0 then entries.Length * 2 else 8;
      var bigger := new Entry[cap](_ => Entry([], None));
      var i := 0;
      while i < len
        invariant 0 <= i <= len && bigger.Length == cap
        invariant entries == old(entries) && bigger != entries && bigger[..i] == entries[..i]
      {
        bigger[i] := entries[i];
        i := i + 1;
      }
      entries := bigger;
    }

    /** The entry for a key: None if there is none, Some(None) if it is deleted. */
    method Get(key: Bytes) returns (r: Option<Option<Bytes>>)
      requires Valid()
      ensures r == if key in ToLayer(Contents()) then Some(ToLayer(Contents())[key]) else None
    {
      var idx := Bound(key);
      FindAt(Contents(), key);
      if idx >= len || entries[idx].key != key {
        return None;
      }
      assert Contents()[idx] == entries[idx];
      r := Some(entries[idx].val);
    }
  }
}
