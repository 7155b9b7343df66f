/** What the files of a store mean: the map that opening them yields, and how each
    file operation of a flush or a compaction changes that map. */
module LsmDisk {
  import opened ByteStrings
  import opened Wrappers
  import opened LsmRecord
  import opened LsmMemtable

  /** The directory: the runs by id, and the log (empty if there is none). */
  datatype Disk = Disk(runs: map<nat, Bytes>, wal: Bytes)

  function ValueOf(r: Record): Option<Bytes> {
    match r case Put(_, v) => Some(v) case Del(_) => None
  }

  /** The memtable that replaying records builds. */
  function Replay(rs: seq<Record>): seq<Entry> {
    if rs == [] then [] else Insert(Replay(rs[..|rs| - 1]), rs[|rs| - 1].key, ValueOf(rs[|rs| - 1]))
  }

  function ReplayFile(file: Bytes): seq<Entry> { Replay(Parse(file, 0).recs) }

  ghost function FileLayer(file: Bytes): Layer { ToLayer(ReplayFile(file)) }

  lemma {:induction false} ReplaySorted(rs: seq<Record>)
    ensures Sorted(Replay(rs))
  {
    if rs != [] {
      ReplaySorted(rs[..|rs| - 1]);
      InsertSorted(Replay(rs[..|rs| - 1]), rs[|rs| - 1].key, ValueOf(rs[|rs| - 1]));
    }
  }

  /** The runs with ids below n, newer over older. */
  ghost function RunsBelow(runs: map<nat, Bytes>, n: nat): Layer {
    if n == 0 then map[]
    else if n - 1 in runs then RunsBelow(runs, n - 1) + FileLayer(runs[n - 1])
    else RunsBelow(runs, n - 1)
  }

  /** One more than the largest id, 0 if there is none. */
  ghost function Top(ids: set<nat>): (r: nat)
    ensures forall i :: i in ids ==> i < r
    ensures r > 0 ==> r - 1 in ids
  {
    if ids == {} then 0
    else
      var m :| m in ids;
      var t := Top(ids - {m});
      assert forall i :: i in ids ==> i == m || i in ids - {m};
      if m + 1 > t then m + 1 else t
  }

  lemma TopIs(ids: set<nat>, n: nat)
    requires (forall i :: i in ids ==> i < n) && (n > 0 ==> n - 1 in ids)
    ensures Top(ids) == n
  {
  }

  ghost function Live(l: Layer): map<Bytes, Bytes> {
    map k | k in l && l[k].Some? :: l[k].value
  }

  ghost function AllLayers(d: Disk): Layer {
    RunsBelow(d.runs, Top(d.runs.Keys)) + FileLayer(d.wal)
  }

  /** The key-value map that opening this directory yields. */
  ghost function Contents(d: Disk): map<Bytes, Bytes> { Live(AllLayers(d)) }

  lemma {:induction false} BelowStable(runs: map<nat, Bytes>, n: nat, m: nat)
    requires n <= m && forall i :: i in runs ==> i < n
    ensures RunsBelow(runs, m) == RunsBelow(runs, n)
    decreases m
  {
    if n < m {
      BelowStable(runs, n, m - 1);
    }
  }

  lemma {:induction false} BelowSame(runs: map<nat, Bytes>, runs': map<nat, Bytes>, n: nat)
    requires forall i :: i < n ==> (i in runs <==> i in runs') && (i in runs ==> runs[i] == runs'[i])
    ensures RunsBelow(runs, n) == RunsBelow(runs', n)
  {
    if n > 0 {
      BelowSame(runs, runs', n - 1);
    }
  }

  /** Any bound above all ids gives the same map. */
  lemma ContentsBound(d: Disk, n: nat)
    requires forall i :: i in d.runs ==> i < n
    ensures AllLayers(d) == RunsBelow(d.runs, n) + FileLayer(d.wal)
  {
    BelowStable(d.runs, Top(d.runs.Keys), if n < Top(d.runs.Keys) then Top(d.runs.Keys) else n);
    BelowStable(d.runs, n, if n < Top(d.runs.Keys) then Top(d.runs.Keys) else n);
  }

  // ----- files the store writes -----

  ghost predicate SortedRecords(rs: seq<Record>) {
    forall i, j :: 0 <= i < j < |rs| ==> Less(rs[i].key, rs[j].key)
  }

  /** A run: a whole sequence of records in key order. */
  ghost predicate RunOk(file: Bytes) {
    var p := Parse(file, 0);
    p.clean && EncodeAll(p.recs) == file && AllFit(p.recs) && SortedRecords(p.recs)
  }

  ghost predicate DiskOk(d: Disk) {
    forall i :: i in d.runs ==> RunOk(d.runs[i])
  }

  /** The log ends between two records. */
  ghost predicate CleanLog(file: Bytes) { Parse(file, 0).clean }

  function ToRecord(e: Entry): Record {
    if e.val.Some? then Put(e.key, e.val.value) else Del(e.key)
  }

  /** The records written for a sorted array, with or without its tombstones. */
  function ToRecords(es: seq<Entry>, tombstones: bool): seq<Record> {
    if es == [] then []
    else
      var rest := ToRecords(es[..|es| - 1], tombstones);
      var e := es[|es| - 1];
      if e.val.None? && !tombstones then rest else rest + [ToRecord(e)]
  }

  function Entries(rs: seq<Record>): seq<Entry> {
    if rs == [] then [] else Entries(rs[..|rs| - 1]) + [Entry(rs[|rs| - 1].key, ValueOf(rs[|rs| - 1]))]
  }

  lemma {:induction false} EntriesAt(rs: seq<Record>)
    ensures |Entries(rs)| == |rs| && forall i :: 0 <= i < |rs| ==> Entries(rs)[i] == Entry(rs[i].key, ValueOf(rs[i]))
  {
    if rs != [] {
      EntriesAt(rs[..|rs| - 1]);
    }
  }

  /** Inserting a key above all others appends it. */
  lemma {:induction false} InsertLast(es: seq<Entry>, key: Bytes, val: Option<Bytes>)
    requires forall i :: 0 <= i < |es| ==> Less(es[i].key, key)
    ensures Insert(es, key, val) == es + [Entry(key, val)]
  {
    assert LowerBound(es, key) == |es|;
  }

  /** Replaying records in key order keeps them as they are. */
  lemma {:induction false} ReplayInOrder(rs: seq<Record>)
    requires SortedRecords(rs)
    ensures Replay(rs) == Entries(rs)
  {
    if rs != [] {
      var n := |rs| - 1;
      ReplayInOrder(rs[..n]);
      EntriesAt(rs[..n]);
      InsertLast(Entries(rs[..n]), rs[n].key, ValueOf(rs[n]));
    }
  }

  ghost predicate EntriesFit(es: seq<Entry>) { forall i :: 0 <= i < |es| ==> Fits(ToRecord(es[i])) }

  /** Records written for a sorted array are sorted, fit, and hold its keys. */
  lemma {:induction false} WrittenOk(es: seq<Entry>, tombstones: bool)
    requires Sorted(es) && EntriesFit(es)
    ensures var rs := ToRecords(es, tombstones);
      && SortedRecords(rs) && AllFit(rs)
      && (forall i :: 0 <= i < |rs| ==> exists j :: 0 <= j < |es| && es[j].key == rs[i].key)
  {
    hide Less;
    if es != [] {
      var n := |es| - 1;
      WrittenOk(es[..n], tombstones);
      var rest := ToRecords(es[..n], tombstones);
      forall i | 0 <= i < |rest| ensures Less(rest[i].key, es[n].key) && exists j :: 0 <= j < |es| && es[j].key == rest[i].key {
        var j :| 0 <= j < n && es[..n][j].key == rest[i].key;
        assert es[j].key == rest[i].key;
      }
      assert ToRecord(es[n]).key == es[n].key;
    }
  }

  /** What is read back from a written array: all of it, or all but tombstones. */
  ghost function Kept(l: Layer, tombstones: bool): Layer {
    if tombstones then l else map k | k in l && l[k].Some? :: l[k]
  }

  lemma {:induction false} WrittenLayer(es: seq<Entry>, tombstones: bool)
    requires Sorted(es)
    ensures ToLayer(Entries(ToRecords(es, tombstones))) == Kept(ToLayer(es), tombstones)
  {
    hide Less;
    if es != [] {
      var n := |es| - 1;
      var e := es[n];
      WrittenLayer(es[..n], tombstones);
      forall i | 0 <= i < n ensures es[i].key != e.key {
        LessIrreflexive(e.key);
      }
      LayerLacks(es[..n], e.key);
      var rest := ToRecords(es[..n], tombstones);
      if e.val.Some? || tombstones {
        assert (rest + [ToRecord(e)])[..|rest|] == rest;
        assert Entries(rest + [ToRecord(e)]) == Entries(rest) + [e];
        var x := Entries(rest);
        assert (x + [e])[..|x|] == x;
      }
      KeptStep(ToLayer(es[..n]), e, tombstones);
    }
  }

  lemma KeptStep(l: Layer, e: Entry, tombstones: bool)
    requires e.key !in l
    ensures Kept(l[e.key := e.val], tombstones)
         == if e.val.Some? || tombstones then Kept(l, tombstones)[e.key := e.val] else Kept(l, tombstones)
  {
  }

  /** A file written for a sorted array is a run with that array's layer. */
  lemma WrittenFile(es: seq<Entry>, tombstones: bool)
    requires Sorted(es) && EntriesFit(es)
    ensures var file := EncodeAll(ToRecords(es, tombstones));
      && RunOk(file) && FileLayer(file) == Kept(ToLayer(es), tombstones)
      && Parse(file, 0) == Parsed(ToRecords(es, tombstones), true)
  {
    hide Encode, Parse, ToLayer, Less;
    var rs := ToRecords(es, tombstones);
    WrittenOk(es, tombstones);
    ParseAll(rs);
    ReplayInOrder(rs);
    WrittenLayer(es, tombstones);
  }

  /** Whatever is read from a file fits the format again. */
  lemma {:induction false} ParseFits(file: Bytes, pos: nat)
    ensures AllFit(Parse(file, pos).recs)
    decreases |file| - pos
  {
    match ReadRecord(file, pos) {
      case Got(r, next) =>
        ParseFits(file, next);
      case _ =>
    }
  }

  lemma {:induction false} ReplayFits(rs: seq<Record>)
    requires AllFit(rs)
    ensures EntriesFit(Replay(rs))
  {
    if rs != [] {
      ReplayFits(rs[..|rs| - 1]);
    }
  }

  lemma ReplayedOk(file: Bytes)
    ensures Sorted(ReplayFile(file)) && EntriesFit(ReplayFile(file))
  {
    hide Parse, Replay;
    ParseFits(file, 0);
    ReplaySorted(Parse(file, 0).recs);
    ReplayFits(Parse(file, 0).recs);
  }

  // ----- the log -----

  /** A record appended to a clean log, in whole or in part. */
  lemma LogAppend(wal: Bytes, r: Record, n: nat)
    requires CleanLog(wal) && Fits(r) && n <= |Encode(r)|
    ensures var p := Parse(wal + Encode(r)[..n], 0); var rs := Parse(wal, 0).recs;
      p == Parsed(if n == |Encode(r)| then rs + [r] else rs, n == 0 || n == |Encode(r)|)
  {
    hide Encode, Parse;
    CleanAppend(wal, Encode(r)[..n]);
    OneRecord(r, n);
  }

  /** Appending a whole record is one insertion into the replayed memtable. */
  lemma LogAppended(wal: Bytes, r: Record)
    requires CleanLog(wal) && Fits(r)
    ensures CleanLog(wal + Encode(r))
    ensures ReplayFile(wal + Encode(r)) == Insert(ReplayFile(wal), r.key, ValueOf(r))
    ensures FileLayer(wal + Encode(r)) == FileLayer(wal)[r.key := ValueOf(r)]
  {
    hide Encode, Parse, ToLayer, Insert;
    var rs := Parse(wal, 0).recs;
    LogAppend(wal, r, |Encode(r)|);
    assert Encode(r)[..|Encode(r)|] == Encode(r);
    assert (rs + [r])[..|rs|] == rs;
    ReplaySorted(rs);
    InsertLayer(Replay(rs), r.key, ValueOf(r));
  }

  /** A torn append leaves the replayed memtable as it was. */
  lemma LogTorn(wal: Bytes, r: Record, n: nat)
    requires CleanLog(wal) && Fits(r) && n < |Encode(r)|
    ensures FileLayer(wal + Encode(r)[..n]) == FileLayer(wal)
  {
    hide Encode, Parse, ToLayer, Replay;
    LogAppend(wal, r, n);
  }

  // ----- a log with a torn tail -----

  ghost predicate Says(l: Layer, key: Bytes, v: Bytes) { key in l && l[key] == Some(v) }

  lemma OtherNews(base: Layer, l: Layer, r: Record, key: Bytes, v: Bytes)
    requires !Says(base + l, key, v) && r != Put(key, v)
    ensures !Says(base + l[r.key := ValueOf(r)], key, v)
  {
    if key != r.key {
      assert key in base + l <==> key in base + l[r.key := ValueOf(r)];
    }
  }

  /** Records that do not put this value under the key do not bring it there. */
  lemma {:induction false} NoNews(base: Layer, rs: seq<Record>, more: seq<Record>, key: Bytes, v: Bytes)
    requires !Says(base + ToLayer(Replay(rs)), key, v) && Put(key, v) !in more
    ensures !Says(base + ToLayer(Replay(rs + more)), key, v)
    decreases |more|
  {
    hide ToLayer, Insert, Says;
    if more == [] {
      assert rs + more == rs;
    } else {
      var n := |more| - 1;
      NoNews(base, rs, more[..n], key, v);
      ReplayMore(rs, more);
      OtherNews(base, ToLayer(Replay(rs + more[..n])), more[n], key, v);
    }
  }

  lemma ReplayMore(rs: seq<Record>, more: seq<Record>)
    requires more != []
    ensures var r := more[|more| - 1];
      ToLayer(Replay(rs + more)) == ToLayer(Replay(rs + more[..|more| - 1]))[r.key := ValueOf(r)]
  {
    hide ToLayer, Insert;
    var n := |more| - 1;
    assert (rs + more)[..|rs| + n] == rs + more[..n] && (rs + more)[|rs| + n] == more[n];
    ReplaySorted(rs + more[..n]);
    InsertLayer(Replay(rs + more[..n]), more[n].key, ValueOf(more[n]));
  }

  lemma EmptyLog()
    ensures CleanLog([]) && ReplayFile([]) == [] && FileLayer([]) == map[]
  {
    assert Parse([], 0) == Parsed([], true);
  }
}
