/** The store: a memtable, a log and sorted runs, as the program keeps them. */
module LsmStore {
  import opened ByteStrings
  import opened Wrappers
  import opened LsmRecord
  import opened LsmMemtable
  import opened LsmDisk
  import opened LsmCrash
  import opened LsmNames

  datatype IndexEntry = IndexEntry(key: Bytes, offset: nat)
  datatype Sstable = Sstable(id: nat, index: seq<IndexEntry>)

  /** The in-memory index of a run: every record's key and place. */
  ghost predicate IndexOk(index: seq<IndexEntry>, rs: seq<Record>) {
    |index| == |rs| && forall i :: 0 <= i < |rs| ==> index[i] == IndexEntry(rs[i].key, Offset(rs, i))
  }

  /** Writing one more entry. */
  lemma WriteStep(es: seq<Entry>, i: nat, tombstones: bool)
    requires i < |es|
    ensures var rs := ToRecords(es[..i], tombstones); var r := ToRecord(es[i]);
      && ToRecords(es[..i + 1], tombstones) == (if es[i].val.None? && !tombstones then rs else rs + [r])
      && EncodeAll(rs + [r]) == EncodeAll(rs) + Encode(r)
  {
    hide Encode, ToRecord;
    assert es[..i + 1][..i] == es[..i];
    var rs := ToRecords(es[..i], tombstones);
    assert (rs + [ToRecord(es[i])])[..|rs|] == rs;
  }

  /** Writes the entries of a memtable to a new file, building its index. */
  method WriteSstable(mt: Memtable, tombstones: bool) returns (file: Bytes, index: seq<IndexEntry>)
    requires mt.Valid()
    ensures file == EncodeAll(ToRecords(mt.Contents(), tombstones))
    ensures IndexOk(index, ToRecords(mt.Contents(), tombstones))
  {
    hide Encode, Less, ToRecords, EncodeAll, IndexOk;
    file, index := [], [];
    ghost var es := mt.Contents();
    NothingWritten(es, tombstones);
    var i := 0;
    while i < mt.len
      invariant 0 <= i <= mt.len == |es| && es == mt.Contents()
      invariant file == EncodeAll(ToRecords(es[..i], tombstones)) && IndexOk(index, ToRecords(es[..i], tombstones))
    {
      var e := mt.entries[i];
      assert e == es[i];
      WriteStep(es, i, tombstones);
      if e.val.Some? || tombstones {
        var offset := |file|;
        IndexMore(index, ToRecords(es[..i], tombstones), ToRecord(e));
        file := RecordWrite(file, ToRecord(e));
        index := index + [IndexEntry(e.key, offset)];
      }
      i := i + 1;
    }
    assert es[..i] == es;
  }

  lemma NothingWritten(es: seq<Entry>, tombstones: bool)
    ensures ToRecords(es[..0], tombstones) == [] && EncodeAll([]) == [] && IndexOk([], [])
  {
  }

  lemma IndexMore(index: seq<IndexEntry>, rs: seq<Record>, r: Record)
    requires IndexOk(index, rs)
    ensures IndexOk(index + [IndexEntry(r.key, |EncodeAll(rs)|)], rs + [r])
  {
    hide EncodeAll, Encode;
    var all := rs + [r];
    forall i | 0 <= i < |all| ensures all[..i] == if i < |rs| then rs[..i] else rs {
    }
  }

  /** Rebuilds the index of a run from its file; fails if the file is torn. */
  method OpenSstable(file: Bytes) returns (ok: bool, index: seq<IndexEntry>)
    ensures ok == Parse(file, 0).clean
    ensures RunOk(file) ==> IndexOk(index, Parse(file, 0).recs)
  {
    hide Parse, RunOk, IndexOk, ReadRecord, Offset;
    index := [];
    var pos := 0;
    ghost var rs: seq<Record> := [];
    ghost var all := Parse(file, 0).recs;
    NothingRead(file);
    while true
      invariant all == rs + Parse(file, pos).recs && Parse(file, 0).clean == Parse(file, pos).clean
      invariant RunOk(file) ==> pos == Offset(all, |rs|) && IndexOk(index, rs)
      decreases |file| - pos
    {
      ParseStep(file, pos);
      match ReadRecord(file, pos) {
        case Got(r, next) =>
          assert rs + ([r] + Parse(file, next).recs) == rs + [r] + Parse(file, next).recs;
          if RunOk(file) {
            NextOffset(file, all, rs, r);
            IndexMore(index, rs, r);
          }
          index := index + [IndexEntry(r.key, pos)];
          rs := rs + [r];
          pos := next;
        case Eof =>
          assert rs + [] == rs;
          return true, index;
        case Bad =>
          NotRun(file);
          return false, index;
      }
    }
  }

  lemma NothingRead(file: Bytes)
    ensures [] + Parse(file, 0).recs == Parse(file, 0).recs && Offset(Parse(file, 0).recs, 0) == 0 && IndexOk([], [])
  {
    hide Parse;
    assert Parse(file, 0).recs[..0] == [];
  }

  lemma NotRun(file: Bytes)
    requires !Parse(file, 0).clean
    ensures !RunOk(file)
  {
  }

  lemma NextOffset(file: Bytes, all: seq<Record>, rs: seq<Record>, r: Record)
    requires RunOk(file) && all == Parse(file, 0).recs && rs + [r] <= all
    ensures ReadRecord(file, Offset(all, |rs|)) == Got(r, Offset(all, |rs| + 1))
    ensures Offset(all, |rs|) == |EncodeAll(rs)|
  {
    hide Parse, Encode, ReadRecord;
    assert all[..|rs|] == rs && all[|rs|] == r;
    EncodePrefix(all, |rs| + 1);
    ReadAt(file, all, |rs|);
  }

  /** Binary search in the index, then one read at the offset found. */
  method GetSstable(file: Bytes, index: seq<IndexEntry>, key: Bytes) returns (r: Option<Option<Bytes>>)
    requires RunOk(file) && IndexOk(index, Parse(file, 0).recs)
    ensures r == if key in FileLayer(file) then Some(FileLayer(file)[key]) else None
  {
    hide Parse, Less, ToLayer, ReadRecord, Replay, EncodeAll;
    ghost var rs := Parse(file, 0).recs;
    RunLayer(file);
    var lo, hi := 0, |index|;
    while lo < hi
      invariant 0 <= lo <= hi <= |index|
      invariant forall i :: 0 <= i < lo ==> Less(rs[i].key, key)
      invariant forall i :: hi <= i < |index| ==> Less(key, rs[i].key)
    {
      var mid := lo + (hi - lo) / 2;
      if Less(index[mid].key, key) {
        Below(rs, mid, key);
        lo := mid + 1;
      } else if Less(key, index[mid].key) {
        Above(rs, mid, key);
        hi := mid;
      } else {
        LessTotal(index[mid].key, key);
        ReadBack(file, mid);
        RunHas(file, mid);
        match ReadRecord(file, index[mid].offset) {
          case Got(rec, _) => return Some(ValueOf(rec));
        }
      }
    }
    RunLacks(file, key);
    r := None;
  }

  lemma Below(rs: seq<Record>, mid: nat, key: Bytes)
    requires SortedRecords(rs) && mid < |rs| && Less(rs[mid].key, key)
    ensures forall i :: 0 <= i <= mid ==> Less(rs[i].key, key)
  {
    hide Less;
    forall i | 0 <= i < mid ensures Less(rs[i].key, key) {
      LessTrans(rs[i].key, rs[mid].key, key);
    }
  }

  lemma Above(rs: seq<Record>, mid: nat, key: Bytes)
    requires SortedRecords(rs) && mid < |rs| && Less(key, rs[mid].key)
    ensures forall i :: mid <= i < |rs| ==> Less(key, rs[i].key)
  {
    hide Less;
    forall i | mid < i < |rs| ensures Less(key, rs[i].key) {
      LessTrans(key, rs[mid].key, rs[i].key);
    }
  }

  lemma ReadBack(file: Bytes, i: nat)
    requires RunOk(file) && i < |Parse(file, 0).recs|
    ensures ReadRecord(file, Offset(Parse(file, 0).recs, i)).Got?
    ensures ReadRecord(file, Offset(Parse(file, 0).recs, i)).rec == Parse(file, 0).recs[i]
  {
    hide Parse, Encode, ReadRecord;
    var rs := Parse(file, 0).recs;
    EncodePrefix(rs, i + 1);
    ReadAt(file, rs, i);
  }

  lemma RunLayer(file: Bytes)
    requires RunOk(file)
    ensures var rs := Parse(file, 0).recs; FileLayer(file) == ToLayer(Entries(rs)) && |Entries(rs)| == |rs|
    ensures Sorted(Entries(Parse(file, 0).recs))
  {
    hide Parse, Less, ToLayer, EncodeAll;
    ReplayInOrder(Parse(file, 0).recs);
    EntriesAt(Parse(file, 0).recs);
  }

  lemma RunHas(file: Bytes, i: nat)
    requires RunOk(file) && i < |Parse(file, 0).recs|
    ensures var r := Parse(file, 0).recs[i]; r.key in FileLayer(file) && FileLayer(file)[r.key] == ValueOf(r)
  {
    hide Parse, Less, ToLayer, EncodeAll;
    var rs := Parse(file, 0).recs;
    RunLayer(file);
    EntriesAt(rs);
    var es := Entries(rs);
    FindAt(es, rs[i].key);
    if i != LowerBound(es, rs[i].key) {
      OtherKeys(es, rs[i].key, i);
    }
  }

  lemma RunLacks(file: Bytes, key: Bytes)
    requires RunOk(file) && forall i :: 0 <= i < |Parse(file, 0).recs| ==> Less(Parse(file, 0).recs[i].key, key) || Less(key, Parse(file, 0).recs[i].key)
    ensures key !in FileLayer(file)
  {
    hide Parse, Less, ToLayer, EncodeAll;
    var rs := Parse(file, 0).recs;
    RunLayer(file);
    EntriesAt(rs);
    forall i | 0 <= i < |Entries(rs)| ensures Entries(rs)[i].key != key {
      LessIrreflexive(key);
    }
    LayerLacks(Entries(rs), key);
  }

  lemma ReplayStart(file: Bytes)
    ensures Replay([]) == [] && Parse(file, 0).recs == [] + Parse(file, 0).recs
  {
  }

  lemma ReplayNext(rs: seq<Record>, r: Record)
    ensures Replay(rs + [r]) == Insert(Replay(rs), r.key, ValueOf(r))
  {
    assert (rs + [r])[..|rs|] == rs;
  }

  /** Replays every record of a file into a memtable. A torn last record is
      dropped; everything before it counts. */
  method ReplayInto(file: Bytes, mt: Memtable)
    requires mt.Valid() && mt.Contents() == []
    modifies mt, mt.entries
    ensures mt.Valid() && mt.Contents() == ReplayFile(file)
    ensures mt.entries == old(mt.entries) || fresh(mt.entries)
  {
    hide Less, Insert, ReadRecord, Parse, Replay;
    var pos := 0;
    ghost var done: seq<Record> := [];
    ReplayStart(file);
    while true
      invariant mt.Valid() && mt.Contents() == Replay(done)
      invariant mt.entries == old(mt.entries) || fresh(mt.entries)
      invariant Parse(file, 0).recs == done + Parse(file, pos).recs
      decreases |file| - pos
    {
      ParseStep(file, pos);
      match ReadRecord(file, pos) {
        case Got(r, next) =>
          mt.Put(r.key, ValueOf(r));
          ReplayNext(done, r);
          assert done + ([r] + Parse(file, next).recs) == done + [r] + Parse(file, next).recs;
          done := done + [r];
          pos := next;
        case _ =>
          assert done + [] == done;
          return;
      }
    }
  }

  // ----- which run answers -----

  /** The newest run that knows a key decides. */
  lemma {:induction false} NewestWins(runs: map<nat, Bytes>, n: nat, id: nat, key: Bytes)
    requires id < n && id in runs && key in FileLayer(runs[id])
    requires forall i :: i in runs && id < i < n ==> key !in FileLayer(runs[i])
    ensures key in RunsBelow(runs, n) && RunsBelow(runs, n)[key] == FileLayer(runs[id])[key]
  {
    hide FileLayer;
    if id < n - 1 {
      NewestWins(runs, n - 1, id, key);
    }
  }

  lemma {:induction false} NoneKnows(runs: map<nat, Bytes>, n: nat, key: Bytes)
    requires forall i :: i in runs && i < n ==> key !in FileLayer(runs[i])
    ensures key !in RunsBelow(runs, n)
  {
    hide FileLayer;
    if n > 0 {
      NoneKnows(runs, n - 1, key);
    }
  }

  ghost function Ids(ss: seq<Sstable>): set<nat> { set i | 0 <= i < |ss| :: ss[i].id }

  /** The table of runs mirrors the directory, oldest first. */
  ghost predicate TableOk(ss: seq<Sstable>, runs: map<nat, Bytes>) {
    && Ids(ss) == runs.Keys
    && (forall i, j :: 0 <= i < j < |ss| ==> ss[i].id < ss[j].id)
    && (forall i :: 0 <= i < |ss| ==> ss[i].id in runs && IndexOk(ss[i].index, Parse(runs[ss[i].id], 0).recs))
  }

  lemma {:induction false} TableSize(ss: seq<Sstable>)
    requires forall i, j :: 0 <= i < j < |ss| ==> ss[i].id < ss[j].id
    ensures |Ids(ss)| == |ss|
  {
    if ss != [] {
      var n := |ss| - 1;
      TableSize(ss[..n]);
      assert Ids(ss) == Ids(ss[..n]) + {ss[n].id};
    }
  }

  lemma TableMore(ss: seq<Sstable>, runs: map<nat, Bytes>, id: nat, file: Bytes, index: seq<IndexEntry>)
    requires TableOk(ss, runs) && (forall i :: i in runs ==> i < id) && IndexOk(index, Parse(file, 0).recs)
    ensures TableOk(ss + [Sstable(id, index)], runs[id := file])
    ensures Top(runs[id := file].Keys) == id + 1
  {
    hide IndexOk, Parse, Ids;
    var runs' := runs[id := file];
    IdsMore(ss, Sstable(id, index));
    assert runs'.Keys == runs.Keys + {id};
    TopIs(runs'.Keys, id + 1);
  }

  lemma IdsMore(ss: seq<Sstable>, s: Sstable)
    ensures Ids(ss + [s]) == Ids(ss) + {s.id}
  {
    var more := ss + [s];
    forall x | x in Ids(ss) + {s.id} ensures x in Ids(more) {
      if x in Ids(ss) {
        var i :| 0 <= i < |ss| && ss[i].id == x;
        assert more[i].id == x;
      } else {
        assert more[|ss|].id == x;
      }
    }
  }

  lemma TableOne(id: nat, file: Bytes, index: seq<IndexEntry>)
    requires IndexOk(index, Parse(file, 0).recs)
    ensures TableOk([Sstable(id, index)], map[id := file]) && Top(map[id := file].Keys) == id + 1
  {
    hide IndexOk, Parse;
    var ss := [Sstable(id, index)];
    assert ss[0].id in Ids(ss);
    assert Ids(ss) == {id} == map[id := file].Keys;
    TopIs({id}, id + 1);
  }

  /** Ids below the i-th run of the table: those of the runs before it. */
  ghost function Before(ss: seq<Sstable>, i: nat): nat
    requires i <= |ss|
  {
    if i == 0 then 0 else ss[i - 1].id + 1
  }

  lemma NoneBetween(ss: seq<Sstable>, runs: map<nat, Bytes>, i: nat, j: nat)
    requires TableOk(ss, runs) && i < |ss| && Before(ss, i) <= j < ss[i].id
    ensures j !in runs
  {
    if j in runs {
      assert j in Ids(ss);
      var x :| 0 <= x < |ss| && ss[x].id == j;
    }
  }

  lemma {:induction false} MergedSkip(runs: map<nat, Bytes>, n: nat, m: nat)
    requires n <= m && forall j :: n <= j < m ==> j !in runs
    ensures MergedBelow(runs, m) == MergedBelow(runs, n)
    decreases m
  {
    if n < m {
      MergedSkip(runs, n, m - 1);
    }
  }

  lemma MergeStep(ss: seq<Sstable>, runs: map<nat, Bytes>, i: nat)
    requires TableOk(ss, runs) && i < |ss|
    ensures ss[i].id in runs && Before(ss, i + 1) == ss[i].id + 1
    ensures MergedBelow(runs, Before(ss, i + 1)) == InsertAll(MergedBelow(runs, Before(ss, i)), ReplayFile(runs[ss[i].id]))
  {
    hide IndexOk, Parse, InsertAll, ReplayFile;
    assert Before(ss, i) <= ss[i].id;
    forall j: nat | Before(ss, i) <= j < ss[i].id ensures j !in runs {
      NoneBetween(ss, runs, i, j);
    }
    MergedSkip(runs, Before(ss, i), ss[i].id);
  }

  lemma LastIsTop(ss: seq<Sstable>, runs: map<nat, Bytes>)
    requires TableOk(ss, runs)
    ensures Before(ss, |ss|) == Top(runs.Keys)
  {
    hide IndexOk, Parse;
    var n := Before(ss, |ss|);
    forall i | i in runs.Keys ensures i < n {
      assert i in Ids(ss);
    }
    TopIs(runs.Keys, n);
  }

  /** Removing the i-th old run of a compaction. */
  lemma RemoveStep(d: Disk, ss: seq<Sstable>, i: nat)
    requires TableOk(ss, d.runs) && i < |ss|
    ensures var c := CompactPoint(d, Before(ss, i)); c.(runs := c.runs - {ss[i].id}) == CompactPoint(d, Before(ss, i + 1))
  {
    hide IndexOk, Parse, MergedRun;
    forall j: nat | Before(ss, i) <= j < ss[i].id ensures j !in d.runs {
      NoneBetween(ss, d.runs, i, j);
    }
    hide TableOk, CompactPoint, Top;
    assert ss[i].id in d.runs && ss[i].id < Top(d.runs.Keys) by { TableId(ss, d.runs, i); }
    DropBelow(d, Before(ss, i), ss[i].id);
  }

  lemma TableId(ss: seq<Sstable>, runs: map<nat, Bytes>, i: nat)
    requires TableOk(ss, runs) && i < |ss|
    ensures ss[i].id in runs && ss[i].id < Top(runs.Keys)
  {
    hide IndexOk, Parse;
  }

  /** Removing the lowest run left moves to the next compaction point. */
  lemma DropBelow(d: Disk, m: nat, id: nat)
    requires m <= id < Top(d.runs.Keys) && forall j: nat :: m <= j < id ==> j !in d.runs
    ensures var c := CompactPoint(d, m); c.(runs := c.runs - {id}) == CompactPoint(d, id + 1)
  {
    hide MergedRun;
    var c, c' := CompactPoint(d, m), CompactPoint(d, id + 1);
    assert c.runs - {id} == c'.runs;
  }

  // ----- opening a directory -----

  ghost predicate Ascending(ss: seq<Sstable>) { forall i, j :: 0 <= i < j < |ss| ==> ss[i].id <= ss[j].id }

  function InsertById(ss: seq<Sstable>, s: Sstable): seq<Sstable> {
    if ss == [] || s.id < ss[0].id then [s] + ss else [ss[0]] + InsertById(ss[1..], s)
  }

  lemma {:induction false} InsertByIdBag(ss: seq<Sstable>, s: Sstable)
    ensures multiset(InsertById(ss, s)) == multiset(ss) + multiset{s}
  {
    if ss != [] && s.id >= ss[0].id {
      InsertByIdBag(ss[1..], s);
      assert ss == [ss[0]] + ss[1..];
    }
  }

  lemma {:induction false} InsertByIdSorted(ss: seq<Sstable>, s: Sstable)
    requires Ascending(ss)
    ensures Ascending(InsertById(ss, s))
    ensures forall i :: 0 <= i < |InsertById(ss, s)| ==> InsertById(ss, s)[i] == s || InsertById(ss, s)[i] in ss
  {
    if ss != [] && s.id >= ss[0].id {
      InsertByIdSorted(ss[1..], s);
      var rest := InsertById(ss[1..], s);
      forall i | 0 <= i < |rest| ensures ss[0].id <= rest[i].id && (rest[i] == s || rest[i] in ss) {
      }
    }
  }

  /** Orders runs by id. */
  method SortById(ss: seq<Sstable>) returns (r: seq<Sstable>)
    ensures Ascending(r) && multiset(r) == multiset(ss)
  {
    r := [];
    var i := 0;
    while i < |ss|
      invariant 0 <= i <= |ss| && Ascending(r) && multiset(r) == multiset(ss[..i])
    {
      InsertByIdBag(r, ss[i]);
      InsertByIdSorted(r, ss[i]);
      r := InsertById(r, ss[i]);
      assert ss[..i + 1] == ss[..i] + [ss[i]];
      i := i + 1;
    }
    assert ss[..i] == ss;
  }

  /** The runs of the listed files, each under the id the scan reads in its name. */
  ghost predicate OpenedOk(ss: seq<Sstable>, listing: seq<nat>, runs: map<nat, Bytes>) {
    |ss| == |listing| && forall i :: 0 <= i < |ss| ==>
      && ss[i].id == FirstSix(listing[i]) && listing[i] in runs
      && (RunOk(runs[listing[i]]) ==> IndexOk(ss[i].index, Parse(runs[listing[i]], 0).recs))
  }

  /** Runs ordered by the ids that were read. */
  ghost predicate Arranged(sorted: seq<Sstable>, listing: seq<nat>, runs: map<nat, Bytes>) {
    Ascending(sorted) && exists ss :: OpenedOk(ss, listing, runs) && multiset(sorted) == multiset(ss)
  }

  /** One more than the largest id that was read. */
  ghost predicate NextAbove(n: nat, listing: seq<nat>) {
    && (forall i :: 0 <= i < |listing| ==> FirstSix(listing[i]) < n)
    && (n > 0 ==> exists i :: 0 <= i < |listing| && FirstSix(listing[i]) == n - 1)
  }

  lemma NoneAbove()
    ensures NextAbove(0, [])
  {
  }

  lemma NextMore(n: nat, listing: seq<nat>, id: nat)
    requires NextAbove(n, listing)
    ensures NextAbove(if FirstSix(id) + 1 > n then FirstSix(id) + 1 else n, listing + [id])
  {
    var more := listing + [id];
    assert more[|listing|] == id;
    if FirstSix(id) + 1 <= n {
      var i :| 0 <= i < |listing| && FirstSix(listing[i]) == n - 1;
      assert more[i] == listing[i];
    }
  }

  /** Different ids stay in different places when sorted. */
  lemma Strictly(ss: seq<Sstable>, sorted: seq<Sstable>)
    requires Ascending(sorted) && multiset(sorted) == multiset(ss)
    requires forall i, j :: 0 <= i < j < |ss| ==> ss[i].id != ss[j].id
    ensures forall i, j :: 0 <= i < j < |sorted| ==> sorted[i].id < sorted[j].id
  {
    forall i, j | 0 <= i < j < |sorted| ensures sorted[i].id < sorted[j].id {
      assert sorted[i] in multiset(ss) && sorted[j] in multiset(ss);
      if sorted[i].id == sorted[j].id {
        SameId(ss, sorted[i], sorted[j]);
        OneOf(ss, sorted[i]);
        TwoOf(sorted, i, j);
      }
    }
  }

  lemma SameId(ss: seq<Sstable>, a: Sstable, b: Sstable)
    requires forall i, j :: 0 <= i < j < |ss| ==> ss[i].id != ss[j].id
    requires a in ss && b in ss && a.id == b.id
    ensures a == b
  {
  }

  lemma TwoOf(ss: seq<Sstable>, i: nat, j: nat)
    requires i < j < |ss| && ss[i] == ss[j]
    ensures multiset(ss)[ss[i]] >= 2
  {
    assert ss == ss[..j] + ([ss[j]] + ss[j + 1..]);
    assert ss[i] in ss[..j];
  }

  lemma {:induction false} OneOf(ss: seq<Sstable>, s: Sstable)
    requires forall i, j :: 0 <= i < j < |ss| ==> ss[i].id != ss[j].id
    ensures multiset(ss)[s] <= 1
  {
    if ss != [] {
      var n := |ss| - 1;
      assert ss == ss[..n] + [ss[n]];
      OneOf(ss[..n], s);
      if s == ss[n] {
        assert s !in ss[..n];
      }
    }
  }

  lemma OpenedTable(ss: seq<Sstable>, sorted: seq<Sstable>, listing: seq<nat>, runs: map<nat, Bytes>)
    requires OpenedOk(ss, listing, runs) && Ascending(sorted) && multiset(sorted) == multiset(ss)
    requires forall i, j :: 0 <= i < j < |listing| ==> listing[i] != listing[j]
    requires forall id :: id in runs <==> id in listing
    requires forall id :: id in runs ==> id < 1_000_000 && RunOk(runs[id])
    ensures TableOk(sorted, runs)
  {
    hide IndexOk, Parse, RunOk, FirstSix;
    Strictly(ss, sorted);
    forall i | 0 <= i < |sorted|
      ensures sorted[i].id in runs && IndexOk(sorted[i].index, Parse(runs[sorted[i].id], 0).recs)
    {
      assert sorted[i] in multiset(ss);
      assert sorted[i] in ss;
    }
    forall id | id in runs ensures id in Ids(sorted) {
      var i :| 0 <= i < |listing| && listing[i] == id;
      assert ss[i] in multiset(sorted);
      var j :| 0 <= j < |sorted| && sorted[j] == ss[i];
    }
  }

  lemma TopOfListing(n: nat, listing: seq<nat>, runs: map<nat, Bytes>)
    requires NextAbove(n, listing)
    requires forall id :: id in runs <==> id in listing
    requires forall id :: id in runs ==> id < 1_000_000
    ensures Top(runs.Keys) == n
  {
    hide FirstSix;
    if n > 0 {
      var i :| 0 <= i < |listing| && FirstSix(listing[i]) == n - 1;
      assert listing[i] in runs;
    }
    forall id | id in runs ensures id < n {
      var i :| 0 <= i < |listing| && listing[i] == id;
    }
    TopIs(runs.Keys, n);
  }

  /** Reads every listed run, under the id that the scan finds in its name. */
  method OpenRuns(runs: map<nat, Bytes>, listing: seq<nat>) returns (ok: bool, ss: seq<Sstable>, next: nat)
    requires forall id :: id in listing ==> id in runs
    ensures ok <==> forall id :: id in listing ==> Parse(runs[id], 0).clean
    ensures ok ==> OpenedOk(ss, listing, runs) && NextAbove(next, listing)
  {
    hide Parse, IndexOk, RunOk, NameOf, Scan, FirstSix, NextAbove;
    NoneAbove();
    ss, next := [], 0;
    var i := 0;
    while i < |listing|
      invariant 0 <= i <= |listing| && |ss| == i
      invariant forall j :: 0 <= j < i ==> Parse(runs[listing[j]], 0).clean
      invariant OpenedOk(ss, listing[..i], runs) && NextAbove(next, listing[..i])
    {
      assert listing[i] in listing && listing[..i + 1] == listing[..i] + [listing[i]];
      ScanReads(listing[i]);
      NextMore(next, listing[..i], listing[i]);
      var id := Scan(NameOf(listing[i])).value;
      var clean, index := OpenSstable(runs[listing[i]]);
      if !clean { return false, ss, next; }
      ss := ss + [Sstable(id, index)];
      if id + 1 > next {
        next := id + 1;
      }
      i := i + 1;
    }
    assert listing[..i] == listing;
    return true, ss, next;
  }

  /** Opens a directory: every listed run is read, the runs are put in order, and
      the log is replayed. The listing may come in any order. A torn log is not
      an error, a torn run is. Ids of more than six digits are misread. */
  method KvOpen(d: Disk, listing: seq<nat>) returns (r: Option<Store>)
    requires forall id :: id in d.runs <==> id in listing
    requires forall i, j :: 0 <= i < j < |listing| ==> listing[i] != listing[j]
    ensures r.Some? <==> forall id :: id in d.runs ==> Parse(d.runs[id], 0).clean
    ensures DiskOk(d) ==> r.Some?
    ensures r.Some? ==> fresh(r.value) && r.value.disk == d && r.value.trail == iset{}
    ensures r.Some? ==> r.value.mt.Valid() && r.value.Synced()
    ensures r.Some? ==> Arranged(r.value.sstables, listing, d.runs) && NextAbove(r.value.nextId, listing)
    ensures r.Some? && DiskOk(d) && SixDigits(d) ==> r.value.Valid()
  {
    hide Parse, IndexOk, RunOk, Less, Sorted, ToLayer, Replay, TableOk, EntriesFit, NextAbove, OpenedOk;
    var ok, ss, next := OpenRuns(d.runs, listing);
    CleanRuns(d);
    if !ok { return None; }
    var db := new Store.Empty();
    db.disk := d;
    db.sstables := SortById(ss);
    db.nextId := next;
    db.mt := new Memtable();
    ReplayInto(d.wal, db.mt);
    ReplayedOk(d.wal);
    if DiskOk(d) && SixDigits(d) {
      OpenedTable(ss, db.sstables, listing, d.runs);
      TopOfListing(next, listing, d.runs);
    }
    r := Some(db);
  }

  ghost predicate SixDigits(d: Disk) { forall id :: id in d.runs ==> id < 1_000_000 }

  lemma CleanRuns(d: Disk)
    ensures DiskOk(d) ==> forall id :: id in d.runs ==> Parse(d.runs[id], 0).clean
  {
  }

  class Store {
    var disk: Disk
    var mt: Memtable
    var sstables: seq<Sstable>
    var nextId: nat

    /** Every state the directory has been in since the store was opened,
        including the insides of an append. */
    ghost var trail: iset<Disk>

    ghost predicate Valid()
      reads this, mt, mt.entries
    {
      && mt.Valid() && EntriesFit(mt.Contents())
      && DiskOk(disk) && TableOk(sstables, disk.runs) && nextId == Top(disk.runs.Keys)
    }

    /** Opening the directory would bring the same memtable. */
    ghost predicate Synced()
      reads this, mt, mt.entries
    {
      mt.Valid() && mt.Contents() == ReplayFile(disk.wal)
    }

    /** The key-value map of the open store. */
    ghost function Memory(): map<Bytes, Bytes>
      reads this, mt, mt.entries
      requires mt.Valid()
    {
      MapOver(disk.runs, ToLayer(mt.Contents()))
    }

    lemma SyncedMemory()
      requires Synced()
      ensures Memory() == Contents(disk)
    {
      hide Live, ToLayer, RunsBelow, ReplayFile, Top;
    }

    /** Both kinds of step a method may take on the directory. */
    twostate predicate Took(op: Op)
      reads this
    {
      && disk == Step(old(disk), op)
      && forall c :: c in trail && c !in old(trail) ==> Crash(old(disk), op, c)
    }

    constructor Empty()
      ensures Valid() && Synced() && disk == Disk(map[], []) && trail == iset{} && CleanLog(disk.wal)
      ensures fresh(mt) && fresh(mt.entries)
    {
      disk, sstables, nextId, trail := Disk(map[], []), [], 0, iset{};
      mt := new Memtable();
      new;
      EmptyLog();
      assert Ids([]) == {};
    }

    method Get(key: Bytes) returns (r: Option<Bytes>)
      requires Valid()
      ensures r == if key in Memory() then Some(Memory()[key]) else None
    {
      hide ToLayer, Less, Parse, IndexOk, Replay, Sorted, RunOk, RunsBelow, Top, MapOver, EntriesFit;
      var m := mt.Get(key);
      ghost var l := ToLayer(mt.Contents());
      if m.Some? {
        AnswerNow(disk.runs, l, key);
        return m.value;
      }
      var i := |sstables|;
      while i > 0
        invariant 0 <= i <= |sstables|
        invariant forall j :: i <= j < |sstables| ==> key !in FileLayer(disk.runs[sstables[j].id])
      {
        i := i - 1;
        var s := GetSstable(disk.runs[sstables[i].id], sstables[i].index, key);
        if s.Some? {
          Answer(disk.runs, l, sstables, i, key);
          return s.value;
        }
      }
      NoAnswer(disk.runs, l, sstables, key);
      r := None;
    }

    /** Turns the memtable into a run and empties the log. Whatever was in the log,
        the directory then means what the store meant. */
    method KvFlush()
      requires Valid()
      modifies this
      ensures Valid() && Memory() == old(Memory())
      ensures old(mt.len) == 0 ==> disk == old(disk) && mt == old(mt)
      ensures old(mt.len) > 0 ==> Synced() && CleanLog(disk.wal)
      ensures old(Synced()) ==> Synced() && Took(Flush)
      ensures mt == old(mt) || (fresh(mt) && fresh(mt.entries))
    {
      hide ToLayer, Less, Parse, IndexOk, Replay, Sorted, Step, Crash, TableOk, RunOk, Top, FlushCut, FlushWritten, EntriesFit, MapOver, EncodeAll, ToRecords;
      ghost var d := disk;
      FlushSteps(d);
      if mt.len == 0 {
        return;
      }
      assert mt.Contents() != [];
      WriteNewRun();
      trail := trail + iset{disk};
      ghost var es := mt.Contents();
      mt := new Memtable();
      disk := disk.(wal := []);
      trail := trail + iset{disk};
      if es == ReplayFile(d.wal) {
        WrittenIs(d);
      }
      EmptyLog();
      NothingOk();
      TableCount(sstables, disk.runs);
      if |sstables| >= COMPACT_THRESHOLD {
        KvCompact();
      }
    }

    /** The new run file and its place in the table. */
    method WriteNewRun()
      requires Valid()
      modifies this`disk, this`sstables, this`nextId
      ensures mt.Valid() && DiskOk(disk) && TableOk(sstables, disk.runs) && nextId == Top(disk.runs.Keys)
      ensures disk == old(disk).(runs := old(disk.runs)[Top(old(disk.runs).Keys) := EncodeAll(ToRecords(mt.Contents(), true))])
      ensures MapOver(disk.runs, map[]) == old(Memory())
    {
      hide ToLayer, Less, Parse, IndexOk, Replay, Sorted, TableOk, Top, ToRecords, EncodeAll, RunOk, EntriesFit, MapOver;
      var file, index := WriteSstable(mt, true);
      FlushOver(disk.runs, mt.Contents());
      WrittenFile(mt.Contents(), true);
      TableMore'(sstables, disk.runs, nextId, file, index);
      disk := disk.(runs := disk.runs[nextId := file]);
      nextId := nextId + 1;
      sstables := sstables + [Sstable(nextId - 1, index)];
    }

    /** Merges all runs into one. */
    method KvCompact()
      requires Valid()
      modifies this
      ensures Valid() && Took(Compact) && mt == old(mt) && disk.wal == old(disk.wal) && Memory() == old(Memory())
    {
      hide ToLayer, Less, Parse, IndexOk, Replay, Sorted, FileLayer, RunOk, Step, Crash, TableOk, DiskOk, Top, CompactPoint, MergedBelow, MapOver, EntriesFit;
      ghost var d := disk;
      CompactSteps(d);
      TableCount(sstables, disk.runs);
      if |sstables| <= 1 {
        return;
      }
      var merged := Merge();
      var file, index := WriteSstable(merged, false);
      LastIsTop(sstables, disk.runs);
      MergedOk(disk.runs, nextId);
      WrittenFile(merged.Contents(), false);
      var id := nextId;
      disk := disk.(runs := disk.runs[id := file]);
      trail := trail + iset{disk};
      assert disk == CompactPoint(d, 0) by { AllLeft(d); }
      nextId := nextId + 1;
      RemoveOld(d);
      CompactOver(d, id, ToLayer(mt.Contents()));
      OnlyMerged(d);
      TableOne(id, file, index);
      sstables := [Sstable(id, index)];
    }

    /** Removes the old runs, oldest first. */
    method RemoveOld(ghost d: Disk)
      requires TableOk(sstables, d.runs) && disk == CompactPoint(d, 0)
      modifies this`disk, this`trail
      ensures disk == CompactPoint(d, Top(d.runs.Keys))
      ensures forall c :: c in trail && c !in old(trail) ==> exists m: nat :: c == CompactPoint(d, m)
    {
      hide CompactPoint, TableOk;
      var i := 0;
      while i < |sstables|
        invariant 0 <= i <= |sstables|
        invariant disk == CompactPoint(d, Before(sstables, i))
        invariant forall c :: c in trail && c !in old(trail) ==> exists m: nat :: c == CompactPoint(d, m)
      {
        RemoveStep(d, sstables, i);
        disk := disk.(runs := disk.runs - {sstables[i].id});
        trail := trail + iset{disk};
        i := i + 1;
      }
      LastIsTop(sstables, d.runs);
    }

    /** Replays the runs, oldest first, into one memtable. */
    method Merge() returns (merged: Memtable)
      requires Valid()
      ensures fresh(merged) && fresh(merged.entries) && merged.Valid()
      ensures merged.Contents() == MergedBelow(disk.runs, Before(sstables, |sstables|))
    {
      hide ToLayer, Less, Parse, IndexOk, Replay, Sorted, RunOk, Insert;
      merged := new Memtable();
      var i := 0;
      while i < |sstables|
        invariant 0 <= i <= |sstables|
        invariant fresh(merged) && fresh(merged.entries) && merged.Valid()
        invariant merged.Contents() == MergedBelow(disk.runs, Before(sstables, i))
      {
        MergeStep(sstables, disk.runs, i);
        var tmp := new Memtable();
        ReplayInto(disk.runs[sstables[i].id], tmp);
        MergeInto(merged, tmp);
        i := i + 1;
      }
    }

    method KvPut(key: Bytes, val: Bytes)
      requires Valid() && Fits(Put(key, val))
      modifies this, mt, mt.entries
      ensures Valid() && Memory() == old(Memory())[key := val]
      ensures old(Synced() && CleanLog(disk.wal)) ==> Synced() && CleanLog(disk.wal) && Took(Write(Put(key, val)))
      ensures !(Synced() && CleanLog(disk.wal)) ==> disk == Logged(old(disk), Put(key, val))
    {
      WriteRecord(Put(key, val));
    }

    method KvDel(key: Bytes)
      requires Valid() && Fits(Del(key))
      modifies this, mt, mt.entries
      ensures Valid() && Memory() == old(Memory()) - {key}
      ensures old(Synced() && CleanLog(disk.wal)) ==> Synced() && CleanLog(disk.wal) && Took(Write(Del(key)))
      ensures !(Synced() && CleanLog(disk.wal)) ==> disk == Logged(old(disk), Del(key))
    {
      WriteRecord(Del(key));
    }

    /** Log first, then the memtable, then a flush when it is full. The open store
        sees the write whatever the log looked like; the directory shows it if the
        log was whole, and otherwise (see `SomeWriteIsLost`) from the next flush on. */
    method WriteRecord(r: Record)
      requires Valid() && Fits(r)
      modifies this, mt, mt.entries
      ensures Valid() && Memory() == Written(old(Memory()), r)
      ensures old(Synced() && CleanLog(disk.wal)) ==> Synced() && CleanLog(disk.wal) && Took(Write(r))
      ensures !(Synced() && CleanLog(disk.wal)) ==> disk == Logged(old(disk), r)
    {
      hide ToLayer, Less, Parse, IndexOk, Replay, Sorted, Insert, Encode, CleanLog, TableOk, Top, Step, Crash, Logged, MapOver, EntriesFit, Fits, RunOk;
      ghost var d, es, whole := disk, mt.Contents(), Synced() && CleanLog(disk.wal);
      WriteSteps(d, r);
      LoggedIs(d, r);
      trail := trail + iset n: nat | n <= |Encode(r)| :: d.(wal := d.wal + Encode(r)[..n]);
      var wal := RecordWrite(disk.wal, r);
      disk := disk.(wal := wal);
      mt.Put(r.key, ValueOf(r));
      PutMemory(d.runs, es, r);
      if whole {
        LogAppended(d.wal, r);
      }
      if mt.len >= FLUSH_THRESHOLD {
        KvFlush();
      }
    }
  }

  /** What a write to the memtable means for the map. */
  lemma PutMemory(runs: map<nat, Bytes>, es: seq<Entry>, r: Record)
    requires Sorted(es) && EntriesFit(es) && Fits(r)
    ensures EntriesFit(Insert(es, r.key, ValueOf(r)))
    ensures MapOver(runs, ToLayer(Insert(es, r.key, ValueOf(r)))) == Written(MapOver(runs, ToLayer(es)), r)
  {
    hide Sorted, Insert, ToLayer, RunsBelow, Top, Live;
    InsertFits(es, Entry(r.key, ValueOf(r)));
    InsertLayer(es, r.key, ValueOf(r));
    var base, l := RunsBelow(runs, Top(runs.Keys)), ToLayer(es);
    assert base + l[r.key := ValueOf(r)] == (base + l)[r.key := ValueOf(r)];
    LiveWrite(base + l, r);
  }

  /** A flush of what the log replays to. */
  lemma WrittenIs(d: Disk)
    ensures var d' := d.(runs := d.runs[Top(d.runs.Keys) := EncodeAll(ToRecords(ReplayFile(d.wal), true))]);
      d' == FlushWritten(d) && d'.(wal := []) == FlushCut(d)
  {
    hide Top, EncodeAll, ToRecords, ReplayFile;
  }

  lemma AllLeft(d: Disk)
    ensures d.(runs := d.runs[Top(d.runs.Keys) := MergedRun(d)]) == CompactPoint(d, 0)
  {
    hide MergedRun;
    AllOfThem(d.runs);
  }

  lemma TableCount(ss: seq<Sstable>, runs: map<nat, Bytes>)
    requires TableOk(ss, runs)
    ensures |ss| == |runs|
  {
    hide IndexOk, Parse;
    TableSize(ss);
  }

  lemma TableMore'(ss: seq<Sstable>, runs: map<nat, Bytes>, id: nat, file: Bytes, index: seq<IndexEntry>)
    requires TableOk(ss, runs) && id == Top(runs.Keys) && IndexOk(index, Parse(file, 0).recs)
    ensures TableOk(ss + [Sstable(id, index)], runs[id := file])
    ensures Top(runs[id := file].Keys) == id + 1
  {
    hide IndexOk, Parse, TableOk;
    TableMore(ss, runs, id, file, index);
  }

  // ----- the steps of the methods, as `Step` and `Crash` describe them -----

  lemma CompactSteps(d: Disk)
    ensures |d.runs| <= 1 ==> Step(d, Compact) == d
    ensures |d.runs| > 1 ==> Step(d, Compact) == CompactPoint(d, Top(d.runs.Keys))
    ensures |d.runs| > 1 ==> forall m: nat :: Crash(d, Compact, CompactPoint(d, m))
  {
    hide CompactPoint, Top;
  }

  lemma FlushSteps(d: Disk)
    ensures ReplayFile(d.wal) == [] ==> Step(d, Flush) == d
    ensures ReplayFile(d.wal) != [] ==>
      && Step(d, Flush) == (if |FlushCut(d).runs| >= COMPACT_THRESHOLD then Step(FlushCut(d), Compact) else FlushCut(d))
      && Crash(d, Flush, FlushWritten(d)) && Crash(d, Flush, FlushCut(d))
      && (|FlushCut(d).runs| >= COMPACT_THRESHOLD ==> forall c :: Crash(FlushCut(d), Compact, c) ==> Crash(d, Flush, c))
  {
    hide FlushCut, FlushWritten, AfterCompact, CompactCrash, ReplayFile;
  }

  lemma WriteSteps(d: Disk, r: Record)
    ensures var full := |ReplayFile(Logged(d, r).wal)| >= FLUSH_THRESHOLD;
      && Step(d, Write(r)) == (if full then Step(Logged(d, r), Flush) else Logged(d, r))
      && (full ==> forall c :: Crash(Logged(d, r), Flush, c) ==> Crash(d, Write(r), c))
    ensures forall n: nat :: n <= |Encode(r)| ==> Crash(d, Write(r), d.(wal := d.wal + Encode(r)[..n]))
    ensures Crash(d, Write(r), Logged(d, r))
  {
    hide AfterFlush, FlushCrash, ReplayFile, Encode;
    assert Encode(r)[..|Encode(r)|] == Encode(r);
  }

  /** Pours one memtable into another. */
  method MergeInto(merged: Memtable, tmp: Memtable)
    requires merged.Valid() && tmp.Valid() && merged != tmp && merged.entries != tmp.entries
    modifies merged, merged.entries
    ensures merged.Valid() && merged.Contents() == InsertAll(old(merged.Contents()), tmp.Contents())
    ensures merged.entries == old(merged.entries) || fresh(merged.entries)
  {
    hide Less, Insert, Sorted;
    ghost var base, es := merged.Contents(), tmp.Contents();
    var j := 0;
    while j < tmp.len
      invariant 0 <= j <= tmp.len == |es| && tmp.Valid() && es == tmp.Contents() && tmp.entries == old(tmp.entries)
      invariant merged.Valid() && merged.Contents() == InsertAll(base, es[..j])
      invariant merged.entries == old(merged.entries) || fresh(merged.entries)
    {
      var e := tmp.entries[j];
      assert e == es[j] && es[..j + 1][..j] == es[..j];
      merged.Put(e.key, e.val);
      j := j + 1;
    }
    assert es[..j] == es;
  }

  lemma AllOfThem(runs: map<nat, Bytes>)
    ensures (map i | i in runs && i >= 0 :: runs[i]) == runs
  {
  }

  lemma OnlyMerged(d: Disk)
    ensures CompactPoint(d, Top(d.runs.Keys)) == Disk(map[Top(d.runs.Keys) := MergedRun(d)], d.wal)
  {
    hide MergedRun;
    assert (map i | i in d.runs && i >= Top(d.runs.Keys) :: d.runs[i]) == map[];
  }

  /** A run that knows the key, with no newer one that does, and no memtable entry. */
  lemma Answer(runs: map<nat, Bytes>, l: Layer, ss: seq<Sstable>, i: nat, key: Bytes)
    requires TableOk(ss, runs) && i < |ss| && key in FileLayer(runs[ss[i].id]) && key !in l
    requires forall j :: i < j < |ss| ==> key !in FileLayer(runs[ss[j].id])
    ensures var v := FileLayer(runs[ss[i].id])[key];
      && (key in MapOver(runs, l) <==> v.Some?) && (v.Some? ==> MapOver(runs, l)[key] == v.value)
  {
    hide FileLayer, IndexOk, Parse, Top;
    forall x | x in runs && ss[i].id < x ensures key !in FileLayer(runs[x]) {
      assert x in Ids(ss);
      var j :| 0 <= j < |ss| && ss[j].id == x;
    }
    NewestWins(runs, Top(runs.Keys), ss[i].id, key);
  }

  lemma NoAnswer(runs: map<nat, Bytes>, l: Layer, ss: seq<Sstable>, key: Bytes)
    requires TableOk(ss, runs) && key !in l
    requires forall j :: 0 <= j < |ss| ==> key !in FileLayer(runs[ss[j].id])
    ensures key !in MapOver(runs, l)
  {
    hide FileLayer, IndexOk, Parse, Top;
    forall x | x in runs ensures key !in FileLayer(runs[x]) {
      assert x in Ids(ss);
      var j :| 0 <= j < |ss| && ss[j].id == x;
    }
    NoneKnows(runs, Top(runs.Keys), key);
  }

  /** The memtable's own entry is newer than all runs. */
  lemma AnswerNow(runs: map<nat, Bytes>, l: Layer, key: Bytes)
    requires key in l
    ensures (key in MapOver(runs, l) <==> l[key].Some?) && (l[key].Some? ==> MapOver(runs, l)[key] == l[key].value)
  {
    hide RunsBelow, Top;
  }
}
