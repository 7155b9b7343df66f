/** Every directory a crash can leave behind, and every run of operations. */
module LsmCrash {
  import opened ByteStrings
  import opened LsmRecord
  import opened LsmMemtable
  import opened LsmDisk

  const FLUSH_THRESHOLD: int := 4
  const COMPACT_THRESHOLD: int := 3

  function InsertAll(es: seq<Entry>, more: seq<Entry>): seq<Entry> {
    if more == [] then es
    else Insert(InsertAll(es, more[..|more| - 1]), more[|more| - 1].key, more[|more| - 1].val)
  }

  /** The memtable into which compaction merges the runs below n, oldest first. */
  ghost function MergedBelow(runs: map<nat, Bytes>, n: nat): seq<Entry> {
    if n == 0 then []
    else if n - 1 in runs then InsertAll(MergedBelow(runs, n - 1), ReplayFile(runs[n - 1]))
    else MergedBelow(runs, n - 1)
  }

  lemma InsertFits(es: seq<Entry>, e: Entry)
    requires EntriesFit(es) && Fits(ToRecord(e))
    ensures EntriesFit(Insert(es, e.key, e.val))
  {
    hide Fits, ToRecord;
  }

  lemma {:induction false} InsertAllOk(es: seq<Entry>, more: seq<Entry>)
    requires Sorted(es) && EntriesFit(es) && EntriesFit(more)
    ensures Sorted(InsertAll(es, more)) && EntriesFit(InsertAll(es, more))
    ensures ToLayer(InsertAll(es, more)) == ToLayer(es) + ToLayer(more)
  {
    hide Less, Sorted, Insert, Fits, ToRecord;
    if more != [] {
      var n := |more| - 1;
      InsertAllOk(es, more[..n]);
      InsertSorted(InsertAll(es, more[..n]), more[n].key, more[n].val);
      InsertFits(InsertAll(es, more[..n]), more[n]);
      InsertLayer(InsertAll(es, more[..n]), more[n].key, more[n].val);
    }
  }

  lemma {:induction false} MergedOk(runs: map<nat, Bytes>, n: nat)
    ensures Sorted(MergedBelow(runs, n)) && EntriesFit(MergedBelow(runs, n))
    ensures ToLayer(MergedBelow(runs, n)) == RunsBelow(runs, n)
  {
    hide Sorted, EntriesFit, ReplayFile, InsertAll;
    if n == 0 {
      NothingOk();
    } else {
      MergedOk(runs, n - 1);
      if n - 1 in runs {
        ReplayedOk(runs[n - 1]);
        InsertAllOk(MergedBelow(runs, n - 1), ReplayFile(runs[n - 1]));
      }
    }
  }

  lemma NothingOk()
    ensures Sorted([]) && EntriesFit([]) && ToLayer([]) == map[]
  {
  }

  // ----- flush -----

  ghost function RunOfLog(d: Disk): Bytes { EncodeAll(ToRecords(ReplayFile(d.wal), true)) }

  /** After the new run is written and before the log is cut. */
  ghost function FlushWritten(d: Disk): Disk { d.(runs := d.runs[Top(d.runs.Keys) := RunOfLog(d)]) }

  ghost function FlushCut(d: Disk): Disk { FlushWritten(d).(wal := []) }

  lemma FlushPoints(d: Disk)
    requires DiskOk(d)
    ensures DiskOk(FlushWritten(d)) && Contents(FlushWritten(d)) == Contents(d)
    ensures DiskOk(FlushCut(d)) && Contents(FlushCut(d)) == Contents(d) && CleanLog(FlushCut(d).wal)
  {
    hide RunOk, ReplayFile, Top, CleanLog, FileLayer, RunsBelow;
    var n := Top(d.runs.Keys);
    ReplayedOk(d.wal);
    WrittenFile(ReplayFile(d.wal), true);
    EmptyLog();
    LogLayer(d.wal);
    var d1, d2 := FlushWritten(d), FlushCut(d);
    BelowSame(d1.runs, d.runs, n);
    BelowTop(d1.runs, n);
    ContentsBound(d1, n + 1);
    ContentsBound(d2, n + 1);
    Twice(RunsBelow(d.runs, n), FileLayer(d.wal));
  }

  lemma Twice(base: Layer, l: Layer)
    ensures base + l + l == base + l && base + l + map[] == base + l
  {
  }

  lemma LogLayer(wal: Bytes)
    ensures FileLayer(EncodeAll(ToRecords(ReplayFile(wal), true))) == FileLayer(wal)
  {
    hide ReplayFile, ToRecords, RunOk;
    ReplayedOk(wal);
    WrittenFile(ReplayFile(wal), true);
  }

  // ----- compaction -----

  ghost function MergedRun(d: Disk): Bytes { EncodeAll(ToRecords(MergedBelow(d.runs, Top(d.runs.Keys)), false)) }

  /** The merged run is written and the runs below m are already removed. */
  ghost function CompactPoint(d: Disk, m: nat): Disk {
    Disk((map i | i in d.runs && i >= m :: d.runs[i])[Top(d.runs.Keys) := MergedRun(d)], d.wal)
  }

  /** What is left of the runs agrees with all of them where it says anything:
      it is the newer part. */
  lemma {:induction false} NewerPart(runs: map<nat, Bytes>, m: nat, n: nat)
    ensures var part := RunsBelow(map i | i in runs && i >= m :: runs[i], n);
      forall k :: k in part ==> k in RunsBelow(runs, n) && RunsBelow(runs, n)[k] == part[k]
  {
    hide FileLayer;
    if n > 0 {
      NewerPart(runs, m, n - 1);
      if n - 1 < m {
        BelowNone(map i | i in runs && i >= m :: runs[i], n);
      }
    }
  }

  lemma {:induction false} BelowNone(runs: map<nat, Bytes>, n: nat)
    requires forall i :: i in runs ==> i >= n
    ensures RunsBelow(runs, n) == map[]
  {
    if n > 0 {
      BelowNone(runs, n - 1);
    }
  }

  /** What runs mean under a layer that is newer than all of them. */
  ghost function MapOver(runs: map<nat, Bytes>, l: Layer): map<Bytes, Bytes> {
    Live(RunsBelow(runs, Top(runs.Keys)) + l)
  }

  /** At every point of a compaction the runs mean the same under any newer layer. A
      tombstone that the merged run dropped is missed by nobody: a run that still
      holds an older value of its key is only left while the tombstone's own run is
      left too. */
  lemma CompactOver(d: Disk, m: nat, l: Layer)
    requires DiskOk(d)
    ensures DiskOk(CompactPoint(d, m)) && MapOver(CompactPoint(d, m).runs, l) == MapOver(d.runs, l)
  {
    hide RunOk, FileLayer, Top, RunsBelow, MergedBelow, Kept, Live, ToRecords, EncodeAll;
    var n := Top(d.runs.Keys);
    var all := RunsBelow(d.runs, n);
    MergedOk(d.runs, n);
    WrittenFile(MergedBelow(d.runs, n), false);
    PointLayers(d, m);
    NewerPart(d.runs, m, n);
    var part: map<nat, Bytes> := map i | i in d.runs && i >= m :: d.runs[i];
    SameLive(RunsBelow(part, n), all, l);
  }

  /** In particular under the log: every crash point opens to the same map. */
  lemma CompactPoints(d: Disk, m: nat)
    requires DiskOk(d)
    ensures DiskOk(CompactPoint(d, m)) && Contents(CompactPoint(d, m)) == Contents(d)
  {
    hide RunOk, FileLayer, Top, RunsBelow, MergedRun;
    CompactOver(d, m, FileLayer(d.wal));
  }

  lemma PointLayers(d: Disk, m: nat)
    ensures var n := Top(d.runs.Keys); var c := CompactPoint(d, m);
      RunsBelow(c.runs, Top(c.runs.Keys)) == RunsBelow(map i | i in d.runs && i >= m :: d.runs[i], n) + FileLayer(MergedRun(d))
  {
    hide FileLayer, RunsBelow, MergedRun, Top;
    var n := Top(d.runs.Keys);
    var part: map<nat, Bytes> := map i | i in d.runs && i >= m :: d.runs[i];
    var d1 := CompactPoint(d, m);
    BelowSame(d1.runs, part, n);
    BelowTop(d1.runs, n);
    assert forall i :: i in d1.runs ==> i < n + 1;
    TopIs(d1.runs.Keys, n + 1);
  }

  /** Turning a memtable into the newest run. */
  lemma FlushOver(runs: map<nat, Bytes>, es: seq<Entry>)
    requires Sorted(es) && EntriesFit(es)
    ensures var file := EncodeAll(ToRecords(es, true));
      RunOk(file) && MapOver(runs[Top(runs.Keys) := file], map[]) == MapOver(runs, ToLayer(es))
  {
    hide RunOk, FileLayer, RunsBelow, ToRecords, EncodeAll, Sorted, EntriesFit, Live, ToLayer, Top;
    var n := Top(runs.Keys);
    var file := EncodeAll(ToRecords(es, true));
    WrittenFile(es, true);
    var runs' := runs[n := file];
    BelowSame(runs', runs, n);
    BelowTop(runs', n);
    assert forall i :: i in runs' ==> i < n + 1;
    TopIs(runs'.Keys, n + 1);
    assert RunsBelow(runs, n) + ToLayer(es) + map[] == RunsBelow(runs, n) + ToLayer(es);
  }

  lemma BelowTop(runs: map<nat, Bytes>, n: nat)
    requires n in runs
    ensures RunsBelow(runs, n + 1) == RunsBelow(runs, n) + FileLayer(runs[n])
  {
  }

  lemma SameLive(part: Layer, all: Layer, log: Layer)
    requires forall k :: k in part ==> k in all && all[k] == part[k]
    ensures Live(part + Kept(all, false) + log) == Live(all + log)
  {
    var a, b := part + Kept(all, false) + log, all + log;
    forall k ensures (k in Live(a)) == (k in Live(b)) && (k in Live(a) ==> Live(a)[k] == Live(b)[k]) {
    }
  }

  ghost function AfterCompact(d: Disk): Disk {
    if |d.runs| <= 1 then d else CompactPoint(d, Top(d.runs.Keys))
  }

  ghost function AfterFlush(d: Disk): Disk {
    if ReplayFile(d.wal) == [] then d
    else if |FlushCut(d).runs| >= COMPACT_THRESHOLD then AfterCompact(FlushCut(d))
    else FlushCut(d)
  }

  ghost function Logged(d: Disk, r: Record): Disk { d.(wal := d.wal + Encode(r)) }

  ghost function AfterWrite(d: Disk, r: Record): Disk {
    if |ReplayFile(Logged(d, r).wal)| >= FLUSH_THRESHOLD then AfterFlush(Logged(d, r)) else Logged(d, r)
  }

  /** What a write means for the map. */
  function Written(m: map<Bytes, Bytes>, r: Record): map<Bytes, Bytes> {
    match r case Put(k, v) => m[k := v] case Del(k) => m - {k}
  }

  lemma LoggedContents(d: Disk, r: Record)
    requires DiskOk(d) && CleanLog(d.wal) && Fits(r)
    ensures DiskOk(Logged(d, r)) && CleanLog(Logged(d, r).wal) && Contents(Logged(d, r)) == Written(Contents(d), r)
  {
    hide RunOk, CleanLog, FileLayer, Encode, ReplayFile;
    LogAppended(d.wal, r);
    var base := RunsBelow(d.runs, Top(d.runs.Keys));
    var l := FileLayer(d.wal);
    assert base + l[r.key := ValueOf(r)] == (base + l)[r.key := ValueOf(r)];
    LiveWrite(base + l, r);
  }

  lemma LiveWrite(l: Layer, r: Record)
    ensures Live(l[r.key := ValueOf(r)]) == Written(Live(l), r)
  {
  }

  /** A torn append is an append that did not happen. */
  lemma TornContents(d: Disk, r: Record, n: nat)
    requires DiskOk(d) && CleanLog(d.wal) && Fits(r) && n < |Encode(r)|
    ensures var torn := d.(wal := d.wal + Encode(r)[..n]); DiskOk(torn) && Contents(torn) == Contents(d)
  {
    hide RunOk, CleanLog, FileLayer, Encode;
    LogTorn(d.wal, r, n);
  }

  lemma AfterFlushOk(d: Disk)
    requires DiskOk(d)
    ensures DiskOk(AfterFlush(d)) && Contents(AfterFlush(d)) == Contents(d)
    ensures CleanLog(d.wal) || ReplayFile(d.wal) != [] ==> CleanLog(AfterFlush(d).wal)
  {
    hide Contents, DiskOk, CleanLog, FlushCut;
    FlushPoints(d);
    AfterCompactOk(FlushCut(d));
  }

  lemma AfterCompactOk(d: Disk)
    requires DiskOk(d)
    ensures DiskOk(AfterCompact(d)) && Contents(AfterCompact(d)) == Contents(d) && AfterCompact(d).wal == d.wal
  {
    hide Contents, DiskOk;
    CompactPoints(d, Top(d.runs.Keys));
  }

  // ----- whole runs -----

  datatype Op = Write(rec: Record) | Flush | Compact | Reopen

  ghost function Step(d: Disk, op: Op): Disk {
    match op
    case Write(r) => AfterWrite(d, r)
    case Flush => AfterFlush(d)
    case Compact => AfterCompact(d)
    case Reopen => d
  }

  ghost function Run(d: Disk, ops: seq<Op>): Disk {
    if ops == [] then d else Step(Run(d, ops[..|ops| - 1]), ops[|ops| - 1])
  }

  /** The plain map that the same operations describe. */
  function Model(m: map<Bytes, Bytes>, ops: seq<Op>): map<Bytes, Bytes> {
    if ops == [] then m
    else
      var before := Model(m, ops[..|ops| - 1]);
      match ops[|ops| - 1] case Write(r) => Written(before, r) case _ => before
  }

  ghost predicate OpsFit(ops: seq<Op>) {
    forall i :: 0 <= i < |ops| && ops[i].Write? ==> Fits(ops[i].rec)
  }

  lemma StepContents(d: Disk, op: Op)
    requires DiskOk(d) && CleanLog(d.wal) && (op.Write? ==> Fits(op.rec))
    ensures DiskOk(Step(d, op)) && CleanLog(Step(d, op).wal)
    ensures Contents(Step(d, op)) == match op case Write(r) => Written(Contents(d), r) case _ => Contents(d)
  {
    hide Contents, DiskOk, CleanLog, AfterFlush, AfterCompact, Logged;
    match op {
      case Write(r) =>
        LoggedContents(d, r);
        AfterFlushOk(Logged(d, r));
      case Flush => AfterFlushOk(d);
      case Compact => AfterCompactOk(d);
      case Reopen =>
    }
  }

  /** After any sequence of operations the directory means what the plain map of
      the same operations is. */
  lemma {:induction false} RunContents(d: Disk, ops: seq<Op>)
    requires DiskOk(d) && CleanLog(d.wal) && OpsFit(ops)
    ensures DiskOk(Run(d, ops)) && CleanLog(Run(d, ops).wal) && Contents(Run(d, ops)) == Model(Contents(d), ops)
  {
    hide Contents, DiskOk, CleanLog, Step;
    if ops != [] {
      RunContents(d, ops[..|ops| - 1]);
      StepContents(Run(d, ops[..|ops| - 1]), ops[|ops| - 1]);
    }
  }

  // ----- crashes in the middle of an operation -----

  ghost predicate CompactCrash(d: Disk, c: Disk) { |d.runs| > 1 && exists m: nat :: c == CompactPoint(d, m) }

  ghost predicate FlushCrash(d: Disk, c: Disk) {
    && ReplayFile(d.wal) != []
    && (c == FlushWritten(d) || c == FlushCut(d) || (|FlushCut(d).runs| >= COMPACT_THRESHOLD && CompactCrash(FlushCut(d), c)))
  }

  ghost predicate WriteCrash(d: Disk, r: Record, c: Disk) {
    || (exists n: nat :: n <= |Encode(r)| && c == d.(wal := d.wal + Encode(r)[..n]))
    || (|ReplayFile(Logged(d, r).wal)| >= FLUSH_THRESHOLD && FlushCrash(Logged(d, r), c))
  }

  /** A directory that a crash during `op` can leave: before it, after any of its
      file operations, or inside the append to the log. */
  ghost predicate Crash(d: Disk, op: Op, c: Disk) {
    c == d || match op
      case Write(r) => WriteCrash(d, r, c)
      case Flush => FlushCrash(d, c)
      case Compact => CompactCrash(d, c)
      case Reopen => false
  }

  lemma FlushCrashSafe(d: Disk, c: Disk)
    requires DiskOk(d) && FlushCrash(d, c)
    ensures DiskOk(c) && Contents(c) == Contents(d)
  {
    hide Contents, DiskOk, FlushCut, FlushWritten, CompactPoint;
    FlushPoints(d);
    if CompactCrash(FlushCut(d), c) {
      CompactCrashSafe(FlushCut(d), c);
    }
  }

  lemma CompactCrashSafe(d: Disk, c: Disk)
    requires DiskOk(d) && CompactCrash(d, c)
    ensures DiskOk(c) && Contents(c) == Contents(d)
  {
    hide Contents, DiskOk, CompactPoint;
    var m: nat :| c == CompactPoint(d, m);
    CompactPoints(d, m);
  }

  /** After any run and a crash anywhere in the next operation, the directory
      opens to the map before or after that operation; and only a write can make
      a difference. */
  lemma CrashSafe(d: Disk, ops: seq<Op>, op: Op, c: Disk)
    requires DiskOk(d) && CleanLog(d.wal) && OpsFit(ops) && (op.Write? ==> Fits(op.rec))
    requires Crash(Run(d, ops), op, c)
    ensures DiskOk(c)
    ensures Contents(c) == Model(Contents(d), ops) || (op.Write? && Contents(c) == Model(Contents(d), ops + [op]))
  {
    hide Contents, DiskOk, CleanLog, Logged, Run, FlushCrash, CompactCrash, Encode;
    var now := Run(d, ops);
    RunContents(d, ops);
    assert (ops + [op])[..|ops|] == ops;
    match op {
      case Write(r) =>
        LoggedContents(now, r);
        if c != now {
          if n: nat :| n <= |Encode(r)| && c == now.(wal := now.wal + Encode(r)[..n]) {
            if n < |Encode(r)| {
              TornContents(now, r, n);
            } else {
              assert Encode(r)[..n] == Encode(r);
              assert c == Logged(now, r) by { LoggedIs(now, r); }
            }
          } else {
            FlushCrashSafe(Logged(now, r), c);
          }
        }
      case Flush =>
        if c != now {
          FlushCrashSafe(now, c);
        }
      case Compact =>
        if c != now {
          CompactCrashSafe(now, c);
        }
      case Reopen =>
    }
  }

  /** The same from an empty directory: the map of the operations, with or without
      the one that was interrupted. */
  lemma FromEmpty(ops: seq<Op>, op: Op, c: Disk)
    requires OpsFit(ops) && (op.Write? ==> Fits(op.rec))
    ensures Contents(Run(Disk(map[], []), ops)) == Model(map[], ops)
    ensures Crash(Run(Disk(map[], []), ops), op, c) ==>
      Contents(c) == Model(map[], ops) || (op.Write? && Contents(c) == Model(map[], ops + [op]))
  {
    hide Run, Crash, Model;
    EmptyLog();
    var d := Disk(map[], []);
    assert Contents(d) == map[];
    RunContents(d, ops);
    if Crash(Run(d, ops), op, c) {
      CrashSafe(d, ops, op, c);
    }
  }

  lemma LoggedIs(d: Disk, r: Record)
    ensures Logged(d, r) == d.(wal := d.wal + Encode(r))
  {
  }

  // ----- a log with a torn tail -----

  /** The limit of that promise: a log with a torn tail is opened for appending as
      it is. Then there is a write, of any key that fits and a one-byte value, that
      the next opening does not show: the torn record swallows its beginning. */
  lemma SomeWriteIsLost(d: Disk, key: Bytes) returns (v: Bytes)
    requires !CleanLog(d.wal) && |key| < U32
    ensures Fits(Put(key, v)) && Contents(Logged(d, Put(key, v))) != Written(Contents(d), Put(key, v))
  {
    hide Parse, Encode, FileLayer, Stop, RunsBelow, Top, ReadRecord;
    var rs := Parse(d.wal, 0).recs;
    var base := RunsBelow(d.runs, Top(d.runs.Keys));
    var tail := d.wal[Stop(d.wal, 0)..];
    ParseAppend(d.wal, [], 0);
    var x, y := OtherValues(Contents(d), key);
    TailSwallows(tail, key, x, y);
    v := if Put(key, [x]) !in Parse(tail + Encode(Put(key, [x])), 0).recs then [x] else [y];
    var r := Put(key, v);
    ParseAppend(d.wal, Encode(r), 0);
    LayerOf(d.wal);
    LayerOf(d.wal + Encode(r));
    hide ToLayer, Replay, Live;
    LiveSays(AllLayers(d), key, v);
    NoNews(base, rs, Parse(tail + Encode(r), 0).recs, key, v);
    LiveSays(AllLayers(Logged(d, r)), key, v);
  }

  lemma LayerOf(file: Bytes)
    ensures FileLayer(file) == ToLayer(Replay(Parse(file, 0).recs))
  {
  }

  lemma LiveSays(l: Layer, key: Bytes, v: Bytes)
    ensures Says(l, key, v) <==> key in Live(l) && Live(l)[key] == v
  {
  }

  /** Two bytes that are not the current value of a key. */
  lemma OtherValues(m: map<Bytes, Bytes>, key: Bytes) returns (a: Byte, b: Byte)
    ensures a != b && (key in m ==> m[key] != [a] && m[key] != [b])
  {
    if key in m && m[key] == [0] {
      a, b := 1, 2;
    } else if key in m && m[key] == [1] {
      a, b := 0, 2;
    } else {
      a, b := 0, 1;
    }
  }

  /** Every write that fits survives the next opening if and only if the log ends
      between two records. */
  lemma WritesSurviveExactly(d: Disk)
    requires DiskOk(d)
    ensures CleanLog(d.wal) <==> forall r :: Fits(r) ==> Contents(Logged(d, r)) == Written(Contents(d), r)
  {
    hide Contents, Logged, DiskOk, CleanLog;
    if CleanLog(d.wal) {
      forall r | Fits(r) ensures Contents(Logged(d, r)) == Written(Contents(d), r) {
        LoggedContents(d, r);
      }
    } else {
      var v := SomeWriteIsLost(d, []);
    }
  }

  /** A crash inside any append leaves such a log. */
  lemma CrashTears(wal: Bytes, r: Record, n: nat)
    requires CleanLog(wal) && Fits(r) && 0 < n < |Encode(r)|
    ensures !CleanLog(wal + Encode(r)[..n])
  {
    hide Parse, Encode;
    LogAppend(wal, r, n);
  }
}
