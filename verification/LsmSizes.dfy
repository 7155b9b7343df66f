/** How large the store gets, and what compaction leaves out. */
module LsmSizes {
  import opened ByteStrings
  import opened LsmRecord
  import opened LsmMemtable
  import opened LsmDisk
  import opened LsmCrash

  /** A compacted run holds no tombstone. */
  lemma NoTombstones(d: Disk)
    ensures forall r :: r in Parse(MergedRun(d), 0).recs ==> r.Put?
  {
    hide Parse, Sorted, EntriesFit, ToRecords;
    var es := MergedBelow(d.runs, Top(d.runs.Keys));
    MergedOk(d.runs, Top(d.runs.Keys));
    WrittenFile(es, false);
    OnlyPuts(es);
  }

  lemma {:induction false} OnlyPuts(es: seq<Entry>)
    ensures forall r :: r in ToRecords(es, false) ==> r.Put?
  {
    if es != [] {
      OnlyPuts(es[..|es| - 1]);
    }
  }

  lemma NewRun(runs: map<nat, Bytes>, file: Bytes)
    ensures |runs[Top(runs.Keys) := file]| == |runs| + 1
  {
    assert Top(runs.Keys) !in runs;
    assert runs[Top(runs.Keys) := file].Keys == runs.Keys + {Top(runs.Keys)};
  }

  lemma OneRunLeft(d: Disk)
    ensures |CompactPoint(d, Top(d.runs.Keys)).runs| == 1
  {
    hide MergedRun;
    var n := Top(d.runs.Keys);
    assert CompactPoint(d, n).runs.Keys == {n};
  }

  /** A compaction leaves one run. */
  lemma CompactSize(d: Disk)
    ensures |Step(d, Compact).runs| == if |d.runs| <= 1 then |d.runs| else 1
    ensures Step(d, Compact).wal == d.wal
  {
    hide CompactPoint;
    OneRunLeft(d);
    assert CompactPoint(d, Top(d.runs.Keys)).wal == d.wal by { SameLog(d); }
  }

  lemma SameLog(d: Disk)
    ensures CompactPoint(d, Top(d.runs.Keys)).wal == d.wal
  {
  }

  /** A flush of anything adds a run and empties the log; a third run is merged with
      the others into one. */
  lemma FlushSize(d: Disk)
    requires ReplayFile(d.wal) != []
    ensures Step(d, Flush).wal == [] && |Step(d, Flush).runs| == if |d.runs| < 2 then |d.runs| + 1 else 1
  {
    hide ReplayFile, CompactPoint;
    var c := FlushCut(d);
    assert c.wal == [] && |c.runs| == |d.runs| + 1 by { CutSize(d); }
    CompactSize(c);
  }

  lemma CutSize(d: Disk)
    ensures FlushCut(d).wal == [] && |FlushCut(d).runs| == |d.runs| + 1
  {
    hide ReplayFile, Top, EncodeAll, ToRecords;
    NewRun(d.runs, EncodeAll(ToRecords(ReplayFile(d.wal), true)));
  }

  /** A write is logged; if the log then holds four keys it is flushed. */
  lemma WriteSize(d: Disk, r: Record)
    ensures var n := |ReplayFile(d.wal + Encode(r))|;
      if n < 4 then Step(d, Write(r)) == Disk(d.runs, d.wal + Encode(r))
      else Step(d, Write(r)) == Step(Disk(d.runs, d.wal + Encode(r)), Flush)
  {
    hide ReplayFile, AfterFlush, Encode;
  }

  lemma NothingLogged()
    ensures ReplayFile([]) == []
  {
    EmptyLog();
  }

  /** From an empty directory there are never more than two runs after an operation, and
      never more than three keys in the log. */
  lemma {:induction false} StaysSmall(ops: seq<Op>)
    ensures var d := Run(Disk(map[], []), ops); |d.runs| <= 2 && |ReplayFile(d.wal)| <= 3
  {
    hide ReplayFile, Step;
    NothingLogged();
    if ops != [] {
      var d := Run(Disk(map[], []), ops[..|ops| - 1]);
      StaysSmall(ops[..|ops| - 1]);
      match ops[|ops| - 1]
      case Write(r) =>
        WriteSize(d, r);
        if |ReplayFile(d.wal + Encode(r))| >= 4 {
          FlushSize(Disk(d.runs, d.wal + Encode(r)));
        }
      case Flush => if ReplayFile(d.wal) == [] { NoFlush(d); } else { FlushSize(d); }
      case Compact => CompactSize(d);
      case Reopen => Reopened(d);
    }
  }

  lemma NoFlush(d: Disk)
    requires ReplayFile(d.wal) == []
    ensures Step(d, Flush) == d
  {
  }

  lemma Reopened(d: Disk)
    ensures Step(d, Reopen) == d
  {
  }
}
