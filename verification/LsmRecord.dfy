/** The record format the write-ahead log and the sorted runs share: one
    operation byte, a 32-bit little-endian key length, the key, and for a put the
    same for the value. */
module LsmRecord {
  import opened ByteStrings
  import opened Wrappers

  const REC_PUT: Byte := 80
  const REC_DEL: Byte := 68
  const U32: int := 0x1_0000_0000

  datatype Record = Put(key: Bytes, val: Bytes) | Del(key: Bytes)

  datatype ReadOut = Got(rec: Record, next: nat) | Eof | Bad

  /** The records of a file, and whether it ends between two records. */
  datatype Parsed = Parsed(recs: seq<Record>, clean: bool)

  function EncodeU32(n: int): (r: Bytes)
    ensures |r| == 4
  {
    [n % 256, n / 256 % 256, n / 65536 % 256, n / 16777216 % 256]
  }

  function DecodeU32(b: Bytes): (r: nat)
    requires |b| == 4
    ensures r < U32
  {
    var b0: int, b1: int, b2: int, b3: int := b[0], b[1], b[2], b[3];
    b0 + 256 * b1 + 65536 * b2 + 16777216 * b3
  }

  lemma U32RoundTrip(n: nat)
    ensures DecodeU32(EncodeU32(n)) == n % U32
  {
    var a, b, c, d := n % 256, n / 256 % 256, n / 65536 % 256, n / 16777216 % 256;
    assert n / 65536 == n / 256 / 256 && n / 16777216 == n / 256 / 256 / 256;
    assert n == n / 256 * 256 + a;
    assert n / 256 == n / 65536 * 256 + b;
    assert n / 65536 == n / 16777216 * 256 + c;
    assert n / 16777216 == n / 16777216 / 256 * 256 + d;
    var x := a + 256 * b + 65536 * c + 16777216 * d;
    assert n == n / 16777216 / 256 * U32 + x;
  }

  /** A length-prefixed byte string; the length is cut to 32 bits as the cast in
      the source does, and only that many bytes are written. */
  function EncodeString(s: Bytes): Bytes {
    EncodeU32(|s|) + s[..|s| % U32]
  }

  function Encode(r: Record): Bytes {
    match r
    case Put(k, v) => [REC_PUT] + (EncodeString(k) + EncodeString(v))
    case Del(k) => [REC_DEL] + EncodeString(k)
  }

  function EncodeAll(rs: seq<Record>): Bytes {
    if rs == [] then [] else EncodeAll(rs[..|rs| - 1]) + Encode(rs[|rs| - 1])
  }

  /** Both lengths fit in the 32 bits the format has for them. */
  predicate Fits(r: Record) {
    |r.key| < U32 && (r.Put? ==> |r.val| < U32)
  }

  predicate AllFit(rs: seq<Record>) { forall i :: 0 <= i < |rs| ==> Fits(rs[i]) }

  /** A length-prefixed byte string at `pos`, if the file holds all of it. */
  function ReadString(file: Bytes, pos: nat): (r: Option<(Bytes, nat)>)
    ensures r.Some? ==> pos + 4 <= r.value.1 <= |file|
  {
    if pos + 4 > |file| then None
    else
      var n := DecodeU32(file[pos..pos + 4]);
      if pos + 4 + n > |file| then None else Some((file[pos + 4..pos + 4 + n], pos + 4 + n))
  }

  /** Every operation byte but REC_PUT reads as a deletion. */
  function ReadRecord(file: Bytes, pos: nat): (r: ReadOut)
    ensures r.Got? ==> pos < r.next <= |file|
  {
    if pos >= |file| then Eof
    else match ReadString(file, pos + 1)
      case None => Bad
      case Some(k) =>
        if file[pos] == REC_PUT then
          match ReadString(file, k.1)
          case None => Bad
          case Some(v) => Got(Put(k.0, v.0), v.1)
        else Got(Del(k.0), k.1)
  }

  function Parse(file: Bytes, pos: nat): Parsed
    decreases |file| - pos
  {
    match ReadRecord(file, pos)
    case Eof => Parsed([], true)
    case Bad => Parsed([], false)
    case Got(r, next) =>
      var rest := Parse(file, next);
      Parsed([r] + rest.recs, rest.clean)
  }

  // ----- reading back what was written -----

  lemma StringThere(file: Bytes, pos: nat, s: Bytes)
    requires pos + |EncodeString(s)| <= |file| && file[pos..pos + |EncodeString(s)|] == EncodeString(s)
    ensures ReadString(file, pos) == Some((s[..|s| % U32], pos + |EncodeString(s)|))
  {
    var e := EncodeString(s);
    assert file[pos..pos + 4] == e[..4] == EncodeU32(|s|);
    U32RoundTrip(|s|);
    assert file[pos + 4..pos + |e|] == e[4..] == s[..|s| % U32];
  }

  /** A file that stops inside an encoded string does not yield one. */
  lemma StringTorn(file: Bytes, pos: nat, s: Bytes)
    requires pos <= |file| < pos + |EncodeString(s)| && file[pos..] == EncodeString(s)[..|file| - pos]
    ensures ReadString(file, pos) == None
  {
    var e := EncodeString(s);
    if pos + 4 <= |file| {
      assert file[pos..pos + 4] == file[pos..][..4] == e[..4] == EncodeU32(|s|);
      U32RoundTrip(|s|);
    }
  }

  /** What a record becomes on its way through the format. */
  function Cut(r: Record): Record {
    match r
    case Put(k, v) => Put(k[..|k| % U32], v[..|v| % U32])
    case Del(k) => Del(k[..|k| % U32])
  }

  lemma RecordThere(file: Bytes, pos: nat, r: Record)
    requires pos + |Encode(r)| <= |file| && file[pos..pos + |Encode(r)|] == Encode(r)
    ensures ReadRecord(file, pos) == Got(Cut(r), pos + |Encode(r)|)
  {
    hide ReadString, EncodeString, Encode;
    RecordParts(file, pos, r);
    var k := EncodeString(r.key);
    StringThere(file, pos + 1, r.key);
    if r.Put? {
      StringThere(file, pos + 1 + |k|, r.val);
    }
  }

  /** Where the strings of a record lie. */
  lemma RecordParts(file: Bytes, pos: nat, r: Record)
    requires pos + |Encode(r)| <= |file| && file[pos..pos + |Encode(r)|] == Encode(r)
    ensures pos < |file| && file[pos] == if r.Put? then REC_PUT else REC_DEL
    ensures var k := EncodeString(r.key);
      && |Encode(r)| == 1 + |k| + (if r.Put? then |EncodeString(r.val)| else 0)
      && file[pos + 1..pos + 1 + |k|] == k
      && (r.Put? ==> var v := EncodeString(r.val); file[pos + 1 + |k|..pos + 1 + |k| + |v|] == v)
  {
    hide EncodeString;
    var e, k := Encode(r), EncodeString(r.key);
    EncodeParts(r);
    Slice(file, pos, e, 0, 1);
    assert file[pos] == file[pos..pos + 1][0] == e[..1][0];
    Slice(file, pos, e, 1, 1 + |k|);
    Slice(file, pos, e, 1 + |k|, |e|);
  }

  lemma EncodeParts(r: Record)
    ensures var e, k := Encode(r), EncodeString(r.key);
      && |e| == 1 + |k| + (if r.Put? then |EncodeString(r.val)| else 0)
      && e[0] == (if r.Put? then REC_PUT else REC_DEL) && e[1..1 + |k|] == k
      && (r.Put? ==> e[1 + |k|..] == EncodeString(r.val))
  {
    hide EncodeString;
  }

  lemma Slice(file: Bytes, pos: nat, e: Bytes, a: nat, b: nat)
    requires pos + |e| <= |file| && file[pos..pos + |e|] == e && a <= b <= |e|
    ensures file[pos + a..pos + b] == e[a..b]
  {
    forall i | a <= i < b ensures file[pos + i] == e[i] {
      assert file[pos..pos + |e|][i] == file[pos + i];
    }
    var got := file[pos + a..pos + b];
    assert |got| == b - a && forall i :: 0 <= i < b - a ==> got[i] == file[pos + (a + i)] == e[a..b][i];
  }

  lemma RecordTorn(file: Bytes, pos: nat, r: Record)
    requires pos < |file| < pos + |Encode(r)| && file[pos..] == Encode(r)[..|file| - pos]
    ensures ReadRecord(file, pos) == Bad
  {
    hide ReadString, EncodeString;
    var e := Encode(r);
    var there := file[pos..];
    assert file[pos] == there[0];
    var k := EncodeString(r.key);
    var n := |file| - pos;
    var v := if r.Put? then EncodeString(r.val) else [];
    assert e[1..] == k + v;
    assert file[pos + 1..] == there[1..] == (k + v)[..n - 1];
    if n < 1 + |k| {
      assert (k + v)[..n - 1] == k[..n - 1];
      StringTorn(file, pos + 1, r.key);
    } else {
      assert file[pos + 1..pos + 1 + |k|] == (k + v)[..n - 1][..|k|] == k;
      StringThere(file, pos + 1, r.key);
      assert file[pos + 1 + |k|..] == (k + v)[..n - 1][|k|..] == v[..n - 1 - |k|];
      StringTorn(file, pos + 1 + |k|, r.val);
    }
  }

  /** One record survives being written and read exactly when its lengths fit. */
  lemma RoundTrip(r: Record)
    ensures ReadRecord(Encode(r), 0) == Got(r, |Encode(r)|) <==> Fits(r)
  {
    hide ReadRecord, Encode;
    assert Encode(r)[0..|Encode(r)|] == Encode(r);
    RecordThere(Encode(r), 0, r);
    if Fits(r) {
      CutFits(r);
    } else {
      assert |Cut(r).key| < U32 && (r.Put? ==> |Cut(r).val| < U32);
    }
  }

  /** What four bytes weigh, the lowest first. */
  function Weight(b: Bytes): int
    requires |b| == 4
  {
    var b0: int, b1: int, b2: int, b3: int := b[0], b[1], b[2], b[3];
    b0 + 0x100 * b1 + 0x1_0000 * b2 + 0x100_0000 * b3
  }

  /** The bytes of a record: the operation, the length of the key, the key, and for a
      put (letter P, not D) the same of the value. */
  lemma RecordBytes(r: Record)
    requires Fits(r)
    ensures var e, k := Encode(r), |r.key|;
      && |e| == 5 + k + (if r.Put? then 4 + |r.val| else 0)
      && e[0] == (if r.Put? then 80 else 68) && Weight(e[1..5]) == k && e[5..5 + k] == r.key
      && (r.Put? ==> Weight(e[5 + k..9 + k]) == |r.val| && e[9 + k..] == r.val)
  {
    hide EncodeU32, Encode, EncodeString, Weight;
    var e, k := Encode(r), EncodeString(r.key);
    EncodeParts(r);
    StringBytesOf(r.key);
    Slice(e, 1, k, 0, 4);
    Slice(e, 1, k, 4, |k|);
    if r.Put? {
      var v := EncodeString(r.val);
      StringBytesOf(r.val);
      assert e[1 + |k|..1 + |k| + |v|] == v;
      Slice(e, 1 + |k|, v, 0, 4);
      Slice(e, 1 + |k|, v, 4, |v|);
    }
  }

  lemma StringBytesOf(s: Bytes)
    requires |s| < U32
    ensures var t := EncodeString(s); |t| == 4 + |s| && Weight(t[0..4]) == |s| && t[4..|t|] == s
  {
    hide EncodeU32;
    U32RoundTrip(|s|);
    var t := EncodeString(s);
    assert t[0..4] == EncodeU32(|s|) && t[4..|t|] == s[..|s|] == s;
  }

  /** A key of 2^32 bytes is written with length 0 and read back empty. */
  lemma LongKeyIsLost(key: Bytes, val: Bytes)
    requires |key| == U32 && |val| < U32
    ensures ReadRecord(Encode(Put(key, val)), 0) == Got(Put([], val), 9 + |val|)
  {
    hide ReadRecord;
    var r := Put(key, val);
    var e := Encode(r);
    assert e[0..|e|] == e;
    RecordThere(e, 0, r);
    assert key[..U32 % U32] == [] && val[..|val| % U32] == val;
  }

  lemma CutFits(r: Record)
    requires Fits(r)
    ensures Cut(r) == r
  {
    assert r.key[..|r.key|] == r.key && (r.Put? ==> r.val[..|r.val|] == r.val);
  }

  /** Where the i-th record starts. */
  function Offset(rs: seq<Record>, i: nat): nat
    requires i <= |rs|
  {
    |EncodeAll(rs[..i])|
  }

  lemma {:induction false} EncodePrefix(rs: seq<Record>, i: nat)
    requires i <= |rs|
    ensures Offset(rs, i) <= |EncodeAll(rs)| && EncodeAll(rs)[..Offset(rs, i)] == EncodeAll(rs[..i])
    decreases |rs|
  {
    hide Encode;
    if i == |rs| {
      assert rs[..i] == rs;
    } else {
      assert rs[..|rs| - 1][..i] == rs[..i];
      EncodePrefix(rs[..|rs| - 1], i);
    }
  }

  lemma OffsetStep(rs: seq<Record>, i: nat)
    requires i < |rs|
    ensures Offset(rs, i + 1) == Offset(rs, i) + |Encode(rs[i])| && Offset(rs, i + 1) <= |EncodeAll(rs)|
    ensures EncodeAll(rs)[Offset(rs, i)..Offset(rs, i + 1)] == Encode(rs[i])
  {
    hide Encode;
    EncodePrefix(rs, i + 1);
    assert rs[..i + 1][..i] == rs[..i];
    assert EncodeAll(rs[..i + 1]) == EncodeAll(rs[..i]) + Encode(rs[i]);
  }

  lemma EncodeNonEmpty(r: Record)
    ensures |Encode(r)| > 0
  {
  }

  /** Reading at the i-th offset of a file that starts with the encoding of rs. */
  lemma ReadAt(file: Bytes, rs: seq<Record>, i: nat)
    requires AllFit(rs) && i < |rs| && |EncodeAll(rs[..i + 1])| <= |file|
    requires file[..|EncodeAll(rs[..i + 1])|] == EncodeAll(rs[..i + 1])
    ensures ReadRecord(file, Offset(rs, i)) == Got(rs[i], Offset(rs, i + 1))
  {
    hide Encode, ReadRecord;
    var e := EncodeAll(rs[..i + 1]);
    OffsetStep(rs, i);
    assert rs[..i + 1][..i] == rs[..i];
    assert e == EncodeAll(rs[..i]) + Encode(rs[i]);
    assert file[Offset(rs, i)..Offset(rs, i + 1)] == e[Offset(rs, i)..] == Encode(rs[i]);
    RecordThere(file, Offset(rs, i), rs[i]);
    CutFits(rs[i]);
  }

  lemma OffsetAll(rs: seq<Record>)
    ensures Offset(rs, |rs|) == |EncodeAll(rs)| && (rs == [] ==> |EncodeAll(rs)| == 0)
  {
    assert rs[..|rs|] == rs;
  }

  /** The last record does not move the ones before it. */
  lemma OffsetBefore(rs: seq<Record>, k: nat)
    requires k < |rs|
    ensures var rest := rs[..|rs| - 1];
      Offset(rest, k) == Offset(rs, k) && (k < |rest| ==> Offset(rest, k + 1) == Offset(rs, k + 1))
  {
    hide EncodeAll;
    assert rs[..|rs| - 1][..k] == rs[..k];
    assert k < |rs| - 1 ==> rs[..|rs| - 1][..k + 1] == rs[..k + 1];
  }

  /** How many of the records are complete in the first n bytes. */
  function Whole(rs: seq<Record>, n: nat): (k: nat)
    ensures k <= |rs|
  {
    if rs == [] || n >= |EncodeAll(rs)| then |rs| else Whole(rs[..|rs| - 1], n)
  }

  lemma {:induction false} WholeMeans(rs: seq<Record>, n: nat)
    ensures var k := Whole(rs, n); Offset(rs, k) <= n && (k < |rs| ==> n < Offset(rs, k + 1))
  {
    hide EncodeAll, Offset;
    OffsetAll(rs);
    if rs != [] && n < |EncodeAll(rs)| {
      WholeMeans(rs[..|rs| - 1], n);
      OffsetBefore(rs, Whole(rs, n));
    }
  }

  /** Reading a file that holds the first n bytes of an encoding yields exactly
      the records that lie in it whole; it is clean only at a record boundary. */
  lemma {:induction false} TornParse(file: Bytes, rs: seq<Record>, i: nat)
    requires AllFit(rs) && |file| <= |EncodeAll(rs)| && file == EncodeAll(rs)[..|file|]
    requires i <= Whole(rs, |file|)
    ensures Offset(rs, i) <= |file|
    ensures Parse(file, Offset(rs, i)) == Parsed(rs[i..Whole(rs, |file|)], |file| == Offset(rs, Whole(rs, |file|)))
    decreases |rs| - i
  {
    hide Encode, EncodeAll, Offset, ReadRecord, Whole, Parse;
    var k := Whole(rs, |file|);
    WholeMeans(rs, |file|);
    OffsetMono(rs, i, k);
    ParseStep(file, Offset(rs, i));
    if i < k {
      OffsetMono(rs, i + 1, k);
      OffsetMono(rs, i, i + 1);
      NextRecord(file, rs, i);
      TornParse(file, rs, i + 1);
      ParseStep(file, Offset(rs, i + 1));
      assert rs[i..k] == [rs[i]] + rs[i + 1..k];
    } else if |file| == Offset(rs, k) {
      AtEof(file);
    } else {
      TornEnd(file, rs, k);
    }
  }

  lemma ParseStep(file: Bytes, pos: nat)
    ensures match ReadRecord(file, pos)
      case Got(r, next) => Parse(file, pos) == Parsed([r] + Parse(file, next).recs, Parse(file, next).clean)
      case Eof => Parse(file, pos) == Parsed([], true)
      case Bad => Parse(file, pos) == Parsed([], false)
  {
    hide ReadRecord;
  }

  /** A record that lies whole in the file. */
  lemma NextRecord(file: Bytes, rs: seq<Record>, i: nat)
    requires AllFit(rs) && |file| <= |EncodeAll(rs)| && file == EncodeAll(rs)[..|file|]
    requires i < |rs| && Offset(rs, i + 1) <= |file|
    ensures ReadRecord(file, Offset(rs, i)) == Got(rs[i], Offset(rs, i + 1))
  {
    hide Encode, ReadRecord;
    EncodePrefix(rs, i + 1);
    assert file[..Offset(rs, i + 1)] == EncodeAll(rs)[..Offset(rs, i + 1)];
    ReadAt(file, rs, i);
  }

  /** A record of which the file holds only a part. */
  lemma TornEnd(file: Bytes, rs: seq<Record>, k: nat)
    requires AllFit(rs) && |file| <= |EncodeAll(rs)| && file == EncodeAll(rs)[..|file|]
    requires k == Whole(rs, |file|) && |file| != Offset(rs, k)
    ensures ReadRecord(file, Offset(rs, k)) == Bad
  {
    hide Encode, ReadRecord, Whole;
    WholeMeans(rs, |file|);
    OffsetAll(rs);
    OffsetStep(rs, k);
    var e := EncodeAll(rs)[Offset(rs, k)..Offset(rs, k + 1)];
    assert file[Offset(rs, k)..] == e[..|file| - Offset(rs, k)];
    RecordTorn(file, Offset(rs, k), rs[k]);
  }

  lemma AtEof(file: Bytes)
    ensures ReadRecord(file, |file|) == Eof
  {
  }

  lemma {:induction false} OffsetMono(rs: seq<Record>, i: nat, j: nat)
    requires i <= j <= |rs|
    ensures Offset(rs, i) <= Offset(rs, j)
    decreases j
  {
    hide EncodeAll, Encode;
    if i < j {
      OffsetMono(rs, i, j - 1);
      OffsetStep(rs, j - 1);
    }
  }

  /** A whole encoding reads back as what was written. */
  lemma ParseAll(rs: seq<Record>)
    requires AllFit(rs)
    ensures Parse(EncodeAll(rs), 0) == Parsed(rs, true)
  {
    hide Parse, Encode;
    var e := EncodeAll(rs);
    assert e[..|e|] == e && rs[..|rs|] == rs;
    var k := Whole(rs, |e|);
    assert k == |rs| && rs[0..k] == rs && rs[..0] == [];
    TornParse(e, rs, 0);
  }

  // ----- appending to any file -----

  lemma StringLonger(file: Bytes, more: Bytes, pos: nat)
    requires ReadString(file, pos).Some?
    ensures ReadString(file + more, pos) == ReadString(file, pos)
  {
    assert (file + more)[pos..pos + 4] == file[pos..pos + 4];
    var n := DecodeU32(file[pos..pos + 4]);
    assert (file + more)[pos + 4..pos + 4 + n] == file[pos + 4..pos + 4 + n];
  }

  lemma StringShifted(file: Bytes, more: Bytes, pos: nat)
    ensures var r := ReadString(more, pos);
      ReadString(file + more, |file| + pos) == if r.Some? then Some((r.value.0, |file| + r.value.1)) else None
  {
    if pos + 4 <= |more| {
      var at := |file| + pos;
      assert (file + more)[at..at + 4] == more[pos..pos + 4];
      var n := DecodeU32(more[pos..pos + 4]);
      if pos + 4 + n <= |more| {
        assert (file + more)[at + 4..at + 4 + n] == more[pos + 4..pos + 4 + n];
      }
    }
  }

  /** A record that is there stays there. */
  lemma RecordLonger(file: Bytes, more: Bytes, pos: nat)
    requires ReadRecord(file, pos).Got?
    ensures ReadRecord(file + more, pos) == ReadRecord(file, pos)
  {
    hide ReadString;
    StringLonger(file, more, pos + 1);
    if file[pos] == REC_PUT {
      StringLonger(file, more, ReadString(file, pos + 1).value.1);
    }
  }

  lemma RecordShifted(file: Bytes, more: Bytes, pos: nat)
    ensures ReadRecord(file + more, |file| + pos) ==
      match ReadRecord(more, pos) case Got(r, next) => Got(r, |file| + next) case Eof => Eof case Bad => Bad
  {
    hide ReadString;
    if pos < |more| {
      StringShifted(file, more, pos + 1);
      var k := ReadString(more, pos + 1);
      if k.Some? && more[pos] == REC_PUT {
        StringShifted(file, more, k.value.1);
      }
    }
  }

  lemma {:induction false} ParseShifted(file: Bytes, more: Bytes, pos: nat)
    ensures Parse(file + more, |file| + pos) == Parse(more, pos)
    decreases |more| - pos
  {
    hide ReadRecord, Parse;
    ParseStep(more, pos);
    ParseStep(file + more, |file| + pos);
    RecordShifted(file, more, pos);
    if ReadRecord(more, pos).Got? {
      RecordNext(more, pos);
      ParseShifted(file, more, ReadRecord(more, pos).next);
    }
  }

  lemma RecordNext(file: Bytes, pos: nat)
    requires ReadRecord(file, pos).Got?
    ensures pos < ReadRecord(file, pos).next <= |file|
  {
  }

  /** The position at which reading a file stops. */
  function Stop(file: Bytes, pos: nat): (r: nat)
    ensures pos <= r && (pos <= |file| ==> r <= |file|)
    ensures !ReadRecord(file, r).Got?
    decreases |file| - pos
  {
    match ReadRecord(file, pos)
    case Got(_, next) => Stop(file, next)
    case _ => pos
  }

  /** What follows the last whole record: nothing exactly if the file is clean.
      Whatever is appended is read as one text with it. */
  lemma {:induction false} ParseAppend(file: Bytes, more: Bytes, pos: nat)
    requires pos <= |file|
    ensures var tail := file[Stop(file, pos)..];
      && (Parse(file, pos).clean <==> tail == [])
      && (ReadRecord(tail, 0) == if tail == [] then Eof else Bad)
      && Parse(file + more, pos) == Parsed(Parse(file, pos).recs + Parse(tail + more, 0).recs, Parse(tail + more, 0).clean)
    decreases |file| - pos
  {
    hide ReadRecord, Parse;
    ParseStep(file, pos);
    StopStep(file, pos);
    if ReadRecord(file, pos).Got? {
      var next := ReadRecord(file, pos).next;
      RecordNext(file, pos);
      RecordLonger(file, more, pos);
      ParseStep(file + more, pos);
      ParseAppend(file, more, next);
      var tail := file[Stop(file, pos)..];
      assert [ReadRecord(file, pos).rec] + (Parse(file, next).recs + Parse(tail + more, 0).recs)
          == Parse(file, pos).recs + Parse(tail + more, 0).recs;
    } else {
      var head, tail := file[..pos], file[pos..];
      assert head + tail == file && head + (tail + more) == file + more;
      RecordShifted(head, tail, 0);
      ParseShifted(head, tail + more, 0);
      EofOnly(file, pos);
    }
  }

  lemma StopStep(file: Bytes, pos: nat)
    ensures Stop(file, pos) == match ReadRecord(file, pos) case Got(_, next) => Stop(file, next) case _ => pos
  {
  }

  lemma EofOnly(file: Bytes, pos: nat)
    requires pos <= |file|
    ensures ReadRecord(file, pos) == Eof <==> pos == |file|
  {
  }

  /** Appending to a clean file adds exactly the records of what is appended. */
  lemma CleanAppend(file: Bytes, more: Bytes)
    requires Parse(file, 0).clean
    ensures Parse(file + more, 0) == Parsed(Parse(file, 0).recs + Parse(more, 0).recs, Parse(more, 0).clean)
  {
    ParseAppend(file, more, 0);
    assert file[Stop(file, 0)..] + more == more;
  }

  /** One record, or a part of it, as a file. */
  lemma OneRecord(r: Record, n: nat)
    requires Fits(r) && n <= |Encode(r)|
    ensures Parse(Encode(r)[..n], 0) == Parsed(if n == |Encode(r)| then [r] else [], n == 0 || n == |Encode(r)|)
  {
    hide Encode, ReadRecord, Parse;
    var e := Encode(r);
    var file := e[..n];
    EncodeNonEmpty(r);
    ParseStep(file, 0);
    ParseStep(file, n);
    AtEof(file);
    if n == |e| {
      assert file == e && e[0..|e|] == e;
      RoundTrip(r);
    } else if n > 0 {
      assert file[0..] == e[..n];
      RecordTorn(file, 0, r);
    }
  }

  // ----- what a torn tail does to what is appended -----

  lemma U32Again(b: Bytes)
    requires |b| == 4
    ensures EncodeU32(DecodeU32(b)) == b
  {
    var b0: int, b1: int, b2: int, b3: int := b[0], b[1], b[2], b[3];
    var n := DecodeU32(b);
    assert n / 256 == b1 + 256 * b2 + 65536 * b3;
    assert n / 65536 == b2 + 256 * b3;
    assert n / 16777216 == b3;
  }

  lemma StringBytes(file: Bytes, pos: nat)
    requires ReadString(file, pos).Some?
    ensures var (s, next) := ReadString(file, pos).value; |s| < U32 && file[pos..next] == EncodeString(s)
  {
    var n := DecodeU32(file[pos..pos + 4]);
    U32Again(file[pos..pos + 4]);
    assert file[pos..pos + 4 + n] == file[pos..pos + 4] + file[pos + 4..pos + 4 + n];
    var s := file[pos + 4..pos + 4 + n];
    assert s[..|s| % U32] == s;
  }

  /** A put that is read lies in the file as it is written. */
  lemma PutBytes(file: Bytes, pos: nat)
    requires ReadRecord(file, pos).Got? && ReadRecord(file, pos).rec.Put?
    ensures var r := ReadRecord(file, pos); file[pos..r.next] == Encode(r.rec)
  {
    hide ReadString, EncodeString;
    var r := ReadRecord(file, pos);
    StringBytes(file, pos + 1);
    var k := ReadString(file, pos + 1).value;
    StringBytes(file, k.1);
    assert file[pos..r.next] == [file[pos]] + (file[pos + 1..k.1] + file[k.1..r.next]);
  }

  /** A put among the records of a file takes its whole length. */
  lemma {:induction false} PutNeedsRoom(file: Bytes, pos: nat, r: Record)
    requires r.Put? && r in Parse(file, pos).recs && pos <= |file|
    ensures |Encode(r)| <= |file| - pos
    decreases |file| - pos
  {
    hide ReadRecord, Parse, Encode;
    ParseStep(file, pos);
    var x := ReadRecord(file, pos);
    assert x.Got?;
    RecordNext(file, pos);
    if x.rec == r {
      PutBytes(file, pos);
    } else {
      PutNeedsRoom(file, x.next, r);
    }
  }

  /** Behind a torn tail at most one of two puts that differ in their last byte is
      read back: the torn record swallows the beginning of it. */
  lemma TailSwallows(tail: Bytes, k: Bytes, a: Byte, b: Byte)
    requires tail != [] && ReadRecord(tail, 0) == Bad && a != b && |k| < U32
    ensures Put(k, [a]) !in Parse(tail + Encode(Put(k, [a])), 0).recs || Put(k, [b]) !in Parse(tail + Encode(Put(k, [b])), 0).recs
  {
    hide ReadRecord, Parse, Encode;
    var ra, rb := Put(k, [a]), Put(k, [b]);
    var ea, eb := Encode(ra), Encode(rb);
    LastByte(k, a);
    LastByte(k, b);
    SameByte(tail, ea, eb);
    if ra in Parse(tail + ea, 0).recs && rb in Parse(tail + eb, 0).recs {
      SwallowedUnless(tail, ra);
      SwallowedUnless(tail, rb);
    }
  }

  /** Behind other bytes, the place of a last byte holds an earlier one. */
  lemma SameByte(tail: Bytes, ea: Bytes, eb: Bytes)
    requires tail != [] && |ea| == |eb| > 0 && ea[..|ea| - 1] == eb[..|ea| - 1]
    ensures (tail + ea)[..|ea|][|ea| - 1] == (tail + eb)[..|ea|][|ea| - 1]
  {
    var n := |ea|;
    if n - 1 >= |tail| {
      assert ea[..n - 1][n - 1 - |tail|] == eb[..n - 1][n - 1 - |tail|];
    }
  }

  lemma LastByte(k: Bytes, a: Byte)
    requires |k| < U32
    ensures var e := Encode(Put(k, [a]));
      |e| == 10 + |k| && e[|e| - 1] == a && e[..|e| - 1] == [REC_PUT] + EncodeString(k) + EncodeU32(1)
  {
    assert k[..|k| % U32] == k;
    assert [a][..1 % U32] == [a];
    var e := Encode(Put(k, [a]));
    assert e == [REC_PUT] + EncodeString(k) + EncodeU32(1) + [a];
  }

  /** A put appended to a torn tail is found there only if it is a beginning of
      the tail and itself. */
  lemma SwallowedUnless(tail: Bytes, r: Record)
    requires tail != [] && ReadRecord(tail, 0) == Bad && r.Put? && r in Parse(tail + Encode(r), 0).recs
    ensures Encode(r) == (tail + Encode(r))[..|Encode(r)|]
  {
    hide ReadRecord, Parse, Encode;
    var file := tail + Encode(r);
    ParseStep(file, 0);
    var x := ReadRecord(file, 0);
    RecordNext(file, 0);
    if x.rec == r {
      PutBytes(file, 0);
    } else {
      PutNeedsRoom(file, x.next, r);
      assert x.next <= |tail|;
      TailHolds(tail, Encode(r));
    }
  }

  /** A record that ends within the tail is in the tail. */
  lemma TailHolds(tail: Bytes, more: Bytes)
    requires ReadRecord(tail + more, 0).Got? && ReadRecord(tail + more, 0).next <= |tail|
    ensures ReadRecord(tail, 0) == ReadRecord(tail + more, 0)
  {
    var file := tail + more;
    assert file[1..5] == tail[1..5];
    var n := DecodeU32(file[1..5]);
    assert file[5..5 + n] == tail[5..5 + n];
    if file[0] == REC_PUT {
      assert file[5 + n..9 + n] == tail[5 + n..9 + n];
      var m := DecodeU32(file[5 + n..9 + n]);
      assert file[9 + n..9 + n + m] == tail[9 + n..9 + n + m];
    }
  }

  // ----- the two file routines -----

  method RecordWrite(file: Bytes, r: Record) returns (file': Bytes)
    ensures file' == file + Encode(r)
  {
    hide EncodeString;
    file' := file + [if r.Put? then REC_PUT else REC_DEL];
    file' := StringWrite(file', r.key);
    if r.Put? {
      file' := StringWrite(file', r.val);
    }
  }

  method StringWrite(file: Bytes, s: Bytes) returns (file': Bytes)
    ensures file' == file + EncodeString(s)
  {
    file' := file + EncodeU32(|s|);
    file' := file' + s[..|s| % U32];
  }

  /** One pass over a file from its start, as the log replay and the opening of a
      run make it. */
  method ReadFile(file: Bytes) returns (p: Parsed)
    ensures p == Parse(file, 0)
  {
    var pos := 0;
    var recs: seq<Record> := [];
    while true
      invariant Parse(file, 0) == Parsed(recs + Parse(file, pos).recs, Parse(file, pos).clean)
      decreases |file| - pos
    {
      match ReadRecord(file, pos) {
        case Got(r, next) =>
          recs := recs + [r];
          pos := next;
        case Eof => return Parsed(recs, true);
        case Bad => return Parsed(recs, false);
      }
    }
  }
}
