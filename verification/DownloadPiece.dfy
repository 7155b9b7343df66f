/** Fetching one piece from one peer: pipelined block requests, and the answers
    assembled into a buffer. The peer is the list of messages it will send. */
module DownloadPiece {
  import opened ByteStrings
  import opened Wrappers
  import opened DownloadPool

  const MAX_BLOCK_SIZE: nat := 16384
  const MAX_BACKLOG: nat := 5

  const MSG_CHOKE: nat := 0
  const MSG_UNCHOKE: nat := 1
  const MSG_PIECE: nat := 7

  datatype Message = KeepAlive | Message(id: nat, payload: seq<Byte>)

  datatype Request = Request(index: nat, begin: nat, length: nat)

  /** A block of a piece, where it goes. */
  datatype Block = Block(begin: nat, bytes: seq<Byte>)

  function BigEndian(b: seq<Byte>): nat {
    if b == [] then 0 else 256 * BigEndian(b[..|b| - 1]) + b[|b| - 1]
  }

  /** The block a piece message carries, if it belongs to this piece and fits. */
  function ParseBlock(index: nat, size: nat, m: Message): Option<Block> {
    if m.KeepAlive? || m.id != MSG_PIECE then None
    else if |m.payload| < 8 then None
    else if BigEndian(m.payload[0..4]) != index then None
    else
      var begin := BigEndian(m.payload[4..8]);
      if begin >= size then None
      else if begin + |m.payload[8..]| > size then None
      else Some(Block(begin, m.payload[8..]))
  }

  /** Copies the block into the buffer in place and returns its length. */
  method ParsePiece(index: nat, buf: array<Byte>, m: Message) returns (n: Option<nat>)
    modifies buf
    ensures match ParseBlock(index, buf.Length, m)
      case None => n == None && buf[..] == old(buf[..])
      case Some(b) => n == Some(|b.bytes|) && buf[..] == Splice(old(buf[..]), b.begin, b.bytes)
  {
    if m.KeepAlive? || m.id != MSG_PIECE { return None; }
    if |m.payload| < 8 { return None; }
    if BigEndian(m.payload[0..4]) != index { return None; }
    var begin := BigEndian(m.payload[4..8]);
    if begin >= buf.Length { return None; }
    var block := m.payload[8..];
    if begin + |block| > buf.Length { return None; }
    var i := 0;
    while i < |block|
      invariant i <= |block|
      invariant buf[..] == Splice(old(buf[..]), begin, block[..i])
    {
      SpliceNext(old(buf[..]), begin, block, i);
      buf[begin + i] := block[i];
      i := i + 1;
    }
    assert block[..|block|] == block;
    return Some(|block|);
  }

  lemma SpliceNext(buf: seq<Byte>, begin: nat, block: seq<Byte>, i: nat)
    requires i < |block| && begin + |block| <= |buf|
    ensures Splice(buf, begin, block[..i + 1]) == Splice(buf, begin, block[..i])[begin + i := block[i]]
  {
  }

  /** The first k block requests for a piece: consecutive, full-sized but the last. */
  function Requests(index: nat, length: nat, k: nat): seq<Request> {
    if k == 0 || (k - 1) * MAX_BLOCK_SIZE >= length then []
    else
      var begin := (k - 1) * MAX_BLOCK_SIZE;
      var size := if length - begin < MAX_BLOCK_SIZE then length - begin else MAX_BLOCK_SIZE;
      Requests(index, length, k - 1) + [Request(index, begin, size)]
  }

  /** How far the first k requests reach. */
  function Reach(length: nat, k: nat): nat {
    if k * MAX_BLOCK_SIZE < length then k * MAX_BLOCK_SIZE else length
  }

  /** The buffer and the byte count after these messages; None once one fails to parse. */
  function Assemble(index: nat, size: nat, ms: seq<Message>): Option<(seq<Byte>, nat)> {
    if ms == [] then Some((seq(size, _ => 0), 0))
    else match Assemble(index, size, ms[..|ms| - 1])
      case None => None
      case Some(p) =>
        var m := ms[|ms| - 1];
        if m.KeepAlive? || m.id != MSG_PIECE then Some(p)
        else match ParseBlock(index, size, m)
          case None => None
          case Some(b) => if b.begin + |b.bytes| <= |p.0| then Some((Splice(p.0, b.begin, b.bytes), p.1 + |b.bytes|)) else None
  }

  lemma AssembleNext(index: nat, size: nat, ms: seq<Message>, m: Message)
    requires Assemble(index, size, ms).Some? && |Assemble(index, size, ms).value.0| == size
    ensures var (buf, n) := Assemble(index, size, ms).value;
      Assemble(index, size, ms + [m])
      == (if m.KeepAlive? || m.id != MSG_PIECE then Some((buf, n))
          else match ParseBlock(index, size, m)
            case None => None
            case Some(b) => Some((Splice(buf, b.begin, b.bytes), n + |b.bytes|)))
  {
    assert (ms + [m])[..|ms|] == ms;
    Fits(index, size, m);
  }

  lemma Nothing(index: nat, length: nat)
    ensures Assemble(index, length, []) == Some((seq(length, _ => 0), 0)) && Answers([]) == 0 && Requests(index, length, 0) == []
  {
  }

  lemma Fits(index: nat, size: nat, m: Message)
    ensures match ParseBlock(index, size, m) case None => true case Some(b) => b.begin + |b.bytes| <= size
  {
  }

  lemma AnswersNext(ms: seq<Message>, m: Message)
    ensures Answers(ms + [m]) == Answers(ms) + if m.Message? && m.id == MSG_PIECE then 1 else 0
  {
    assert (ms + [m])[..|ms|] == ms;
  }

  lemma {:induction false} AssembleSize(index: nat, size: nat, ms: seq<Message>)
    requires Assemble(index, size, ms).Some?
    ensures |Assemble(index, size, ms).value.0| == size
  {
    if ms != [] {
      AssembleSize(index, size, ms[..|ms| - 1]);
    }
  }

  /** No message takes back the choke. */
  predicate NoUnchoke(ms: seq<Message>) { forall i :: 0 <= i < |ms| ==> ms[i].KeepAlive? || ms[i].id != 1 }

  lemma StillChoked(ms: seq<Message>, m: Message)
    ensures NoUnchoke(ms + [m]) <==> NoUnchoke(ms) && (m.KeepAlive? || m.id != 1)
  {
    assert forall i :: 0 <= i < |ms| ==> (ms + [m])[i] == ms[i];
    assert (ms + [m])[|ms|] == m;
  }

  /** How many of these messages are piece messages. */
  function Answers(ms: seq<Message>): nat {
    if ms == [] then 0
    else Answers(ms[..|ms| - 1]) + if ms[|ms| - 1].Message? && ms[|ms| - 1].id == MSG_PIECE then 1 else 0
  }

  /** An open connection: what the peer will still send, and what it was asked. A
      read past the end of `inbox`, or a send after `sendsLeft`, is an error. */
  class Client {
    var choked: bool
    var inbox: seq<Message>
    var sent: seq<Request>
    var sendsLeft: nat

    constructor (inbox: seq<Message>, sendsLeft: nat)
      ensures choked && this.inbox == inbox && sent == [] && this.sendsLeft == sendsLeft
    {
      choked, this.inbox, sent, this.sendsLeft := true, inbox, [], sendsLeft;
    }

    method SendRequest(r: Request) returns (ok: bool)
      modifies this
      ensures ok == (old(sendsLeft) > 0) && inbox == old(inbox) && choked == old(choked)
      ensures sent == old(sent) + (if ok then [r] else []) && sendsLeft == old(sendsLeft) - (if ok then 1 else 0)
    {
      if sendsLeft == 0 { return false; }
      sent, sendsLeft := sent + [r], sendsLeft - 1;
      return true;
    }

    method Read() returns (m: Option<Message>)
      modifies this
      ensures sent == old(sent) && sendsLeft == old(sendsLeft)
      ensures if old(inbox) == [] then m == None && inbox == [] && choked == old(choked)
              else
                && m == Some(old(inbox)[0]) && inbox == old(inbox)[1..]
                && choked == (if m.value.KeepAlive? || m.value.id > MSG_UNCHOKE then old(choked) else m.value.id == MSG_CHOKE)
    {
      if inbox == [] { return None; }
      m := Some(inbox[0]);
      inbox := inbox[1..];
      if m.value.Message? {
        if m.value.id == MSG_CHOKE { choked := true; } else if m.value.id == MSG_UNCHOKE { choked := false; }
      }
    }

    /** Sends requests while the backlog has room. */
    method Fill(index: nat, length: nat, k: nat, requested: nat, backlog: int) returns (ok: bool, k': nat, requested': nat, backlog': int)
      requires requested == Reach(length, k) && (requested < length ==> requested == k * MAX_BLOCK_SIZE)
      requires |Requests(index, length, k)| == k <= |sent| && sent[|sent| - k..] == Requests(index, length, k)
      modifies this
      ensures inbox == old(inbox) && choked == old(choked)
      ensures k <= k' && requested' == Reach(length, k') && (requested' < length ==> requested' == k' * MAX_BLOCK_SIZE)
      ensures |Requests(index, length, k')| == k' && old(|sent|) - k + k' == |sent|
      ensures sent == old(sent[..|sent| - k]) + Requests(index, length, k')
      ensures backlog' - backlog == k' - k && (backlog' > backlog ==> backlog' <= MAX_BACKLOG)
      ensures if ok then backlog' >= MAX_BACKLOG || requested' == length else sendsLeft == 0
    {
      ok, k', requested', backlog' := true, k, requested, backlog;
      ghost var base := sent[..|sent| - k];
      while backlog' < MAX_BACKLOG && requested' < length
        invariant k <= k' && requested' == Reach(length, k') && (requested' < length ==> requested' == k' * MAX_BLOCK_SIZE)
        invariant |Requests(index, length, k')| == k' && sent == base + Requests(index, length, k')
        invariant backlog' - backlog == k' - k && (backlog' > backlog ==> backlog' <= MAX_BACKLOG)
        invariant inbox == old(inbox) && choked == old(choked)
        decreases length - requested'
      {
        var blockSize := MAX_BLOCK_SIZE;
        if length - requested' < blockSize { blockSize := length - requested'; }
        ok := SendRequest(Request(index, requested', blockSize));
        if !ok { return; }
        backlog' := backlog' + 1;
        requested' := requested' + blockSize;
        k' := k' + 1;
      }
    }

    /** Fetches a piece. On success the buffer is what the consumed messages
        assemble to and they carry at least `length` bytes; the requests made are the
        piece's blocks in order, never more than five ahead of the answers. */
    method DownloadPiece(index: nat, length: nat) returns (r: Option<seq<Byte>>, ghost used: seq<Message>, ghost k: nat)
      modifies this
      ensures old(inbox) == used + inbox
      ensures sent == old(sent) + Requests(index, length, k) && |Requests(index, length, k)| == k <= Answers(used) + 5
      ensures r.Some? ==> Assemble(index, length, used).Some? && r.value == Assemble(index, length, used).value.0
      ensures r.Some? ==> Assemble(index, length, used).value.1 >= length
      ensures r.None? ==> inbox == [] || sendsLeft == 0 || Assemble(index, length, used).None?
      ensures old(choked) && NoUnchoke(used) ==> k == 0
    {
      hide Assemble, ParseBlock, Answers, Requests, Splice, NoUnchoke;
      var buf := new Byte[length](_ => 0);
      var downloaded, requested, backlog := 0, 0, 0;
      var asked := 0;
      used, k := [], 0;
      assert buf[..] == seq(length, _ => 0);
      Nothing(index, length);
      while downloaded < length
        invariant old(inbox) == used + inbox && k == asked
        invariant sent == old(sent) + Requests(index, length, k) && |Requests(index, length, k)| == k
        invariant requested == Reach(length, k) && (requested < length ==> requested == k * MAX_BLOCK_SIZE)
        invariant backlog == k - Answers(used) && backlog <= MAX_BACKLOG
        invariant Assemble(index, length, used) == Some((buf[..], downloaded))
        invariant old(choked) && NoUnchoke(used) ==> choked && k == 0
        decreases |inbox|
      {
        if !choked {
          assert sent[|sent| - k..] == Requests(index, length, k);
          var ok;
          ok, asked, requested, backlog := Fill(index, length, asked, requested, backlog);
          k := asked;
          assert old(sent) + Requests(index, length, k) == sent;
          if !ok { return None, used, k; }
        }
        var m := Read();
        if m.None? { return None, used, k; }
        AssembleNext(index, length, used, m.value);
        AnswersNext(used, m.value);
        StillChoked(used, m.value);
        used := used + [m.value];
        if m.value.KeepAlive? || m.value.id != MSG_PIECE { continue; }
        var n := ParsePiece(index, buf, m.value);
        if n.None? { return None, used, k; }
        downloaded := downloaded + n.value;
        backlog := backlog - 1;
      }
      return Some(buf[..]), used, k;
    }
  }

  // ----- a peer that answers each byte once -----

  /** n positions from begin. */
  function Span(begin: nat, n: nat): (r: set<nat>)
    ensures |r| == n && forall i :: i in r <==> begin <= i < begin + n
  {
    if n == 0 then {} else Span(begin, n - 1) + {begin + n - 1}
  }

  /** The positions the piece messages write. */
  function Written(index: nat, size: nat, ms: seq<Message>): set<nat> {
    if ms == [] then {}
    else Written(index, size, ms[..|ms| - 1]) + WrittenBy(index, size, ms[|ms| - 1])
  }

  function WrittenBy(index: nat, size: nat, m: Message): set<nat> {
    match ParseBlock(index, size, m)
    case None => {}
    case Some(b) => Span(b.begin, |b.bytes|)
  }

  /** Every block is the piece's own bytes, and no byte comes twice. */
  ghost predicate Honest(index: nat, content: seq<Byte>, ms: seq<Message>) {
    ms != [] ==>
      var m := ms[|ms| - 1];
      && Honest(index, content, ms[..|ms| - 1])
      && WrittenBy(index, |content|, m) !! Written(index, |content|, ms[..|ms| - 1])
      && (match ParseBlock(index, |content|, m)
          case None => true
          case Some(b) => b.begin + |b.bytes| <= |content| && content[b.begin..b.begin + |b.bytes|] == b.bytes)
  }

  /** The byte count is the number of positions written, and they are right. */
  ghost predicate Counted(content: seq<Byte>, buf: seq<Byte>, n: nat, w: set<nat>) {
    && |buf| == |content| && n == |w|
    && forall i :: i in w ==> i < |content| && buf[i] == content[i]
  }

  lemma CountedMore(content: seq<Byte>, buf: seq<Byte>, n: nat, w: set<nat>, begin: nat, bytes: seq<Byte>)
    requires Counted(content, buf, n, w) && begin + |bytes| <= |content|
    requires Span(begin, |bytes|) !! w && content[begin..begin + |bytes|] == bytes
    ensures Counted(content, Splice(buf, begin, bytes), n + |bytes|, w + Span(begin, |bytes|))
  {
    var span := Span(begin, |bytes|);
    forall i | i in w + span ensures i < |content| && Splice(buf, begin, bytes)[i] == content[i] {
      if i in span {
        assert content[begin..begin + |bytes|][i - begin] == content[i];
      }
    }
  }

  lemma {:induction false} HonestCount(index: nat, content: seq<Byte>, ms: seq<Message>)
    requires Honest(index, content, ms) && Assemble(index, |content|, ms).Some?
    ensures var (buf, n) := Assemble(index, |content|, ms).value; Counted(content, buf, n, Written(index, |content|, ms))
  {
    hide ParseBlock, Counted, Splice, Span, Honest, Assemble, Written;
    var size := |content|;
    if ms == [] {
      Nothing(index, size);
      CountedNone(content);
      WrittenNone(index, size);
    } else {
      var rest, m := ms[..|ms| - 1], ms[|ms| - 1];
      HonestLast(index, content, ms);
      AssembleLast(index, size, ms);
      HonestCount(index, content, rest);
      OnlyPieces(index, size, m);
      var (buf, n) := Assemble(index, size, rest).value;
      match ParseBlock(index, size, m)
      case None =>
      case Some(b) => CountedMore(content, buf, n, Written(index, size, rest), b.begin, b.bytes);
    }
  }

  lemma WrittenNone(index: nat, size: nat)
    ensures Written(index, size, []) == {}
  {
  }

  /** What the last message of an honest run adds. */
  lemma HonestLast(index: nat, content: seq<Byte>, ms: seq<Message>)
    requires Honest(index, content, ms) && ms != []
    ensures var rest, size := ms[..|ms| - 1], |content|; var w := Written(index, size, rest);
      && Honest(index, content, rest)
      && match ParseBlock(index, size, ms[|ms| - 1])
         case None => Written(index, size, ms) == w
         case Some(b) =>
           && b.begin + |b.bytes| <= size && content[b.begin..b.begin + |b.bytes|] == b.bytes
           && Span(b.begin, |b.bytes|) !! w && Written(index, size, ms) == w + Span(b.begin, |b.bytes|)
  {
    hide ParseBlock, Span;
    var rest, size, m := ms[..|ms| - 1], |content|, ms[|ms| - 1];
    assert Written(index, size, ms) == Written(index, size, rest) + WrittenBy(index, size, m);
  }

  /** What the last message adds to a buffer. */
  lemma AssembleLast(index: nat, size: nat, ms: seq<Message>)
    requires Assemble(index, size, ms).Some? && ms != []
    ensures Assemble(index, size, ms[..|ms| - 1]).Some?
    ensures var (buf, n) := Assemble(index, size, ms[..|ms| - 1]).value; var m := ms[|ms| - 1];
      if m.KeepAlive? || m.id != MSG_PIECE then Assemble(index, size, ms) == Some((buf, n))
      else match ParseBlock(index, size, m)
        case None => false
        case Some(b) =>
          && b.begin + |b.bytes| <= |buf|
          && Assemble(index, size, ms) == Some((Splice(buf, b.begin, b.bytes), n + |b.bytes|))
  {
    hide ParseBlock, Splice;
  }

  lemma OnlyPieces(index: nat, size: nat, m: Message)
    ensures ParseBlock(index, size, m).Some? ==> m.Message? && m.id == MSG_PIECE
  {
  }

  lemma CountedNone(content: seq<Byte>)
    ensures Counted(content, seq(|content|, _ => 0), 0, {})
  {
  }

  lemma FullSet(s: set<nat>, n: nat)
    requires |s| >= n && forall i :: i in s ==> i < n
    ensures forall i: nat :: i < n ==> i in s
  {
    var all := Span(0, n);
    if !(all <= s) {
      var x: nat :| x in all && x !in s;
      assert s <= all - {x};
      SubsetSize(s, all - {x});
    }
  }

  lemma {:induction false} SubsetSize(a: set<nat>, b: set<nat>)
    requires a <= b
    ensures |a| <= |b|
  {
    if a != {} {
      var x :| x in a;
      SubsetSize(a - {x}, b - {x});
    }
  }

  /** From an honest peer, enough bytes means the whole piece. */
  lemma HonestPiece(index: nat, content: seq<Byte>, ms: seq<Message>)
    requires Honest(index, content, ms) && Assemble(index, |content|, ms).Some?
    requires Assemble(index, |content|, ms).value.1 >= |content|
    ensures Assemble(index, |content|, ms).value.0 == content
  {
    hide Honest, Assemble, Written;
    HonestCount(index, content, ms);
    FullSet(Written(index, |content|, ms), |content|);
  }

  // ----- a peer that may repeat itself -----

  /** Every block is the piece's own bytes; any of them may come again. */
  ghost predicate Right(index: nat, content: seq<Byte>, ms: seq<Message>) {
    forall i :: 0 <= i < |ms| ==> RightBlock(index, content, ms[i])
  }

  ghost predicate RightBlock(index: nat, content: seq<Byte>, m: Message) {
    match ParseBlock(index, |content|, m)
    case None => true
    case Some(b) => b.begin + |b.bytes| <= |content| && content[b.begin..b.begin + |b.bytes|] == b.bytes
  }

  /** The assembled buffer: the piece where blocks were written, zero elsewhere. */
  lemma {:induction false} RightBuffer(index: nat, content: seq<Byte>, ms: seq<Message>)
    requires Right(index, content, ms) && Assemble(index, |content|, ms).Some?
    ensures var (buf, _) := Assemble(index, |content|, ms).value;
      |buf| == |content| && forall i :: 0 <= i < |content| ==> buf[i] == if i in Written(index, |content|, ms) then content[i] else 0
  {
    hide ParseBlock, Splice, Span;
    var size := |content|;
    if ms != [] {
      var rest, m := ms[..|ms| - 1], ms[|ms| - 1];
      assert RightBlock(index, content, m);
      forall i | 0 <= i < |rest| ensures RightBlock(index, content, rest[i]) {
        assert rest[i] == ms[i];
      }
      RightBuffer(index, content, rest);
      var (buf, _) := Assemble(index, size, rest).value;
      var b := ParseBlock(index, size, m);
      OnlyPieces(index, size, m);
      if b.Some? {
        SpliceAt(content, buf, b.value.begin, b.value.bytes);
      } else {
        assert Written(index, size, ms) == Written(index, size, rest);
      }
    }
  }

  lemma SpliceAt(content: seq<Byte>, buf: seq<Byte>, begin: nat, bytes: seq<Byte>)
    requires |buf| == |content| && begin + |bytes| <= |content| && content[begin..begin + |bytes|] == bytes
    ensures |Splice(buf, begin, bytes)| == |content|
    ensures forall i :: 0 <= i < |content| ==> Splice(buf, begin, bytes)[i] == if i in Span(begin, |bytes|) then content[i] else buf[i]
  {
    forall i | begin <= i < begin + |bytes| ensures bytes[i - begin] == content[i] {
      assert content[begin..begin + |bytes|][i - begin] == content[i];
    }
  }

  ghost predicate AllWritten(index: nat, size: nat, ms: seq<Message>) {
    forall i: nat :: i < size ==> i in Written(index, size, ms)
  }

  /** Right blocks, repeats allowed, give the piece whatever its content if and only
      if together they cover every position. For one content it is enough that the
      positions left out hold zero. */
  lemma CompleteExactly(index: nat, content: seq<Byte>, ms: seq<Message>)
    requires Right(index, content, ms) && Assemble(index, |content|, ms).Some?
    ensures AllWritten(index, |content|, ms) <==>
      forall other: seq<Byte> :: |other| == |content| && Right(index, other, ms) ==> Assemble(index, |content|, ms).value.0 == other
    ensures Assemble(index, |content|, ms).value.0 == content <==>
      forall i :: 0 <= i < |content| && i !in Written(index, |content|, ms) ==> content[i] == 0
  {
    hide Assemble, Written, Right;
    RightBuffer(index, content, ms);
    var buf := Assemble(index, |content|, ms).value.0;
    if AllWritten(index, |content|, ms) {
      forall other: seq<Byte> | |other| == |content| && Right(index, other, ms) ensures buf == other {
        RightBuffer(index, other, ms);
      }
    } else {
      var i: nat :| i < |content| && i !in Written(index, |content|, ms);
      var other := content[i := if content[i] == 0 then 1 else 0];
      OtherRight(index, content, other, ms, i);
      assert buf != content || buf != other;
    }
  }

  /** A position no block writes may hold anything. */
  lemma OtherRight(index: nat, content: seq<Byte>, other: seq<Byte>, ms: seq<Message>, i: nat)
    requires Right(index, content, ms) && i < |content| && i !in Written(index, |content|, ms)
    requires |other| == |content| && other == content[i := other[i]]
    ensures Right(index, other, ms)
  {
    hide ParseBlock, Span, Written;
    forall j | 0 <= j < |ms| ensures RightBlock(index, other, ms[j]) {
      assert RightBlock(index, content, ms[j]);
      WrittenEach(index, |content|, ms, j);
      var b := ParseBlock(index, |content|, ms[j]);
      if b.Some? {
        var lo, hi := b.value.begin, b.value.begin + |b.value.bytes|;
        assert i !in Span(lo, |b.value.bytes|);
        assert i < lo || hi <= i;
        assert other[lo..hi] == content[lo..hi];
      }
    }
  }

  lemma {:induction false} WrittenEach(index: nat, size: nat, ms: seq<Message>, j: nat)
    requires j < |ms|
    ensures WrittenBy(index, size, ms[j]) <= Written(index, size, ms)
  {
    hide WrittenBy;
    var n := |ms| - 1;
    if j < n {
      WrittenEach(index, size, ms[..n], j);
    }
  }

  /** A block sent twice counts twice: the count alone can be reached with part of
      the piece missing, which is why the hash is checked. */
  lemma RepeatedBlock()
    ensures var m := Message(MSG_PIECE, [0, 0, 0, 0, 0, 0, 0, 0, 9]);
      Assemble(0, 2, [m, m]) == Some(([9, 0], 2))
  {
    var m := Message(MSG_PIECE, [0, 0, 0, 0, 0, 0, 0, 0, 9]);
    assert m.payload[0..4] == [0, 0, 0, 0];
    assert m.payload[4..8] == [0, 0, 0, 0];
    assert m.payload[8..] == [9];
    assert [0, 0, 0, 0][..3] == [0, 0, 0] && [0, 0, 0][..2] == [0, 0] && [0, 0][..1] == [0] && [0][..0] == [];
    assert BigEndian([0]) == 0 && BigEndian([0, 0]) == 0 && BigEndian([0, 0, 0]) == 0 && BigEndian([0, 0, 0, 0]) == 0;
    assert ParseBlock(0, 2, m) == Some(Block(0, [9]));
    TwoBlocks(m, 9);
  }

  lemma TwoBlocks(m: Message, x: Byte)
    requires m.Message? && m.id == MSG_PIECE && ParseBlock(0, 2, m) == Some(Block(0, [x]))
    ensures Assemble(0, 2, [m, m]) == Some(([x, 0], 2))
  {
    hide Assemble, ParseBlock;
    Nothing(0, 2);
    assert seq(2, _ => 0) == [0, 0];
    assert Splice([0, 0], 0, [x]) == [x, 0] && Splice([x, 0], 0, [x]) == [x, 0];
    AssembleNext(0, 2, [], m);
    assert [] + [m] == [m] && [m] + [m] == [m, m];
    AssembleNext(0, 2, [m], m);
  }
}
