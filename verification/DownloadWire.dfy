/** What the bytes of a piece message say, and a peer that answers every request. */
module DownloadWire {
  import opened ByteStrings
  import opened Wrappers
  import opened DownloadPool
  import opened DownloadPiece

  /** The low 32 bits of n, high byte first. */
  function Bytes4(n: nat): (r: seq<Byte>)
    ensures |r| == 4
  {
    [n / 16777216 % 256, n / 65536 % 256, n / 256 % 256, n % 256]
  }

  function FormatPiece(at: nat, begin: nat, block: seq<Byte>): Message {
    Message(7, Bytes4(at) + Bytes4(begin) + block)
  }

  lemma Shifts(n: nat)
    ensures n / 65536 == n / 256 / 256 && n / 16777216 == n / 256 / 256 / 256
    ensures 16777216 * (n / 16777216 % 256) + 65536 * (n / 65536 % 256) + 256 * (n / 256 % 256) + n % 256 == n % 0x1_0000_0000
  {
    var a, b, c, d := n % 256, n / 256 % 256, n / 65536 % 256, n / 16777216 % 256;
    assert n / 65536 == n / 256 / 256 && n / 16777216 == n / 256 / 256 / 256;
    assert n == n / 256 * 256 + a;
    assert n / 256 == n / 65536 * 256 + b;
    assert n / 65536 == n / 16777216 * 256 + c;
    assert n / 16777216 == n / 16777216 / 256 * 256 + d;
    var x := a + 256 * b + 65536 * c + 16777216 * d;
    assert n == n / 16777216 / 256 * 0x1_0000_0000 + x;
  }

  lemma BigEndianFour(b: seq<Byte>)
    requires |b| == 4
    ensures var b0: int, b1: int, b2: int, b3: int := b[0], b[1], b[2], b[3];
      BigEndian(b) == 16777216 * b0 + 65536 * b1 + 256 * b2 + b3
  {
    assert b[..3][..2] == b[..2] && b[..2][..1] == b[..1] && b[..1][..0] == [];
    assert BigEndian(b[..1]) == b[0];
    assert BigEndian(b[..2]) == 256 * BigEndian(b[..1]) + b[1];
    assert BigEndian(b[..3]) == 256 * BigEndian(b[..2]) + b[2];
  }

  lemma FourBytes(n: nat)
    ensures BigEndian(Bytes4(n)) == n % 0x1_0000_0000
  {
    BigEndianFour(Bytes4(n));
    Shifts(n);
  }

  /** A piece message is taken if and only if it names this piece and its block lies
      inside; then it is read as that block. Numbers go through 32 bits. */
  lemma PieceMessage(index: nat, size: nat, at: nat, begin: nat, block: seq<Byte>)
    ensures var b := begin % 0x1_0000_0000;
      ParseBlock(index, size, FormatPiece(at, begin, block))
      == if at % 0x1_0000_0000 == index && b < size && b + |block| <= size then Some(Block(b, block)) else None
  {
    hide BigEndian, Bytes4;
    var m := FormatPiece(at, begin, block);
    assert m.payload[0..4] == Bytes4(at) && m.payload[4..8] == Bytes4(begin) && m.payload[8..] == block;
    FourBytes(at);
    FourBytes(begin);
  }

  /** No other message and no shorter one carries a block. */
  lemma OtherMessage(index: nat, size: nat, m: Message)
    requires m.KeepAlive? || m.id != 7 || |m.payload| < 8
    ensures ParseBlock(index, size, m) == None
  {
  }

  /** The i-th request asks for 16 KiB from i * 16 KiB on, or for what is left of the piece. */
  lemma {:induction false} RequestAt(index: nat, length: nat, k: nat, i: nat)
    requires i < |Requests(index, length, k)|
    ensures |Requests(index, length, k)| == k && 16384 * i < length
    ensures var left := length - 16384 * i;
      Requests(index, length, k)[i] == Request(index, 16384 * i, if left < 16384 then left else 16384)
  {
    if k > 1 {
      RequestsBefore(index, length, k);
      if i < k - 1 {
        RequestAt(index, length, k - 1, i);
      }
    }
  }

  lemma {:induction false} RequestsBefore(index: nat, length: nat, k: nat)
    requires Requests(index, length, k) != []
    ensures |Requests(index, length, k)| == k
  {
    if k > 1 {
      RequestsBefore(index, length, k - 1);
    }
  }

  /** What a peer that has the piece sends for the first n requests. */
  function Served(index: nat, content: seq<Byte>, n: nat): seq<Message>
    requires n == 0 || 16384 * (n - 1) < |content|
  {
    if n == 0 then []
    else
      var b := 16384 * (n - 1);
      Served(index, content, n - 1) + [FormatPiece(index, b, content[b..if |content| < b + 16384 then |content| else b + 16384])]
  }

  /** How much of the piece the first n blocks hold. */
  function Filled(content: seq<Byte>, n: nat): nat { if |content| < 16384 * n then |content| else 16384 * n }

  lemma {:induction false} ServedSoFar(index: nat, content: seq<Byte>, n: nat)
    requires index < 0x1_0000_0000 && |content| <= 0x1_0000_0000 && (n == 0 || 16384 * (n - 1) < |content|)
    ensures var f := Filled(content, n);
      Assemble(index, |content|, Served(index, content, n)) == Some((content[..f] + seq(|content| - f, _ => 0), f))
  {
    hide Assemble, ParseBlock, FormatPiece;
    var size := |content|;
    if n == 0 {
      Nothing(index, size);
      assert content[..0] + seq(size, _ => 0) == seq(size, _ => 0);
    } else {
      var b, f := 16384 * (n - 1), Filled(content, n);
      var block, before := content[b..f], content[..b] + seq(size - b, _ => 0);
      ServedSoFar(index, content, n - 1);
      PieceMessage(index, size, index, b, block);
      IsPiece(index, b, block);
      AssembleNext(index, size, Served(index, content, n - 1), FormatPiece(index, b, block));
      assert Splice(before, b, block) == content[..f] + seq(size - f, _ => 0);
    }
  }

  lemma IsPiece(at: nat, begin: nat, block: seq<Byte>)
    ensures var m := FormatPiece(at, begin, block); m.Message? && m.id == MSG_PIECE
  {
  }

  /** A peer that answers every request with the bytes asked for has sent the piece. */
  lemma ServedPiece(index: nat, content: seq<Byte>, n: nat)
    requires index < 0x1_0000_0000 && |content| <= 0x1_0000_0000
    requires |content| <= 16384 * n && (n == 0 || 16384 * (n - 1) < |content|)
    ensures Assemble(index, |content|, Served(index, content, n)) == Some((content, |content|))
  {
    ServedSoFar(index, content, n);
    assert content[..|content|] + seq(0, _ => 0) == content;
  }

  // ----- the file as the torrent cuts it -----

  /** A text in pieces of n bytes, the last one shorter. */
  function Chunks(c: seq<Byte>, n: nat): seq<seq<Byte>>
    requires n > 0
    decreases |c|
  {
    if c == [] then [] else if |c| <= n then [c] else [c[..n]] + Chunks(c[n..], n)
  }

  lemma {:induction false} ChunkAt(c: seq<Byte>, n: nat, i: nat)
    requires n > 0 && i < |Chunks(c, n)|
    ensures var b := i * n; var e := if b + n > |c| then |c| else b + n;
      b <= e && Chunks(c, n)[i] == c[b..e]
    decreases |c|
  {
    if i > 0 {
      ChunkAt(c[n..], n, i - 1);
      assert i * n == (i - 1) * n + n;
      var b := i * n;
      var e := if b + n > |c| then |c| else b + n;
      assert c[n..][b - n..e - n] == c[b..e];
    } else {
      assert 0 * n == 0;
      assert |c| <= n ==> c[0..|c|] == c;
    }
  }

  /** If the torrent lists the hashes of the file's pieces in order, and no other bytes
      have them, the download returns the file. */
  lemma TorrentContent(t: Torrent, steps: seq<Step>, content: seq<Byte>)
    requires Whole(t) && Run(t, steps).Some? && Run(t, steps).value.main.Returned?
    requires |content| == t.length && |t.hashes| == |Chunks(content, t.pieceLength)|
    requires forall i, x :: 0 <= i < |t.hashes| ==> (t.sha1(x) == t.hashes[i] <==> x == Chunks(content, t.pieceLength)[i])
    ensures Run(t, steps).value.buf == content
  {
    hide Run, Whole;
    forall i | 0 <= i < |t.hashes| ensures OnlyPiece(t, content, i) {
      IsOnlyPiece(t, content, i);
    }
    ReturnedContent(t, steps, content);
  }

  lemma IsOnlyPiece(t: Torrent, content: seq<Byte>, i: nat)
    requires Whole(t) && |content| == t.length && i < |t.hashes| == |Chunks(content, t.pieceLength)|
    requires forall x :: t.sha1(x) == t.hashes[i] <==> x == Chunks(content, t.pieceLength)[i]
    ensures OnlyPiece(t, content, i)
  {
    hide Chunks;
    PieceInside(t, i);
    ChunkAt(content, t.pieceLength, i);
  }
}
