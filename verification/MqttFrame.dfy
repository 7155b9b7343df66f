/** MQTT packet framing: the variable-length size and the packets of a stream. */
module MqttFrame {
  import opened ByteStrings

  datatype Size = More | Bad | Got(n: nat, v: nat)

  // ----- the variable-length integer -----

  function Encode(v: nat): (r: seq<Byte>)
    ensures |r| >= 1
  {
    if v < 128 then [v] else [v % 128 + 128] + Encode(v / 128)
  }

  method VarintEncode(v: nat) returns (out: seq<Byte>)
    ensures out == Encode(v)
  {
    out := [];
    var rest := v;
    while true
      invariant out + Encode(rest) == Encode(v)
      decreases rest
    {
      var d := rest % 128;
      ghost var before := rest;
      rest := rest / 128;
      if rest == 0 {
        out := out + [d];
        return;
      }
      assert out + Encode(before) == (out + [d + 128]) + Encode(rest);
      out := out + [d + 128];
    }
  }

  /** At most k bytes are looked at; a value that needs more is refused. */
  function Decode(b: seq<Byte>, k: nat): Size
    decreases k
  {
    if k == 0 then Bad
    else if b == [] then More
    else if b[0] < 128 then Got(1, b[0])
    else match Decode(b[1..], k - 1)
      case Got(n, v) => Got(n + 1, b[0] - 128 + 128 * v)
      case r => r
  }

  function Accumulate(val: nat, low: nat, mult: nat): nat { val + low * mult }

  /** The rest of a decode, after i bytes worth val. */
  function After(r: Size, i: nat, val: nat, mult: nat): Size {
    match r
    case Got(n, v) => Got(n + i, val + mult * v)
    case _ => r
  }

  method VarintDecode(b: seq<Byte>) returns (r: Size)
    ensures r == Decode(b, 4)
  {
    var val: nat, mult: nat, i: nat := 0, 1, 0;
    assert b[0..] == b;
    hide Decode, After, Accumulate;
    DecodeStart(Decode(b, 4));
    while i < 4
      invariant i <= 4 && i <= |b|
      invariant Decode(b, 4) == After(Decode(b[i..], 4 - i), i, val, mult)
    {
      DecodeStep(b, i, val, mult);
      if i >= |b| { return More; }
      val := Accumulate(val, b[i] % 128, mult);
      if b[i] < 128 { return Got(i + 1, val); }
      mult := mult * 128;
      i := i + 1;
    }
    DecodeEnd(b, i, val, mult);
    return Bad;
  }

  lemma DecodeStart(r: Size)
    ensures After(r, 0, 0, 1) == r
  {
  }

  lemma DecodeEnd(b: seq<Byte>, i: nat, val: nat, mult: nat)
    requires i <= |b|
    ensures After(Decode(b[i..], 0), i, val, mult) == Bad
  {
  }

  /** One byte of a decode. */
  lemma DecodeStep(b: seq<Byte>, i: nat, val: nat, mult: nat)
    requires i <= |b| && i < 4
    ensures var r := After(Decode(b[i..], 4 - i), i, val, mult);
      if i == |b| then r == More
      else
        var v := Accumulate(val, b[i] % 128, mult);
        if b[i] < 128 then r == Got(i + 1, v) else r == After(Decode(b[i + 1..], 3 - i), i + 1, v, mult * 128)
  {
    if i < |b| {
      assert b[i..][1..] == b[i + 1..];
      var low: nat := b[i] % 128;
      if b[i] >= 128 {
        Distribute(mult, low, Decode(b[i + 1..], 3 - i));
      }
    }
  }

  lemma Distribute(mult: nat, low: nat, r: Size)
    ensures r.Got? ==> mult * (low + 128 * r.v) == low * mult + (mult * 128) * r.v
  {
  }

  function Pow128(k: nat): nat { if k == 0 then 1 else 128 * Pow128(k - 1) }

  /** Decoding an encoded value, whatever follows it, gives the value back if and
      only if it fits in k bytes; otherwise it is refused. */
  lemma {:induction false} VarintRoundTrip(v: nat, k: nat, rest: seq<Byte>)
    requires k > 0
    ensures Decode(Encode(v) + rest, k) == if v < Pow128(k) then Got(|Encode(v)|, v) else Bad
    decreases k
  {
    var b := Encode(v) + rest;
    assert Pow128(k) >= 128 by { Positive(k - 1); }
    if v < 128 {
    } else {
      assert b[1..] == Encode(v / 128) + rest;
      if k > 1 {
        VarintRoundTrip(v / 128, k - 1, rest);
      } else {
        assert Pow128(1) == 128 * Pow128(0);
      }
    }
  }

  lemma {:induction false} Positive(k: nat)
    ensures Pow128(k) >= 1
  {
    if k > 0 { Positive(k - 1); }
  }

  /** A part of an encoded value asks for more. */
  lemma {:induction false} VarintPrefix(v: nat, k: nat, p: nat)
    requires k > 0 && v < Pow128(k) && p < |Encode(v)|
    ensures Decode(Encode(v)[..p], k) == More
    decreases k
  {
    assert k == 1 ==> Pow128(k) == 128 * Pow128(0);
    if p > 0 {
      assert Encode(v)[..p][1..] == Encode(v / 128)[..p - 1];
      VarintPrefix(v / 128, k - 1, p - 1);
    }
  }

  // ----- packets -----

  datatype Packet = Packet(kind: nat, flags: nat, body: seq<Byte>)

  datatype Framed = NeedMore | Malformed | Frame(packet: Packet, total: nat)

  /** Kind and flags are four bits each, and the body's length fits in four size bytes. */
  predicate Sendable(p: Packet) { p.kind < 16 && p.flags < 16 && |p.body| < Pow128(4) }

  /** Kind and flags are cut to four bits and the length to 32. */
  function Build(p: Packet): seq<Byte> {
    [p.kind % 16 * 16 + p.flags % 16] + (Encode(|p.body| % 0x1_0000_0000) + p.body)
  }

  method BuildPacket(p: Packet) returns (out: seq<Byte>)
    ensures out == Build(p)
  {
    var size := VarintEncode(|p.body| % 0x1_0000_0000);
    out := [p.kind % 16 * 16 + p.flags % 16];
    out := out + size;
    out := out + p.body;
  }

  /** The first packet of a buffer. */
  method FirstFrame(buf: seq<Byte>) returns (r: Framed)
    ensures r == FrameOf(buf)
  {
    if |buf| < 2 { return NeedMore; }
    var size := VarintDecode(buf[1..]);
    match size
    case More => return NeedMore;
    case Bad => return Malformed;
    case Got(n, rem) =>
      var total := 1 + n + rem;
      if |buf| < total { return NeedMore; }
      return Frame(Packet(buf[0] / 16, buf[0] % 16, buf[1 + n..total]), total);
  }

  function FrameOf(buf: seq<Byte>): Framed {
    if |buf| < 2 then NeedMore
    else match Decode(buf[1..], 4)
      case More => NeedMore
      case Bad => Malformed
      case Got(n, rem) =>
        if |buf| < 1 + n + rem then NeedMore
        else Frame(Packet(buf[0] / 16, buf[0] % 16, buf[1 + n..1 + n + rem]), 1 + n + rem)
  }

  lemma FourBytes()
    ensures Pow128(4) == 0x1000_0000
  {
  }

  /** A built packet is framed back, whatever follows it, if and only if its parts
      fit; and then any part of it asks for more. */
  lemma FrameRoundTrip(p: Packet, rest: seq<Byte>, cut: nat)
    ensures FrameOf(Build(p) + rest) == Frame(p, |Build(p)|) <==> Sendable(p)
    ensures Sendable(p) && cut < |Build(p)| ==> FrameOf(Build(p)[..cut]) == NeedMore
  {
    hide Decode, Encode, Pow128;
    FourBytes();
    var size := Encode(|p.body| % 0x1_0000_0000);
    var b := Build(p) + rest;
    assert b[1..] == size + (p.body + rest);
    VarintRoundTrip(|p.body| % 0x1_0000_0000, 4, p.body + rest);
    if Sendable(p) {
      assert b[1 + |size|..1 + |size| + |p.body|] == p.body;
      PartAsksForMore(p, cut);
    }
  }

  /** The kind is the high half of the first byte; the length takes one byte below 128
      and two, low seven bits first, below 16384. */
  lemma BuildBytes(p: Packet)
    requires p.kind < 16 && p.flags < 16 && |p.body| < 16384
    ensures var n := |p.body|; var first := 16 * p.kind + p.flags;
      Build(p) == (if n < 128 then [first, n] else [first, n % 128 + 128, n / 128]) + p.body
  {
    var n := |p.body|;
    if n < 128 {
      assert Encode(n) == [n];
    } else {
      assert Encode(n / 128) == [n / 128];
      assert Encode(n) == [n % 128 + 128, n / 128];
    }
  }

  /** A kind of 16 is framed as kind 0, and a body of 2^28 bytes is refused. */
  lemma MisfitsFail(body: seq<Byte>)
    requires |body| == 0x1000_0000
    ensures FrameOf(Build(Packet(16, 0, []))) == Frame(Packet(0, 0, []), 2)
    ensures FrameOf(Build(Packet(3, 0, body))) == Malformed
  {
    assert Build(Packet(16, 0, [])) == [0, 0];
    hide Decode, Encode, Pow128;
    FourBytes();
    var b := Build(Packet(3, 0, body));
    assert b[1..] == Encode(|body|) + body;
    VarintRoundTrip(|body|, 4, body);
  }

  lemma PartAsksForMore(p: Packet, cut: nat)
    requires Sendable(p)
    ensures cut < |Build(p)| ==> FrameOf(Build(p)[..cut]) == NeedMore
  {
    hide Decode, Encode, Pow128;
    FourBytes();
    var size := Encode(|p.body|);
    assert Build(p) == [p.kind * 16 + p.flags] + (size + p.body);
    if 2 <= cut < |Build(p)| {
      var c := Build(p)[..cut];
      if cut - 1 < |size| {
        assert c[1..] == size[..cut - 1];
        VarintPrefix(|p.body|, 4, cut - 1);
      } else {
        assert c[1..] == (size + p.body)[..cut - 1] == size + p.body[..cut - 1 - |size|];
        VarintRoundTrip(|p.body|, 4, p.body[..cut - 1 - |size|]);
      }
    }
  }

  /** All packets of a stream, in order, and what is left. */
  function Frames(buf: seq<Byte>): (seq<Packet>, seq<Byte>)
    decreases |buf|
  {
    var f := FrameOf(buf);
    if !f.Frame? || f.total == 0 || f.total > |buf| then ([], buf)
    else
      var (ps, left) := Frames(buf[f.total..]);
      ([f.packet] + ps, left)
  }

  function Stream(ps: seq<Packet>): seq<Byte>
    requires forall i :: 0 <= i < |ps| ==> Sendable(ps[i])
  {
    if ps == [] then []
    else
      assert Sendable(ps[0]);
      Build(ps[0]) + Stream(ps[1..])
  }

  /** A stream of packets with a partly received one at the end splits into exactly
      those packets, and the part is left for later. */
  lemma {:induction false} StreamSplits(ps: seq<Packet>, last: Packet, cut: nat)
    requires Sendable(last) && cut < |Build(last)| && forall i :: 0 <= i < |ps| ==> Sendable(ps[i])
    ensures Frames(Stream(ps) + Build(last)[..cut]) == (ps, Build(last)[..cut])
  {
    hide Build, FrameOf;
    var tail := Build(last)[..cut];
    if ps == [] {
      FrameRoundTrip(last, [], cut);
      assert Stream(ps) + tail == tail;
    } else {
      var buf := Stream(ps) + tail;
      assert buf == Build(ps[0]) + (Stream(ps[1..]) + tail);
      FrameRoundTrip(ps[0], Stream(ps[1..]) + tail, 0);
      assert |Build(ps[0])| > 0 by { BuildLength(ps[0]); }
      assert buf[|Build(ps[0])|..] == Stream(ps[1..]) + tail;
      StreamSplits(ps[1..], last, cut);
      assert [ps[0]] + ps[1..] == ps;
    }
  }

  lemma BuildLength(p: Packet)
    ensures |Build(p)| > 0
  {
  }
}
