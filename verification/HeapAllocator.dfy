/** A first-fit allocator over a moving break; headers and bytes are kept by address. */
module HeapAllocator {
  import opened Arithmetic
  import opened ByteStrings

  const HEADER: int := 32
  const SIZE_MAX: int := 0xFFFF_FFFF_FFFF_FFFF

  /** A size_t. */
  type Size = n: int | 0 <= n <= SIZE_MAX

  datatype Header = Header(size: nat, isFree: bool, next: int)

  type Headers = map<int, Header>

  /** The end of a block. */
  function End(h: Headers, a: int): int
    requires a in h
  {
    a + HEADER + h[a].size
  }

  /** The blocks lie one after another from base to the break, each header pointing
      to the next. */
  ghost predicate Tiles(h: Headers, blocks: seq<int>, base: int, brk: int) {
    && (forall i :: 0 <= i < |blocks| ==> blocks[i] in h)
    && (forall i :: 0 <= i < |blocks| ==> Placed(h, blocks, base, i))
    && brk == (if blocks == [] then base else End(h, blocks[|blocks| - 1]))
  }

  ghost predicate Placed(h: Headers, blocks: seq<int>, base: int, i: nat)
    requires i < |blocks| && forall j :: 0 <= j < |blocks| ==> blocks[j] in h
  {
    && blocks[i] == (if i == 0 then base else End(h, blocks[i - 1]))
    && h[blocks[i]].next == (if i + 1 < |blocks| then blocks[i + 1] else 0)
  }

  /** One block: where it is, where it ends, and what follows it. */
  lemma At(h: Headers, blocks: seq<int>, base: int, brk: int, i: nat)
    requires Tiles(h, blocks, base, brk) && i < |blocks|
    ensures blocks[i] in h && h[blocks[i]].next == (if i + 1 < |blocks| then blocks[i + 1] else 0)
    ensures End(h, blocks[i]) == (if i + 1 < |blocks| then blocks[i + 1] else brk)
    ensures i == 0 ==> blocks[0] == base
  {
    assert Placed(h, blocks, base, i);
    if i + 1 < |blocks| {
      assert Placed(h, blocks, base, i + 1);
    }
  }

  lemma {:induction false} Ordered(h: Headers, blocks: seq<int>, base: int, brk: int, i: nat, j: nat)
    requires Tiles(h, blocks, base, brk) && i < j < |blocks|
    ensures blocks[i] in h && blocks[j] in h && End(h, blocks[i]) <= blocks[j]
    decreases j
  {
    hide Tiles, Placed;
    At(h, blocks, base, brk, i);
    At(h, blocks, base, brk, j);
    At(h, blocks, base, brk, j - 1);
    if i < j - 1 {
      Ordered(h, blocks, base, brk, i, j - 1);
    }
  }

  /** Every block lies between base and the break, and only the last one reaches it. */
  lemma Inside(h: Headers, blocks: seq<int>, base: int, brk: int, i: nat)
    requires Tiles(h, blocks, base, brk) && i < |blocks|
    ensures blocks[i] in h && base <= blocks[i] && End(h, blocks[i]) <= brk
    ensures End(h, blocks[i]) == brk <==> i == |blocks| - 1
  {
    hide Tiles, Placed;
    At(h, blocks, base, brk, i);
    At(h, blocks, base, brk, 0);
    At(h, blocks, base, brk, |blocks| - 1);
    if i > 0 {
      Ordered(h, blocks, base, brk, 0, i);
    }
    if i < |blocks| - 1 {
      Ordered(h, blocks, base, brk, i, |blocks| - 1);
    }
  }

  /** Block addresses increase; none is NULL and none is at or past the break. */
  lemma Addresses(h: Headers, blocks: seq<int>, base: int, brk: int)
    requires Tiles(h, blocks, base, brk) && 0 < base
    ensures forall i, j :: 0 <= i < j < |blocks| ==> blocks[i] < blocks[j]
    ensures forall i :: 0 <= i < |blocks| ==> blocks[i] in h && 0 < blocks[i] < brk
    ensures base <= brk
  {
    hide Tiles, Placed;
    forall i, j | 0 <= i < j < |blocks| ensures blocks[i] < blocks[j] {
      Ordered(h, blocks, base, brk, i, j);
    }
    forall i | 0 <= i < |blocks| ensures blocks[i] in h && 0 < blocks[i] < brk {
      Inside(h, blocks, base, brk, i);
    }
    Empty(h, blocks, base, brk);
    if |blocks| > 0 {
      Inside(h, blocks, base, brk, 0);
    }
  }

  lemma Empty(h: Headers, blocks: seq<int>, base: int, brk: int)
    requires Tiles(h, blocks, base, brk)
    ensures blocks == [] ==> brk == base
  {
  }

  /** Two blocks share no address, headers included. */
  lemma Apart(h: Headers, blocks: seq<int>, base: int, brk: int, i: nat, j: nat)
    requires Tiles(h, blocks, base, brk) && i < |blocks| && j < |blocks| && i != j
    ensures blocks[i] in h && blocks[j] in h
    ensures End(h, blocks[i]) <= blocks[j] || End(h, blocks[j]) <= blocks[i]
  {
    hide Tiles, Placed;
    if i < j {
      Ordered(h, blocks, base, brk, i, j);
    } else {
      Ordered(h, blocks, base, brk, j, i);
    }
  }

  /** Marking a block free or used keeps the tiling. */
  lemma Marked(h: Headers, blocks: seq<int>, base: int, brk: int, a: int, free: bool)
    requires Tiles(h, blocks, base, brk) && a in h
    ensures Tiles(h[a := h[a].(isFree := free)], blocks, base, brk)
  {
    var h' := h[a := h[a].(isFree := free)];
    forall i | 0 <= i < |blocks| ensures Placed(h', blocks, base, i) {
      assert Placed(h, blocks, base, i);
    }
  }

  /** The headers after a new block at the break is linked in. */
  function Linked(h: Headers, blocks: seq<int>, brk: int, size: nat): Headers
    requires blocks != [] ==> blocks[|blocks| - 1] in h
  {
    var linked :=
      if blocks == [] then h
      else
        var last := blocks[|blocks| - 1];
        h[last := h[last].(next := brk)];
    linked[brk := Header(size, false, 0)]
  }

  lemma Extended(h: Headers, blocks: seq<int>, base: int, brk: int, size: nat)
    requires Tiles(h, blocks, base, brk) && 0 < base
    ensures Tiles(Linked(h, blocks, brk, size), blocks + [brk], base, brk + HEADER + size)
  {
    hide Tiles, Placed;
    Addresses(h, blocks, base, brk);
    Empty(h, blocks, base, brk);
    var h', bs := Linked(h, blocks, brk, size), blocks + [brk];
    assert forall j :: 0 <= j < |bs| ==> bs[j] in h';
    forall i | 0 <= i < |bs| ensures Placed(h', bs, base, i) {
      if i < |blocks| {
        At(h, blocks, base, brk, i);
      }
      if 0 < i {
        At(h, blocks, base, brk, i - 1);
      }
      PlacedIf(h', bs, base, i);
    }
    TilesIf(h', bs, base, brk + HEADER + size);
  }

  /** The headers after the last block is unlinked. */
  function Unlinked(h: Headers, blocks: seq<int>): Headers
    requires |blocks| > 0 && forall i :: 0 <= i < |blocks| ==> blocks[i] in h
  {
    var n := |blocks| - 1;
    (if n == 0 then h else h[blocks[n - 1] := h[blocks[n - 1]].(next := 0)]) - {blocks[n]}
  }

  lemma Shrunk(h: Headers, blocks: seq<int>, base: int, brk: int)
    requires Tiles(h, blocks, base, brk) && 0 < base && |blocks| > 0
    ensures Tiles(Unlinked(h, blocks), blocks[..|blocks| - 1], base, blocks[|blocks| - 1])
  {
    hide Tiles, Placed;
    Addresses(h, blocks, base, brk);
    var n := |blocks| - 1;
    var h', bs := Unlinked(h, blocks), blocks[..n];
    At(h, blocks, base, brk, n);
    assert forall j :: 0 <= j < |bs| ==> bs[j] in h';
    forall i | 0 <= i < n ensures Placed(h', bs, base, i) {
      At(h, blocks, base, brk, i);
      if 0 < i {
        At(h, blocks, base, brk, i - 1);
      }
      PlacedIf(h', bs, base, i);
    }
    if n > 0 {
      At(h, blocks, base, brk, n - 1);
    }
    TilesIf(h', bs, base, blocks[n]);
  }

  lemma PlacedIf(h: Headers, blocks: seq<int>, base: int, i: nat)
    requires i < |blocks| && forall j :: 0 <= j < |blocks| ==> blocks[j] in h
    requires blocks[i] == (if i == 0 then base else End(h, blocks[i - 1]))
    requires h[blocks[i]].next == (if i + 1 < |blocks| then blocks[i + 1] else 0)
    ensures Placed(h, blocks, base, i)
  {
  }

  lemma TilesIf(h: Headers, blocks: seq<int>, base: int, brk: int)
    requires forall j :: 0 <= j < |blocks| ==> blocks[j] in h
    requires forall i :: 0 <= i < |blocks| ==> Placed(h, blocks, base, i)
    requires brk == (if blocks == [] then base else End(h, blocks[|blocks| - 1]))
    ensures Tiles(h, blocks, base, brk)
  {
  }

  // ----- the blocks in use -----

  /** Blocks that are not free, by header address, with their payload sizes. */
  function LiveOf(h: Headers): map<int, nat> { map a | a in h && !h[a].isFree :: h[a].size }

  lemma LiveIs(h: Headers, a: int)
    ensures a in LiveOf(h) <==> a in h && !h[a].isFree
    ensures a in LiveOf(h) ==> LiveOf(h)[a] == h[a].size
  {
  }

  lemma LiveLinks(h: Headers, a: int, next: int)
    requires a in h
    ensures LiveOf(h[a := h[a].(next := next)]) == LiveOf(h)
  {
  }

  lemma LiveMarks(h: Headers, a: int)
    requires a in h
    ensures LiveOf(h[a := h[a].(isFree := true)]) == LiveOf(h) - {a}
    ensures LiveOf(h[a := h[a].(isFree := false)]) == LiveOf(h)[a := h[a].size]
  {
  }

  lemma LiveAdds(h: Headers, a: int, size: nat)
    requires a !in h
    ensures LiveOf(h[a := Header(size, false, 0)]) == LiveOf(h)[a := size]
  {
  }

  /** Unlinking a live last block ends it and no other. */
  lemma LiveUnlinked(h: Headers, blocks: seq<int>)
    requires Chain(h, blocks) && |blocks| > 0
    ensures LiveOf(Unlinked(h, blocks)) == LiveOf(h) - {blocks[|blocks| - 1]}
  {
    var n := |blocks| - 1;
    if n > 0 {
      LiveLinks(h, blocks[n - 1], 0);
    }
    LiveDrops(if n == 0 then h else h[blocks[n - 1] := h[blocks[n - 1]].(next := 0)], blocks[n]);
  }

  lemma LiveDrops(h: Headers, a: int)
    ensures LiveOf(h - {a}) == LiveOf(h) - {a}
  {
  }

  // ----- requests that wrap -----

  /** What sbrk is asked for: header plus size in a size_t, read as a signed word. */
  function Increment(size: Size): int {
    var total := (HEADER + size) % (SIZE_MAX + 1);
    if total > SIZE_MAX / 2 then total - (SIZE_MAX + 1) else total
  }

  /** A new block keeps the heap tiled if and only if header and size fit in a
      signed word; otherwise the break is not where the block ends. */
  lemma TilesExactly(h: Headers, blocks: seq<int>, base: int, brk: int, size: Size)
    requires Tiles(h, blocks, base, brk) && 0 < base
    ensures Tiles(Linked(h, blocks, brk, size), blocks + [brk], base, brk + Increment(size)) <==> HEADER + size <= SIZE_MAX / 2
  {
    Extended(h, blocks, base, brk, size);
    hide Tiles, Linked;
    TilesEnd(Linked(h, blocks, brk, size), blocks + [brk], base, brk + HEADER + size, brk + Increment(size));
  }

  /** There is one break at which given blocks tile. */
  lemma TilesEnd(h: Headers, blocks: seq<int>, base: int, brk: int, other: int)
    requires Tiles(h, blocks, base, brk)
    ensures Tiles(h, blocks, base, other) <==> other == brk
  {
  }

  /** The address lies within a block, header included. */
  ghost predicate Covered(h: Headers, blocks: seq<int>, x: int) {
    exists i :: 0 <= i < |blocks| && Covers(h, blocks[i], x)
  }

  ghost predicate Covers(h: Headers, a: int, x: int) { a in h && a <= x < End(h, a) }

  /** No gaps: every address of a tiled heap lies within a block. */
  lemma {:induction false} NoGaps(h: Headers, blocks: seq<int>, base: int, brk: int, n: nat, x: int)
    requires Tiles(h, blocks, base, brk) && 0 < n <= |blocks| && base <= x
    requires blocks[n - 1] in h && x < End(h, blocks[n - 1])
    ensures Covered(h, blocks, x)
  {
    hide Tiles, Placed;
    At(h, blocks, base, brk, n - 1);
    if x < blocks[n - 1] {
      At(h, blocks, base, brk, 0);
      At(h, blocks, base, brk, n - 2);
      NoGaps(h, blocks, base, brk, n - 1, x);
    } else {
      assert Covers(h, blocks[n - 1], x);
    }
  }

  /** After a new block the break is clear of every block if and only if header and
      size fit in a signed word. If they do not, the next block taken at the break
      overlaps one that may be in use. */
  lemma ClearExactly(h: Headers, blocks: seq<int>, base: int, brk: int, size: Size)
    requires Tiles(h, blocks, base, brk) && 0 < base <= brk + Increment(size)
    ensures !Covered(Linked(h, blocks, brk, size), blocks + [brk], brk + Increment(size)) <==> HEADER + size <= SIZE_MAX / 2
  {
    var h', bs', brk' := Linked(h, blocks, brk, size), blocks + [brk], brk + Increment(size);
    Extended(h, blocks, base, brk, size);
    hide Tiles, Linked;
    var n := |bs'|;
    At(h', bs', base, brk + HEADER + size, n - 1);
    if HEADER + size <= SIZE_MAX / 2 {
      forall i | 0 <= i < n ensures !Covers(h', bs'[i], brk') {
        Inside(h', bs', base, brk + HEADER + size, i);
      }
    } else {
      NoGaps(h', bs', base, brk + HEADER + size, n, brk');
    }
  }

  // ----- the list -----

  /** The headers are linked in the order of `blocks`, each once. */
  ghost predicate Chain(h: Headers, blocks: seq<int>) {
    && 0 !in blocks
    && (forall i :: 0 <= i < |blocks| ==> blocks[i] in h)
    && (forall i :: 0 <= i < |blocks| ==> h[blocks[i]].next == if i + 1 < |blocks| then blocks[i + 1] else 0)
    && (forall i, j :: 0 <= i < j < |blocks| ==> blocks[i] != blocks[j])
  }

  lemma TilesChain(h: Headers, blocks: seq<int>, base: int, brk: int)
    requires Tiles(h, blocks, base, brk) && 0 < base
    ensures Chain(h, blocks) && brk !in blocks && brk != 0
  {
    hide Tiles, Placed;
    Addresses(h, blocks, base, brk);
    forall i | 0 <= i < |blocks| ensures h[blocks[i]].next == if i + 1 < |blocks| then blocks[i + 1] else 0 {
      At(h, blocks, base, brk, i);
    }
  }

  /** A new last block that is not yet in the list. */
  lemma ChainLinked(h: Headers, blocks: seq<int>, a: int, size: nat)
    requires Chain(h, blocks) && a != 0 && a !in blocks
    ensures Chain(Linked(h, blocks, a, size), blocks + [a])
  {
  }

  /** Without its last block. */
  lemma ChainUnlinked(h: Headers, blocks: seq<int>)
    requires Chain(h, blocks) && |blocks| > 0
    ensures Chain(Unlinked(h, blocks), blocks[..|blocks| - 1])
  {
  }

  lemma ChainMarked(h: Headers, blocks: seq<int>, a: int, free: bool)
    requires Chain(h, blocks) && a in h
    ensures Chain(h[a := h[a].(isFree := free)], blocks)
  {
  }

  class Heap {
    const base: int
    /** sbrk refuses to move the break past this address. */
    const limit: int
    var brk: int
    var head: int
    var tail: int
    var headers: Headers
    var bytes: map<int, Byte>
    ghost var blocks: seq<int>

    ghost predicate Valid()
      reads `headers, `blocks, `brk, `head, `tail
    {
      0 < base && brk <= limit && Tiles(headers, blocks, base, brk) && Ends()
    }

    /** The list is in order, whatever the break. */
    ghost predicate Listed()
      reads `headers, `blocks, `head, `tail
    {
      Chain(headers, blocks) && Ends()
    }

    ghost predicate Ends()
      reads `headers, `blocks, `head, `tail
    {
      && (forall a :: a in headers ==> a in blocks)
      && head == (if blocks == [] then 0 else blocks[0])
      && tail == (if blocks == [] then 0 else blocks[|blocks| - 1])
    }

    /** No free block is large enough, and sbrk would leave the heap's range. */
    ghost predicate NoRoom(size: Size)
      reads `headers, `brk
    {
      (forall a :: a in headers ==> !Suits(headers[a], size)) && !(base <= brk + Increment(size) <= limit)
    }

    lemma HasIndex(a: int) returns (i: nat)
      requires Ends() && a in headers
      ensures i < |blocks| && blocks[i] == a
    {
      i :| i < |blocks| && blocks[i] == a;
    }

    /** The payloads in use start HEADER after these addresses. */
    ghost function Live(): map<int, nat>
      reads `headers
    {
      LiveOf(headers)
    }

    constructor (base: int, limit: int)
      requires 0 < base <= limit
      ensures Valid() && Live() == map[] && this.base == base && this.limit == limit && brk == base
    {
      this.base, this.limit, brk, head, tail, headers, bytes := base, limit, base, 0, 0, map[], map[];
      blocks := [];
    }

    /** Live payloads lie inside the heap, apart from every other block's header and payload. */
    lemma LiveApart(a: int, q: int)
      requires Valid() && a in Live() && q in headers && q != a
      ensures base <= a && a + HEADER + Live()[a] <= brk
      ensures a + HEADER + Live()[a] <= q || q + HEADER + headers[q].size <= a
    {
      var i :| 0 <= i < |blocks| && blocks[i] == a;
      var j :| 0 <= j < |blocks| && blocks[j] == q;
      hide Tiles;
      Apart(headers, blocks, base, brk, i, j);
      Inside(headers, blocks, base, brk, i);
    }

    /** The lowest free block that is large enough, or NULL when there is none. */
    method GetFreeBlock(size: nat) returns (a: int)
      requires Valid()
      ensures a == 0 ==> forall b :: b in headers && headers[b].isFree ==> headers[b].size < size
      ensures a != 0 ==>
        && a in headers && headers[a].isFree && headers[a].size >= size
        && forall b :: b in headers && b < a && headers[b].isFree ==> headers[b].size < size
    {
      hide Tiles;
      Addresses(headers, blocks, base, brk);
      a := head;
      ghost var k := 0;
      while a != 0
        invariant 0 <= k <= |blocks| && a == (if k < |blocks| then blocks[k] else 0)
        invariant forall i :: 0 <= i < k ==> !Suits(headers[blocks[i]], size)
        decreases |blocks| - k
      {
        if Suits(headers[a], size) { return; }
        At(headers, blocks, base, brk, k);
        a := headers[a].next;
        k := k + 1;
      }
    }

    /** Reuses the first fitting free block, or else moves the break by what header
        and size come to in a signed word. The heap stays sound if and only if that
        is header and size. NULL exactly for size 0 or when there is no room. */
    method Malloc(size: Size) returns (p: int)
      requires Valid()
      modifies this
      ensures bytes == old(bytes) && Listed()
      ensures p == 0 <==> size == 0 || old(NoRoom(size))
      ensures p == 0 ==> headers == old(headers) && brk == old(brk) && blocks == old(blocks)
      ensures p != 0 ==> Took(old(Live()), Live(), p - HEADER, size)
      ensures p != 0 && p - HEADER in old(headers) ==>
        && brk == old(brk) && Suits(old(headers)[p - HEADER], size)
        && forall a :: a in old(headers) && a < p - HEADER ==> !Suits(old(headers)[a], size)
      ensures p != 0 && p - HEADER !in old(headers) ==>
        && brk == old(brk) + Increment(size) && p == old(brk) + HEADER && blocks == old(blocks) + [old(brk)]
        && (old(blocks) != [] ==> old(blocks)[|old(blocks)| - 1] in old(headers))
        && headers == Linked(old(headers), old(blocks), old(brk), size)
        && forall a :: a in old(headers) ==> !Suits(old(headers)[a], size)
      ensures Valid() <==> p == 0 || p - HEADER in old(headers) || HEADER + size <= SIZE_MAX / 2
    {
      hide LiveOf, Tiles, Increment, Chain, Linked;
      TilesChain(headers, blocks, base, brk);
      if size == 0 { return 0; }
      var a := GetFreeBlock(size);
      Addresses(headers, blocks, base, brk);
      if a != 0 {
        Marked(headers, blocks, base, brk, a, false);
        ChainMarked(headers, blocks, a, false);
        LiveMarks(headers, a);
        LiveIs(headers, a);
        headers := headers[a := headers[a].(isFree := false)];
        return a + HEADER;
      }
      if !(base <= brk + Increment(size) <= limit) { return 0; }
      p := Extend(size);
    }

    /** A new block at the break, linked after the tail. */
    method Extend(size: Size) returns (p: int)
      requires Valid() && size > 0 && base <= brk + Increment(size) <= limit
      modifies this
      ensures bytes == old(bytes) && Listed()
      ensures Took(old(Live()), Live(), p - HEADER, size) && Live()[p - HEADER] == size
      ensures brk == old(brk) + Increment(size) && p == old(brk) + HEADER && blocks == old(blocks) + [old(brk)]
      ensures old(brk) !in old(headers) && (old(blocks) != [] ==> old(blocks)[|old(blocks)| - 1] in old(headers))
      ensures headers == Linked(old(headers), old(blocks), old(brk), size)
      ensures Valid() <==> HEADER + size <= SIZE_MAX / 2
    {
      hide LiveOf, Tiles, Increment, Chain;
      Addresses(headers, blocks, base, brk);
      TilesChain(headers, blocks, base, brk);
      TilesExactly(headers, blocks, base, brk, size);
      ChainLinked(headers, blocks, brk, size);
      var a := brk;
      brk := brk + Increment(size);
      if head == 0 {
        head := a;
      }
      if tail != 0 {
        LiveLinks(headers, tail, a);
        headers := headers[tail := headers[tail].(next := a)];
      }
      LiveIs(headers, a);
      LiveAdds(headers, a, size);
      headers := headers[a := Header(size, false, 0)];
      tail := a;
      blocks := blocks + [a];
      return a + HEADER;
    }

    /** The block before the last, found from the head. */
    method Previous() returns (tmp: int)
      requires Listed() && |blocks| > 1
      ensures tmp == blocks[|blocks| - 2]
    {
      tmp := head;
      ghost var k := 0;
      while headers[tmp].next != tail
        invariant 0 <= k < |blocks| - 1 && tmp == blocks[k] && headers[tmp].next == blocks[k + 1]
        decreases |blocks| - k
      {
        tmp := headers[tmp].next;
        k := k + 1;
      }
    }

    /** Ends a live block: gives the last one back to the system, marks any other
        free. "Last" is judged by the break alone, and what is unlinked is the tail. */
    method Free(p: int)
      requires Listed() && (p != 0 ==> p - HEADER in Live())
      modifies this
      ensures Listed() && bytes == old(bytes)
      ensures p == 0 ==> headers == old(headers) && brk == old(brk) && blocks == old(blocks)
      ensures p != 0 && p + old(Live())[p - HEADER] == old(brk) ==>
        && brk == p - HEADER && |old(blocks)| > 0 && blocks == old(blocks)[..|old(blocks)| - 1]
        && (forall i :: 0 <= i < |old(blocks)| ==> old(blocks)[i] in old(headers)) && headers == Unlinked(old(headers), old(blocks))
      ensures p != 0 && p + old(Live())[p - HEADER] != old(brk) ==>
        && brk == old(brk) && blocks == old(blocks) && p - HEADER in old(headers)
        && headers == old(headers)[p - HEADER := old(headers)[p - HEADER].(isFree := true)]
      ensures old(Valid()) ==> Valid() && (p != 0 ==> Live() == old(Live()) - {p - HEADER})
    {
      hide LiveOf, Tiles, Chain, Unlinked;
      if p == 0 { return; }
      var a := p - HEADER;
      LiveIs(headers, a);
      ghost var i :| 0 <= i < |blocks| && blocks[i] == a;
      if Valid() {
        Inside(headers, blocks, base, brk, i);
        Addresses(headers, blocks, base, brk);
      }
      if p + headers[a].size == brk {
        if Valid() {
          Shrunk(headers, blocks, base, brk);
          LiveUnlinked(headers, blocks);
        }
        var size := headers[a].size;
        DropLast();
        brk := brk - (HEADER + size);
        return;
      }
      if Valid() {
        Marked(headers, blocks, base, brk, a, true);
      }
      ChainMarked(headers, blocks, a, true);
      LiveMarks(headers, a);
      headers := headers[a := headers[a].(isFree := true)];
    }

    /** Unlinks the last block. */
    method DropLast()
      requires Listed() && |blocks| > 0
      modifies this
      ensures Listed() && bytes == old(bytes) && brk == old(brk) && blocks == old(blocks)[..|old(blocks)| - 1]
      ensures (forall i :: 0 <= i < |old(blocks)| ==> old(blocks)[i] in old(headers)) && headers == Unlinked(old(headers), old(blocks))
    {
      ChainUnlinked(headers, blocks);
      var last := tail;
      if head == tail {
        head, tail := 0, 0;
      } else {
        assert |blocks| > 1;
        var tmp := Previous();
        headers := headers[tmp := headers[tmp].(next := 0)];
        tail := tmp;
      }
      headers := headers - {last};
      blocks := blocks[..|blocks| - 1];
    }

    /** A zeroed array; NULL when either size is 0, the product overflows or malloc
        fails. A product that fits can still wrap in malloc. */
    method Calloc(num: Size, nsize: Size) returns (p: int)
      requires Valid()
      modifies this
      ensures Listed()
      ensures p == 0 ==> headers == old(headers) && brk == old(brk) && bytes == old(bytes)
      ensures p == 0 <==> num * nsize == 0 || num * nsize > SIZE_MAX || old(NoRoom(num * nsize))
      ensures p != 0 ==> Took(old(Live()), Live(), p - HEADER, num * nsize)
      ensures p != 0 ==> forall a :: Read(bytes, a) == if p <= a < p + num * nsize then 0 else Read(old(bytes), a)
      ensures Valid() <==> p == 0 || p - HEADER in old(headers) || HEADER + num * nsize <= SIZE_MAX / 2
    {
      if num == 0 || nsize == 0 { TilesChain(headers, blocks, base, brk); return 0; }
      Overflows(num, nsize);
      if num > SIZE_MAX / nsize { TilesChain(headers, blocks, base, brk); return 0; }
      Positive(num, nsize);
      var total: Size := num * nsize;
      p := Malloc(total);
      if p == 0 { return; }
      Fill(p, total);
    }

    /** memset to 0. */
    method Fill(p: int, n: nat)
      modifies this`bytes
      ensures forall a {:trigger Read(bytes, a)} :: Read(bytes, a) == if p <= a < p + n then 0 else Read(old(bytes), a)
    {
      var i := 0;
      while i < n
        invariant i <= n
        invariant forall a {:trigger Read(bytes, a)} :: Read(bytes, a) == if p <= a < p + i then 0 else Read(old(bytes), a)
      {
        ghost var was := bytes;
        bytes := bytes[p + i := 0];
        assert forall a {:trigger Read(bytes, a)} :: Read(bytes, a) == if a == p + i then 0 else Read(was, a);
        i := i + 1;
      }
    }

    /** memcpy between ranges that do not overlap. */
    method Copy(to: int, from: int, n: nat)
      requires to + n <= from || from + n <= to
      modifies this`bytes
      ensures forall a {:trigger Read(bytes, a)} :: Read(bytes, a) == if to <= a < to + n then Read(old(bytes), from + (a - to)) else Read(old(bytes), a)
    {
      var i := 0;
      while i < n
        invariant i <= n
        invariant forall a {:trigger Read(bytes, a)} :: Read(bytes, a) == if to <= a < to + i then Read(old(bytes), from + (a - to)) else Read(old(bytes), a)
      {
        ghost var was := bytes;
        assert Read(was, from + i) == Read(old(bytes), from + i);
        bytes := bytes[to + i := Read(bytes, from + i)];
        assert forall a {:trigger Read(bytes, a)} :: Read(bytes, a) == if a == to + i then Read(was, from + i) else Read(was, a);
        i := i + 1;
      }
    }

    /** Grows a live block, keeping its contents; every other live block keeps its
        own. It fails exactly when there is no room for a larger one, and then
        leaves the block as it was; a block that is large enough is returned as it is. */
    method Realloc(p: int, size: Size) returns (r: int)
      requires Valid() && (p != 0 ==> p - HEADER in Live())
      modifies this
      ensures Listed()
      ensures r == 0 <==> size == 0 || ((p == 0 || old(Live())[p - HEADER] < size) && old(NoRoom(size)))
      ensures p == 0 && r != 0 ==> Took(old(Live()), Live(), r - HEADER, size) && bytes == old(bytes)
      ensures p != 0 && size == 0 ==> Live() == old(Live()) - {p - HEADER} && bytes == old(bytes)
      ensures r == 0 && (p == 0 || size > 0) ==> headers == old(headers) && brk == old(brk) && bytes == old(bytes)
      ensures p != 0 && 0 < size <= old(Live())[p - HEADER] ==> r == p && headers == old(headers) && brk == old(brk) && bytes == old(bytes)
      ensures p != 0 && r != 0 && Valid() ==> Moved(old(Live()), Live(), p - HEADER, r - HEADER, size)
      ensures p != 0 && r != 0 ==> forall i :: r <= i < r + old(Live())[p - HEADER] ==> Read(bytes, i) == Read(old(bytes), p + (i - r))
      ensures p != 0 && r != 0 ==> forall i :: !(r <= i < r + old(Live())[p - HEADER]) ==> Read(bytes, i) == Read(old(bytes), i)
      ensures Valid() <==> r == 0 || r - HEADER in old(headers) || HEADER + size <= SIZE_MAX / 2
    {
      if p == 0 {
        r := Malloc(size);
        return;
      }
      TilesChain(headers, blocks, base, brk);
      hide LiveOf, Tiles, Read, Chain, Increment, Linked, Unlinked, Ends;
      LiveIs(headers, p - HEADER);
      if size == 0 {
        Free(p);
        return 0;
      }
      if headers[p - HEADER].size >= size { return p; }
      r := Grow(p, size);
    }

    /** The end of realloc: a larger block, the old contents copied, the old block freed. */
    method Grow(p: int, size: Size) returns (r: int)
      requires Valid() && p - HEADER in Live() && Live()[p - HEADER] < size
      modifies this
      ensures Listed()
      ensures r == 0 <==> old(NoRoom(size))
      ensures r == 0 ==> headers == old(headers) && brk == old(brk) && bytes == old(bytes)
      ensures r != 0 && Valid() ==> Moved(old(Live()), Live(), p - HEADER, r - HEADER, size)
      ensures r != 0 ==> forall i :: r <= i < r + old(Live())[p - HEADER] ==> Read(bytes, i) == Read(old(bytes), p + (i - r))
      ensures r != 0 ==> forall i :: !(r <= i < r + old(Live())[p - HEADER]) ==> Read(bytes, i) == Read(old(bytes), i)
      ensures Valid() <==> r == 0 || r - HEADER in old(headers) || HEADER + size <= SIZE_MAX / 2
    {
      hide LiveOf, Tiles, Read, Chain, Increment, Linked, Unlinked, Ends, NoRoom;
      ghost var h0, bs0, brk0 := headers, blocks, brk;
      LiveIs(headers, p - HEADER);
      ghost var i := HasIndex(p - HEADER);
      Inside(headers, blocks, base, brk, i);
      r := MallocBeside(p, size);
      if r == 0 { return; }
      var n := headers[p - HEADER].size;
      Copy(r, p, n);
      if r - HEADER !in h0 && HEADER + size > SIZE_MAX / 2 {
        StaysBroken(h0, bs0, base, brk0, size, p - HEADER);
      }
      TookMoved(old(Live()), Live(), p - HEADER, r - HEADER, size);
      Free(p);
    }

    /** Malloc while p is in use: the new block is apart from p's payload. */
    method MallocBeside(p: int, size: Size) returns (r: int)
      requires Valid() && p - HEADER in Live() && Live()[p - HEADER] < size
      modifies this
      ensures bytes == old(bytes) && Listed()
      ensures r == 0 <==> old(NoRoom(size))
      ensures r == 0 ==> headers == old(headers) && brk == old(brk) && blocks == old(blocks)
      ensures r != 0 ==> Took(old(Live()), Live(), r - HEADER, size) && p - HEADER in headers
      ensures r != 0 ==> var n := headers[p - HEADER].size; n == old(Live())[p - HEADER] && (r + n <= p || p + n <= r)
      ensures r != 0 && r - HEADER !in old(headers) ==>
        && brk == old(brk) + Increment(size) && blocks == old(blocks) + [old(brk)]
        && (old(blocks) != [] ==> old(blocks)[|old(blocks)| - 1] in old(headers))
        && headers == Linked(old(headers), old(blocks), old(brk), size)
      ensures Valid() <==> r == 0 || r - HEADER in old(headers) || HEADER + size <= SIZE_MAX / 2
    {
      hide LiveOf, Tiles, Chain, Increment, Linked, Ends, NoRoom;
      LiveIs(headers, p - HEADER);
      ghost var i := HasIndex(p - HEADER);
      Inside(headers, blocks, base, brk, i);
      r := Malloc(size);
      if r == 0 { return; }
      LiveIs(headers, p - HEADER);
      LiveIs(headers, r - HEADER);
      if r - HEADER in old(headers) {
        LiveApart(p - HEADER, r - HEADER);
      }
    }
  }

  /** Freeing an old block does not repair a heap that a wrapped request broke. */
  lemma StaysBroken(h: Headers, blocks: seq<int>, base: int, brk: int, size: Size, a: int)
    requires Tiles(h, blocks, base, brk) && 0 < base && a in h && a in blocks && HEADER + size > SIZE_MAX / 2
    ensures var h', bs', brk' := Linked(h, blocks, brk, size), blocks + [brk], brk + Increment(size);
      && a in h' && Chain(h', bs')
      && !Tiles(h'[a := h'[a].(isFree := true)], bs', base, brk')
      && !Tiles(Unlinked(h', bs'), bs'[..|bs'| - 1], base, a)
  {
    var h', bs', brk' := Linked(h, blocks, brk, size), blocks + [brk], brk + Increment(size);
    TilesChain(h, blocks, base, brk);
    ChainLinked(h, blocks, brk, size);
    TilesExactly(h, blocks, base, brk, size);
    hide Chain, Increment;
    var i :| 0 <= i < |blocks| && blocks[i] == a;
    Inside(h, blocks, base, brk, i);
    assert bs'[..|bs'| - 1] == blocks;
  }

  lemma NoneSuits(heap: Heap)
    requires heap.Valid() && heap.limit < SIZE_MAX
    ensures forall a :: a in heap.headers ==> !Suits(heap.headers[a], SIZE_MAX)
  {
    hide Tiles, LiveOf, Chain, Linked;
    forall a | a in heap.headers ensures !Suits(heap.headers[a], SIZE_MAX) {
      var i := heap.HasIndex(a);
      Inside(heap.headers, heap.blocks, heap.base, heap.brk, i);
    }
  }

  /** The largest request succeeds in any heap with 31 bytes to spare, and breaks it. */
  method AskForLargest(heap: Heap) returns (p: int)
    requires heap.Valid() && heap.limit < SIZE_MAX && heap.brk + HEADER - 1 <= heap.limit
    modifies heap
    ensures p != 0 && p == old(heap.brk) + 32 && heap.brk == p - 1
    ensures p - HEADER in heap.Live() && heap.Live()[p - HEADER] == SIZE_MAX
    ensures !heap.Valid() && Covered(heap.headers, heap.blocks, heap.brk)
  {
    ghost var h, bs, brk := heap.headers, heap.blocks, heap.brk;
    hide Tiles, LiveOf, Chain, Linked;
    Addresses(h, bs, heap.base, brk);
    NoneSuits(heap);
    ClearExactly(h, bs, heap.base, brk, SIZE_MAX);
    p := heap.Malloc(SIZE_MAX);
  }

  /** A byte of memory; what was never written reads as 0. */
  function Read(bytes: map<int, Byte>, a: int): Byte { if a in bytes then bytes[a] else 0 }

  /** A free block that is large enough. */
  predicate Suits(h: Header, size: nat) { h.isFree && h.size >= size }

  /** Exactly one block, of at least this size, became live. */
  ghost predicate Took(before: map<int, nat>, after: map<int, nat>, a: int, size: nat) {
    a !in before && a in after && after[a] >= size && after == before[a := after[a]]
  }

  /** The block moved from a to b, which is large enough; all others are as before. */
  ghost predicate Moved(before: map<int, nat>, after: map<int, nat>, a: int, b: int, size: nat) {
    && a in before && b in after && after[b] >= size && (b == a || b !in before)
    && after == (before - {a})[b := after[b]]
  }

  lemma TookMoved(before: map<int, nat>, mid: map<int, nat>, a: int, b: int, size: nat)
    requires Took(before, mid, b, size) && a in before
    ensures Moved(before, mid - {a}, a, b, size)
  {
  }

  lemma Overflows(num: nat, nsize: nat)
    requires nsize > 0
    ensures num > SIZE_MAX / nsize <==> num * nsize > SIZE_MAX
  {
    var q := SIZE_MAX / nsize;
    assert q * nsize <= SIZE_MAX < (q + 1) * nsize;
    if num > q {
      Scale(q + 1, num, nsize);
    } else {
      Scale(num, q, nsize);
    }
  }

  lemma Positive(a: nat, b: nat)
    requires a > 0 && b > 0
    ensures a * b > 0
  {
  }
}
