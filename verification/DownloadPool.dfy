/** A download's worker pool: a main routine, a worker per peer and two bounded
    channels, as interleaved steps; what a routine does by itself is one step. */
module DownloadPool {
  import opened Arithmetic
  import opened ByteStrings
  import opened Wrappers

  type Hash = seq<Byte>

  /** What the torrent file says, and the hash function. */
  datatype Torrent = Torrent(length: nat, pieceLength: nat, hashes: seq<Hash>, sha1: seq<Byte> -> Hash)

  /** As many hashes as pieces of the given length cover the file. */
  ghost predicate Whole(t: Torrent) {
    t.pieceLength > 0 && |t.hashes| == (t.length + t.pieceLength - 1) / t.pieceLength
  }

  datatype Work = Work(index: nat, hash: Hash, length: int)

  datatype Piece = Piece(index: nat, buf: seq<Byte>)

  function Begin(t: Torrent, i: nat): nat { i * t.pieceLength }

  function End(t: Torrent, i: nat): nat {
    if Begin(t, i) + t.pieceLength > t.length then t.length else Begin(t, i) + t.pieceLength
  }

  function WorkFor(t: Torrent, i: nat): Work
    requires i < |t.hashes|
  {
    Work(i, t.hashes[i], End(t, i) - Begin(t, i))
  }

  /** Where a worker is in its loop. `leave` says it returns once the piece is back. */
  datatype Phase =
    | Connecting
    | Waiting
    | Holding(pw: Work)
    | Fetched(pw: Work, buf: seq<Byte>)
    | PuttingBack(pw: Work, leave: bool)
    | Delivering(pw: Work, buf: seq<Byte>)
    | Gone

  datatype Main = Filling(next: nat) | Collecting | Returned

  /** `panicked` records a send on a closed channel or a slice out of range. */
  datatype State = State(
    work: seq<Work>, closed: bool, results: seq<Piece>, workers: seq<Phase>, main: Main,
    received: seq<nat>, buf: seq<Byte>, panicked: bool)

  datatype Step =
    | Fill
    | Spawn(peers: nat)
    | Connect(w: nat, ok: bool)
    | Take(w: nat)
    | Leave(w: nat)
    | Skip(w: nat)
    | Fetch(w: nat, got: Option<seq<Byte>>)
    | Check(w: nat)
    | PutBack(w: nat)
    | Deliver(w: nat)
    | Collect
    | Close

  function Start(t: Torrent): State {
    State([], false, [], [], Filling(0), [], seq(t.length, _ => 0), false)
  }

  function Move(s: State, w: nat, p: Phase): State
    requires w < |s.workers|
  {
    s.(workers := s.workers[w := p])
  }

  function Splice(buf: seq<Byte>, begin: nat, piece: seq<Byte>): seq<Byte>
    requires begin + |piece| <= |buf|
  {
    buf[..begin] + piece + buf[begin + |piece|..]
  }

  /** One step; None when it is not that routine's turn or it would block. */
  function Apply(t: Torrent, s: State, a: Step): Option<State> {
    match a
    case Fill =>
      if s.main.Filling? && s.main.next < |t.hashes| && |s.work| < |t.hashes|
      then Some(s.(work := s.work + [WorkFor(t, s.main.next)], main := Filling(s.main.next + 1))) else None
    case Spawn(n) =>
      if s.main.Filling? && s.main.next >= |t.hashes| && n > 0
      then Some(s.(workers := seq(n, _ => Connecting), main := Collecting)) else None
    case Collect =>
      if s.main.Collecting? && |s.received| < |t.hashes| && s.results != []
      then Some(Receive(t, s.(results := s.results[1..], received := s.received + [s.results[0].index]), s.results[0])) else None
    case Close =>
      if s.main.Collecting? && |s.received| >= |t.hashes|
      then Some(s.(closed := true, main := Returned)) else None
    case _ => if a.w < |s.workers| then WorkerStep(t, s, a, s.workers[a.w]) else None
  }

  /** Copies a piece into its slice of the buffer; a slice out of range panics. */
  function Receive(t: Torrent, s: State, p: Piece): State {
    var b, e := Begin(t, p.index), End(t, p.index);
    if !(b <= e <= |s.buf|) then s.(panicked := true)
    else s.(buf := Splice(s.buf, b, if |p.buf| <= e - b then p.buf else p.buf[..e - b]))
  }

  function WorkerStep(t: Torrent, s: State, a: Step, p: Phase): Option<State>
    requires !a.Fill? && !a.Spawn? && !a.Collect? && !a.Close? && a.w < |s.workers|
  {
    match a
    case Connect(w, ok) => if p.Connecting? then Some(Move(s, w, if ok then Waiting else Gone)) else None
    case Take(w) =>
      if p.Waiting? && s.work != [] then Some(Move(s, w, Holding(s.work[0])).(work := s.work[1..])) else None
    case Leave(w) => if p.Waiting? && s.work == [] && s.closed then Some(Move(s, w, Gone)) else None
    case Skip(w) => if p.Holding? then Some(Move(s, w, PuttingBack(p.pw, false))) else None
    case Fetch(w, got) =>
      if !p.Holding? then None
      else if got.None? then Some(Move(s, w, PuttingBack(p.pw, true)))
      else if |got.value| == p.pw.length then Some(Move(s, w, Fetched(p.pw, got.value))) else None
    case Check(w) =>
      if !p.Fetched? then None
      else if t.sha1(p.buf) != p.pw.hash then Some(Move(s, w, PuttingBack(p.pw, false)))
      else Some(Move(s, w, Delivering(p.pw, p.buf)))
    case PutBack(w) =>
      if !p.PuttingBack? then None
      else if s.closed then Some(s.(panicked := true))
      else if |s.work| >= |t.hashes| then None
      else Some(Move(s, w, if p.leave then Gone else Waiting).(work := s.work + [p.pw]))
    case Deliver(w) =>
      if p.Delivering? && |s.results| < |t.hashes|
      then Some(Move(s, w, Waiting).(results := s.results + [Piece(p.pw.index, p.buf)])) else None
  }

  /** The state after a run; None if some step was not possible. */
  function Run(t: Torrent, steps: seq<Step>): Option<State> {
    if steps == [] then Some(Start(t))
    else match Run(t, steps[..|steps| - 1])
      case None => None
      case Some(s) => Apply(t, s, steps[|steps| - 1])
  }

  // ----- where the pieces are -----

  function WorkIndices(q: seq<Work>): multiset<nat> {
    if q == [] then multiset{} else WorkIndices(q[..|q| - 1]) + multiset{q[|q| - 1].index}
  }

  function PieceIndices(q: seq<Piece>): multiset<nat> {
    if q == [] then multiset{} else PieceIndices(q[..|q| - 1]) + multiset{q[|q| - 1].index}
  }

  predicate Holds(p: Phase) { p.Holding? || p.Fetched? || p.PuttingBack? || p.Delivering? }

  function HeldOne(p: Phase): multiset<nat> { if Holds(p) then multiset{p.pw.index} else multiset{} }

  function Held(ws: seq<Phase>): multiset<nat> {
    if ws == [] then multiset{} else Held(ws[..|ws| - 1]) + HeldOne(ws[|ws| - 1])
  }

  function Upto(n: nat): multiset<nat> {
    if n == 0 then multiset{} else Upto(n - 1) + multiset{n - 1}
  }

  /** How many pieces the main routine has queued at the start. */
  function Queued(t: Torrent, s: State): nat { if s.main.Filling? then s.main.next else |t.hashes| }

  /** Every queued piece is in exactly one place. */
  function Places(s: State): multiset<nat> {
    WorkIndices(s.work) + Held(s.workers) + PieceIndices(s.results) + multiset(s.received)
  }

  ghost predicate GoodWork(t: Torrent, pw: Work) { pw.index < |t.hashes| && pw == WorkFor(t, pw.index) }

  ghost predicate GoodPiece(t: Torrent, p: Piece) {
    && p.index < |t.hashes| && |p.buf| == WorkFor(t, p.index).length && t.sha1(p.buf) == t.hashes[p.index]
  }

  ghost predicate GoodPhase(t: Torrent, p: Phase) {
    && (Holds(p) ==> GoodWork(t, p.pw))
    && (p.Fetched? ==> |p.buf| == p.pw.length)
    && (p.Delivering? ==> GoodPiece(t, Piece(p.pw.index, p.buf)))
  }

  /** The buffer holds piece i, with the hash the torrent lists. */
  ghost predicate RangeOk(t: Torrent, buf: seq<Byte>, i: nat)
    requires i < |t.hashes|
  {
    Begin(t, i) <= End(t, i) <= |buf| && t.sha1(buf[Begin(t, i)..End(t, i)]) == t.hashes[i]
  }

  ghost predicate Inv(t: Torrent, s: State) {
    && Queued(t, s) <= |t.hashes| && Places(s) == Upto(Queued(t, s))
    && (s.main.Filling? ==> s.workers == [] && s.results == [] && s.received == [] && |s.work| == s.main.next)
    && (s.closed <==> s.main.Returned?) && (s.closed ==> |s.received| == |t.hashes|)
    && !s.panicked && |s.buf| == t.length
    && (forall k :: 0 <= k < |s.work| ==> GoodWork(t, s.work[k]))
    && (forall k :: 0 <= k < |s.workers| ==> GoodPhase(t, s.workers[k]))
    && (forall k :: 0 <= k < |s.results| ==> GoodPiece(t, s.results[k]))
    && (forall k :: 0 <= k < |s.received| ==> s.received[k] < |t.hashes| && RangeOk(t, s.buf, s.received[k]))
  }

  // ----- counting -----

  type Bag = multiset<nat>

  lemma BagSwap(a: Bag, b: Bag, l: Bag, o: Bag, q: Bag)
    requires a + o == b + q
    ensures (a + l) + o == (b + l) + q
  {
    calc {
      (a + l) + o;
      (a + o) + l;
      (b + q) + l;
      (b + l) + q;
    }
  }

  lemma BagTurn(x: Bag, m: Bag, l: Bag)
    ensures (x + m) + l == x + (m + l)
  {
  }

  /** Moving x between the first two of four places. */
  lemma BagMove(w: Bag, h: Bag, w': Bag, h': Bag, x: Bag, p: Bag, r: Bag)
    requires w == x + w' && h' == h + x
    ensures w' + h' + p + r == w + h + p + r
  {
    calc {
      w' + (h + x);
      (x + w') + h;
    }
  }

  /** Moving x from the middle one of three places to the last. */
  lemma BagShift(w: Bag, h: Bag, h': Bag, p: Bag, x: Bag, r: Bag)
    requires h == h' + x
    ensures w + h' + (p + x) + r == w + h + p + r
  {
    calc {
      w + h' + (p + x) + r;
      w + (h' + x) + p + r;
    }
  }

  lemma {:induction false} HeldUpdate(ws: seq<Phase>, w: nat, p: Phase)
    requires w < |ws|
    ensures Held(ws[w := p]) + HeldOne(ws[w]) == Held(ws) + HeldOne(p)
  {
    hide HeldOne;
    var n := |ws| - 1;
    if w < n {
      HeldUpdate(ws[..n], w, p);
      assert ws[w := p][..n] == ws[..n][w := p];
      BagSwap(Held(ws[..n][w := p]), Held(ws[..n]), HeldOne(ws[n]), HeldOne(ws[w]), HeldOne(p));
    } else {
      assert ws[w := p][..n] == ws[..n];
    }
  }

  lemma {:induction false} HeldNone(ws: seq<Phase>)
    requires forall k :: 0 <= k < |ws| ==> !Holds(ws[k])
    ensures Held(ws) == multiset{}
  {
    if ws != [] {
      HeldNone(ws[..|ws| - 1]);
    }
  }

  lemma {:induction false} HeldSome(ws: seq<Phase>, w: nat)
    requires w < |ws| && Holds(ws[w])
    ensures |Held(ws)| > 0
  {
    if w < |ws| - 1 {
      HeldSome(ws[..|ws| - 1], w);
    }
  }

  lemma {:induction false} WorkPop(q: seq<Work>)
    requires q != []
    ensures WorkIndices(q) == multiset{q[0].index} + WorkIndices(q[1..])
  {
    if |q| > 1 {
      var n := |q| - 1;
      WorkPop(q[..n]);
      assert q[..n][1..] == q[1..][..n - 1];
      BagTurn(multiset{q[0].index}, WorkIndices(q[1..][..n - 1]), multiset{q[n].index});
    }
  }

  lemma {:induction false} PiecePop(q: seq<Piece>)
    requires q != []
    ensures PieceIndices(q) == multiset{q[0].index} + PieceIndices(q[1..])
  {
    if |q| > 1 {
      var n := |q| - 1;
      PiecePop(q[..n]);
      assert q[..n][1..] == q[1..][..n - 1];
      BagTurn(multiset{q[0].index}, PieceIndices(q[1..][..n - 1]), multiset{q[n].index});
    }
  }

  lemma WorkPush(q: seq<Work>, x: Work)
    ensures WorkIndices(q + [x]) == WorkIndices(q) + multiset{x.index}
  {
    assert (q + [x])[..|q|] == q;
  }

  lemma PiecePush(q: seq<Piece>, x: Piece)
    ensures PieceIndices(q + [x]) == PieceIndices(q) + multiset{x.index}
  {
    assert (q + [x])[..|q|] == q;
  }

  lemma {:induction false} WorkCount(q: seq<Work>)
    ensures |WorkIndices(q)| == |q|
  {
    if q != [] { WorkCount(q[..|q| - 1]); }
  }

  lemma {:induction false} PieceCount(q: seq<Piece>)
    ensures |PieceIndices(q)| == |q|
  {
    if q != [] { PieceCount(q[..|q| - 1]); }
  }

  lemma {:induction false} UptoCount(n: nat)
    ensures |Upto(n)| == n
    ensures forall i: nat :: Upto(n)[i] == if i < n then 1 else 0
  {
    if n > 0 { UptoCount(n - 1); }
  }

  /** The four places together hold as many pieces as were queued. */
  lemma Totals(t: Torrent, s: State)
    requires Inv(t, s)
    ensures |s.work| + |Held(s.workers)| + |s.results| + |s.received| == Queued(t, s)
  {
    WorkCount(s.work);
    PieceCount(s.results);
    UptoCount(Queued(t, s));
    assert |Places(s)| == |WorkIndices(s.work)| + |Held(s.workers)| + |PieceIndices(s.results)| + |multiset(s.received)|;
  }

  /** Nothing is anywhere once all pieces are received. */
  lemma AllReceived(t: Torrent, s: State, w: nat)
    requires Inv(t, s) && s.closed
    ensures s.work == [] && s.results == [] && (w < |s.workers| ==> !Holds(s.workers[w]))
  {
    Totals(t, s);
    if w < |s.workers| && Holds(s.workers[w]) {
      HeldSome(s.workers, w);
    }
  }

  // ----- bounds -----

  lemma {:induction false} PieceInside(t: Torrent, i: nat)
    requires Whole(t) && i < |t.hashes|
    ensures Begin(t, i) < End(t, i) <= t.length
  {
    var n, p := |t.hashes|, t.pieceLength;
    assert n * p <= t.length + p - 1 by { DivMod(t.length + p - 1, p); }
    assert (i + 1) * p <= n * p by { Scale(i + 1, n, p); }
    assert (i + 1) * p == i * p + p;
  }

  /** Different pieces do not overlap. */
  lemma Disjoint(t: Torrent, i: nat, j: nat)
    requires Whole(t) && i < |t.hashes| && j < |t.hashes| && i != j
    ensures End(t, i) <= Begin(t, j) || End(t, j) <= Begin(t, i)
  {
    if i < j {
      Scale(i + 1, j, t.pieceLength);
      assert (i + 1) * t.pieceLength == Begin(t, i) + t.pieceLength;
    } else {
      Scale(j + 1, i, t.pieceLength);
      assert (j + 1) * t.pieceLength == Begin(t, j) + t.pieceLength;
    }
  }

  // ----- every step keeps the invariant -----

  lemma StartInv(t: Torrent)
    ensures Inv(t, Start(t))
  {
  }

  lemma FillInv(t: Torrent, s: State)
    requires Inv(t, s) && Apply(t, s, Fill).Some?
    ensures Inv(t, Apply(t, s, Fill).value)
  {
    hide WorkIndices, Held, PieceIndices, GoodPhase, GoodPiece, RangeOk, Begin, End, Upto;
    var next, s' := s.main.next, Apply(t, s, Fill).value;
    WorkPush(s.work, WorkFor(t, next));
    UptoNext(next);
    assert Places(s') == Places(s) + multiset{next};
    assert GoodWork(t, s'.work[|s.work|]);
  }

  lemma UptoNext(n: nat)
    ensures Upto(n + 1) == Upto(n) + multiset{n}
  {
  }

  lemma SpawnInv(t: Torrent, s: State, n: nat)
    requires Inv(t, s) && Apply(t, s, Spawn(n)).Some?
    ensures Inv(t, Apply(t, s, Spawn(n)).value)
  {
    HeldNone(seq(n, _ => Connecting));
  }

  lemma CollectInv(t: Torrent, s: State)
    requires Inv(t, s) && Whole(t) && Apply(t, s, Collect).Some?
    ensures Inv(t, Apply(t, s, Collect).value)
  {
    hide Begin, End, WorkIndices, Held, PieceIndices;
    var s' := Apply(t, s, Collect).value;
    var p := s.results[0];
    assert GoodPiece(t, p);
    PieceInside(t, p.index);
    PiecePop(s.results);
    assert multiset(s'.received) == multiset(s.received) + multiset{p.index};
    var b, e := Begin(t, p.index), End(t, p.index);
    assert s'.buf == Splice(s.buf, b, p.buf);
    assert s'.buf[b..e] == p.buf;
    forall k | 0 <= k < |s'.received| ensures s'.received[k] < |t.hashes| && RangeOk(t, s'.buf, s'.received[k]) {
      if k < |s.received| && s.received[k] != p.index {
        var j := s.received[k];
        assert RangeOk(t, s.buf, j);
        Disjoint(t, j, p.index);
        SpliceKeeps(s.buf, b, p.buf, Begin(t, j), End(t, j));
      }
    }
  }

  lemma SpliceKeeps(buf: seq<Byte>, b: nat, piece: seq<Byte>, from: nat, to: nat)
    requires b + |piece| <= |buf| && from <= to <= |buf| && (to <= b || b + |piece| <= from)
    ensures Splice(buf, b, piece)[from..to] == buf[from..to]
  {
  }

  lemma CloseInv(t: Torrent, s: State)
    requires Inv(t, s) && Apply(t, s, Close).Some?
    ensures Inv(t, Apply(t, s, Close).value)
  {
    hide WorkIndices, Held, PieceIndices, Upto;
    Totals(t, s);
  }

  /** A worker's step that leaves the channels alone. */
  lemma MoveInv(t: Torrent, s: State, w: nat, p: Phase)
    requires Inv(t, s) && w < |s.workers| && GoodPhase(t, p) && HeldOne(p) == HeldOne(s.workers[w])
    ensures Inv(t, Move(s, w, p))
  {
    hide WorkIndices, Held, PieceIndices, Upto, GoodPhase, GoodPiece, GoodWork, RangeOk;
    HeldUpdate(s.workers, w, p);
    MultisetCancel(Held(s.workers[w := p]), Held(s.workers), HeldOne(p));
  }

  lemma MultisetCancel(a: multiset<nat>, b: multiset<nat>, c: multiset<nat>)
    requires a + c == b + c
    ensures a == b
  {
    assert a == (a + c) - c;
    assert b == (b + c) - c;
  }

  lemma TakeInv(t: Torrent, s: State, w: nat)
    requires Inv(t, s) && Apply(t, s, Take(w)).Some?
    ensures Inv(t, Apply(t, s, Take(w)).value)
  {
    hide WorkIndices, Held, PieceIndices, Upto, GoodPiece, GoodWork, RangeOk;
    assert GoodWork(t, s.work[0]);
    WorkPop(s.work);
    HeldUpdate(s.workers, w, Holding(s.work[0]));
    var h' := Held(s.workers[w := Holding(s.work[0])]);
    BagMove(WorkIndices(s.work), Held(s.workers), WorkIndices(s.work[1..]), h', multiset{s.work[0].index},
            PieceIndices(s.results), multiset(s.received));
  }

  lemma PutBackInv(t: Torrent, s: State, w: nat)
    requires Inv(t, s) && Apply(t, s, PutBack(w)).Some?
    ensures Inv(t, Apply(t, s, PutBack(w)).value)
  {
    hide WorkIndices, Held, PieceIndices, Upto, GoodPhase, GoodPiece, GoodWork, RangeOk;
    if s.closed {
      AllReceived(t, s, w);
    }
    var p := s.workers[w];
    assert GoodPhase(t, p);
    PhaseParts(t, p);
    PhaseParts(t, if p.leave then Gone else Waiting);
    WorkPush(s.work, p.pw);
    var q := if p.leave then Gone else Waiting;
    HeldUpdate(s.workers, w, q);
    BagMove(WorkIndices(s.work + [p.pw]), Held(s.workers[w := q]), WorkIndices(s.work), Held(s.workers), multiset{p.pw.index},
            PieceIndices(s.results), multiset(s.received));
  }

  lemma DeliverInv(t: Torrent, s: State, w: nat)
    requires Inv(t, s) && Apply(t, s, Deliver(w)).Some?
    ensures Inv(t, Apply(t, s, Deliver(w)).value)
  {
    hide WorkIndices, Held, PieceIndices, Upto, GoodPiece, GoodWork, RangeOk;
    var p := s.workers[w];
    assert GoodPhase(t, p);
    PiecePush(s.results, Piece(p.pw.index, p.buf));
    HeldUpdate(s.workers, w, Waiting);
    BagShift(WorkIndices(s.work), Held(s.workers), Held(s.workers[w := Waiting]), PieceIndices(s.results), multiset{p.pw.index},
             multiset(s.received));
  }

  lemma StepInv(t: Torrent, s: State, a: Step)
    requires Whole(t) && Inv(t, s) && Apply(t, s, a).Some?
    ensures Inv(t, Apply(t, s, a).value)
  {
    match a
    case Fill => FillInv(t, s);
    case Spawn(n) => SpawnInv(t, s, n);
    case Collect => CollectInv(t, s);
    case Close => CloseInv(t, s);
    case Take(w) => TakeInv(t, s, w);
    case PutBack(w) => PutBackInv(t, s, w);
    case Deliver(w) => DeliverInv(t, s, w);
    case _ => LocalInv(t, s, a);
  }

  lemma LocalInv(t: Torrent, s: State, a: Step)
    requires Inv(t, s) && Apply(t, s, a).Some?
    requires Local(a)
    ensures Inv(t, Apply(t, s, a).value)
  {
    hide Inv, GoodPhase;
    PhaseOf(t, s, a.w);
    LocalMove(t, s, a);
    LocalGood(t, a, s.workers[a.w]);
    MoveInv(t, s, a.w, LocalNext(t, a, s.workers[a.w]));
  }

  predicate Local(a: Step) { a.Connect? || a.Leave? || a.Skip? || a.Fetch? || a.Check? }

  /** The phase these steps lead to. */
  function LocalNext(t: Torrent, a: Step, p: Phase): Phase
    requires Local(a) && (a.Connect? || a.Leave? || Holds(p)) && (a.Check? ==> p.Fetched?)
  {
    match a
    case Connect(w, ok) => if ok then Waiting else Gone
    case Skip(w) => PuttingBack(p.pw, false)
    case Fetch(w, got) => if got.None? then PuttingBack(p.pw, true) else Fetched(p.pw, got.value)
    case Check(w) => if t.sha1(p.buf) != p.pw.hash then PuttingBack(p.pw, false) else Delivering(p.pw, p.buf)
    case _ => Gone
  }

  /** Which phases a worker's own step is possible in. */
  predicate LocalFrom(a: Step, p: Phase)
    requires Local(a)
  {
    match a
    case Connect(_, _) => p.Connecting?
    case Skip(_) => p.Holding?
    case Fetch(_, got) => p.Holding? && (got.Some? ==> |got.value| == p.pw.length)
    case Check(_) => p.Fetched?
    case _ => p.Waiting?
  }

  lemma LocalMove(t: Torrent, s: State, a: Step)
    requires Local(a) && Apply(t, s, a).Some?
    ensures a.w < |s.workers| && LocalFrom(a, s.workers[a.w])
    ensures Apply(t, s, a) == Some(Move(s, a.w, LocalNext(t, a, s.workers[a.w])))
  {
  }

  /** What the worker holds stays the same, and only a matching hash is delivered. */
  lemma LocalGood(t: Torrent, a: Step, p: Phase)
    requires Local(a) && LocalFrom(a, p) && GoodPhase(t, p)
    ensures GoodPhase(t, LocalNext(t, a, p)) && HeldOne(LocalNext(t, a, p)) == HeldOne(p)
  {
    hide Begin, End;
    if a.Check? && t.sha1(p.buf) == p.pw.hash {
      CheckGood(t, p);
    } else {
      hide WorkFor, GoodPiece;
    }
  }

  lemma CheckGood(t: Torrent, p: Phase)
    requires p.Fetched? && GoodPhase(t, p) && t.sha1(p.buf) == p.pw.hash
    ensures GoodPhase(t, Delivering(p.pw, p.buf))
  {
    hide Begin, End;
  }

  lemma PhaseParts(t: Torrent, p: Phase)
    ensures GoodPhase(t, p) && Holds(p) ==> GoodWork(t, p.pw)
    ensures p.Waiting? || p.Gone? ==> GoodPhase(t, p)
  {
  }

  lemma PhaseOf(t: Torrent, s: State, w: nat)
    requires Inv(t, s) && w < |s.workers|
    ensures GoodPhase(t, s.workers[w])
  {
  }

  /** Every interleaving: the invariant holds after any run. */
  lemma {:induction false} RunInv(t: Torrent, steps: seq<Step>)
    requires Whole(t) && Run(t, steps).Some?
    ensures Inv(t, Run(t, steps).value)
  {
    hide Inv, Apply;
    if steps == [] {
      StartInv(t);
    } else {
      RunInv(t, steps[..|steps| - 1]);
      StepInv(t, Run(t, steps[..|steps| - 1]).value, steps[|steps| - 1]);
    }
  }

  // ----- what follows -----

  /** Each piece is in exactly one of: the queue, one worker, the results, the
      received list; so neither channel is ever over-full and no piece is received twice. */
  lemma OnePlace(t: Torrent, steps: seq<Step>, i: nat)
    requires Whole(t) && Run(t, steps).Some? && i < |t.hashes|
    ensures var s := Run(t, steps).value;
      && (!s.main.Filling? ==> WorkIndices(s.work)[i] + Held(s.workers)[i] + PieceIndices(s.results)[i] + multiset(s.received)[i] == 1)
      && !s.panicked && |s.work| <= |t.hashes| && |s.results| <= |t.hashes|
  {
    hide Run, WorkIndices, Held, PieceIndices, Upto;
    RunInv(t, steps);
    var s := Run(t, steps).value;
    UptoCount(Queued(t, s));
    Totals(t, s);
    assert Places(s)[i] == Upto(Queued(t, s))[i];
  }

  /** Putting a piece back, and delivering one, never block and never panic. */
  lemma SendsGoThrough(t: Torrent, steps: seq<Step>, w: nat)
    requires Whole(t) && Run(t, steps).Some? && w < |Run(t, steps).value.workers|
    ensures var s := Run(t, steps).value; var p := s.workers[w];
      && (p.PuttingBack? ==> !s.closed && Apply(t, s, PutBack(w)).Some?)
      && (p.Delivering? ==> Apply(t, s, Deliver(w)).Some?)
  {
    hide Run, WorkIndices, Held, PieceIndices, Upto;
    RunInv(t, steps);
    var s := Run(t, steps).value;
    Totals(t, s);
    if Holds(s.workers[w]) {
      HeldSome(s.workers, w);
      if s.closed {
        AllReceived(t, s, w);
      }
    }
  }

  /** When the download returns, every piece of the buffer has its listed hash. */
  lemma ReturnedVerified(t: Torrent, steps: seq<Step>, i: nat)
    requires Whole(t) && Run(t, steps).Some? && Run(t, steps).value.main.Returned? && i < |t.hashes|
    ensures var s := Run(t, steps).value; |s.buf| == t.length && RangeOk(t, s.buf, i) && i in s.received
  {
    hide Run, WorkIndices, Held, PieceIndices, Upto, RangeOk;
    RunInv(t, steps);
    var s := Run(t, steps).value;
    AllReceived(t, s, 0);
    forall w | 0 <= w < |s.workers| ensures !Holds(s.workers[w]) {
      AllReceived(t, s, w);
    }
    HeldNone(s.workers);
    UptoCount(|t.hashes|);
    assert WorkIndices([]) == multiset{} && PieceIndices([]) == multiset{} by { Empties(); }
    assert Places(s)[i] == 1;
    assert i in multiset(s.received);
  }

  lemma Empties()
    ensures WorkIndices([]) == multiset{} && PieceIndices([]) == multiset{}
  {
  }

  /** Piece i of the content is the only byte string with the hash listed for it. */
  ghost predicate OnlyPiece(t: Torrent, content: seq<Byte>, i: nat)
    requires i < |t.hashes|
  {
    RangeOk(t, content, i) && forall x :: t.sha1(x) == t.hashes[i] ==> x == content[Begin(t, i)..End(t, i)]
  }

  /** So, if no other bytes have the listed hashes, the buffer is the file itself. */
  lemma ReturnedContent(t: Torrent, steps: seq<Step>, content: seq<Byte>)
    requires Whole(t) && Run(t, steps).Some? && Run(t, steps).value.main.Returned?
    requires |content| == t.length && forall i :: 0 <= i < |t.hashes| ==> OnlyPiece(t, content, i)
    ensures Run(t, steps).value.buf == content
  {
    hide Run;
    var buf := Run(t, steps).value.buf;
    RunInv(t, steps);
    forall k | 0 <= k < t.length ensures buf[k] == content[k] {
      var i := Covers(t, k);
      ReturnedVerified(t, steps, i);
      assert OnlyPiece(t, content, i);
      var b, e := Begin(t, i), End(t, i);
      assert buf[b..e] == content[b..e];
      assert buf[k] == buf[b..e][k - b] && content[k] == content[b..e][k - b];
    }
  }

  /** Every byte belongs to a piece. */
  lemma Covers(t: Torrent, k: nat) returns (i: nat)
    requires Whole(t) && k < t.length
    ensures i < |t.hashes| && Begin(t, i) <= k < End(t, i)
  {
    i := k / t.pieceLength;
    DivMod(k, t.pieceLength);
    DivMod(t.length + t.pieceLength - 1, t.pieceLength);
    if i >= |t.hashes| {
      Scale(|t.hashes|, i, t.pieceLength);
    }
  }

  /** No step is possible. */
  ghost predicate Stuck(t: Torrent, s: State) { forall a :: Apply(t, s, a).None? }

  /** The pool never deadlocks while a worker is left: when nothing can move, the
      download has returned or every worker has exited with pieces outstanding. */
  lemma OnlyStuckWhenAllGone(t: Torrent, steps: seq<Step>)
    requires Whole(t) && Run(t, steps).Some? && Stuck(t, Run(t, steps).value)
    ensures var s := Run(t, steps).value;
      && (forall w :: 0 <= w < |s.workers| ==> s.workers[w].Gone?)
      && (s.main.Returned? || (s.main.Collecting? && |s.received| < |t.hashes| && s.work != []))
  {
    hide Run, WorkIndices, Held, PieceIndices, Upto, RangeOk;
    RunInv(t, steps);
    var s := Run(t, steps).value;
    Totals(t, s);
    NothingHeld(t, steps);
    assert Apply(t, s, Fill).None? && Apply(t, s, Spawn(1)).None? && Apply(t, s, Collect).None? && Apply(t, s, Close).None?;
    HeldNone(s.workers);
    forall w | 0 <= w < |s.workers| ensures s.workers[w].Gone? {
      assert Apply(t, s, Take(w)).None? && Apply(t, s, Leave(w)).None?;
      if s.closed {
        AllReceived(t, s, w);
      }
    }
  }

  lemma NothingHeld(t: Torrent, steps: seq<Step>)
    requires Whole(t) && Run(t, steps).Some? && Stuck(t, Run(t, steps).value)
    ensures var s := Run(t, steps).value;
      forall w :: 0 <= w < |s.workers| ==> s.workers[w].Waiting? || s.workers[w].Gone?
  {
    hide Run;
    var s := Run(t, steps).value;
    forall w | 0 <= w < |s.workers| ensures s.workers[w].Waiting? || s.workers[w].Gone? {
      SendsGoThrough(t, steps, w);
      assert Apply(t, s, Connect(w, true)).None? && Apply(t, s, Skip(w)).None? && Apply(t, s, Check(w)).None?;
    }
  }
}
