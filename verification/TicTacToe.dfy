/** Alpha-beta search on a tic-tac-toe board, against plain minimax. */
module TicTacToe {
  import opened Wrappers

  datatype Mark = Blank | X | O

  type Board = b: seq<Mark> | |b| == 9 witness seq(9, _ => Blank)

  const LINES: seq<(nat, nat, nat)> :=
    [(0, 1, 2), (3, 4, 5), (6, 7, 8), (0, 3, 6), (1, 4, 7), (2, 5, 8), (0, 4, 8), (2, 4, 6)]

  function Other(p: Mark): Mark { if p == X then O else X }

  /** The mark on the first line from i on that is all one player's. */
  function WinnerFrom(b: Board, i: nat): Mark
    decreases 8 - i
  {
    if i >= 8 then Blank
    else
      var l := LINES[i];
      if l.0 < 9 && l.1 < 9 && l.2 < 9 && b[l.0] != Blank && b[l.0] == b[l.1] == b[l.2] then b[l.0] else WinnerFrom(b, i + 1)
  }

  function Winner(b: Board): Mark { WinnerFrom(b, 0) }

  function Blanks(b: seq<Mark>): nat {
    if b == [] then 0 else Blanks(b[..|b| - 1]) + if b[|b| - 1] == Blank then 1 else 0
  }

  lemma {:induction false} BlanksSet(b: seq<Mark>, m: nat, p: Mark)
    requires m < |b| && b[m] == Blank && p != Blank
    ensures Blanks(b[m := p]) + 1 == Blanks(b)
  {
    var n := |b| - 1;
    if m < n {
      BlanksSet(b[..n], m, p);
      assert b[m := p][..n] == b[..n][m := p];
    } else {
      assert b[m := p][..n] == b[..n];
    }
  }

  lemma {:induction false} BlanksNone(b: seq<Mark>)
    ensures Blanks(b) == 0 <==> Blank !in b
    ensures Blanks(b) <= |b|
  {
    if b != [] {
      BlanksNone(b[..|b| - 1]);
      assert b == b[..|b| - 1] + [b[|b| - 1]];
    }
  }

  // ----- plain minimax -----

  function Play(b: Board, m: nat, p: Mark): (r: Board)
    requires m < 9 && b[m] == Blank && p != Blank
    ensures Blanks(r) < Blanks(b)
  {
    BlanksSet(b, m, p);
    b[m := p]
  }

  /** The value of a position for `me`: a win is better the sooner it comes. */
  function Plain(b: Board, player: Mark, me: Mark, depth: nat): int
    requires player != Blank
    decreases Blanks(b), 1, 0
  {
    if Winner(b) != Blank then (if Winner(b) == me then 10 - depth else depth - 10)
    else if Blanks(b) == 0 then 0
    else PlainOver(b, player, me, depth, 9)
  }

  /** The best value over moves to cells before n. */
  function PlainOver(b: Board, player: Mark, me: Mark, depth: nat, n: nat): int
    requires player != Blank && n <= 9
    decreases Blanks(b), 0, n
  {
    if n == 0 then Worst(player, me)
    else
      var best := PlainOver(b, player, me, depth, n - 1);
      if b[n - 1] != Blank then best
      else Better(player, me, best, Plain(Play(b, n - 1, player), Other(player), me, depth + 1))
  }

  function Worst(player: Mark, me: Mark): int { if player == me then -10 else 10 }

  function Better(player: Mark, me: Mark, x: int, y: int): int {
    if player == me then (if x < y then y else x) else if y < x then y else x
  }

  /** Values lie within ten, strictly inside once a move has been made. */
  lemma {:induction false} PlainRange(b: Board, player: Mark, me: Mark, depth: nat)
    requires player != Blank && depth + Blanks(b) <= 9
    ensures -10 + depth <= Plain(b, player, me, depth) <= 10 - depth
    decreases Blanks(b), 1, 0
  {
    if Winner(b) == Blank && Blanks(b) != 0 {
      PlainOverRange(b, player, me, depth, 9);
      BlanksNone(b);
      var m :| 0 <= m < 9 && b[m] == Blank;
    }
  }

  lemma {:induction false} PlainOverRange(b: Board, player: Mark, me: Mark, depth: nat, n: nat)
    requires player != Blank && n <= 9 && depth + Blanks(b) <= 9 && Winner(b) == Blank
    ensures var v := PlainOver(b, player, me, depth, n);
      && -10 <= v <= 10
      && ((exists m :: 0 <= m < n && b[m] == Blank) ==> -10 + depth < v < 10 - depth)
      && (!(exists m :: 0 <= m < n && b[m] == Blank) ==> v == Worst(player, me))
    decreases Blanks(b), 0, n
  {
    if n > 0 {
      PlainOverRange(b, player, me, depth, n - 1);
      if b[n - 1] == Blank {
        PlainRange(Play(b, n - 1, player), Other(player), me, depth + 1);
      }
    }
  }

  /** The value is reached by a move and beaten by none. */
  lemma {:induction false} PlainIsBest(b: Board, player: Mark, me: Mark, depth: nat, n: nat, m: nat)
    requires player != Blank && m < n <= 9 && b[m] == Blank
    ensures var v := PlainOver(b, player, me, depth, n); var w := Plain(Play(b, m, player), Other(player), me, depth + 1);
      Better(player, me, v, w) == v
    decreases n
  {
    if m < n - 1 {
      PlainIsBest(b, player, me, depth, n - 1, m);
    }
  }

  // ----- alpha-beta -----

  /** A search result in a window: exact inside it, and on the right side outside. */
  predicate Agrees(r: int, v: int, alpha: int, beta: int) {
    && (alpha < v < beta ==> r == v)
    && (v <= alpha ==> r <= alpha)
    && (v >= beta ==> r >= beta)
  }

  method WinnerOf(b: array<Mark>) returns (w: Mark)
    requires b.Length == 9
    ensures w == Winner(b[..])
  {
    var i := 0;
    while i < 8
      invariant i <= 8 && WinnerFrom(b[..], i) == Winner(b[..])
    {
      var l := LINES[i];
      if l.0 < 9 && l.1 < 9 && l.2 < 9 && b[l.0] != Blank && b[l.0] == b[l.1] && b[l.1] == b[l.2] { return b[l.0]; }
      i := i + 1;
    }
    return Blank;
  }

  method Moves(b: array<Mark>) returns (any: bool)
    requires b.Length == 9
    ensures any == (Blanks(b[..]) != 0)
  {
    BlanksNone(b[..]);
    var i := 0;
    while i < 9
      invariant i <= 9 && forall j :: 0 <= j < i ==> b[j] != Blank
    {
      if b[i] == Blank {
        assert b[..][i] == Blank;
        return true;
      }
      i := i + 1;
    }
    return false;
  }

  /** Searches with cut-offs, leaving the board as it was. */
  method Minimax(b: array<Mark>, player: Mark, me: Mark, alpha: int, beta: int, depth: nat) returns (best: int)
    requires b.Length == 9 && player != Blank && alpha < beta && depth + Blanks(b[..]) <= 9
    modifies b
    ensures b[..] == old(b[..]) && Agrees(best, old(Plain(b[..], player, me, depth)), alpha, beta)
    decreases Blanks(b[..])
  {
    hide Plain, PlainOver, Winner, Blanks;
    ghost var b0: Board := b[..];
    PlainCases(b0, player, me, depth);
    var w := WinnerOf(b);
    if w != Blank { return if w == me then 10 - depth else depth - 10; }
    var any := Moves(b);
    if !any { return 0; }
    var lo, hi := alpha, beta;
    best := Worst(player, me);
    var m := 0;
    OverNone(b0, player, me, depth);
    while m < 9
      invariant m <= 9 && b[..] == b0
      invariant Tracks(best, PlainOver(b0, player, me, depth, m), alpha, beta, lo, hi, player == me)
    {
      OverNext(b0, player, me, depth, m);
      if b[m] != Blank {
        m := m + 1;
        continue;
      }
      b[m] := player;
      assert b[..] == Play(b0, m, player);
      BlanksSet(b0, m, player);
      ghost var was := best;
      var s := Minimax(b, Other(player), me, lo, hi, depth + 1);
      b[m] := Blank;
      assert b[..] == b0;
      PlainRange(Play(b0, m, player), Other(player), me, depth + 1);
      best := Better(player, me, best, s);
      if player == me { lo := if lo < best then best else lo; } else { hi := if best < hi then best else hi; }
      m := m + 1;
      if hi <= lo {
        CutOff(b0, player, me, depth, m);
        break;
      }
    }
  }

  /** The running best against the plain best so far, while the window is open. */
  ghost predicate Tracks(best: int, v: int, alpha: int, beta: int, lo: int, hi: int, maximizing: bool) {
    && lo < hi && Agrees(best, v, alpha, beta)
    && (if maximizing then hi == beta && (lo == (if alpha < best then best else alpha) || (lo == alpha && best == v == -10))
        else lo == alpha && (hi == (if best < beta then best else beta) || (hi == beta && best == v == 10)))
  }

  lemma PlainCases(b: Board, player: Mark, me: Mark, depth: nat)
    requires player != Blank
    ensures Plain(b, player, me, depth)
         == if Winner(b) != Blank then (if Winner(b) == me then 10 - depth else depth - 10)
            else if Blanks(b) == 0 then 0 else PlainOver(b, player, me, depth, 9)
  {
  }

  lemma OverNone(b: Board, player: Mark, me: Mark, depth: nat)
    requires player != Blank
    ensures PlainOver(b, player, me, depth, 0) == Worst(player, me)
  {
  }

  lemma OverNext(b: Board, player: Mark, me: Mark, depth: nat, m: nat)
    requires player != Blank && m < 9
    ensures var best := PlainOver(b, player, me, depth, m);
      PlainOver(b, player, me, depth, m + 1)
      == if b[m] != Blank then best else Better(player, me, best, Plain(Play(b, m, player), Other(player), me, depth + 1))
  {
  }

  /** Later moves only improve on a cut-off. */
  lemma {:induction false} CutOff(b: Board, player: Mark, me: Mark, depth: nat, m: nat)
    requires player != Blank && m <= 9
    ensures var v := PlainOver(b, player, me, depth, m); var all := PlainOver(b, player, me, depth, 9);
      if player == me then all >= v else all <= v
    decreases 9 - m
  {
    hide PlainOver;
    if m < 9 {
      OverNext(b, player, me, depth, m);
      CutOff(b, player, me, depth, m + 1);
    }
  }

  /** What a move leads to. */
  function Worth(b: Board, m: nat, player: Mark): int
    requires m < 9 && b[m] == Blank && player != Blank
  {
    Plain(Play(b, m, player), Other(player), player, 1)
  }

  /** The first of the best moves. */
  ghost predicate FirstBest(b: Board, m: nat, player: Mark)
    requires player != Blank
  {
    && m < 9 && b[m] == Blank
    && (forall j :: 0 <= j < 9 && b[j] == Blank ==> Worth(b, j, player) <= Worth(b, m, player))
    && (forall j :: 0 <= j < m && b[j] == Blank ==> Worth(b, j, player) < Worth(b, m, player))
  }

  /** The first of the best moves, if there is any move. */
  method BestMove(b: array<Mark>, player: Mark) returns (pick: Option<nat>)
    requires b.Length == 9 && player != Blank
    modifies b
    ensures b[..] == old(b[..])
    ensures pick == None <==> Blanks(old(b[..])) == 0
    ensures pick.Some? ==> FirstBest(old(b[..]), pick.value, player)
  {
    hide Plain, Winner, Blanks;
    ghost var b0: Board := b[..];
    BlanksNone(b0);
    var best := -99;
    pick := None;
    var m := 0;
    while m < 9
      invariant m <= 9 && b[..] == b0
      invariant pick.None? ==> best == -99 && forall j :: 0 <= j < m ==> b0[j] != Blank
      invariant pick.Some? ==> pick.value < m && b0[pick.value] == Blank && best == Worth(b0, pick.value, player)
      invariant pick.Some? ==> forall j :: 0 <= j < m && b0[j] == Blank ==> Worth(b0, j, player) <= best && (j < pick.value ==> Worth(b0, j, player) < best)
    {
      if b[m] == Blank {
        b[m] := player;
        assert b[..] == Play(b0, m, player);
        BlanksSet(b0, m, player);
        PlainRange(Play(b0, m, player), Other(player), player, 1);
        var s := Minimax(b, Other(player), player, -10, 10, 1);
        b[m] := Blank;
        assert b[..] == b0;
        if s > best { best, pick := s, Some(m); }
      }
      m := m + 1;
    }
  }

  // ----- it is never beaten from a position that is not lost -----

  /** A best move is worth what the position is worth. */
  lemma BestIsValue(b: Board, m: nat, player: Mark)
    requires player != Blank && FirstBest(b, m, player) && Winner(b) == Blank
    ensures Worth(b, m, player) == Plain(b, player, player, 0)
  {
    hide Plain;
    BlanksNone(b);
    PlainCases(b, player, player, 0);
    BestOver(b, m, player, 9);
  }

  lemma {:induction false} BestOver(b: Board, m: nat, player: Mark, n: nat)
    requires player != Blank && FirstBest(b, m, player) && n <= 9
    ensures var v := PlainOver(b, player, player, 0, n);
      if m < n then v == Worth(b, m, player) else v <= Worth(b, m, player)
    decreases n
  {
    hide Plain, Blanks;
    BlanksSet(b, m, player);
    BlanksNone(b);
    PlainRange(Play(b, m, player), Other(player), player, 1);
    if n > 0 {
      BestOver(b, m, player, n - 1);
      OverNext(b, player, player, 0, n - 1);
    }
  }

  /** A reply of the other player, best or not, makes nothing worse. */
  lemma ReplyIsNoWorse(b: Board, player: Mark, me: Mark, depth: nat, r: nat)
    requires player != Blank && player != me && Winner(b) == Blank && r < 9 && b[r] == Blank
    ensures Plain(Play(b, r, player), Other(player), me, depth + 1) >= Plain(b, player, me, depth)
  {
    hide Plain;
    BlanksNone(b);
    PlainCases(b, player, me, depth);
    PlainIsBest(b, player, me, depth, 9, r);
  }

  /** Two moves later in the search a win counts less and a loss less badly; which
      of them it is, or a draw, does not change. */
  lemma {:induction false} LaterSign(b: Board, player: Mark, me: Mark, d: nat, e: nat)
    requires player != Blank && d + Blanks(b) <= 9 && e + Blanks(b) <= 9
    ensures Plain(b, player, me, d) >= 0 <==> Plain(b, player, me, e) >= 0
    decreases Blanks(b), 1, 0
  {
    if Winner(b) == Blank && Blanks(b) != 0 {
      LaterOver(b, player, me, d, e, 9);
    }
  }

  lemma {:induction false} LaterOver(b: Board, player: Mark, me: Mark, d: nat, e: nat, n: nat)
    requires player != Blank && n <= 9 && d + Blanks(b) <= 9 && e + Blanks(b) <= 9
    ensures PlainOver(b, player, me, d, n) >= 0 <==> PlainOver(b, player, me, e, n) >= 0
    decreases Blanks(b), 0, n
  {
    if n > 0 {
      LaterOver(b, player, me, d, e, n - 1);
      if b[n - 1] == Blank {
        LaterSign(Play(b, n - 1, player), Other(player), me, d + 1, e + 1);
      }
    }
  }

  /** One round: a best move of the player, then any reply. */
  ghost predicate Round(b: Board, b': Board, player: Mark)
    requires player != Blank
  {
    exists m, r ::
      && Winner(b) == Blank && FirstBest(b, m, player) && Winner(Play(b, m, player)) == Blank
      && 0 <= r < 9 && Play(b, m, player)[r] == Blank && b' == Play(Play(b, m, player), r, Other(player))
  }

  /** A round does not make a position that is not lost a lost one. */
  lemma RoundKeeps(b: Board, b': Board, player: Mark)
    requires player != Blank && Round(b, b', player) && Plain(b, player, player, 0) >= 0
    ensures Plain(b', player, player, 0) >= 0 && Winner(b') != Other(player)
  {
    hide Plain, Blanks, Winner;
    var m, r :|
      && Winner(b) == Blank && FirstBest(b, m, player) && Winner(Play(b, m, player)) == Blank
      && 0 <= r < 9 && Play(b, m, player)[r] == Blank && b' == Play(Play(b, m, player), r, Other(player));
    BestIsValue(b, m, player);
    ReplyIsNoWorse(Play(b, m, player), Other(player), player, 1, r);
    assert Other(Other(player)) == player;
    BlanksNone(b);
    BlanksSet(b, m, player);
    BlanksSet(Play(b, m, player), r, Other(player));
    LaterSign(b', player, player, 0, 2);
    PlainCases(b', player, player, 2);
  }

  /** From a position worth at least a draw, a player who always takes the move that
      `BestMove` picks is never beaten, whatever the other one plays. */
  lemma {:induction false} NeverBeaten(bs: seq<Board>, player: Mark)
    requires player != Blank && |bs| > 0 && Plain(bs[0], player, player, 0) >= 0
    requires forall i :: 0 <= i < |bs| - 1 ==> Round(bs[i], bs[i + 1], player)
    ensures Plain(bs[|bs| - 1], player, player, 0) >= 0 && Winner(bs[|bs| - 1]) != Other(player)
  {
    hide Plain, Round, Winner;
    var n := |bs| - 1;
    if n == 0 {
      PlainCases(bs[0], player, player, 0);
    } else {
      NeverBeaten(bs[..n], player);
      assert Round(bs[n - 1], bs[n], player);
      RoundKeeps(bs[n - 1], bs[n], player);
    }
  }
}
