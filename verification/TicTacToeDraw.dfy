/** Neither player can force a win from the empty board. The main tool is a count of the
    other player's lines: a line none of whose cells is mine weighs 1, doubled for each
    mark on it, so a finished one weighs 8. While the lines weigh less than 8 on my turn
    I can hold: I take the cell through which most weight goes. */
module TicTacToeDraw {
  import opened TicTacToe

  // ----- lines -----

  function Twice(m: Mark, n: nat): nat { if m == Blank then n else 2 * n }

  /** The weight of a line for the player other than `me`. */
  function Weight(x: Mark, y: Mark, z: Mark, me: Mark): nat {
    if x == me || y == me || z == me then 0 else Twice(x, Twice(y, Twice(z, 1)))
  }

  function Danger(b: Board, me: Mark): nat {
    Weight(b[0], b[1], b[2], me) + Weight(b[3], b[4], b[5], me) + Weight(b[6], b[7], b[8], me)
    + Weight(b[0], b[3], b[6], me) + Weight(b[1], b[4], b[7], me) + Weight(b[2], b[5], b[8], me)
    + Weight(b[0], b[4], b[8], me) + Weight(b[2], b[4], b[6], me)
  }

  /** The weight of the lines through a cell. */
  function Through(b: Board, me: Mark, c: nat): nat {
    (if c == 0 || c == 1 || c == 2 then Weight(b[0], b[1], b[2], me) else 0)
    + (if c == 3 || c == 4 || c == 5 then Weight(b[3], b[4], b[5], me) else 0)
    + (if c == 6 || c == 7 || c == 8 then Weight(b[6], b[7], b[8], me) else 0)
    + (if c == 0 || c == 3 || c == 6 then Weight(b[0], b[3], b[6], me) else 0)
    + (if c == 1 || c == 4 || c == 7 then Weight(b[1], b[4], b[7], me) else 0)
    + (if c == 2 || c == 5 || c == 8 then Weight(b[2], b[5], b[8], me) else 0)
    + (if c == 0 || c == 4 || c == 8 then Weight(b[0], b[4], b[8], me) else 0)
    + (if c == 2 || c == 4 || c == 6 then Weight(b[2], b[4], b[6], me) else 0)
  }

  predicate All(x: Mark, y: Mark, z: Mark, p: Mark) { x == p && y == p && z == p }

  predicate HasLine(b: Board, p: Mark) {
    || All(b[0], b[1], b[2], p) || All(b[3], b[4], b[5], p) || All(b[6], b[7], b[8], p)
    || All(b[0], b[3], b[6], p) || All(b[1], b[4], b[7], p) || All(b[2], b[5], b[8], p)
    || All(b[0], b[4], b[8], p) || All(b[2], b[4], b[6], p)
  }

  /** Two marks of a player and a blank. */
  predicate Open(x: Mark, y: Mark, z: Mark, p: Mark) {
    (x == Blank && y == p && z == p) || (x == p && y == Blank && z == p) || (x == p && y == p && z == Blank)
  }

  predicate CanWin(b: Board, p: Mark) {
    || Open(b[0], b[1], b[2], p) || Open(b[3], b[4], b[5], p) || Open(b[6], b[7], b[8], p)
    || Open(b[0], b[3], b[6], p) || Open(b[1], b[4], b[7], p) || Open(b[2], b[5], b[8], p)
    || Open(b[0], b[4], b[8], p) || Open(b[2], b[4], b[6], p)
  }

  lemma {:induction false} WinnerHas(b: Board, i: nat)
    requires i <= 8
    ensures WinnerFrom(b, i) != Blank ==> HasLine(b, WinnerFrom(b, i))
    decreases 8 - i
  {
    if i < 8 {
      WinnerHas(b, i + 1);
    }
  }

  lemma {:induction false} NoneFrom(b: Board, i: nat)
    requires i <= 8 && WinnerFrom(b, i) == Blank
    ensures forall j :: i <= j < 8 ==> !Uniform(b, j)
    decreases 8 - i
  {
    if i < 8 {
      NoneFrom(b, i + 1);
    }
  }

  ghost predicate Uniform(b: Board, j: nat)
    requires j < 8
  {
    var l := LINES[j];
    l.0 < 9 && l.1 < 9 && l.2 < 9 && b[l.0] != Blank && b[l.0] == b[l.1] == b[l.2]
  }

  lemma NoWinnerNoLine(b: Board, p: Mark)
    requires Winner(b) == Blank && p != Blank
    ensures !HasLine(b, p)
  {
    NoneFrom(b, 0);
    assert !Uniform(b, 0) && !Uniform(b, 1) && !Uniform(b, 2) && !Uniform(b, 3);
    assert !Uniform(b, 4) && !Uniform(b, 5) && !Uniform(b, 6) && !Uniform(b, 7);
  }

  /** A winner has a line; if only I have one I am the winner. */
  lemma WinnerIs(b: Board, me: Mark)
    requires me != Blank && !HasLine(b, Other(me))
    ensures Winner(b) == if HasLine(b, me) then me else Blank
  {
    WinnerHas(b, 0);
    if Winner(b) == Blank {
      NoWinnerNoLine(b, me);
    }
  }

  // ----- what a move does to the weights -----

  /** My mark kills the lines through its cell. */
  lemma MineMove(b: Board, r: nat, me: Mark, m: nat)
    requires r < 9 && b[r] == Blank && me != Blank && m < 9
    ensures Danger(Play(b, r, me), me) == Danger(b, me) - Through(b, me, r)
    ensures Through(Play(b, r, me), me, m) <= Through(b, me, m)
  {
  }

  /** The other one's mark doubles them. */
  lemma TheirMove(b: Board, m: nat, me: Mark)
    requires m < 9 && b[m] == Blank && me != Blank
    ensures Danger(Play(b, m, Other(me)), me) == Danger(b, me) + Through(b, me, m)
  {
    TheirLine(b, m, me, 0, 1, 2);
    TheirLine(b, m, me, 3, 4, 5);
    TheirLine(b, m, me, 6, 7, 8);
    TheirLine(b, m, me, 0, 3, 6);
    TheirLine(b, m, me, 1, 4, 7);
    TheirLine(b, m, me, 2, 5, 8);
    TheirLine(b, m, me, 0, 4, 8);
    TheirLine(b, m, me, 2, 4, 6);
    hide Weight, Play;
  }

  lemma TheirLine(b: Board, m: nat, me: Mark, i: nat, j: nat, k: nat)
    requires m < 9 && b[m] == Blank && me != Blank && i < j < k < 9
    ensures var b', w := Play(b, m, Other(me)), Weight(b[i], b[j], b[k], me);
      Weight(b'[i], b'[j], b'[k], me) == if m == i || m == j || m == k then 2 * w else w
  {
  }

  lemma LineWeighs(b: Board, me: Mark)
    requires me != Blank && HasLine(b, Other(me))
    ensures Danger(b, me) >= 8
  {
  }

  // ----- holding by weight -----

  /** If every move of the other player leaves me a position I hold, I hold. */
  lemma {:induction false} OverHolds(b: Board, me: Mark, depth: nat, n: nat)
    requires me != Blank && n <= 9
    requires forall m :: 0 <= m < n && b[m] == Blank ==> Plain(Play(b, m, Other(me)), me, me, depth + 1) >= 0
    ensures PlainOver(b, Other(me), me, depth, n) >= 0
  {
    hide Plain, PlainOver;
    OverNone(b, Other(me), me, depth);
    if n > 0 {
      OverHolds(b, me, depth, n - 1);
      OverNext(b, Other(me), me, depth, n - 1);
    }
  }

  lemma NoNewLine(b: Board, r: nat, me: Mark)
    requires me != Blank && r < 9 && b[r] == Blank && !HasLine(b, Other(me))
    ensures !HasLine(Play(b, r, me), Other(me))
  {
  }

  /** A move of mine that wins, or after which every answer leaves me a position I
      hold, means that I hold now. */
  lemma ReplyHolds(b: Board, r: nat, me: Mark, depth: nat)
    requires me != Blank && r < 9 && b[r] == Blank && !HasLine(b, Other(me)) && depth + Blanks(b) <= 9
    requires HasLine(Play(b, r, me), me) || forall m :: 0 <= m < 9 && Play(b, r, me)[m] == Blank ==>
      Plain(Play(Play(b, r, me), m, Other(me)), me, me, depth + 2) >= 0
    ensures Plain(b, me, me, depth) >= 0
  {
    hide Plain, PlainOver, Winner, HasLine, Play, Blanks;
    var b1 := Play(b, r, me);
    NoNewLine(b, r, me);
    WinnerIs(b, me);
    WinnerIs(b1, me);
    BlanksNone(b);
    BlanksPlay(b, r, me);
    PlainCases(b, me, me, depth);
    PlainCases(b1, Other(me), me, depth + 1);
    if !HasLine(b1, me) {
      OverHolds(b1, me, depth + 1, 9);
    }
    if Winner(b) == Blank {
      PlainIsBest(b, me, me, depth, 9, r);
    }
  }

  /** The blank cell through which most weight goes. */
  lemma {:induction false} Heaviest(b: Board, me: Mark, n: nat) returns (r: nat)
    requires n <= 9 && exists m :: 0 <= m < n && b[m] == Blank
    ensures r < n && b[r] == Blank && forall m :: 0 <= m < n && b[m] == Blank ==> Through(b, me, m) <= Through(b, me, r)
  {
    hide Through;
    if exists m :: 0 <= m < n - 1 && b[m] == Blank {
      r := Heaviest(b, me, n - 1);
      if b[n - 1] == Blank && Through(b, me, n - 1) > Through(b, me, r) {
        r := n - 1;
      }
    } else {
      r := n - 1;
    }
  }

  /** On my turn lines that weigh less than 8 in all are enough. */
  lemma {:induction false} LightHolds(b: Board, me: Mark, depth: nat)
    requires me != Blank && Danger(b, me) < 8 && depth + Blanks(b) <= 9
    ensures Plain(b, me, me, depth) >= 0
    decreases Blanks(b)
  {
    if HasLine(b, Other(me)) {
      LineWeighs(b, me);
    }
    hide Danger, HasLine, Through, Plain, Winner, Play;
    BlanksNone(b);
    if Blanks(b) == 0 {
      WinnerIs(b, me);
      PlainCases(b, me, me, depth);
    } else {
      var r := Heaviest(b, me, 9);
      var b1 := Play(b, r, me);
      forall m | 0 <= m < 9 && b1[m] == Blank ensures Plain(Play(b1, m, Other(me)), me, me, depth + 2) >= 0 {
        assert b[m] == Blank by { PlayKeeps(b, r, me, m); }
        MineMove(b, r, me, m);
        TheirMove(b1, m, me);
        BlanksPlay(b, r, me);
        BlanksPlay(b1, m, Other(me));
        LightHolds(Play(b1, m, Other(me)), me, depth + 2);
      }
      ReplyHolds(b, r, me, depth);
    }
  }

  lemma PlayKeeps(b: Board, r: nat, p: Mark, m: nat)
    requires r < 9 && m < 9 && b[r] == Blank && p != Blank && Play(b, r, p)[m] == Blank
    ensures b[m] == Blank
  {
  }

  lemma BlanksPlay(b: Board, r: nat, p: Mark)
    requires r < 9 && b[r] == Blank && p != Blank
    ensures Blanks(Play(b, r, p)) + 1 == Blanks(b)
  {
    BlanksSet(b, r, p);
  }

  /** A line with two of my marks and a blank is a win at once. */
  lemma OpenHolds(b: Board, me: Mark, depth: nat)
    requires me != Blank && CanWin(b, me) && !HasLine(b, Other(me)) && depth + Blanks(b) <= 9
    ensures Plain(b, me, me, depth) >= 0
  {
    var r := WinningCell(b, me);
    hide HasLine, CanWin;
    ReplyHolds(b, r, me, depth);
  }

  lemma WinningCell(b: Board, p: Mark) returns (r: nat)
    requires p != Blank && CanWin(b, p)
    ensures r < 9 && b[r] == Blank && HasLine(Play(b, r, p), p)
  {
    assert Wins(b, 0, p) || Wins(b, 1, p) || Wins(b, 2, p) || Wins(b, 3, p) || Wins(b, 4, p)
      || Wins(b, 5, p) || Wins(b, 6, p) || Wins(b, 7, p) || Wins(b, 8, p);
    var i: nat :| Wins(b, i, p);
    r := i;
    assert Wins(b, r, p);
  }

  predicate Wins(b: Board, r: nat, p: Mark) { r < 9 && p != Blank && b[r] == Blank && HasLine(Play(b, r, p), p) }

  // ----- holding by answers -----

  /** I hold on my turn: the lines are light, or I can win, or I have an answer to go on
      with, k moves deep at most. */
  ghost predicate Held(b: Board, me: Mark, k: nat)
    requires me != Blank
    decreases k, 1
  {
    && !HasLine(b, Other(me))
    && (Danger(b, me) < 8 || CanWin(b, me) || (k > 0 && exists r :: 0 <= r < 9 && Answer(b, r, me, k)))
  }

  ghost predicate Answer(b: Board, r: nat, me: Mark, k: nat)
    requires me != Blank && r < 9 && k > 0
    decreases k, 0
  {
    b[r] == Blank && forall m :: 0 <= m < 9 && Play(b, r, me)[m] == Blank ==> Held(Play(Play(b, r, me), m, Other(me)), me, k - 1)
  }

  lemma {:induction false} HeldHolds(b: Board, me: Mark, k: nat, depth: nat)
    requires me != Blank && Held(b, me, k) && depth + Blanks(b) <= 9
    ensures Plain(b, me, me, depth) >= 0
    decreases k
  {
    hide Danger, HasLine, CanWin, Plain, Play, Blanks;
    if Danger(b, me) < 8 {
      LightHolds(b, me, depth);
    } else if CanWin(b, me) {
      OpenHolds(b, me, depth);
    } else {
      var r :| 0 <= r < 9 && Answer(b, r, me, k);
      var b1 := Play(b, r, me);
      forall m | 0 <= m < 9 && b1[m] == Blank ensures Plain(Play(b1, m, Other(me)), me, me, depth + 2) >= 0 {
        BlanksPlay(b, r, me);
        BlanksPlay(b1, m, Other(me));
        HeldHolds(Play(b1, m, Other(me)), me, k - 1, depth + 2);
      }
      ReplyHolds(b, r, me, depth);
    }
  }

  lemma {:induction false} HeldLonger(b: Board, me: Mark, k: nat, n: nat)
    requires me != Blank && Held(b, me, k) && k <= n
    ensures Held(b, me, n)
    decreases k
  {
    hide Danger, HasLine, CanWin, Play;
    if !(Danger(b, me) < 8) && !CanWin(b, me) {
      var r :| 0 <= r < 9 && Answer(b, r, me, k);
      var b1 := Play(b, r, me);
      forall m | 0 <= m < 9 && b1[m] == Blank ensures Held(Play(b1, m, Other(me)), me, n - 1) {
        HeldLonger(Play(b1, m, Other(me)), me, k - 1, n - 1);
      }
      assert Answer(b, r, me, n);
    }
  }

  // ----- the symmetries of the board -----

  const TURN: seq<nat> := [6, 3, 0, 7, 4, 1, 8, 5, 2]
  const BACK: seq<nat> := [2, 5, 8, 1, 4, 7, 0, 3, 6]
  const FLIP: seq<nat> := [0, 3, 6, 1, 4, 7, 2, 5, 8]

  ghost predicate Inverse(s: seq<nat>, t: seq<nat>) {
    && |s| == |t| == 9
    && (forall i :: 0 <= i < 9 ==> s[i] < 9 && t[i] < 9)
    && forall i :: 0 <= i < 9 ==> s[t[i]] == i && t[s[i]] == i
  }

  function Moved(b: Board, s: seq<nat>): Board
    requires |s| == 9 && forall i :: 0 <= i < 9 ==> s[i] < 9
  {
    [b[s[0]], b[s[1]], b[s[2]], b[s[3]], b[s[4]], b[s[5]], b[s[6]], b[s[7]], b[s[8]]]
  }

  /** Moving the cells takes lines to lines. */
  ghost predicate Symmetry(s: seq<nat>, t: seq<nat>) {
    && Inverse(s, t)
    && (forall b: Board, p :: Danger(Moved(b, s), p) == Danger(b, p))
    && (forall b: Board, p :: HasLine(Moved(b, s), p) == HasLine(b, p))
    && (forall b: Board, p :: CanWin(Moved(b, s), p) == CanWin(b, p))
  }

  lemma Reordered(x: Mark, y: Mark, z: Mark, p: Mark)
    ensures Weight(x, y, z, p) == Weight(z, y, x, p)
  {
  }

  lemma TurnWeight(b: Board, p: Mark)
    ensures Danger(Moved(b, TURN), p) == Danger(b, p)
  {
    hide Weight;
    Reordered(b[6], b[3], b[0], p);
    Reordered(b[7], b[4], b[1], p);
    Reordered(b[8], b[5], b[2], p);
    Reordered(b[6], b[4], b[2], p);
  }

  lemma TurnLines(b: Board, p: Mark)
    ensures HasLine(Moved(b, TURN), p) == HasLine(b, p) && CanWin(Moved(b, TURN), p) == CanWin(b, p)
  {
  }

  lemma FlipWeight(b: Board, p: Mark)
    ensures Danger(Moved(b, FLIP), p) == Danger(b, p)
  {
    hide Weight;
    Reordered(b[2], b[4], b[6], p);
  }

  lemma FlipLines(b: Board, p: Mark)
    ensures HasLine(Moved(b, FLIP), p) == HasLine(b, p) && CanWin(Moved(b, FLIP), p) == CanWin(b, p)
  {
  }

  lemma Symmetries()
    ensures Symmetry(TURN, BACK) && Symmetry(FLIP, FLIP)
  {
    hide Danger, HasLine, CanWin, Moved;
    forall b: Board, p
      ensures Danger(Moved(b, TURN), p) == Danger(b, p) && Danger(Moved(b, FLIP), p) == Danger(b, p)
      ensures HasLine(Moved(b, TURN), p) == HasLine(b, p) && HasLine(Moved(b, FLIP), p) == HasLine(b, p)
      ensures CanWin(Moved(b, TURN), p) == CanWin(b, p) && CanWin(Moved(b, FLIP), p) == CanWin(b, p)
    {
      TurnWeight(b, p);
      TurnLines(b, p);
      FlipWeight(b, p);
      FlipLines(b, p);
    }
  }

  lemma MovedPlay(b: Board, s: seq<nat>, t: seq<nat>, r: nat, p: Mark)
    requires Inverse(s, t) && r < 9 && b[r] == Blank && p != Blank
    ensures Moved(b, s)[t[r]] == Blank && Moved(Play(b, r, p), s) == Play(Moved(b, s), t[r], p)
  {
  }

  lemma {:induction false} HeldMoved(b: Board, me: Mark, k: nat, s: seq<nat>, t: seq<nat>)
    requires me != Blank && Symmetry(s, t) && Held(b, me, k)
    ensures Held(Moved(b, s), me, k)
    decreases k
  {
    hide Danger, HasLine, CanWin, Play, Moved;
    if !(Danger(b, me) < 8) && !CanWin(b, me) {
      var r :| 0 <= r < 9 && Answer(b, r, me, k);
      var b1 := Play(b, r, me);
      MovedPlay(b, s, t, r, me);
      var c1 := Play(Moved(b, s), t[r], me);
      forall m | 0 <= m < 9 && c1[m] == Blank ensures Held(Play(c1, m, Other(me)), me, k - 1) {
        MovedAt(b1, s, m);
        MovedPlay(b1, s, t, s[m], Other(me));
        HeldMoved(Play(b1, s[m], Other(me)), me, k - 1, s, t);
      }
      assert Answer(Moved(b, s), t[r], me, k);
    }
  }

  lemma MovedAt(b: Board, s: seq<nat>, m: nat)
    requires |s| == 9 && m < 9 && forall i :: 0 <= i < 9 ==> s[i] < 9
    ensures Moved(b, s)[m] == b[s[m]]
  {
  }

  /** A position held is held turned, and flipped. */
  lemma Turned(b: Board, c: Board, k: nat)
    requires Held(b, O, k) && c == Moved(b, TURN)
    ensures Held(c, O, k)
  {
    hide Held, Symmetry;
    Symmetries();
    HeldMoved(b, O, k, TURN, BACK);
  }

  lemma Flipped(b: Board, c: Board, k: nat)
    requires Held(b, O, k) && c == Moved(b, FLIP)
    ensures Held(c, O, k)
  {
    hide Held, Symmetry;
    Symmetries();
    HeldMoved(b, O, k, FLIP, FLIP);
  }

  // ----- the answers of the second player -----

  const E: Mark := Blank

  /** The first player's move to m, after the second one's to r, is met. */
  ghost predicate Met(b: Board, r: nat, m: nat, k: nat)
    requires r < 9 && m < 9 && k > 0
  {
    b[r] == Blank && (Play(b, r, O)[m] == Blank ==> Held(Play(Play(b, r, O), m, X), O, k - 1))
  }

  lemma Answered(b: Board, r: nat, k: nat)
    requires r < 9 && k > 0 && !HasLine(b, X)
    requires Met(b, r, 0, k) && Met(b, r, 1, k) && Met(b, r, 2, k) && Met(b, r, 3, k) && Met(b, r, 4, k)
    requires Met(b, r, 5, k) && Met(b, r, 6, k) && Met(b, r, 7, k) && Met(b, r, 8, k)
    ensures Held(b, O, k)
  {
    hide HasLine, Danger, CanWin, Play;
    forall m | 0 <= m < 9 && Play(b, r, O)[m] == Blank ensures Met(b, r, m, k) {
    }
    assert Answer(b, r, O, k);
  }

  lemma SideByCorner()
    ensures Held([X, X, E, E, O, E, E, E, E], O, 1)
  {
    Answered([X, X, E, E, O, E, E, E, E], 2, 1);
  }

  lemma TwoCorners()
    ensures Held([X, E, X, E, O, E, E, E, E], O, 1)
  {
    Answered([X, E, X, E, O, E, E, E, E], 1, 1);
  }

  lemma CornersAndSide()
    ensures Held([X, O, E, E, O, E, E, X, X], O, 1)
  {
    Answered([X, O, E, E, O, E, E, X, X], 6, 1);
  }

  lemma AcrossCorners()
    ensures Held([X, E, E, E, O, E, E, E, X], O, 2)
  {
    CornersAndSide();
    var b: Board := [X, E, E, E, O, E, E, E, X];
    assert Play(Play(b, 1, O), 7, X) == [X, O, E, E, O, E, E, X, X];
    Answered(b, 1, 2);
  }

  lemma Corner()
    ensures Held([X, E, E, E, E, E, E, E, E], O, 3)
  {
    SideByCorner();
    HeldLonger([X, X, E, E, O, E, E, E, E], O, 1, 2);
    TwoCorners();
    HeldLonger([X, E, X, E, O, E, E, E, E], O, 1, 2);
    Flipped([X, X, E, E, O, E, E, E, E], [X, E, E, X, O, E, E, E, E], 2);
    Flipped([X, E, X, E, O, E, E, E, E], [X, E, E, E, O, E, X, E, E], 2);
    AcrossCorners();
    var b: Board := [X, E, E, E, E, E, E, E, E];
    assert Play(Play(b, 4, O), 1, X) == [X, X, E, E, O, E, E, E, E];
    assert Play(Play(b, 4, O), 2, X) == [X, E, X, E, O, E, E, E, E];
    assert Play(Play(b, 4, O), 3, X) == [X, E, E, X, O, E, E, E, E];
    assert Play(Play(b, 4, O), 6, X) == [X, E, E, E, O, E, X, E, E];
    assert Play(Play(b, 4, O), 8, X) == [X, E, E, E, O, E, E, E, X];
    Answered(b, 4, 3);
  }

  lemma Side()
    ensures Held([E, X, E, E, E, E, E, E, E], O, 2)
  {
    SideByCorner();
    Flipped([X, X, E, E, O, E, E, E, E], [X, E, E, X, O, E, E, E, E], 1);
    Turned([X, E, E, X, O, E, E, E, E], [E, X, X, E, O, E, E, E, E], 1);
    var b: Board := [E, X, E, E, E, E, E, E, E];
    assert Play(Play(b, 4, O), 0, X) == [X, X, E, E, O, E, E, E, E];
    assert Play(Play(b, 4, O), 2, X) == [E, X, X, E, O, E, E, E, E];
    Answered(b, 4, 2);
  }

  lemma CentreThenSideCorner()
    ensures Held([O, X, X, E, X, E, E, O, E], O, 1)
  {
    Answered([O, X, X, E, X, E, E, O, E], 6, 1);
  }

  lemma CentreThenSides()
    ensures Held([O, X, E, E, X, X, E, O, E], O, 1)
  {
    Answered([O, X, E, E, X, X, E, O, E], 3, 1);
  }

  lemma CentreThenSide()
    ensures Held([O, X, E, E, X, E, E, E, E], O, 2)
  {
    CentreThenSideCorner();
    CentreThenSides();
    var b: Board := [O, X, E, E, X, E, E, E, E];
    assert Play(Play(b, 7, O), 2, X) == [O, X, X, E, X, E, E, O, E];
    assert Play(Play(b, 7, O), 5, X) == [O, X, E, E, X, X, E, O, E];
    Answered(b, 7, 2);
  }

  lemma CentreThenCornerSide()
    ensures Held([O, E, X, X, X, E, O, E, E], O, 1)
  {
    Answered([O, E, X, X, X, E, O, E, E], 5, 1);
  }

  lemma CentreThenCorner()
    ensures Held([O, E, X, E, X, E, E, E, E], O, 2)
  {
    CentreThenCornerSide();
    var b: Board := [O, E, X, E, X, E, E, E, E];
    assert Play(Play(b, 6, O), 3, X) == [O, E, X, X, X, E, O, E, E];
    Answered(b, 6, 2);
  }

  lemma CentreThenFarSideCorner()
    ensures Held([O, E, E, O, X, X, X, E, E], O, 1)
  {
    Answered([O, E, E, O, X, X, X, E, E], 2, 1);
  }

  lemma CentreThenFarSide()
    ensures Held([O, E, E, E, X, X, E, E, E], O, 2)
  {
    CentreThenFarSideCorner();
    var b: Board := [O, E, E, E, X, X, E, E, E];
    assert Play(Play(b, 3, O), 6, X) == [O, E, E, O, X, X, X, E, E];
    Answered(b, 3, 2);
  }

  lemma CentreThenAcross()
    ensures Held([O, E, E, E, X, E, E, E, X], O, 2)
  {
    CentreThenCornerSide();
    Turned([O, E, X, X, X, E, O, E, E], [O, X, O, E, X, E, E, E, X], 1);
    var b: Board := [O, E, E, E, X, E, E, E, X];
    assert Play(Play(b, 2, O), 1, X) == [O, X, O, E, X, E, E, E, X];
    Answered(b, 2, 2);
  }

  lemma CentreBelow()
    ensures Held([O, E, E, X, X, E, E, E, E], O, 2)
    ensures Held([O, E, E, E, X, E, X, E, E], O, 2)
    ensures Held([O, E, E, E, X, E, E, X, E], O, 2)
  {
    CentreThenSide();
    CentreThenCorner();
    CentreThenFarSide();
    Flipped([O, X, E, E, X, E, E, E, E], [O, E, E, X, X, E, E, E, E], 2);
    Flipped([O, E, X, E, X, E, E, E, E], [O, E, E, E, X, E, X, E, E], 2);
    Flipped([O, E, E, E, X, X, E, E, E], [O, E, E, E, X, E, E, X, E], 2);
  }

  lemma Centre()
    ensures Held([E, E, E, E, X, E, E, E, E], O, 3)
  {
    hide Held;
    CentreThenSide();
    CentreThenCorner();
    CentreThenFarSide();
    CentreThenAcross();
    CentreBelow();
    var b: Board := [E, E, E, E, X, E, E, E, E];
    assert Play(Play(b, 0, O), 1, X) == [O, X, E, E, X, E, E, E, E];
    assert Play(Play(b, 0, O), 2, X) == [O, E, X, E, X, E, E, E, E];
    assert Play(Play(b, 0, O), 3, X) == [O, E, E, X, X, E, E, E, E];
    assert Play(Play(b, 0, O), 5, X) == [O, E, E, E, X, X, E, E, E];
    assert Play(Play(b, 0, O), 6, X) == [O, E, E, E, X, E, X, E, E];
    assert Play(Play(b, 0, O), 7, X) == [O, E, E, E, X, E, E, X, E];
    assert Play(Play(b, 0, O), 8, X) == [O, E, E, E, X, E, E, E, X];
    Answered(b, 0, 3);
  }

  // ----- the empty board -----

  const EMPTY: Board := [E, E, E, E, E, E, E, E, E]

  /** The first player takes the centre; from then on the lines are light. */
  lemma FirstHolds()
    ensures Plain(EMPTY, X, X, 0) >= 0
  {
    var b1 := Play(EMPTY, 4, X);
    BlanksPlay(EMPTY, 4, X);
    BlanksNone(EMPTY);
    forall m | 0 <= m < 9 && b1[m] == Blank ensures Plain(Play(b1, m, Other(X)), X, X, 2) >= 0 {
      hide Plain, Blanks;
      TheirMove(b1, m, X);
      BlanksPlay(b1, m, O);
      LightHolds(Play(b1, m, O), X, 2);
    }
    hide Plain, Blanks;
    ReplyHolds(EMPTY, 4, X, 0);
  }

  /** The second player holds whatever the first one opens with. */
  lemma SecondHolds(i: nat)
    requires i < 9
    ensures Plain(Play(EMPTY, i, X), O, O, 0) >= 0
  {
    hide Plain, Blanks, Held;
    Corner();
    Turned([X, E, E, E, E, E, E, E, E], [E, E, X, E, E, E, E, E, E], 3);
    Turned([E, E, X, E, E, E, E, E, E], [E, E, E, E, E, E, E, E, X], 3);
    Turned([E, E, E, E, E, E, E, E, X], [E, E, E, E, E, E, X, E, E], 3);
    Side();
    Turned([E, X, E, E, E, E, E, E, E], [E, E, E, E, E, X, E, E, E], 2);
    Turned([E, E, E, E, E, X, E, E, E], [E, E, E, E, E, E, E, X, E], 2);
    Turned([E, E, E, E, E, E, E, X, E], [E, E, E, X, E, E, E, E, E], 2);
    Centre();
    OpeningAt(i);
    BlanksNone(EMPTY);
    BlanksPlay(EMPTY, i, X);
    HeldHolds(Play(EMPTY, i, X), O, if i % 2 == 1 then 2 else 3, 0);
  }

  lemma OpeningAt(i: nat)
    requires i < 9
    ensures Play(EMPTY, i, X) ==
      if i == 0 then [X, E, E, E, E, E, E, E, E] else if i == 1 then [E, X, E, E, E, E, E, E, E]
      else if i == 2 then [E, E, X, E, E, E, E, E, E] else if i == 3 then [E, E, E, X, E, E, E, E, E]
      else if i == 4 then [E, E, E, E, X, E, E, E, E] else if i == 5 then [E, E, E, E, E, X, E, E, E]
      else if i == 6 then [E, E, E, E, E, E, X, E, E] else if i == 7 then [E, E, E, E, E, E, E, X, E]
      else [E, E, E, E, E, E, E, E, X]
  {
  }

  /** Whoever takes the moves that `BestMove` picks is never beaten: as the first player
      from the empty board, as the second one after any opening. */
  lemma Unbeatable(bs: seq<Board>, player: Mark)
    requires player != Blank && |bs| > 0
    requires if player == X then bs[0] == EMPTY else exists i: nat :: i < 9 && bs[0] == Play(EMPTY, i, X)
    requires forall k :: 0 <= k < |bs| - 1 ==> Round(bs[k], bs[k + 1], player)
    ensures Winner(bs[|bs| - 1]) != Other(player)
  {
    hide Plain, Round, Winner, Play;
    if player == X {
      FirstHolds();
    } else {
      var i: nat :| i < 9 && bs[0] == Play(EMPTY, i, X);
      SecondHolds(i);
    }
    NeverBeaten(bs, player);
  }

  /** What is good for one player is as bad for the other. */
  lemma {:induction false} ZeroSum(b: Board, player: Mark, depth: nat)
    requires player != Blank
    ensures Plain(b, player, X, depth) == -Plain(b, player, O, depth)
    decreases Blanks(b), 1, 0
  {
    if Winner(b) == Blank && Blanks(b) != 0 {
      ZeroSumOver(b, player, depth, 9);
    }
  }

  lemma {:induction false} ZeroSumOver(b: Board, player: Mark, depth: nat, n: nat)
    requires player != Blank && n <= 9
    ensures PlainOver(b, player, X, depth, n) == -PlainOver(b, player, O, depth, n)
    decreases Blanks(b), 0, n
  {
    if n > 0 {
      ZeroSumOver(b, player, depth, n - 1);
      if b[n - 1] == Blank {
        ZeroSum(Play(b, n - 1, player), Other(player), depth + 1);
      }
    }
  }

  lemma {:induction false} NoGain(b: Board, n: nat)
    requires n <= 9 && forall m :: 0 <= m < n && b[m] == Blank ==> Plain(Play(b, m, X), O, X, 1) <= 0
    ensures PlainOver(b, X, X, 0, n) <= 0
  {
    hide Plain, PlainOver;
    OverNone(b, X, X, 0);
    if n > 0 {
      NoGain(b, n - 1);
      OverNext(b, X, X, 0, n - 1);
    }
  }

  /** The game is a draw. */
  lemma GameIsDraw()
    ensures Plain(EMPTY, X, X, 0) == 0
  {
    FirstHolds();
    BlanksNone(EMPTY);
    WinnerIs(EMPTY, X);
    PlainCases(EMPTY, X, X, 0);
    hide Plain, PlainOver, Blanks, Winner, Play;
    forall m | 0 <= m < 9 && EMPTY[m] == Blank ensures Plain(Play(EMPTY, m, X), O, X, 1) <= 0 {
      SecondHolds(m);
      BlanksPlay(EMPTY, m, X);
      LaterSign(Play(EMPTY, m, X), O, O, 0, 1);
      ZeroSum(Play(EMPTY, m, X), O, 1);
    }
    NoGain(EMPTY, 9);
  }
}
