/** The Tetris board: pieces, fitting, locking and clearing lines.

    A piece is four cells in a square box, turned within it. A board
    is twenty rows of ten cells; clearing a row lets the rows above fall by one.
    Counting the occupied cells is what bounds and conserves.
*/
module TetrisBoard {
  const W: nat := 10
  const H: nat := 20

  datatype Kind = I | O | T | S | Z | J | L

  datatype Cell = Cell(x: int, y: int)

  /** Top-left corner of the bounding box, and the number of clockwise turns. */
  datatype Piece = Piece(kind: Kind, rot: nat, x: int, y: int)

  type Row = seq<int>
  type Grid = seq<Row>

  const EMPTY: int := -1

  function Code(k: Kind): int {
    match k case I => 0 case O => 1 case T => 2 case S => 3 case Z => 4 case J => 5 case L => 6
  }

  // ----- pieces -----

  function BaseCells(k: Kind): (r: seq<Cell>)
    ensures |r| == 4
  {
    match k
    case I => [Cell(0, 1), Cell(1, 1), Cell(2, 1), Cell(3, 1)]
    case O => [Cell(1, 0), Cell(2, 0), Cell(1, 1), Cell(2, 1)]
    case T => [Cell(1, 0), Cell(0, 1), Cell(1, 1), Cell(2, 1)]
    case S => [Cell(1, 0), Cell(2, 0), Cell(0, 1), Cell(1, 1)]
    case Z => [Cell(0, 0), Cell(1, 0), Cell(1, 1), Cell(2, 1)]
    case J => [Cell(0, 0), Cell(0, 1), Cell(1, 1), Cell(2, 1)]
    case L => [Cell(2, 0), Cell(0, 1), Cell(1, 1), Cell(2, 1)]
  }

  /** Side of the box a piece turns in. */
  function Box(k: Kind): nat { if k == I then 4 else 3 }

  function Turn(n: nat, c: Cell): Cell { Cell(n - 1 - c.y, c.x) }

  function Turned(n: nat, cs: seq<Cell>): (r: seq<Cell>)
    requires |cs| == 4
    ensures |r| == 4
  {
    [Turn(n, cs[0]), Turn(n, cs[1]), Turn(n, cs[2]), Turn(n, cs[3])]
  }

  /** The cells after r turns; the square never turns. */
  function Rotated(k: Kind, r: nat): (cs: seq<Cell>)
    ensures |cs| == 4
  {
    if k == O || r == 0 then BaseCells(k) else Turned(Box(k), Rotated(k, r - 1))
  }

  method RotatedCells(k: Kind, rot: nat) returns (cs: seq<Cell>)
    ensures cs == Rotated(k, rot % 4)
  {
    cs := BaseCells(k);
    if k == O { return; }
    var r := 0;
    while r < rot % 4
      invariant r <= rot % 4 && cs == Rotated(k, r)
    {
      cs := Turned(Box(k), cs);
      r := r + 1;
    }
  }

  ghost predicate Boxed(cs: seq<Cell>, n: nat) {
    && (forall i :: 0 <= i < |cs| ==> 0 <= cs[i].x < n && 0 <= cs[i].y < n)
    && (forall i, j :: 0 <= i < j < |cs| ==> cs[i] != cs[j])
  }

  /** Four different cells, inside the box, after any number of turns. */
  lemma {:induction false} CellsBoxed(k: Kind, r: nat)
    ensures Boxed(Rotated(k, r), Box(k))
  {
    if k != O && r > 0 {
      CellsBoxed(k, r - 1);
    }
  }

  lemma TurnFour(n: nat, cs: seq<Cell>)
    requires |cs| == 4
    ensures Turned(n, Turned(n, Turned(n, Turned(n, cs)))) == cs
  {
    forall c: Cell ensures Turn(n, Turn(n, Turn(n, Turn(n, c)))) == c {
    }
  }

  lemma TurnOnce(k: Kind, r: nat)
    requires k != O
    ensures Rotated(k, r + 1) == Turned(Box(k), Rotated(k, r))
  {
  }

  /** Four turns are none. */
  lemma FourTurns(k: Kind, r: nat)
    ensures Rotated(k, r + 4) == Rotated(k, r)
  {
    if k != O {
      hide Rotated, Turned;
      TurnOnce(k, r);
      TurnOnce(k, r + 1);
      TurnOnce(k, r + 2);
      TurnOnce(k, r + 3);
      TurnFour(Box(k), Rotated(k, r));
    }
  }

  /** A piece's cells on the board. */
  function PieceCells(p: Piece): (cs: seq<Cell>)
    ensures |cs| == 4
  {
    var cs := Rotated(p.kind, p.rot);
    seq(4, i requires 0 <= i < 4 => Cell(p.x + cs[i].x, p.y + cs[i].y))
  }

  lemma PieceBoxed(p: Piece)
    ensures var cs := PieceCells(p);
      && (forall i :: 0 <= i < 4 ==> p.x <= cs[i].x < p.x + 4 && p.y <= cs[i].y < p.y + 4)
      && (forall i, j :: 0 <= i < j < 4 ==> cs[i] != cs[j])
  {
    CellsBoxed(p.kind, p.rot);
  }

  // ----- the grid -----

  ghost predicate IsGrid(g: Grid) { |g| == H && forall y :: 0 <= y < H ==> |g[y]| == W }

  ghost predicate NoFullRow(g: Grid) { forall y :: 0 <= y < |g| ==> !Full(g[y]) }

  /** In range and on an empty cell; cells above the board are free. */
  predicate FreeCell(g: Grid, c: Cell)
    requires IsGrid(g)
  {
    0 <= c.x < W && c.y < H && (c.y >= 0 ==> g[c.y][c.x] == EMPTY)
  }

  predicate Fits(g: Grid, p: Piece)
    requires IsGrid(g)
  {
    forall i :: 0 <= i < 4 ==> FreeCell(g, PieceCells(p)[i])
  }

  function Down(p: Piece): Piece { p.(y := p.y + 1) }

  /** Where a piece falls to. */
  function Landing(g: Grid, p: Piece): Piece
    requires IsGrid(g)
    decreases H - p.y
  {
    if p.y < H && Fits(g, Down(p)) then Landing(g, Down(p)) else p
  }

  /** Straight down through places where it fits, and as far as it goes. */
  lemma {:induction false} LandingMeans(g: Grid, p: Piece)
    requires IsGrid(g) && Fits(g, p)
    ensures var q := Landing(g, p);
      && q == p.(y := q.y) && q.y >= p.y && !Fits(g, p.(y := q.y + 1))
      && forall y :: p.y <= y <= q.y ==> Fits(g, p.(y := y))
    decreases H - p.y
  {
    hide Fits;
    if p.y >= H {
      BelowBoard(g, p);
    } else if Fits(g, Down(p)) {
      LandingMeans(g, Down(p));
      forall y | p.y <= y <= Landing(g, p).y ensures Fits(g, p.(y := y)) {
        if y == p.y {
          assert p.(y := y) == p;
        } else {
          assert p.(y := y) == Down(p).(y := y);
        }
      }
    }
  }

  lemma BelowBoard(g: Grid, p: Piece)
    requires IsGrid(g) && p.y >= H
    ensures !Fits(g, p)
  {
    PieceBoxed(p);
    assert PieceCells(p)[0].y >= H;
  }

  function Set(g: Grid, c: Cell, v: int): Grid
    requires IsGrid(g)
    ensures IsGrid(Set(g, c, v))
  {
    if 0 <= c.y < H && 0 <= c.x < W then g[c.y := g[c.y][c.x := v]] else g
  }

  /** The piece written into the grid. */
  function Place(g: Grid, p: Piece): (r: Grid)
    requires IsGrid(g)
    ensures IsGrid(r)
  {
    var cs := PieceCells(p);
    var v := Code(p.kind);
    Set(Set(Set(Set(g, cs[0], v), cs[1], v), cs[2], v), cs[3], v)
  }

  // ----- counting -----

  function Filled(row: Row): nat {
    if row == [] then 0 else Filled(row[..|row| - 1]) + if row[|row| - 1] != EMPTY then 1 else 0
  }

  function Occupied(g: Grid): nat {
    if g == [] then 0 else Occupied(g[..|g| - 1]) + Filled(g[|g| - 1])
  }

  predicate Full(row: Row) { EMPTY !in row }

  lemma {:induction false} FilledSet(row: Row, x: nat, v: int)
    requires x < |row| && row[x] == EMPTY && v != EMPTY
    ensures Filled(row[x := v]) == Filled(row) + 1
  {
    var n := |row| - 1;
    if x < n {
      FilledSet(row[..n], x, v);
      assert row[x := v][..n] == row[..n][x := v];
    } else {
      assert row[x := v][..n] == row[..n];
    }
  }

  lemma {:induction false} OccupiedSet(g: Grid, y: nat, row: Row)
    requires y < |g|
    ensures Occupied(g[y := row]) + Filled(g[y]) == Occupied(g) + Filled(row)
  {
    var n := |g| - 1;
    if y < n {
      OccupiedSet(g[..n], y, row);
      assert g[y := row][..n] == g[..n][y := row];
    } else {
      assert g[y := row][..n] == g[..n];
    }
  }

  lemma {:induction false} OccupiedCat(a: Grid, b: Grid)
    ensures Occupied(a + b) == Occupied(a) + Occupied(b)
  {
    if b == [] {
      assert a + b == a;
    } else {
      assert (a + b)[..|a + b| - 1] == a + b[..|b| - 1];
      OccupiedCat(a, b[..|b| - 1]);
    }
  }

  lemma {:induction false} FullCount(row: Row)
    ensures Filled(row) <= |row| && (Full(row) <==> Filled(row) == |row|)
  {
    if row != [] {
      FullCount(row[..|row| - 1]);
      assert row == row[..|row| - 1] + [row[|row| - 1]];
    }
  }

  /** Writing an empty cell inside the board. */
  lemma SetCounts(g: Grid, c: Cell, v: int)
    requires IsGrid(g) && 0 <= c.x < W && 0 <= c.y < H && g[c.y][c.x] == EMPTY && v != EMPTY
    ensures Occupied(Set(g, c, v)) == Occupied(g) + 1
  {
    FilledSet(g[c.y], c.x, v);
    OccupiedSet(g, c.y, g[c.y][c.x := v]);
  }

  /** Locking a piece that fits fills exactly four cells. */
  lemma PlaceCounts(g: Grid, p: Piece)
    requires IsGrid(g) && Fits(g, p) && p.y >= 0
    ensures Occupied(Place(g, p)) == Occupied(g) + 4
  {
    hide Occupied, Rotated, Set;
    PieceBoxed(p);
    var cs, v := PieceCells(p), Code(p.kind);
    assert forall i :: 0 <= i < 4 ==> FreeCell(g, cs[i]) && cs[i].y >= 0;
    var g1 := Set(g, cs[0], v);
    var g2 := Set(g1, cs[1], v);
    var g3 := Set(g2, cs[2], v);
    SetCounts(g, cs[0], v);
    SetKeeps(g, cs[0], v, cs[1]);
    SetKeeps(g, cs[0], v, cs[2]);
    SetKeeps(g, cs[0], v, cs[3]);
    SetCounts(g1, cs[1], v);
    SetKeeps(g1, cs[1], v, cs[2]);
    SetKeeps(g1, cs[1], v, cs[3]);
    SetCounts(g2, cs[2], v);
    SetKeeps(g2, cs[2], v, cs[3]);
    SetCounts(g3, cs[3], v);
  }

  lemma SetKeeps(g: Grid, c: Cell, v: int, d: Cell)
    requires IsGrid(g) && c != d && 0 <= d.x < W && 0 <= d.y < H
    ensures Set(g, c, v)[d.y][d.x] == g[d.y][d.x]
  {
  }

  /** Rows a piece does not reach are untouched. */
  lemma PlaceRows(g: Grid, p: Piece, y: nat)
    requires IsGrid(g) && y < H && !(p.y <= y < p.y + 4)
    ensures Place(g, p)[y] == g[y]
  {
    hide Rotated;
    PieceBoxed(p);
  }

  // ----- clearing lines -----

  /** The rows that are not full, in order. */
  function Survivors(g: Grid): Grid {
    if g == [] then []
    else if Full(g[|g| - 1]) then Survivors(g[..|g| - 1])
    else Survivors(g[..|g| - 1]) + [g[|g| - 1]]
  }

  function BlankRow(): (r: Row)
    ensures |r| == W && forall x :: 0 <= x < W ==> r[x] == EMPTY
  {
    seq(W, _ => EMPTY)
  }

  function Blanks(n: nat): Grid { seq(n, _ => BlankRow()) }

  function FullRows(g: Grid): nat {
    if g == [] then 0 else FullRows(g[..|g| - 1]) + if Full(g[|g| - 1]) then 1 else 0
  }

  /** Survivors fall to the bottom, blank rows fill the top. */
  function Cleared(g: Grid): Grid { Blanks(FullRows(g)) + Survivors(g) }

  lemma {:induction false} SurvivorsCat(a: Grid, b: Grid)
    ensures Survivors(a + b) == Survivors(a) + Survivors(b) && FullRows(a + b) == FullRows(a) + FullRows(b)
  {
    if b == [] {
      assert a + b == a;
    } else {
      assert (a + b)[..|a + b| - 1] == a + b[..|b| - 1];
      SurvivorsCat(a, b[..|b| - 1]);
    }
  }

  lemma {:induction false} SurvivorsNone(g: Grid)
    requires forall y :: 0 <= y < |g| ==> !Full(g[y])
    ensures Survivors(g) == g && FullRows(g) == 0
  {
    if g != [] {
      SurvivorsNone(g[..|g| - 1]);
    }
  }

  lemma {:induction false} SurvivorsCount(g: Grid)
    requires forall y :: 0 <= y < |g| ==> |g[y]| == W
    ensures |Survivors(g)| + FullRows(g) == |g|
    ensures Occupied(Survivors(g)) + W * FullRows(g) == Occupied(g)
    ensures forall y :: 0 <= y < |Survivors(g)| ==> |Survivors(g)[y]| == W && !Full(Survivors(g)[y])
  {
    if g != [] {
      var n := |g| - 1;
      SurvivorsCount(g[..n]);
      FullCount(g[n]);
      if !Full(g[n]) {
        assert Survivors(g)[..|Survivors(g[..n])|] == Survivors(g[..n]);
      }
    }
  }

  lemma BlankNotFull()
    ensures !Full(BlankRow()) && Filled(BlankRow()) == 0
  {
    assert BlankRow()[0] == EMPTY;
    NoneFilled(BlankRow());
  }

  lemma {:induction false} NoneFilled(row: Row)
    requires forall x :: 0 <= x < |row| ==> row[x] == EMPTY
    ensures Filled(row) == 0
  {
    if row != [] {
      NoneFilled(row[..|row| - 1]);
    }
  }

  lemma {:induction false} BlanksOccupied(n: nat)
    ensures Occupied(Blanks(n)) == 0
  {
    if n > 0 {
      BlanksOccupied(n - 1);
      assert Blanks(n)[..n - 1] == Blanks(n - 1);
      BlankNotFull();
    }
  }

  /** Clearing leaves a grid without full rows, ten cells fewer per cleared row. */
  lemma ClearedCounts(g: Grid)
    requires IsGrid(g)
    ensures IsGrid(Cleared(g)) && Occupied(Cleared(g)) + W * FullRows(g) == Occupied(g)
    ensures NoFullRow(Cleared(g))
  {
    hide Survivors, FullRows, Occupied, BlankRow;
    SurvivorsCount(g);
    BlanksOccupied(FullRows(g));
    OccupiedCat(Blanks(FullRows(g)), Survivors(g));
    BlankNotFull();
  }

  /** Only rows the piece reaches can become full. */
  lemma AtMostFour(g: Grid, p: Piece)
    requires IsGrid(g) && p.y >= 0 && NoFullRow(g)
    ensures FullRows(Place(g, p)) <= 4
  {
    var r := Place(g, p);
    forall y: nat | y < H && !(p.y <= y < p.y + 4) ensures !Full(r[y]) {
      PlaceRows(g, p, y);
    }
    WindowBound(r, p.y, H);
  }

  lemma {:induction false} WindowBound(g: Grid, from: nat, n: nat)
    requires n <= |g| && forall y :: 0 <= y < n && !(from <= y < from + 4) ==> !Full(g[y])
    ensures FullRows(g[..n]) <= (if n <= from then 0 else if n < from + 4 then n - from else 4)
    ensures n == |g| ==> FullRows(g) == FullRows(g[..n])
  {
    if n > 0 {
      WindowBound(g, from, n - 1);
      assert g[..n][..n - 1] == g[..n - 1];
    }
    if n == |g| {
      assert g[..n] == g;
    }
  }

  /** Removing a full row and pushing a blank one in at the top. */
  function DropRow(g: Grid, y: nat): Grid
    requires y < |g|
  {
    [BlankRow()] + g[..y] + g[y + 1..]
  }

  lemma DropRowClears(g: Grid, y: nat)
    requires y < |g| && Full(g[y])
    ensures Survivors(DropRow(g, y)) == [BlankRow()] + Survivors(g) && FullRows(DropRow(g, y)) + 1 == FullRows(g)
  {
    hide BlankRow, Survivors, FullRows;
    BlankNotFull();
    var a, f, b := g[..y], [g[y]], g[y + 1..];
    assert g == a + (f + b);
    SurvivorsCat(a, f + b);
    SurvivorsCat(f, b);
    OneRow(g[y]);
    var top := [BlankRow()];
    assert DropRow(g, y) == top + (a + b);
    SurvivorsCat(top, a + b);
    SurvivorsCat(a, b);
    OneRow(BlankRow());
  }

  lemma OneRow(row: Row)
    ensures Survivors([row]) == (if Full(row) then [] else [row]) && FullRows([row]) == if Full(row) then 1 else 0
  {
    assert [row][..0] == [];
  }
}
