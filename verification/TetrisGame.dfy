/** The game: moves, gravity, locking, the seven-bag and the score. */
module TetrisGame {
  import opened TetrisBoard
  import opened TetrisBag

  const POINTS: seq<nat> := [0, 100, 300, 500, 800]

  class Game {
    var grid: Grid
    var cur: Piece
    var next: Kind
    const bag: Bag
    var score: nat
    var lines: nat
    var over: bool
    /** How many pieces were locked. */
    ghost var locks: nat

    ghost predicate Formed()
      reads this, bag
    {
      IsGrid(grid) && cur.rot < 4 && cur.y >= 0 && bag.Valid()
    }

    /** Between moves: no row is full, a live piece fits, every locked piece has put
        down four cells and every cleared line has taken ten away. */
    ghost predicate Valid()
      reads this, bag
    {
      && Formed() && NoFullRow(grid)
      && (over <==> !Fits(grid, cur))
      && Occupied(grid) + W * lines == 4 * locks
    }

    constructor (bag: Bag)
      requires bag.Valid() && bag.drawn == 0
      modifies bag
      ensures Valid() && this.bag == bag && !over && locks == 0 && lines == 0 && score == 0
      ensures |grid| == 20 && forall y :: 0 <= y < 20 ==> |grid[y]| == 10
      ensures bag.drawn == 2 && cur == Piece(bag.Nth(0), 0, 3, 0) && next == bag.Nth(1)
    {
      grid := Blanks(H);
      this.bag := bag;
      cur, score, lines, over := Piece(T, 0, 3, 0), 0, 0, false;
      next := T;
      locks := 0;
      new;
      BlankGrid();
      next := bag.Draw();
      Spawn();
      BlankFits(cur);
    }

    /** The next piece enters at the top; the game is over when it does not fit. */
    method Spawn()
      requires Formed()
      modifies this`cur, this`next, this`over, bag
      ensures Formed() && cur == Piece(old(next), 0, 3, 0)
      ensures bag.drawn == old(bag.drawn) + 1 && next == bag.Nth(old(bag.drawn))
      ensures over == (old(over) || !Fits(grid, cur))
    {
      hide Fits;
      cur := Piece(next, 0, 3, 0);
      next := bag.Draw();
      var f := DoesFit(cur);
      if !f { over := true; }
    }

    method DoesFit(p: Piece) returns (f: bool)
      requires IsGrid(grid) && p.rot < 4
      ensures f == Fits(grid, p)
    {
      hide Rotated;
      var cs := RotatedCells(p.kind, p.rot);
      var i := 0;
      while i < 4
        invariant i <= 4 && forall j :: 0 <= j < i ==> FreeCell(grid, PieceCells(p)[j])
      {
        var x, y := p.x + cs[i].x, p.y + cs[i].y;
        assert PieceCells(p)[i] == Cell(x, y);
        if x < 0 || x >= W || y >= H { return false; }
        if y >= 0 && grid[y][x] != EMPTY { return false; }
        i := i + 1;
      }
      return true;
    }

    /** Sideways, if the piece fits there; otherwise nothing changes. */
    method Move(dx: int) returns (moved: bool)
      requires Valid()
      modifies this`cur
      ensures Valid() && moved == (!over && Fits(grid, old(cur).(x := old(cur).x + dx)))
      ensures cur == if moved then old(cur).(x := old(cur).x + dx) else old(cur)
    {
      if over { return false; }
      var p := cur.(x := cur.x + dx);
      var f := DoesFit(p);
      if !f { return false; }
      cur := p;
      return true;
    }

    /** A clockwise turn with the first of five sideways kicks that fits. */
    method Rotate() returns (turned: bool)
      requires Valid()
      modifies this`cur
      ensures Valid() && (over ==> !turned)
      ensures turned ==> Fits(grid, cur) && exists k :: FirstKick(grid, old(cur), k, cur)
      ensures !turned ==> cur == old(cur) && (over || forall j :: 0 <= j < 5 ==> !Fits(grid, Kicked(old(cur), j)))
    {
      if over { return false; }
      var i := 0;
      while i < 5
        invariant i <= 5 && cur == old(cur) && forall j :: 0 <= j < i ==> !Fits(grid, Kicked(cur, j))
      {
        var q := Kicked(cur, i);
        var f := DoesFit(q);
        if f {
          assert FirstKick(grid, cur, i, q);
          cur := q;
          return true;
        }
        i := i + 1;
      }
      return false;
    }

    /** Writes the piece, clears lines, and brings in the next piece. */
    method Lock()
      requires Valid() && !over
      modifies this, bag
      ensures Valid() && Locked(old(grid), old(cur), grid) && locks == old(locks) + 1
      ensures lines == old(lines) + FullRows(Place(old(grid), old(cur)))
      ensures score == old(score) + [0, 100, 300, 500, 800][FullRows(Place(old(grid), old(cur)))] * (old(lines) / 10 + 1)
      ensures cur == Piece(old(next), 0, 3, 0)
      ensures bag.drawn == old(bag.drawn) + 1 && next == bag.Nth(old(bag.drawn))
    {
      hide Occupied, Place, Survivors, FullRows, Cleared, Fits, NoFullRow;
      ghost var placed := Place(grid, cur);
      AtMostFour(grid, cur);
      PlaceCounts(grid, cur);
      ClearedCounts(placed);
      WritePiece();
      locks := locks + 1;
      ClearLines();
      Spawn();
    }

    method WritePiece()
      requires Formed() && Fits(grid, cur)
      modifies this`grid
      ensures Formed() && grid == Place(old(grid), cur)
    {
      hide Rotated, Occupied;
      var cs := RotatedCells(cur.kind, cur.rot);
      PieceBoxed(cur);
      ghost var g0, ps, v := grid, PieceCells(cur), Code(cur.kind);
      assert forall j :: 0 <= j < 4 ==> FreeCell(g0, ps[j]);
      var i := 0;
      while i < 4
        invariant i <= 4 && grid == Written(g0, ps, v, i)
      {
        var x, y := cur.x + cs[i].x, cur.y + cs[i].y;
        assert ps[i] == Cell(x, y);
        if y >= 0 {
          grid := grid[y := grid[y][x := Code(cur.kind)]];
        }
        i := i + 1;
      }
      WrittenAll(g0, cur);
    }

    /** From the bottom row up; a row that clears is looked at again. */
    method ClearLines()
      requires IsGrid(grid) && FullRows(grid) <= 4
      modifies this`grid, this`score, this`lines
      ensures grid == Cleared(old(grid)) && lines == old(lines) + FullRows(old(grid))
      ensures score == old(score) + [0, 100, 300, 500, 800][FullRows(old(grid))] * (old(lines) / 10 + 1)
    {
      hide Survivors, FullRows, Full, BlankRow;
      BlankLength();
      var cleared, y := 0, H - 1;
      assert Blanks(0) + Survivors(grid) == Survivors(grid);
      while y >= 0
        invariant -1 <= y < H && IsGrid(grid) && cleared >= 0
        invariant Survivors(grid) == Blanks(cleared) + Survivors(old(grid))
        invariant FullRows(grid) + cleared == FullRows(old(grid))
        invariant forall r :: y < r < H ==> !Full(grid[r])
        invariant score == old(score) && lines == old(lines)
        decreases FullRows(grid), y + 1
      {
        var full := IsFull(grid[y]);
        if !full {
          y := y - 1;
          continue;
        }
        ghost var was := grid;
        DropRowClears(was, y);
        MoreBlanks(cleared, Survivors(old(grid)));
        ShiftDown(y);
        assert forall r :: y < r < H ==> grid[r] == was[r];
        cleared := cleared + 1;
      }
      SurvivorsNone(grid);
      score := score + POINTS[cleared] * (lines / 10 + 1);
      lines := lines + cleared;
    }

    /** Rows above y move down by one. */
    method ShiftDown(y: nat)
      requires IsGrid(grid) && y < H
      modifies this`grid
      ensures grid == DropRow(old(grid), y) && IsGrid(grid)
    {
      hide BlankRow;
      BlankLength();
      var r := y;
      while r > 0
        invariant 0 <= r <= y < |grid| == |old(grid)| && IsGrid(grid)
        invariant grid[..r + 1] == old(grid)[..r + 1] && grid[y + 1..] == old(grid)[y + 1..]
        invariant forall k {:trigger grid[k]} :: r < k <= y ==> grid[k] == old(grid)[k - 1]
      {
        grid := grid[r := grid[r - 1]];
        r := r - 1;
      }
      grid := grid[0 := BlankRow()];
    }

    /** One row down, or lock. */
    method Step() returns (moved: bool)
      requires Valid()
      modifies this, bag
      ensures Valid() && (moved ==> !old(over) && cur == Down(old(cur)) && grid == old(grid) && locks == old(locks))
      ensures moved ==> lines == old(lines) && score == old(score)
      ensures old(over) ==> !moved && cur == old(cur) && grid == old(grid) && score == old(score) && locks == old(locks)
      ensures !moved && !old(over) ==>
        Locked(old(grid), old(cur), grid) && locks == old(locks) + 1 && cur == Piece(old(next), 0, 3, 0)
      ensures moved <==> !old(over) && old(Fits(grid, Down(cur)))
    {
      if over { return false; }
      var f := DoesFit(Down(cur));
      if f {
        cur := Down(cur);
        return true;
      }
      Lock();
      return false;
    }

    /** A step that scores one point if the piece moved. */
    method SoftDrop()
      requires Valid()
      modifies this, bag
      ensures Valid()
      ensures !old(over) && old(Fits(grid, Down(cur))) ==> cur == Down(old(cur)) && score == old(score) + 1 && locks == old(locks)
      ensures !old(over) && !old(Fits(grid, Down(cur))) ==> Locked(old(grid), old(cur), grid) && locks == old(locks) + 1
    {
      hide Fits, Locked, Occupied, NoFullRow;
      var moved := Step();
      if moved { score := score + 1; }
    }

    /** Down to the landing place, two points per row, and lock there. */
    method HardDrop()
      requires Valid()
      modifies this, bag
      ensures Valid()
      ensures old(over) ==> cur == old(cur) && grid == old(grid) && score == old(score) && locks == old(locks)
      ensures !old(over) ==> locks == old(locks) + 1 && Locked(old(grid), Landing(old(grid), old(cur)), grid)
      ensures !old(over) ==>
        var land := Landing(old(grid), old(cur));
        score == old(score) + 2 * (land.y - old(cur).y) + [0, 100, 300, 500, 800][FullRows(Place(old(grid), land))] * (old(lines) / 10 + 1)
    {
      hide Fits, Occupied, Place, Cleared, FullRows, NoFullRow;
      if over { return; }
      ghost var land := Landing(grid, cur);
      var dist := 0;
      while true
        invariant Valid() && !over && grid == old(grid) && Landing(grid, cur) == land
        invariant cur.y == old(cur).y + dist && score == old(score) && lines == old(lines) && locks == old(locks)
        invariant cur == old(cur).(y := cur.y)
        decreases H - cur.y
      {
        var p := Down(cur);
        var f := DoesFit(p);
        if cur.y >= H { BelowBoard(grid, cur); }
        if !f { break; }
        cur := p;
        dist := dist + 1;
      }
      assert cur == land;
      score := score + 2 * dist;
      Lock();
    }

    /** Where the piece would land; nothing changes. */
    method Ghost() returns (g: Piece)
      requires Valid() && !over
      ensures g == Landing(grid, cur) && Fits(grid, g) && g.y >= cur.y
    {
      g := cur;
      while true
        invariant g.rot < 4 && g.y >= cur.y && Fits(grid, g) && Landing(grid, g) == Landing(grid, cur)
        decreases H - g.y
      {
        var p := Down(g);
        var f := DoesFit(p);
        if g.y >= H { BelowBoard(grid, g); }
        if !f { return; }
        g := p;
      }
    }
  }

  /** What locking p leaves of g: at most four lines went. */
  ghost predicate Locked(g: Grid, p: Piece, g': Grid)
    requires IsGrid(g)
  {
    FullRows(Place(g, p)) <= 4 && g' == Cleared(Place(g, p))
  }

  /** Candidate k is q, and no earlier one fits. */
  ghost predicate FirstKick(g: Grid, p: Piece, k: nat, q: Piece)
    requires IsGrid(g)
  {
    k < 5 && Kicked(p, k) == q && forall j :: 0 <= j < k ==> !Fits(g, Kicked(p, j))
  }

  /** The k-th candidate of a turn: shifts 0, -1, 1, -2, 2. */
  function Kicked(p: Piece, k: nat): Piece {
    p.(rot := (p.rot + 1) % 4, x := p.x + if k == 0 then 0 else if k == 1 then -1 else if k == 2 then 1 else if k == 3 then -2 else 2)
  }

  lemma KickOrder(p: Piece, k: nat)
    requires k < 5
    ensures Kicked(p, k) == Piece(p.kind, (p.rot + 1) % 4, p.x + [0, -1, 1, -2, 2][k], p.y)
  {
  }

  method IsFull(row: Row) returns (f: bool)
    ensures f == Full(row)
  {
    var i := 0;
    while i < |row|
      invariant i <= |row| && forall j :: 0 <= j < i ==> row[j] != EMPTY
    {
      if row[i] == EMPTY { return false; }
      i := i + 1;
    }
    return true;
  }

  /** The grid after the first n cells are written. */
  ghost function Written(g: Grid, cs: seq<Cell>, v: int, n: nat): (r: Grid)
    requires IsGrid(g) && n <= |cs|
    ensures IsGrid(r)
  {
    if n == 0 then g else Set(Written(g, cs, v, n - 1), cs[n - 1], v)
  }

  lemma WrittenAll(g: Grid, p: Piece)
    requires IsGrid(g)
    ensures Written(g, PieceCells(p), Code(p.kind), 4) == Place(g, p)
  {
    hide Set, PieceCells;
    var cs, v := PieceCells(p), Code(p.kind);
    assert Written(g, cs, v, 1) == Set(Written(g, cs, v, 0), cs[0], v);
    assert Written(g, cs, v, 2) == Set(Written(g, cs, v, 1), cs[1], v);
    assert Written(g, cs, v, 3) == Set(Written(g, cs, v, 2), cs[2], v);
  }

  lemma BlankLength()
    ensures |BlankRow()| == W
  {
  }

  lemma MoreBlanks(n: nat, g: Grid)
    ensures [BlankRow()] + (Blanks(n) + g) == Blanks(n + 1) + g
  {
  }

  lemma BlankGrid()
    ensures IsGrid(Blanks(H)) && NoFullRow(Blanks(H)) && Occupied(Blanks(H)) == 0
  {
    BlanksOccupied(H);
    BlankNotFull();
  }

  /** Every piece fits an empty board where it enters. */
  lemma BlankFits(p: Piece)
    requires p.rot == 0 && p.x == 3 && p.y == 0
    ensures IsGrid(Blanks(H)) && Fits(Blanks(H), p)
  {
    PieceBoxed(p);
  }
}
