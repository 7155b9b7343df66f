/** What the pieces look like on the board, row by row from the top. */
module TetrisShapes {
  import opened TetrisBoard

  /** The cells are exactly the marked places of a picture. */
  predicate Draws(cs: seq<Cell>, rows: seq<string>) {
    && (forall c :: c in cs ==> 0 <= c.y < |rows| && 0 <= c.x < |rows[c.y]| && rows[c.y][c.x] == '#')
    && (forall y, x :: 0 <= y < |rows| && 0 <= x < |rows[y]| && rows[y][x] == '#' ==> Cell(x, y) in cs)
  }

  /** The seven pieces as they enter. */
  lemma Drawn()
    ensures Draws(Rotated(I, 0), ["....", "####", "....", "...."])
    ensures Draws(Rotated(O, 0), [".##", ".##", "..."])
    ensures Draws(Rotated(T, 0), [".#.", "###", "..."])
    ensures Draws(Rotated(S, 0), [".##", "##.", "..."])
    ensures Draws(Rotated(Z, 0), ["##.", ".##", "..."])
    ensures Draws(Rotated(J, 0), ["#..", "###", "..."])
    ensures Draws(Rotated(L, 0), ["..#", "###", "..."])
  {
    hide Draws, Rotated;
    DrawnI();
    DrawnO();
    DrawnT();
    DrawnS();
    DrawnZ();
    DrawnJ();
    DrawnL();
  }

  lemma DrawnO()
    ensures Draws(Rotated(O, 0), [".##", ".##", "..."])
  {
    var cs := BaseCells(O);
    assert cs[0] in cs && cs[1] in cs && cs[2] in cs && cs[3] in cs;
  }

  lemma DrawnT()
    ensures Draws(Rotated(T, 0), [".#.", "###", "..."])
  {
    var cs := BaseCells(T);
    assert cs[0] in cs && cs[1] in cs && cs[2] in cs && cs[3] in cs;
  }

  lemma DrawnS()
    ensures Draws(Rotated(S, 0), [".##", "##.", "..."])
  {
    var cs := BaseCells(S);
    assert cs[0] in cs && cs[1] in cs && cs[2] in cs && cs[3] in cs;
  }

  lemma DrawnZ()
    ensures Draws(Rotated(Z, 0), ["##.", ".##", "..."])
  {
    var cs := BaseCells(Z);
    assert cs[0] in cs && cs[1] in cs && cs[2] in cs && cs[3] in cs;
  }

  lemma DrawnJ()
    ensures Draws(Rotated(J, 0), ["#..", "###", "..."])
  {
    var cs := BaseCells(J);
    assert cs[0] in cs && cs[1] in cs && cs[2] in cs && cs[3] in cs;
  }

  lemma DrawnL()
    ensures Draws(Rotated(L, 0), ["..#", "###", "..."])
  {
    var cs := BaseCells(L);
    assert cs[0] in cs && cs[1] in cs && cs[2] in cs && cs[3] in cs;
  }

  lemma DrawnI()
    ensures Draws(Rotated(I, 0), ["....", "####", "....", "...."])
  {
    var cs := BaseCells(I);
    assert cs[0] in cs && cs[1] in cs && cs[2] in cs && cs[3] in cs;
  }

  /** A turn is clockwise: the left column, read upwards, becomes the top row. */
  lemma Clockwise(k: Kind, r: nat, x: int, y: int)
    requires k != O
    ensures var n := if k == I then 4 else 3; Cell(x, y) in Rotated(k, r + 1) <==> Cell(y, n - 1 - x) in Rotated(k, r)
  {
    hide Rotated;
    var n := Box(k);
    var cs, ds := Rotated(k, r), Rotated(k, r + 1);
    TurnOnce(k, r);
    if Cell(y, n - 1 - x) in cs {
      var i :| 0 <= i < 4 && cs[i] == Cell(y, n - 1 - x);
      assert ds[i] == Cell(x, y);
    }
    if Cell(x, y) in ds {
      var i :| 0 <= i < 4 && ds[i] == Cell(x, y);
      assert ds[i] == Turn(n, cs[i]);
      assert cs[i] == Cell(y, n - 1 - x);
    }
  }

  /** The piece covers a place if its shape covers it, counted from the corner of the box. */
  predicate Covers(p: Piece, x: int, y: int) { Cell(x - p.x, y - p.y) in Rotated(p.kind, p.rot) }

  lemma CoversCells(p: Piece, x: int, y: int)
    ensures Covers(p, x, y) <==> Cell(x, y) in PieceCells(p)
  {
    hide Rotated;
    var cs, ps := Rotated(p.kind, p.rot), PieceCells(p);
    if Covers(p, x, y) {
      var i :| 0 <= i < 4 && cs[i] == Cell(x - p.x, y - p.y);
      assert ps[i] == Cell(x, y);
    }
    if Cell(x, y) in ps {
      var i :| 0 <= i < 4 && ps[i] == Cell(x, y);
      assert cs[i] == Cell(x - p.x, y - p.y);
    }
  }

  /** A piece fits if every place it covers is within ten columns and above the floor of
      twenty rows, and empty unless it is above the board. */
  lemma FitsMeans(g: Grid, p: Piece)
    requires IsGrid(g)
    ensures Fits(g, p) <==> forall x, y :: Covers(p, x, y) ==> 0 <= x < 10 && y < 20 && (y >= 0 ==> g[y][x] == -1)
  {
    hide Rotated, PieceCells, Covers;
    var ps := PieceCells(p);
    if Fits(g, p) {
      forall x, y | Covers(p, x, y) ensures 0 <= x < 10 && y < 20 && (y >= 0 ==> g[y][x] == -1) {
        CoversCells(p, x, y);
        var i :| 0 <= i < 4 && ps[i] == Cell(x, y);
        assert FreeCell(g, ps[i]);
      }
    }
    if forall x, y :: Covers(p, x, y) ==> 0 <= x < 10 && y < 20 && (y >= 0 ==> g[y][x] == -1) {
      forall i | 0 <= i < 4 ensures FreeCell(g, ps[i]) {
        CoversCells(p, ps[i].x, ps[i].y);
        assert ps[i] in ps && ps[i] == Cell(ps[i].x, ps[i].y);
      }
    }
  }

  /** A locked piece shows as its kind's number where it is, and changes nothing else. */
  lemma PlaceShows(g: Grid, p: Piece, x: nat, y: nat)
    requires IsGrid(g) && Fits(g, p) && p.y >= 0 && x < 10 && y < 20
    ensures Place(g, p)[y][x]
      == if !Covers(p, x, y) then g[y][x]
         else match p.kind case I => 0 case O => 1 case T => 2 case S => 3 case Z => 4 case J => 5 case L => 6
  {
    hide Rotated, PieceCells, Covers;
    PieceBoxed(p);
    CoversCells(p, x, y);
    var cs, v := PieceCells(p), Code(p.kind);
    assert forall i :: 0 <= i < 4 ==> FreeCell(g, cs[i]);
    assert cs == [cs[0], cs[1], cs[2], cs[3]];
    SetShows(g, cs[0], v, x, y);
    SetShows(Set(g, cs[0], v), cs[1], v, x, y);
    SetShows(Set(Set(g, cs[0], v), cs[1], v), cs[2], v, x, y);
    SetShows(Set(Set(Set(g, cs[0], v), cs[1], v), cs[2], v), cs[3], v, x, y);
  }

  lemma SetShows(g: Grid, c: Cell, v: int, x: nat, y: nat)
    requires IsGrid(g) && x < 10 && y < 20
    ensures Set(g, c, v)[y][x] == if c == Cell(x, y) then v else g[y][x]
  {
  }
}
