/** Positions on a `width × depth` maze grid, shared by both maze generators.
    Tile (x, y) lies in column x and row y; N is y - 1, S is y + 1, W is x - 1, E is x + 1. */
module Grid {

  datatype Pos = Pos(x: int, y: int)

  const Origin := Pos(0, 0)

  predicate InGrid(w: nat, d: nat, p: Pos) {
    0 <= p.x < w && 0 <= p.y < d
  }

  function NorthOf(p: Pos): Pos { Pos(p.x, p.y - 1) }
  function SouthOf(p: Pos): Pos { Pos(p.x, p.y + 1) }
  function WestOf(p: Pos): Pos { Pos(p.x - 1, p.y) }
  function EastOf(p: Pos): Pos { Pos(p.x + 1, p.y) }

  /** Orthogonal grid adjacency (no diagonals). */
  predicate Adjacent(p: Pos, q: Pos) {
    q == NorthOf(p) || q == SouthOf(p) || q == WestOf(p) || q == EastOf(p)
  }

  lemma AdjacentSymmetric(p: Pos, q: Pos)
    ensures Adjacent(p, q) <==> Adjacent(q, p)
  {
  }

  /** All tiles of the grid. */
  ghost function Cells(w: nat, d: nat): set<Pos> {
    set i: int, j: int | 0 <= i < w && 0 <= j < d :: Pos(i, j)
  }

  lemma CellsAreInGrid(w: nat, d: nat, p: Pos)
    ensures p in Cells(w, d) <==> InGrid(w, d, p)
  {
    if InGrid(w, d, p) {
      assert p == Pos(p.x, p.y);
    }
  }

  ghost function Column(i: int, d: nat): set<Pos> {
    set j: int | 0 <= j < d :: Pos(i, j)
  }

  lemma {:induction false} ColumnSize(i: int, d: nat)
    ensures |Column(i, d)| == d
  {
    if d > 0 {
      ColumnSize(i, d - 1);
      assert Column(i, d) == Column(i, d - 1) + {Pos(i, d - 1)};
    } else {
      assert Column(i, d) == {};
    }
  }

  /** The grid has exactly `w * d` tiles. */
  lemma {:induction false} CellsSize(w: nat, d: nat)
    ensures |Cells(w, d)| == w * d
  {
    if w == 0 {
      assert Cells(w, d) == {};
    } else {
      CellsSize(w - 1, d);
      ColumnSize(w - 1, d);
      assert Cells(w, d) == Cells(w - 1, d) + Column(w - 1, d);
      assert Cells(w - 1, d) !! Column(w - 1, d);
      assert (w - 1) * d + d == w * d;
    }
  }
}
