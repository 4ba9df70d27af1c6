/** The tiles and walls of the randomized-Kruskal maze generator (scripts/MazeGenerator.js),
    and the list of interior walls its constructor builds. */
module KruskalWalls {
  import opened Grid

  /** "V" separates (i-1, j) from (i, j); "H" separates (i, j-1) from (i, j). */
  datatype Orientation = V | H

  datatype MazeWall = MazeWall(side1: Pos, side2: Pos, orientation: Orientation)

  /** A tile: its grid position (the x and z of the source's position vector), the hall (set id)
      used during generation, and its four wall flags (true = wall present). */
  datatype MazeTile = MazeTile(x: int, y: int, hall: int, N: bool, E: bool, S: bool, W: bool)

  function NewTile(x: int, y: int, hall: int): MazeTile {
    MazeTile(x, y, hall, true, true, true, true)
  }

  function VWall(i: int, j: int): MazeWall { MazeWall(Pos(i - 1, j), Pos(i, j), V) }
  function HWall(i: int, j: int): MazeWall { MazeWall(Pos(i, j - 1), Pos(i, j), H) }

  /** A wall between two grid-adjacent tiles of a `w × d` grid, side1 west of / north of side2. */
  predicate IsInteriorWall(w: nat, d: nat, wl: MazeWall) {
    && InGrid(w, d, wl.side1)
    && InGrid(w, d, wl.side2)
    && match wl.orientation
       case V => wl.side1 == WestOf(wl.side2)
       case H => wl.side1 == NorthOf(wl.side2)
  }

  /** The walls pushed for tile (i, j) of the constructor's second nested loop. */
  function WallsAt(i: int, j: int): seq<MazeWall> {
    (if i != 0 then [VWall(i, j)] else []) + (if j != 0 then [HWall(i, j)] else [])
  }

  /** Walls pushed for tiles (i, 0) .. (i, j-1). */
  function ColumnWalls(i: int, j: nat): seq<MazeWall> {
    if j == 0 then [] else ColumnWalls(i, j - 1) + WallsAt(i, j - 1)
  }

  /** Walls pushed for the columns 0 .. i-1. */
  function WallsBefore(i: nat, d: nat): seq<MazeWall> {
    if i == 0 then [] else WallsBefore(i - 1, d) + ColumnWalls(i - 1, d)
  }

  /** `this.walls` right after construction. */
  function InitialWalls(w: nat, d: nat): seq<MazeWall> {
    WallsBefore(w, d)
  }

  function CountOf(s: seq<MazeWall>, o: Orientation): nat {
    if s == [] then 0 else CountOf(s[..|s| - 1], o) + (if s[|s| - 1].orientation == o then 1 else 0)
  }

  lemma {:induction false} CountOfAppend(a: seq<MazeWall>, b: seq<MazeWall>, o: Orientation)
    ensures CountOf(a + b, o) == CountOf(a, o) + CountOf(b, o)
  {
    if b != [] {
      assert (a + b)[..|a + b| - 1] == a + b[..|b| - 1];
      CountOfAppend(a, b[..|b| - 1], o);
    } else {
      assert a + b == a;
    }
  }

  lemma {:induction false} ColumnWallsCount(i: int, j: nat)
    requires i >= 0
    ensures CountOf(ColumnWalls(i, j), V) == (if i == 0 then 0 else j)
    ensures CountOf(ColumnWalls(i, j), H) == (if j == 0 then 0 else j - 1)
  {
    if j > 0 {
      ColumnWallsCount(i, j - 1);
      CountOfAppend(ColumnWalls(i, j - 1), WallsAt(i, j - 1), V);
      CountOfAppend(ColumnWalls(i, j - 1), WallsAt(i, j - 1), H);
      var a := if i != 0 then [VWall(i, j - 1)] else [];
      var b := if j - 1 != 0 then [HWall(i, j - 1)] else [];
      CountOfAppend(a, b, V);
      CountOfAppend(a, b, H);
      assert CountOf([VWall(i, j - 1)], V) == 1 && CountOf([VWall(i, j - 1)], H) == 0 by {
        assert [VWall(i, j - 1)][..0] == [];
      }
      assert CountOf([HWall(i, j - 1)], V) == 0 && CountOf([HWall(i, j - 1)], H) == 1 by {
        assert [HWall(i, j - 1)][..0] == [];
      }
    }
  }

  /** The constructor lists `(w-1)*d` "V" walls and `w*(d-1)` "H" walls (none on an empty axis). */
  lemma {:induction false} InitialWallsCount(w: nat, d: nat)
    ensures CountOf(InitialWalls(w, d), V) == (if w == 0 then 0 else (w - 1) * d)
    ensures CountOf(InitialWalls(w, d), H) == (if d == 0 then 0 else w * (d - 1))
  {
    WallsBeforeCount(w, d);
  }

  lemma {:induction false} WallsBeforeCount(i: nat, d: nat)
    ensures CountOf(WallsBefore(i, d), V) == (if i == 0 then 0 else (i - 1) * d)
    ensures CountOf(WallsBefore(i, d), H) == (if d == 0 then 0 else i * (d - 1))
  {
    if i > 0 {
      WallsBeforeCount(i - 1, d);
      ColumnWallsCount(i - 1, d);
      CountOfAppend(WallsBefore(i - 1, d), ColumnWalls(i - 1, d), V);
      CountOfAppend(WallsBefore(i - 1, d), ColumnWalls(i - 1, d), H);
      if d > 0 {
        assert (i - 1) * (d - 1) + (d - 1) == i * (d - 1);
      }
      if i > 1 {
        assert (i - 2) * d + d == (i - 1) * d;
      }
    }
  }

  lemma {:induction false} ColumnWallsMembers(w: nat, d: nat, i: int, j: nat, wl: MazeWall)
    requires 0 <= i < w && j <= d
    ensures wl in ColumnWalls(i, j) <==> IsInteriorWall(w, d, wl) && wl.side2.x == i && wl.side2.y < j
  {
    if j > 0 {
      ColumnWallsMembers(w, d, i, j - 1, wl);
      assert wl in ColumnWalls(i, j) <==> wl in ColumnWalls(i, j - 1) || wl in WallsAt(i, j - 1);
    }
  }

  lemma {:induction false} WallsBeforeMembers(w: nat, d: nat, i: nat, wl: MazeWall)
    requires i <= w
    ensures wl in WallsBefore(i, d) <==> IsInteriorWall(w, d, wl) && wl.side2.x < i
  {
    if i > 0 {
      WallsBeforeMembers(w, d, i - 1, wl);
      ColumnWallsMembers(w, d, i - 1, d, wl);
      assert wl in WallsBefore(i, d) <==> wl in WallsBefore(i - 1, d) || wl in ColumnWalls(i - 1, d);
    }
  }

  /** The constructor lists exactly the walls between grid-adjacent tiles. */
  lemma InitialWallsExact(w: nat, d: nat, wl: MazeWall)
    ensures wl in InitialWalls(w, d) <==> IsInteriorWall(w, d, wl)
  {
    WallsBeforeMembers(w, d, w, wl);
  }

  /** Listing order of the constructor: by side2's column, then its row, then V before H. */
  predicate ListedBefore(a: MazeWall, b: MazeWall) {
    || a.side2.x < b.side2.x
    || (a.side2.x == b.side2.x && a.side2.y < b.side2.y)
    || (a.side2 == b.side2 && a.orientation == V && b.orientation == H)
  }

  predicate Ascending(s: seq<MazeWall>) {
    forall k, l :: 0 <= k < l < |s| ==> ListedBefore(s[k], s[l])
  }

  lemma AscendingAppend(a: seq<MazeWall>, b: seq<MazeWall>)
    requires Ascending(a) && Ascending(b)
    requires forall k, l :: 0 <= k < |a| && 0 <= l < |b| ==> ListedBefore(a[k], b[l])
    ensures Ascending(a + b)
  {
    forall k, l | 0 <= k < l < |a + b| ensures ListedBefore((a + b)[k], (a + b)[l]) {
      if l < |a| {
      } else if k >= |a| {
        assert (a + b)[k] == b[k - |a|] && (a + b)[l] == b[l - |a|];
      } else {
        assert (a + b)[l] == b[l - |a|];
      }
    }
  }

  lemma {:induction false} ColumnWallsAscending(i: int, j: nat)
    ensures Ascending(ColumnWalls(i, j))
    ensures forall k :: 0 <= k < |ColumnWalls(i, j)| ==>
      ColumnWalls(i, j)[k].side2.x == i && 0 <= ColumnWalls(i, j)[k].side2.y < j
  {
    if j > 0 {
      ColumnWallsAscending(i, j - 1);
      AscendingAppend(ColumnWalls(i, j - 1), WallsAt(i, j - 1));
    }
  }

  lemma {:induction false} WallsBeforeAscending(i: nat, d: nat)
    ensures Ascending(WallsBefore(i, d))
    ensures forall k :: 0 <= k < |WallsBefore(i, d)| ==> WallsBefore(i, d)[k].side2.x < i
  {
    if i > 0 {
      WallsBeforeAscending(i - 1, d);
      ColumnWallsAscending(i - 1, d);
      AscendingAppend(WallsBefore(i - 1, d), ColumnWalls(i - 1, d));
    }
  }

  /** No wall is listed twice. */
  lemma InitialWallsDistinct(w: nat, d: nat)
    ensures forall k, l :: 0 <= k < l < |InitialWalls(w, d)| ==> InitialWalls(w, d)[k] != InitialWalls(w, d)[l]
  {
    WallsBeforeAscending(w, d);
  }
}
