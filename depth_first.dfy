/** The `MazeGeneratorVariant` class of scripts/MazeGeneratorVariant.js: the constructor lays out
    closed tiles and pushes `tiles[0][0]`; `GenerateMaze` pops tiles off the stack and carves into
    a randomly chosen unvisited neighbour until the stack is empty. */
module DepthFirst {
  import opened Grid
  import opened DepthFirstModel
  import opened DepthFirstLemmas
  import opened DepthFirstTheorems

  class MazeGeneratorVariant {
    const width: nat
    const depth: nat
    var tiles: Tiles
    var stack: seq<Pos>

    function State(): Carving
      reads this
    {
      Carving(tiles, stack)
    }

    ghost predicate Valid()
      reads this
    {
      DInv(width, depth, State())
    }

    /** Lines 4-19: `tiles[i][j]` is a fresh closed tile for every i < w, j < d; `tiles[0][0]` is
        marked start and pushed, but not marked visited. The source reads `tiles[0][0]` without a
        bounds check, so an empty grid throws there. */
    constructor (w: nat, d: nat)
      requires w >= 1 && d >= 1
      ensures width == w && depth == d
      ensures State() == InitialCarving(w, d)
      ensures Valid() && !At(tiles, Origin).visited
    {
      width, depth := w, d;
      var ts: Tiles := [];
      for i := 0 to w
        invariant ts == FreshTiles(i, d)
      {
        ts := ts + [[]];
        assert FreshColumn(i, 0) == [];
        for j := 0 to d
          invariant ts == FreshTiles(i, d) + [FreshColumn(i, j)]
        {
          var tile := NewTile(i, j);
          ts := ts[i := ts[i] + [tile]];
          assert FreshColumn(i, j + 1) == FreshColumn(i, j) + [tile];
        }
        assert ts == FreshTiles(i + 1, d);
      }
      stack := [Origin];
      tiles := SetTile(ts, Origin, At(ts, Origin).(start := true));
      new;
      InitialDInv(w, d);
    }

    /** `getUnvisitedNeighbors` (lines 83-105): the locations (x, y-1), (x, y+1), (x-1, y),
        (x+1, y) that lie in the grid and whose tile is not visited, in that order. */
    method GetUnvisitedNeighbors(p: Pos) returns (neighbors: seq<Pos>)
      requires Placed(width, depth, tiles)
      ensures neighbors == UnvisitedNeighbors(width, depth, tiles, p)
    {
      var locs := Locs(p);
      neighbors := [];
      for k := 0 to 4
        invariant neighbors == UnvisitedAmong(width, depth, tiles, locs[..k])
      {
        var loc := locs[k];
        assert locs[..k + 1][..k] == locs[..k];
        if 0 <= loc.x < width && 0 <= loc.y < depth {
          if !tiles[loc.x][loc.y].visited {
            neighbors := neighbors + [loc];
          }
        }
      }
      assert locs[..4] == locs;
    }

    /** `removeWall` (lines 63-81). */
    method RemoveWall(a: Pos, b: Pos)
      requires Holds(tiles, a) && Holds(tiles, b)
      modifies this
      ensures tiles == WallRemoved(old(tiles), a, b) && stack == old(stack)
    {
      RemoveWallAlongX(a, b);
      RemoveWallAlongY(a, b);
    }

    /** Lines 64-71: the walls between horizontally adjacent tiles. */
    method RemoveWallAlongX(a: Pos, b: Pos)
      requires Holds(tiles, a) && Holds(tiles, b)
      modifies this
      ensures tiles == WallRemovedAlongX(old(tiles), a, b) && stack == old(stack)
    {
      var dx := At(tiles, a).x - At(tiles, b).x;
      if dx == 1 {
        var u := SetTile(tiles, a, At(tiles, a).(W := false));
        tiles := SetTile(u, b, At(u, b).(E := false));
      } else if dx == -1 {
        var u := SetTile(tiles, a, At(tiles, a).(E := false));
        tiles := SetTile(u, b, At(u, b).(W := false));
      }
    }

    /** Lines 73-80: the walls between vertically adjacent tiles. */
    method RemoveWallAlongY(a: Pos, b: Pos)
      requires Holds(tiles, a) && Holds(tiles, b)
      modifies this
      ensures tiles == WallRemovedAlongY(old(tiles), a, b) && stack == old(stack)
    {
      var dy := At(tiles, a).y - At(tiles, b).y;
      if dy == 1 {
        var u := SetTile(tiles, a, At(tiles, a).(N := false));
        tiles := SetTile(u, b, At(u, b).(S := false));
      } else if dy == -1 {
        var u := SetTile(tiles, a, At(tiles, a).(S := false));
        tiles := SetTile(u, b, At(u, b).(N := false));
      }
    }

    /** One iteration of the loop (lines 25-40); `k` is the index
        `Math.floor(Math.random() * unvisitedNeighbors.length)` picks. */
    method CarveOnce() returns (k: nat)
      requires Placed(width, depth, tiles) && stack != [] && StackInGrid(width, depth, stack)
      modifies this
      ensures ValidPick(width, depth, old(State()), k) && State() == CarveStep(width, depth, old(State()), k)
    {
      ghost var s := State();
      var current := stack[|stack| - 1];
      stack := stack[..|stack| - 1];
      assert InGrid(width, depth, current);
      var unvisited := GetUnvisitedNeighbors(current);
      k := 0;
      if |unvisited| > 0 {
        k :| 0 <= k < |unvisited|;
        NextFacts(width, depth, s, k);
        var next := unvisited[k];
        RemoveWall(current, next);
        tiles := SetTile(tiles, next, At(tiles, next).(visited := true));
        if |unvisited| > 1 {
          stack := stack + [current];
        }
        stack := stack + [next];
      }
    }

    /** `generateMaze` (lines 21-49): the loop runs until the stack is empty. Then every tile is
        visited when the grid has two or more tiles, the only tile of a 1×1 grid is not, at most
        `width*depth` walls are open, and no visited mark or open wall was undone. */
    method GenerateMaze()
      requires Valid()
      modifies this
      ensures Valid() && stack == []
      ensures (width >= 2 || depth >= 2) ==> forall p :: InGrid(width, depth, p) ==> At(tiles, p).visited
      ensures width == 1 && depth == 1 ==> !At(tiles, Origin).visited
      ensures |OpenEast(width, depth, tiles)| + |OpenSouth(width, depth, tiles)| <= width * depth
      ensures Progressed(width, depth, old(tiles), tiles)
    {
      while stack != []
        invariant Valid()
        invariant Progressed(width, depth, old(tiles), tiles)
        decreases Measure(width, depth, State())
      {
        ghost var s := State();
        var k := CarveOnce();
        CarveKeepsInv(width, depth, s, k);
        CarveMonotone(width, depth, s, k);
        ProgressedTrans(width, depth, old(tiles), s.tiles, tiles);
      }
      CarvedAll(width, depth, State());
    }
  }
}
