/** The `MazeGenerator` class of scripts/MazeGenerator.js: the constructor lays out the tiles,
    their halls and the list of interior walls; `GenerateMaze` pops the shuffled walls one by one
    and merges halls, which leaves a spanning tree of open passages. */
module Kruskal {
  import opened Grid
  import opened KruskalWalls
  import opened KruskalModel
  import opened KruskalLemmas
  import opened KruskalTheorems

  class MazeGenerator {
    const width: nat
    const depth: nat
    var tiles: Tiles
    var tilesByHall: Buckets
    var walls: seq<MazeWall>

    function State(): KState
      reads this
    {
      KState(tiles, tilesByHall, walls)
    }

    ghost predicate Valid()
      reads this
    {
      KInv(width, depth, State())
    }

    constructor (w: nat, d: nat)
      ensures width == w && depth == d
      ensures tiles == InitialTiles(w, d) && tilesByHall == InitialBuckets(w, d)
      ensures walls == InitialWalls(w, d)
      ensures Valid()
    {
      width, depth := w, d;
      var ts: Tiles := [];
      var byHall: Buckets := map[];
      var counter := 0;
      for i := 0 to w
        invariant ts == InitialTiles(i, d)
        invariant counter == i * d
        invariant byHall == BucketsUpTo(counter, d)
      {
        ts := ts + [[]];
        assert InitialColumn(i, 0, d) == [];
        for j := 0 to d
          invariant ts == InitialTiles(i, d) + [InitialColumn(i, j, d)]
          invariant counter == i * d + j
          invariant byHall == BucketsUpTo(counter, d)
        {
          var tile := NewTile(i, j, counter);
          ts := ts[i := ts[i] + [tile]];
          assert InitialColumn(i, j + 1, d) == InitialColumn(i, j, d) + [tile];
          HallIdDecodes(i, j, d);
          byHall := byHall[counter := [Pos(i, j)]];
          counter := counter + 1;
        }
        assert ts == InitialTiles(i + 1, d);
        assert (i + 1) * d == i * d + d;
      }
      var ws: seq<MazeWall> := [];
      for i := 0 to w
        invariant ws == WallsBefore(i, d)
      {
        for j := 0 to d
          invariant ws == WallsBefore(i, d) + ColumnWalls(i, j)
        {
          ghost var before := ws;
          if i != 0 {
            ws := ws + [MazeWall(Pos(i - 1, j), Pos(i, j), V)];
          }
          if j != 0 {
            ws := ws + [MazeWall(Pos(i, j - 1), Pos(i, j), H)];
          }
          assert ws == before + WallsAt(i, j);
        }
      }
      tiles, tilesByHall, walls := ts, byHall, ws;
      new;
      InitialKInv(w, d);
    }

    /** One iteration of the carving loop (lines 47-65): pop the last wall and, when its sides
        lie in different halls, move side2's hall into side1's and open the wall. */
    method PopWall()
      requires Valid() && walls != []
      modifies this
      ensures State() == Step(width, depth, old(State()))
      ensures Valid()
    {
      ghost var s := State();
      var wall := walls[|walls| - 1];
      walls := walls[..|walls| - 1];
      assert IsInteriorWall(width, depth, wall);
      if Hall(tiles, wall.side1) != Hall(tiles, wall.side2) {
        ghost var h1, h2 := Hall(tiles, wall.side1), Hall(tiles, wall.side2);
        var side1 := tilesByHall[Hall(tiles, wall.side1)];
        var side2 := tilesByHall[Hall(tiles, wall.side2)];
        tilesByHall := tilesByHall[Hall(tiles, wall.side2) := []];
        RelabelBucket(side2, wall.side1);
        forall p | InGrid(width, depth, p) ensures p in side2 <==> Hall(s.tiles, p) == h2 {
          if p in side2 {
            var k :| 0 <= k < |side2| && side2[k] == p;
          }
        }
        SameTiles(width, depth, tiles, Relabel(s.tiles, h2, h1));
        side1 := side1 + side2;
        tilesByHall := tilesByHall[Hall(tiles, wall.side1) := side1];
        if wall.orientation == V {
          tiles := SetTile(tiles, wall.side1, At(tiles, wall.side1).(E := false));
          tiles := SetTile(tiles, wall.side2, At(tiles, wall.side2).(W := false));
        } else {
          tiles := SetTile(tiles, wall.side1, At(tiles, wall.side1).(S := false));
          tiles := SetTile(tiles, wall.side2, At(tiles, wall.side2).(N := false));
        }
      }
      StepKeepsInv(width, depth, s);
    }

    /** The `for (let tile of side2)` loop: every tile of `bucket` takes the hall of `side1`. */
    method RelabelBucket(bucket: seq<Pos>, side1: Pos)
      requires |tiles| == width && forall i :: 0 <= i < width ==> |tiles[i]| == depth
      requires InGrid(width, depth, side1)
      requires forall k :: 0 <= k < |bucket| ==>
        InGrid(width, depth, bucket[k]) && Hall(tiles, bucket[k]) != Hall(tiles, side1)
      modifies this
      ensures |tiles| == width && forall i :: 0 <= i < width ==> |tiles[i]| == depth
      ensures forall p :: InGrid(width, depth, p) ==>
        At(tiles, p) == if p in bucket then At(old(tiles), p).(hall := old(Hall(tiles, side1))) else At(old(tiles), p)
      ensures tilesByHall == old(tilesByHall) && walls == old(walls)
    {
      ghost var h1 := Hall(tiles, side1);
      for k := 0 to |bucket|
        invariant |tiles| == width && forall i :: 0 <= i < width ==> |tiles[i]| == depth
        invariant forall p :: InGrid(width, depth, p) ==>
          At(tiles, p) == if p in bucket[..k] then At(old(tiles), p).(hall := h1) else At(old(tiles), p)
        invariant tilesByHall == old(tilesByHall) && walls == old(walls)
      {
        var t := bucket[k];
        assert side1 !in bucket[..k + 1];
        tiles := SetTile(tiles, t, At(tiles, t).(hall := Hall(tiles, side1)));
        assert bucket[..k + 1] == bucket[..k] + [t];
      }
      assert bucket[..|bucket|] == bucket;
    }

    /** `generateMaze`: `shuffled` is the order the random-comparator `sort` leaves `walls` in
        (the sort works in place, so the loop empties `walls` itself). */
    method GenerateMaze(shuffled: seq<MazeWall>)
      requires Valid() && multiset(shuffled) == multiset(walls)
      modifies this
      ensures Valid() && walls == []
      ensures old(walls) == [] ==> tiles == old(tiles) && tilesByHall == old(tilesByHall)
      ensures width >= 1 && depth >= 1 ==> Spanning(width, depth, State())
    {
      ShuffleKeepsInv(width, depth, State(), shuffled);
      walls := shuffled;
      while |walls| > 0
        invariant Valid()
        invariant old(walls) == [] ==> walls == [] && tiles == old(tiles) && tilesByHall == old(tilesByHall)
        decreases |walls|
      {
        PopWall();
      }
      if width >= 1 && depth >= 1 {
        SettledMazeIsSpanning(width, depth, State());
      }
    }
  }
}
