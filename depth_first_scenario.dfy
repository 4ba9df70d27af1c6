/** A concrete run of the depth-first generator on a 2×2 grid (scripts/MazeGeneratorVariant.js):
    because the start tile is never marked visited, the carving can come back into it. */
module DepthFirstScenario {
  import opened Grid
  import opened DepthFirstModel
  import opened DepthFirstLemmas
  import opened DepthFirstTheorems

  /** A tile of the trace: coordinates, visited mark and the N, S, E, W flags. */
  function T(x: int, y: int, visited: bool, N: bool, S: bool, E: bool, W: bool): Tile {
    Tile(visited, x, y, N, S, E, W, false, x == 0 && y == 0)
  }

  const P01 := Pos(0, 1)
  const P10 := Pos(1, 0)
  const P11 := Pos(1, 1)

  /** The 2×2 grid `t` holds the tiles a, b, c, e at (0,0), (0,1), (1,0), (1,1). */
  ghost predicate Is(t: Tiles, a: Tile, b: Tile, c: Tile, e: Tile) {
    Placed(2, 2, t) && At(t, Origin) == a && At(t, P01) == b && At(t, P10) == c && At(t, P11) == e
  }

  /** One iteration of the carving loop from `s` with pick `k` yields `s'`. */
  ghost predicate Iterates(s: Carving, k: nat, s': Carving) {
    Steppable(2, 2, s, k) && CarveStep(2, 2, s, k) == s'
  }

  /** The state of the freshly constructed grid. */
  ghost predicate Stage0(s: Carving) {
    s.stack == [Origin] &&
    Is(s.tiles, T(0, 0, false, true, true, true, true), T(0, 1, false, true, true, true, true),
                T(1, 0, false, true, true, true, true), T(1, 1, false, true, true, true, true))
  }

  /** The state after iteration 1. */
  ghost predicate Stage1(s: Carving) {
    s.stack == [Origin, P10] &&
    Is(s.tiles, T(0, 0, false, true, true, false, true), T(0, 1, false, true, true, true, true),
                T(1, 0, true, true, true, true, false), T(1, 1, false, true, true, true, true))
  }

  /** The state after iteration 2. */
  ghost predicate Stage2(s: Carving) {
    s.stack == [Origin, P10, P11] &&
    Is(s.tiles, T(0, 0, false, true, true, false, true), T(0, 1, false, true, true, true, true),
                T(1, 0, true, true, false, true, false), T(1, 1, true, false, true, true, true))
  }

  /** The state after iteration 3. */
  ghost predicate Stage3(s: Carving) {
    s.stack == [Origin, P10, P01] &&
    Is(s.tiles, T(0, 0, false, true, true, false, true), T(0, 1, true, true, true, false, true),
                T(1, 0, true, true, false, true, false), T(1, 1, true, false, true, true, false))
  }

  /** The state after iteration 4. */
  ghost predicate Stage4(s: Carving) {
    s.stack == [Origin, P10, Origin] &&
    Is(s.tiles, T(0, 0, true, true, false, false, true), T(0, 1, true, false, true, false, true),
                T(1, 0, true, true, false, true, false), T(1, 1, true, false, true, true, false))
  }

  /** `CarvedAt` as one record update. */
  lemma CarvedTile(t: Tiles, a: Pos, b: Pos, p: Pos)
    requires Placed(2, 2, t) && InGrid(2, 2, a) && InGrid(2, 2, b) && Adjacent(a, b) && InGrid(2, 2, p)
    ensures Holds(Carved(t, a, b), p)
    ensures At(Carved(t, a, b), p) == At(t, p).(
      visited := At(t, p).visited || p == b,
      N := At(t, p).N && !(p == a && b == NorthOf(a)) && !(p == b && a == NorthOf(b)),
      S := At(t, p).S && !(p == a && b == SouthOf(a)) && !(p == b && a == SouthOf(b)),
      W := At(t, p).W && !(p == a && b == WestOf(a)) && !(p == b && a == WestOf(b)),
      E := At(t, p).E && !(p == a && b == EastOf(a)) && !(p == b && a == EastOf(b)))
  {
    CarvedAt(2, 2, t, a, b, p);
  }

  /** The constructed 2×2 grid: four closed tiles, none visited, stack `[(0,0)]`. */
  lemma Initial(s: Carving)
    requires s == InitialCarving(2, 2)
    ensures Stage0(s)
  {
    InitialDInv(2, 2);
    InitialTileAt(2, 2, Origin);
    InitialTileAt(2, 2, P01);
    InitialTileAt(2, 2, P10);
    InitialTileAt(2, 2, P11);
  }

  /** Iteration 1: (0,0) has unvisited neighbours (0,1) and (1,0); pick 1 carves east into
      (1,0) and pushes (0,0) back. */
  lemma Step1(s: Carving)
    requires Stage0(s)
    ensures Steppable(2, 2, s, 1) && Stage1(CarveStep(2, 2, s, 1))
  {
    var t := s.tiles;
    assert s.stack[..|s.stack| - 1] == [];
    NeighborsUnfold(2, 2, t, Origin);
    assert UnvisitedNeighbors(2, 2, t, Origin) == [P01, P10];
    NextFacts(2, 2, s, 1);
    CarvedPlaced(2, 2, t, Origin, P10);
    CarvedTile(t, Origin, P10, Origin);
    CarvedTile(t, Origin, P10, P01);
    CarvedTile(t, Origin, P10, P10);
    CarvedTile(t, Origin, P10, P11);
  }

  /** Iteration 2: (1,0) has unvisited neighbours (1,1) and the start tile; pick 0 carves
      south into (1,1) and pushes (1,0) back. */
  lemma Step2(s: Carving)
    requires Stage1(s)
    ensures Steppable(2, 2, s, 0) && Stage2(CarveStep(2, 2, s, 0))
  {
    var t := s.tiles;
    assert s.stack[..|s.stack| - 1] == [Origin];
    NeighborsUnfold(2, 2, t, P10);
    assert UnvisitedNeighbors(2, 2, t, P10) == [P11, Origin];
    NextFacts(2, 2, s, 0);
    CarvedPlaced(2, 2, t, P10, P11);
    CarvedTile(t, P10, P11, Origin);
    CarvedTile(t, P10, P11, P01);
    CarvedTile(t, P10, P11, P10);
    CarvedTile(t, P10, P11, P11);
  }

  /** Iteration 3: (1,1) has only (0,1) left; carving west into it does not push (1,1)
      back. */
  lemma Step3(s: Carving)
    requires Stage2(s)
    ensures Steppable(2, 2, s, 0) && Stage3(CarveStep(2, 2, s, 0))
  {
    var t := s.tiles;
    assert s.stack[..|s.stack| - 1] == [Origin, P10];
    NeighborsUnfold(2, 2, t, P11);
    assert UnvisitedNeighbors(2, 2, t, P11) == [P01];
    NextFacts(2, 2, s, 0);
    CarvedPlaced(2, 2, t, P11, P01);
    CarvedTile(t, P11, P01, Origin);
    CarvedTile(t, P11, P01, P01);
    CarvedTile(t, P11, P01, P10);
    CarvedTile(t, P11, P01, P11);
  }

  /** Iteration 4: (0,1) has only the start tile left, which was never marked visited;
      carving north into it opens a fourth wall. */
  lemma Step4(s: Carving)
    requires Stage3(s)
    ensures Steppable(2, 2, s, 0) && Stage4(CarveStep(2, 2, s, 0))
  {
    var t := s.tiles;
    assert s.stack[..|s.stack| - 1] == [Origin, P10];
    NeighborsUnfold(2, 2, t, P01);
    assert UnvisitedNeighbors(2, 2, t, P01) == [Origin];
    NextFacts(2, 2, s, 0);
    CarvedPlaced(2, 2, t, P01, Origin);
    CarvedTile(t, P01, Origin, Origin);
    CarvedTile(t, P01, Origin, P01);
    CarvedTile(t, P01, Origin, P10);
    CarvedTile(t, P01, Origin, P11);
  }

  lemma Link1(s: Carving, s': Carving)
    requires Stage0(s) && Iterates(s, 1, s')
    ensures Stage1(s')
  {
    Step1(s);
  }

  lemma Link2(s: Carving, s': Carving)
    requires Stage1(s) && Iterates(s, 0, s')
    ensures Stage2(s')
  {
    Step2(s);
  }

  lemma Link3(s: Carving, s': Carving)
    requires Stage2(s) && Iterates(s, 0, s')
    ensures Stage3(s')
  {
    Step3(s);
  }

  lemma Link4(s: Carving, s': Carving)
    requires Stage3(s) && Iterates(s, 0, s')
    ensures Stage4(s')
  {
    Step4(s);
  }

  /** The final grid of the trace has the east walls of (0,0) and (0,1) and the south walls of
      (0,0) and (1,0) open. */
  lemma OpenAtEnd(s: Carving)
    requires Stage4(s)
    ensures OpenEast(2, 2, s.tiles) == {Origin, P01} && OpenSouth(2, 2, s.tiles) == {Origin, P10}
    ensures Placed(2, 2, s.tiles) && |OpenEast(2, 2, s.tiles)| + |OpenSouth(2, 2, s.tiles)| == 4
  {
    var t := s.tiles;
    forall p ensures (p in OpenEast(2, 2, t) <==> p in {Origin, P01})
      && (p in OpenSouth(2, 2, t) <==> p in {Origin, P10})
    {
      OpenMembers(2, 2, t, p);
    }
    assert OpenEast(2, 2, t) == {Origin, P01};
    assert OpenSouth(2, 2, t) == {Origin, P10};
  }

  /** The last three iterations of the trace. */
  lemma FromStage1(s1: Carving, s2: Carving, s3: Carving, s4: Carving)
    requires Stage1(s1)
    requires Iterates(s1, 0, s2) && Iterates(s2, 0, s3) && Iterates(s3, 0, s4)
    ensures Placed(2, 2, s4.tiles) && |OpenEast(2, 2, s4.tiles)| + |OpenSouth(2, 2, s4.tiles)| == 4
  {
    Link2(s1, s2);
    FromStage2(s2, s3, s4);
  }

  /** The last two iterations of the trace. */
  lemma FromStage2(s2: Carving, s3: Carving, s4: Carving)
    requires Stage2(s2)
    requires Iterates(s2, 0, s3) && Iterates(s3, 0, s4)
    ensures Placed(2, 2, s4.tiles) && |OpenEast(2, 2, s4.tiles)| + |OpenSouth(2, 2, s4.tiles)| == 4
  {
    Link3(s2, s3);
    Link4(s3, s4);
    OpenAtEnd(s4);
  }

  /** In a 2×2 grid, with picks 1, 0, 0, 0 the carving goes (0,0) → (1,0) → (1,1) → (0,1) and
      then back into the never-visited start tile: four walls are then open, one more than the
      three of a spanning tree of four tiles, so the passages form a cycle through `tiles[0][0]`.
      Each iteration is enabled: `Step1` … `Step4` establish `Steppable` for these states. */
  lemma CycleThroughStart(s0: Carving, s1: Carving, s2: Carving, s3: Carving, s4: Carving)
    requires s0 == InitialCarving(2, 2)
    requires Iterates(s0, 1, s1) && Iterates(s1, 0, s2) && Iterates(s2, 0, s3) && Iterates(s3, 0, s4)
    ensures Placed(2, 2, s4.tiles) && |OpenEast(2, 2, s4.tiles)| + |OpenSouth(2, 2, s4.tiles)| == 4
  {
    Initial(s0);
    Link1(s0, s1);
    FromStage1(s1, s2, s3, s4);
  }
}
