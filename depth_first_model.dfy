/** The state of the stack-based depth-first generator (scripts/MazeGeneratorVariant.js) as values,
    its neighbour filter and wall removal, the effect of one iteration of its carving loop, and
    the invariant that the loop keeps. */
module DepthFirstModel {
  import opened Grid

  /** A tile: its `visited` mark, its coordinates, its four wall flags (true = wall present) and
      the `end` and `start` marks. */
  datatype Tile = Tile(visited: bool, x: int, y: int, N: bool, S: bool, E: bool, W: bool, end: bool, start: bool)

  function NewTile(x: int, y: int): Tile {
    Tile(false, x, y, true, true, true, true, false, false)
  }

  type Tiles = seq<seq<Tile>>

  /** The generator's fields: `tiles` and the `stack` (of tile positions). */
  datatype Carving = Carving(tiles: Tiles, stack: seq<Pos>)

  // ---------------------------------------------------------------- grid access

  predicate Holds(tiles: Tiles, p: Pos) {
    0 <= p.x < |tiles| && 0 <= p.y < |tiles[p.x]|
  }

  function At(tiles: Tiles, p: Pos): Tile
    requires Holds(tiles, p)
  {
    tiles[p.x][p.y]
  }

  function SetTile(tiles: Tiles, p: Pos, t: Tile): (r: Tiles)
    requires Holds(tiles, p)
    ensures |r| == |tiles| && forall i :: 0 <= i < |r| ==> |r[i]| == |tiles[i]|
    ensures forall q :: Holds(tiles, q) ==> At(r, q) == if q == p then t else At(tiles, q)
  {
    tiles[p.x := tiles[p.x][p.y := t]]
  }

  /** `tiles[x][y]` exists exactly for the tiles of a `w × d` grid and holds its own coordinates. */
  ghost predicate Placed(w: nat, d: nat, tiles: Tiles) {
    && |tiles| == w
    && (forall i :: 0 <= i < w ==> |tiles[i]| == d)
    && (forall p {:trigger InGrid(w, d, p)} :: InGrid(w, d, p) ==> At(tiles, p).x == p.x && At(tiles, p).y == p.y)
  }

  /** Boundary flags are set and the flags facing each other across an interior wall agree. */
  ghost predicate Mirrored(w: nat, d: nat, tiles: Tiles)
    requires Placed(w, d, tiles)
  {
    forall p {:trigger InGrid(w, d, p)} :: InGrid(w, d, p) ==>
      && (p.x == 0 ==> At(tiles, p).W)
      && (p.x == w - 1 ==> At(tiles, p).E)
      && (p.y == 0 ==> At(tiles, p).N)
      && (p.y == d - 1 ==> At(tiles, p).S)
      && (p.x > 0 ==> At(tiles, p).W == At(tiles, WestOf(p)).E)
      && (p.y > 0 ==> At(tiles, p).N == At(tiles, NorthOf(p)).S)
  }

  // ---------------------------------------------------------------- construction

  /** The tiles the constructor's nested loop creates, before `start` is set. */
  function FreshTiles(w: nat, d: nat): Tiles {
    seq(w, i => FreshColumn(i, d))
  }

  function FreshColumn(i: int, n: nat): seq<Tile> {
    seq(n, j => NewTile(i, j))
  }

  /** The state right after construction: `tiles[0][0]` is marked start and is the only entry
      of the stack, but it is not marked visited. */
  function InitialCarving(w: nat, d: nat): Carving
    requires w >= 1 && d >= 1
  {
    var t := FreshTiles(w, d);
    Carving(SetTile(t, Origin, At(t, Origin).(start := true)), [Origin])
  }

  // ---------------------------------------------------------------- neighbours

  /** The four candidate locations in the order `getUnvisitedNeighbors` lists them:
      (x, y-1), (x, y+1), (x-1, y), (x+1, y). */
  function Locs(p: Pos): seq<Pos> {
    [NorthOf(p), SouthOf(p), WestOf(p), EastOf(p)]
  }

  /** A location passes the filter when it lies in the grid and its tile is not visited. */
  ghost predicate Unvisited(w: nat, d: nat, tiles: Tiles, q: Pos)
    requires Placed(w, d, tiles)
  {
    InGrid(w, d, q) && !At(tiles, q).visited
  }

  /** The locations of `locs` that pass the filter, in order. */
  ghost function UnvisitedAmong(w: nat, d: nat, tiles: Tiles, locs: seq<Pos>): seq<Pos>
    requires Placed(w, d, tiles)
    decreases |locs|
  {
    if locs == [] then []
    else
      var q := locs[|locs| - 1];
      UnvisitedAmong(w, d, tiles, locs[..|locs| - 1]) + (if Unvisited(w, d, tiles, q) then [q] else [])
  }

  ghost function UnvisitedNeighbors(w: nat, d: nat, tiles: Tiles, p: Pos): seq<Pos>
    requires Placed(w, d, tiles)
  {
    UnvisitedAmong(w, d, tiles, Locs(p))
  }

  /** Some grid neighbour of p is still unvisited. */
  ghost predicate HasUnvisitedNeighbor(w: nat, d: nat, tiles: Tiles, p: Pos)
    requires Placed(w, d, tiles)
  {
    || Unvisited(w, d, tiles, NorthOf(p))
    || Unvisited(w, d, tiles, SouthOf(p))
    || Unvisited(w, d, tiles, WestOf(p))
    || Unvisited(w, d, tiles, EastOf(p))
  }

  // ---------------------------------------------------------------- removing a wall

  /** `removeWall(a, b)`: by the x difference clear a.W and b.E (difference 1) or a.E and b.W
      (difference -1); then by the y difference clear a.N and b.S (1) or a.S and b.N (-1). */
  function WallRemoved(tiles: Tiles, a: Pos, b: Pos): Tiles
    requires Holds(tiles, a) && Holds(tiles, b)
  {
    WallRemovedAlongY(WallRemovedAlongX(tiles, a, b), a, b)
  }

  /** The first half of `removeWall`, on the x difference. */
  function WallRemovedAlongX(tiles: Tiles, a: Pos, b: Pos): (r: Tiles)
    requires Holds(tiles, a) && Holds(tiles, b)
    ensures Holds(r, a) && Holds(r, b)
  {
    var dx := At(tiles, a).x - At(tiles, b).x;
    if dx == 1 then
      var u := SetTile(tiles, a, At(tiles, a).(W := false));
      SetTile(u, b, At(u, b).(E := false))
    else if dx == -1 then
      var u := SetTile(tiles, a, At(tiles, a).(E := false));
      SetTile(u, b, At(u, b).(W := false))
    else tiles
  }

  /** The second half of `removeWall`, on the y difference. */
  function WallRemovedAlongY(tiles: Tiles, a: Pos, b: Pos): Tiles
    requires Holds(tiles, a) && Holds(tiles, b)
  {
    var dy := At(tiles, a).y - At(tiles, b).y;
    if dy == 1 then
      var u := SetTile(tiles, a, At(tiles, a).(N := false));
      SetTile(u, b, At(u, b).(S := false))
    else if dy == -1 then
      var u := SetTile(tiles, a, At(tiles, a).(S := false));
      SetTile(u, b, At(u, b).(N := false))
    else tiles
  }

  /** Carving from `a` into `b`: remove the wall between them, then mark `b` visited. */
  function Carved(tiles: Tiles, a: Pos, b: Pos): Tiles
    requires Holds(tiles, a) && Holds(tiles, b)
  {
    var t1 := WallRemoved(tiles, a, b);
    SetTile(t1, b, At(t1, b).(visited := true))
  }

  // ---------------------------------------------------------------- one loop iteration

  ghost predicate StackInGrid(w: nat, d: nat, stack: seq<Pos>) {
    forall k :: 0 <= k < |stack| ==> InGrid(w, d, stack[k])
  }

  /** The pick `k` is an index into the popped tile's unvisited neighbours (when there are any). */
  ghost predicate ValidPick(w: nat, d: nat, s: Carving, k: nat)
    requires Placed(w, d, s.tiles) && s.stack != []
  {
    var u := UnvisitedNeighbors(w, d, s.tiles, s.stack[|s.stack| - 1]);
    u == [] || k < |u|
  }

  /** One iteration (lines 25-40): pop `current`; if it has unvisited neighbours, carve to the
      `k`-th one, mark it visited, push `current` back if it had several, and push `next`. */
  ghost function CarveStep(w: nat, d: nat, s: Carving, k: nat): Carving
    requires Placed(w, d, s.tiles) && s.stack != [] && StackInGrid(w, d, s.stack)
    requires ValidPick(w, d, s, k)
  {
    var current := s.stack[|s.stack| - 1];
    var rest := s.stack[..|s.stack| - 1];
    var u := UnvisitedNeighbors(w, d, s.tiles, current);
    if u == [] then Carving(s.tiles, rest)
    else
      assert InGrid(w, d, current);
      UnvisitedAmongMembers(w, d, s.tiles, Locs(current), u[k]);
      var next := u[k];
      Carving(Carved(s.tiles, current, next), rest + (if |u| > 1 then [current] else []) + [next])
  }

  /** What passes the filter is exactly the listed in-grid, unvisited locations. */
  lemma {:induction false} UnvisitedAmongMembers(w: nat, d: nat, tiles: Tiles, locs: seq<Pos>, q: Pos)
    requires Placed(w, d, tiles)
    ensures q in UnvisitedAmong(w, d, tiles, locs) <==> q in locs && Unvisited(w, d, tiles, q)
    decreases |locs|
  {
    if locs != [] {
      var init := locs[..|locs| - 1];
      UnvisitedAmongMembers(w, d, tiles, init, q);
      assert locs == init + [locs[|locs| - 1]];
    }
  }

  // ---------------------------------------------------------------- the invariant

  /** Only `tiles[0][0]` is marked start, and no tile is marked end. */
  ghost predicate Marks(w: nat, d: nat, tiles: Tiles)
    requires Placed(w, d, tiles)
  {
    forall p {:trigger InGrid(w, d, p)} :: InGrid(w, d, p) ==> At(tiles, p).start == (p == Origin) && !At(tiles, p).end
  }

  /** Every visited tile, and the start tile, that still has an unvisited neighbour is on the
      stack, so it will be popped again. */
  ghost predicate Covered(w: nat, d: nat, s: Carving)
    requires Placed(w, d, s.tiles)
  {
    forall p {:trigger HasUnvisitedNeighbor(w, d, s.tiles, p)} ::
      InGrid(w, d, p) && (At(s.tiles, p).visited || p == Origin) && HasUnvisitedNeighbor(w, d, s.tiles, p)
      ==> p in s.stack
  }

  ghost function Visited(w: nat, d: nat, tiles: Tiles): set<Pos>
    requires Placed(w, d, tiles)
  {
    set i, j | 0 <= i < w && 0 <= j < d && tiles[i][j].visited :: Pos(i, j)
  }

  ghost function NotVisited(w: nat, d: nat, tiles: Tiles): set<Pos>
    requires Placed(w, d, tiles)
  {
    set i, j | 0 <= i < w && 0 <= j < d && !tiles[i][j].visited :: Pos(i, j)
  }

  /** Tiles whose east wall is open (the wall between (x, y) and (x+1, y)). */
  ghost function OpenEast(w: nat, d: nat, tiles: Tiles): set<Pos>
    requires Placed(w, d, tiles)
  {
    set i, j | 0 <= i < w - 1 && 0 <= j < d && !tiles[i][j].E :: Pos(i, j)
  }

  /** Tiles whose south wall is open (the wall between (x, y) and (x, y+1)). */
  ghost function OpenSouth(w: nat, d: nat, tiles: Tiles): set<Pos>
    requires Placed(w, d, tiles)
  {
    set i, j | 0 <= i < w && 0 <= j < d - 1 && !tiles[i][j].S :: Pos(i, j)
  }

  /** The invariant of the carving loop. */
  ghost predicate DInv(w: nat, d: nat, s: Carving) {
    && InGrid(w, d, Origin)
    && Placed(w, d, s.tiles)
    && Mirrored(w, d, s.tiles)
    && Marks(w, d, s.tiles)
    && StackInGrid(w, d, s.stack)
    && Covered(w, d, s)
    && (w == 1 && d == 1 ==> !At(s.tiles, Origin).visited)
    && |OpenEast(w, d, s.tiles)| + |OpenSouth(w, d, s.tiles)| <= |Visited(w, d, s.tiles)|
  }

  /** The loop's termination measure. */
  ghost function Measure(w: nat, d: nat, s: Carving): nat
    requires Placed(w, d, s.tiles)
  {
    2 * |NotVisited(w, d, s.tiles)| + |s.stack|
  }
}
