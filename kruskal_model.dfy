/** The state of the randomized-Kruskal generator (scripts/MazeGenerator.js) as values, the effect
    of one iteration of its carving loop, and the invariant that the loop keeps: the halls
    (`tiles_by_hall`) partition the tiles, the wall flags stay mirrored, every opened wall lies
    inside one hall, and the tiles of one hall are linked by open passages. */
module KruskalModel {
  import opened Grid
  import opened KruskalWalls

  type Tiles = seq<seq<MazeTile>>
  type Buckets = map<int, seq<Pos>>

  /** The generator's fields: `tiles`, `tiles_by_hall` (buckets of positions) and `walls`. */
  datatype KState = KState(tiles: Tiles, tilesByHall: Buckets, walls: seq<MazeWall>)

  // ---------------------------------------------------------------- grid access

  predicate Holds(tiles: Tiles, p: Pos) {
    0 <= p.x < |tiles| && 0 <= p.y < |tiles[p.x]|
  }

  function At(tiles: Tiles, p: Pos): MazeTile
    requires Holds(tiles, p)
  {
    tiles[p.x][p.y]
  }

  function Hall(tiles: Tiles, p: Pos): int
    requires Holds(tiles, p)
  {
    tiles[p.x][p.y].hall
  }

  function SetTile(tiles: Tiles, p: Pos, t: MazeTile): (r: Tiles)
    requires Holds(tiles, p)
    ensures |r| == |tiles| && forall i :: 0 <= i < |r| ==> |r[i]| == |tiles[i]|
    ensures forall q :: Holds(tiles, q) ==> At(r, q) == if q == p then t else At(tiles, q)
  {
    tiles[p.x := tiles[p.x][p.y := t]]
  }

  /** `tiles[x][y]` exists exactly for the tiles of a `w × d` grid and holds its own coordinates. */
  ghost predicate Placed(w: nat, d: nat, tiles: Tiles) {
    && |tiles| == w
    && (forall i :: 0 <= i < w ==> |tiles[i]| == d)
    && (forall p {:trigger InGrid(w, d, p)} :: InGrid(w, d, p) ==> At(tiles, p).x == p.x && At(tiles, p).y == p.y)
  }

  /** Two grids of the same shape that agree tile by tile are equal. */
  lemma SameTiles(w: nat, d: nat, a: Tiles, b: Tiles)
    requires |a| == w && |b| == w
    requires forall i :: 0 <= i < w ==> |a[i]| == d && |b[i]| == d
    requires forall p :: InGrid(w, d, p) ==> At(a, p) == At(b, p)
    ensures a == b
  {
    forall i | 0 <= i < w ensures a[i] == b[i] {
      forall j | 0 <= j < d ensures a[i][j] == b[i][j] {
        assert InGrid(w, d, Pos(i, j));
      }
    }
  }

  // ---------------------------------------------------------------- walls and passages

  /** Boundary flags are set and the flags facing each other across an interior wall agree. */
  ghost predicate Mirrored(w: nat, d: nat, tiles: Tiles)
    requires Placed(w, d, tiles)
  {
    forall p {:trigger InGrid(w, d, p)} :: InGrid(w, d, p) ==>
      && (p.x == 0 ==> At(tiles, p).W)
      && (p.x == w - 1 ==> At(tiles, p).E)
      && (p.y == 0 ==> At(tiles, p).N)
      && (p.y == d - 1 ==> At(tiles, p).S)
      && (p.x > 0 ==> At(tiles, p).W == At(tiles, WestOf(p)).E)
      && (p.y > 0 ==> At(tiles, p).N == At(tiles, NorthOf(p)).S)
  }

  /** An interior wall is open when side1's flag facing side2 is cleared. */
  ghost predicate IsOpen(w: nat, d: nat, tiles: Tiles, wl: MazeWall)
    requires Placed(w, d, tiles)
  {
    && IsInteriorWall(w, d, wl)
    && match wl.orientation
       case V => !At(tiles, wl.side1).E
       case H => !At(tiles, wl.side1).S
  }

  ghost function OpenWalls(w: nat, d: nat, tiles: Tiles): set<MazeWall>
    requires Placed(w, d, tiles)
  {
    set wl | wl in InitialWalls(w, d) && IsOpen(w, d, tiles, wl)
  }

  /** The wall a move from p to q would cross. */
  function Between(p: Pos, q: Pos): MazeWall {
    if p.x < q.x then MazeWall(p, q, V)
    else if q.x < p.x then MazeWall(q, p, V)
    else if p.y < q.y then MazeWall(p, q, H)
    else MazeWall(q, p, H)
  }

  ghost predicate Passage(w: nat, d: nat, tiles: Tiles, p: Pos, q: Pos)
    requires Placed(w, d, tiles)
  {
    IsOpen(w, d, tiles, Between(p, q))
  }

  ghost predicate IsWalk(w: nat, d: nat, tiles: Tiles, s: seq<Pos>)
    requires Placed(w, d, tiles)
  {
    |s| > 0 && forall k :: 0 <= k < |s| - 1 ==> Passage(w, d, tiles, s[k], s[k + 1])
  }

  /** p and q are connected through open passages. */
  ghost predicate Linked(w: nat, d: nat, tiles: Tiles, p: Pos, q: Pos)
    requires Placed(w, d, tiles)
  {
    exists s :: IsWalk(w, d, tiles, s) && s[0] == p && s[|s| - 1] == q
  }

  // ---------------------------------------------------------------- halls

  predicate NoDup(s: seq<Pos>) {
    forall k, l :: 0 <= k < l < |s| ==> s[k] != s[l]
  }

  /** `tiles_by_hall` is a partition: every tile is in the bucket of its own hall, every bucket
      holds only tiles of that hall, and no bucket lists a tile twice. */
  ghost predicate Partitioned(w: nat, d: nat, tiles: Tiles, byHall: Buckets)
    requires Placed(w, d, tiles)
  {
    && (forall p :: InGrid(w, d, p) ==> Hall(tiles, p) in byHall && p in byHall[Hall(tiles, p)])
    && (forall h, k :: h in byHall && 0 <= k < |byHall[h]| ==>
          InGrid(w, d, byHall[h][k]) && Hall(tiles, byHall[h][k]) == h)
    && (forall h :: h in byHall ==> NoDup(byHall[h]))
  }

  ghost function LiveHalls(byHall: Buckets): set<int> {
    set h | h in byHall && byHall[h] != []
  }

  ghost predicate Joined(w: nat, d: nat, tiles: Tiles, wl: MazeWall)
    requires Placed(w, d, tiles) && IsInteriorWall(w, d, wl)
  {
    Hall(tiles, wl.side1) == Hall(tiles, wl.side2)
  }

  /** Walls still to be popped are interior walls. */
  ghost predicate WallsInterior(w: nat, d: nat, walls: seq<MazeWall>) {
    forall k :: 0 <= k < |walls| ==> IsInteriorWall(w, d, walls[k])
  }

  /** Every interior wall is still to be popped, or both its sides are in one hall. */
  ghost predicate Settled(w: nat, d: nat, tiles: Tiles, walls: seq<MazeWall>)
    requires Placed(w, d, tiles)
  {
    forall wl :: IsInteriorWall(w, d, wl) ==> wl in walls || Joined(w, d, tiles, wl)
  }

  /** Every open wall lies inside one hall. */
  ghost predicate OpenInsideHalls(w: nat, d: nat, tiles: Tiles)
    requires Placed(w, d, tiles)
  {
    forall wl :: IsOpen(w, d, tiles, wl) ==> Joined(w, d, tiles, wl)
  }

  /** Each opened wall has merged two halls into one. */
  ghost predicate Counted(w: nat, d: nat, tiles: Tiles, byHall: Buckets)
    requires Placed(w, d, tiles)
  {
    |OpenWalls(w, d, tiles)| + |LiveHalls(byHall)| == w * d
  }

  /** The tiles of one hall are linked by open passages. */
  ghost predicate HallsConnected(w: nat, d: nat, tiles: Tiles)
    requires Placed(w, d, tiles)
  {
    forall p, q {:trigger Linked(w, d, tiles, p, q)} ::
      InGrid(w, d, p) && InGrid(w, d, q) && Hall(tiles, p) == Hall(tiles, q) ==> Linked(w, d, tiles, p, q)
  }

  /** The invariant of the carving loop. */
  ghost predicate KInv(w: nat, d: nat, s: KState) {
    && Placed(w, d, s.tiles)
    && Mirrored(w, d, s.tiles)
    && Partitioned(w, d, s.tiles, s.tilesByHall)
    && WallsInterior(w, d, s.walls)
    && Settled(w, d, s.tiles, s.walls)
    && OpenInsideHalls(w, d, s.tiles)
    && Counted(w, d, s.tiles, s.tilesByHall)
    && HallsConnected(w, d, s.tiles)
  }

  // ---------------------------------------------------------------- construction

  /** `this.tiles` after the constructor's first nested loop: tile (i, j) gets hall `i*d + j`. */
  function InitialTiles(w: nat, d: nat): Tiles {
    seq(w, i => InitialColumn(i, d, d))
  }

  /** The first `n` tiles of column `i`. */
  function InitialColumn(i: int, n: nat, d: nat): seq<MazeTile> {
    seq(n, j => NewTile(i, j, i * d + j))
  }

  /** The buckets for halls 0 .. n-1, added one by one as the constructor's `counter` grows:
      hall `h` holds the single tile (h / d, h % d). */
  function BucketsUpTo(n: nat, d: nat): Buckets
    requires n == 0 || d > 0
  {
    if n == 0 then map[] else BucketsUpTo(n - 1, d)[n - 1 := [Pos((n - 1) / d, (n - 1) % d)]]
  }

  /** `this.tiles_by_hall` after the constructor. */
  function InitialBuckets(w: nat, d: nat): Buckets {
    BucketsUpTo(w * d, d)
  }

  // ---------------------------------------------------------------- one loop iteration

  /** Every tile of hall `from` moved to hall `to` (the `for (let tile of side2)` loop). */
  function Relabel(tiles: Tiles, from: int, to: int): (r: Tiles)
    ensures |r| == |tiles| && forall i :: 0 <= i < |r| ==> |r[i]| == |tiles[i]|
    ensures forall p :: Holds(tiles, p) ==>
      At(r, p) == if At(tiles, p).hall == from then At(tiles, p).(hall := to) else At(tiles, p)
  {
    seq(|tiles|, i requires 0 <= i < |tiles| =>
      seq(|tiles[i]|, j requires 0 <= j < |tiles[i]| =>
        if tiles[i][j].hall == from then tiles[i][j].(hall := to) else tiles[i][j]))
  }

  /** Opening a wall: a V wall clears side1.E then side2.W, an H wall side1.S then side2.N. */
  function ClearWall(tiles: Tiles, wl: MazeWall): (r: Tiles)
    requires Holds(tiles, wl.side1) && Holds(tiles, wl.side2)
    ensures |r| == |tiles| && forall i :: 0 <= i < |r| ==> |r[i]| == |tiles[i]|
  {
    match wl.orientation
    case V =>
      var t1 := SetTile(tiles, wl.side1, At(tiles, wl.side1).(E := false));
      SetTile(t1, wl.side2, At(t1, wl.side2).(W := false))
    case H =>
      var t1 := SetTile(tiles, wl.side1, At(tiles, wl.side1).(S := false));
      SetTile(t1, wl.side2, At(t1, wl.side2).(N := false))
  }

  /** Merging side2's hall into side1's hall and opening the wall (lines 49-64). */
  function Merge(tiles: Tiles, byHall: Buckets, wl: MazeWall): KState
    requires Holds(tiles, wl.side1) && Holds(tiles, wl.side2)
    requires Hall(tiles, wl.side1) in byHall && Hall(tiles, wl.side2) in byHall
  {
    var h1 := Hall(tiles, wl.side1);
    var h2 := Hall(tiles, wl.side2);
    var side2 := byHall[h2];
    var byHall1 := byHall[h2 := []];
    KState(ClearWall(Relabel(tiles, h2, h1), wl), byHall1[h1 := byHall[h1] + side2], [])
  }

  /** One iteration: pop the last wall; merge only when its sides lie in different halls. */
  ghost function Step(w: nat, d: nat, s: KState): KState
    requires KInv(w, d, s) && s.walls != []
  {
    var wl := s.walls[|s.walls| - 1];
    assert IsInteriorWall(w, d, wl);
    var rest := s.walls[..|s.walls| - 1];
    if Hall(s.tiles, wl.side1) != Hall(s.tiles, wl.side2) then
      Merge(s.tiles, s.tilesByHall, wl).(walls := rest)
    else
      s.(walls := rest)
  }

  // ---------------------------------------------------------------- lemmas about passages

  lemma BetweenSymmetric(p: Pos, q: Pos)
    ensures Between(p, q) == Between(q, p)
  {
  }

  lemma LinkedRefl(w: nat, d: nat, tiles: Tiles, p: Pos)
    requires Placed(w, d, tiles)
    ensures Linked(w, d, tiles, p, p)
  {
    assert IsWalk(w, d, tiles, [p]);
  }

  lemma LinkedByPassage(w: nat, d: nat, tiles: Tiles, p: Pos, q: Pos)
    requires Placed(w, d, tiles) && Passage(w, d, tiles, p, q)
    ensures Linked(w, d, tiles, p, q)
  {
    assert IsWalk(w, d, tiles, [p, q]);
  }

  lemma LinkedSym(w: nat, d: nat, tiles: Tiles, p: Pos, q: Pos)
    requires Placed(w, d, tiles) && Linked(w, d, tiles, p, q)
    ensures Linked(w, d, tiles, q, p)
  {
    var s :| IsWalk(w, d, tiles, s) && s[0] == p && s[|s| - 1] == q;
    var r := seq(|s|, k requires 0 <= k < |s| => s[|s| - 1 - k]);
    forall k | 0 <= k < |r| - 1 ensures Passage(w, d, tiles, r[k], r[k + 1]) {
      var m := |s| - 2 - k;
      assert Passage(w, d, tiles, s[m], s[m + 1]);
      BetweenSymmetric(s[m], s[m + 1]);
    }
    assert IsWalk(w, d, tiles, r);
  }

  lemma LinkedTrans(w: nat, d: nat, tiles: Tiles, p: Pos, q: Pos, r: Pos)
    requires Placed(w, d, tiles) && Linked(w, d, tiles, p, q) && Linked(w, d, tiles, q, r)
    ensures Linked(w, d, tiles, p, r)
  {
    var s1 :| IsWalk(w, d, tiles, s1) && s1[0] == p && s1[|s1| - 1] == q;
    var s2 :| IsWalk(w, d, tiles, s2) && s2[0] == q && s2[|s2| - 1] == r;
    var s := s1 + s2[1..];
    forall k | 0 <= k < |s| - 1 ensures Passage(w, d, tiles, s[k], s[k + 1]) {
      if k < |s1| - 1 {
        assert s[k] == s1[k] && s[k + 1] == s1[k + 1];
      } else {
        var m := k - (|s1| - 1);
        assert s[k] == s2[m] && s[k + 1] == s2[m + 1];
      }
    }
    assert IsWalk(w, d, tiles, s);
  }

  /** Opening walls never disconnects: a walk stays a walk when no wall closes. */
  lemma LinkedMono(w: nat, d: nat, t: Tiles, t': Tiles, p: Pos, q: Pos)
    requires Placed(w, d, t) && Placed(w, d, t')
    requires forall wl :: IsOpen(w, d, t, wl) ==> IsOpen(w, d, t', wl)
    requires Linked(w, d, t, p, q)
    ensures Linked(w, d, t', p, q)
  {
    var s :| IsWalk(w, d, t, s) && s[0] == p && s[|s| - 1] == q;
    forall k | 0 <= k < |s| - 1 ensures Passage(w, d, t', s[k], s[k + 1]) {
      assert Passage(w, d, t, s[k], s[k + 1]);
    }
    assert IsWalk(w, d, t', s);
  }
}
