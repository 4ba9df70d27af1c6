/** What the Kruskal generator (scripts/MazeGenerator.js) establishes at construction, what each
    loop iteration does to halls, buckets and flags, and what the finished maze looks like. */
module KruskalTheorems {
  import opened Grid
  import opened KruskalWalls
  import opened KruskalModel
  import opened KruskalLemmas

  // ---------------------------------------------------------------- arithmetic of hall ids

  lemma {:induction false} MulAtLeast(a: int, d: nat)
    requires a >= 1
    ensures a * d >= d
    decreases a
  {
    if a > 1 {
      MulAtLeast(a - 1, d);
      assert a * d == (a - 1) * d + d;
    }
  }

  lemma MulSmall(a: int, d: nat, e: int)
    requires a * d == e && e < d && -e < d
    ensures a == 0
  {
    if a >= 1 {
      MulAtLeast(a, d);
    } else if a <= -1 {
      MulAtLeast(-a, d);
    }
  }

  /** Hall id `i*d + j` encodes (i, j) uniquely. */
  lemma HallIdDecodes(i: int, j: int, d: nat)
    requires 0 <= j < d
    ensures (i * d + j) / d == i && (i * d + j) % d == j
  {
    var h := i * d + j;
    var q, r := h / d, h % d;
    assert h == q * d + r;
    assert (i - q) * d == r - j;
    MulSmall(i - q, d, r - j);
  }

  /** Every hall id below `w*d` is the id of a tile of the grid. */
  lemma HallIdEncodes(h: int, w: nat, d: nat)
    requires 0 <= h < w * d
    ensures d > 0 && InGrid(w, d, Pos(h / d, h % d)) && (h / d) * d + h % d == h
  {
    var i := h / d;
    if i >= w {
      MulAtLeast(i - w + 1, d);
    }
  }

  lemma HallIdBound(i: int, j: int, w: nat, d: nat)
    requires 0 <= i < w && 0 <= j < d
    ensures 0 <= i * d + j < w * d
  {
    MulAtLeast(w - i, d);
    assert w * d == (w - i) * d + i * d;
  }

  /** The constructor's buckets are keyed by 0 .. n-1, one singleton tile each. */
  lemma {:induction false} BucketsUpToAt(n: nat, d: nat, h: int)
    requires n == 0 || d > 0
    ensures h in BucketsUpTo(n, d) <==> 0 <= h < n
    ensures 0 <= h < n ==> BucketsUpTo(n, d)[h] == [Pos(h / d, h % d)]
  {
    if n > 0 {
      BucketsUpToAt(n - 1, d, h);
    }
  }

  lemma {:induction false} BucketsUpToSize(n: nat, d: nat)
    requires n == 0 || d > 0
    ensures |BucketsUpTo(n, d)| == n
  {
    if n > 0 {
      BucketsUpToSize(n - 1, d);
      BucketsUpToAt(n - 1, d, n - 1);
    }
  }

  // ---------------------------------------------------------------- construction

  lemma InitialTileAt(w: nat, d: nat, p: Pos)
    requires InGrid(w, d, p)
    ensures Holds(InitialTiles(w, d), p)
    ensures At(InitialTiles(w, d), p) == NewTile(p.x, p.y, p.x * d + p.y)
  {
    var row := InitialTiles(w, d)[p.x];
    assert row == InitialColumn(p.x, d, d);
  }
  lemma InitialPlaced(w: nat, d: nat)
    ensures Placed(w, d, InitialTiles(w, d))
  {
    forall p | InGrid(w, d, p) ensures At(InitialTiles(w, d), p).x == p.x && At(InitialTiles(w, d), p).y == p.y {
      InitialTileAt(w, d, p);
    }
  }

  /** Right after construction tile (i, j) holds its coordinates, hall `i*d + j` and four walls,
      and the bucket of that hall is exactly `[(i, j)]`. */
  lemma InitialTileFacts(w: nat, d: nat, p: Pos)
    requires InGrid(w, d, p)
    ensures Placed(w, d, InitialTiles(w, d))
    ensures At(InitialTiles(w, d), p) == MazeTile(p.x, p.y, p.x * d + p.y, true, true, true, true)
    ensures Hall(InitialTiles(w, d), p) in InitialBuckets(w, d)
    ensures InitialBuckets(w, d)[Hall(InitialTiles(w, d), p)] == [p]
  {
    InitialPlaced(w, d);
    InitialTileAt(w, d, p);
    HallIdBound(p.x, p.y, w, d);
    HallIdDecodes(p.x, p.y, d);
    BucketsUpToAt(w * d, d, p.x * d + p.y);
  }

  /** Hall ids are distinct at construction. */
  lemma InitialHallsDistinct(w: nat, d: nat, p: Pos, q: Pos)
    requires InGrid(w, d, p) && InGrid(w, d, q)
    ensures Placed(w, d, InitialTiles(w, d))
    ensures Hall(InitialTiles(w, d), p) == Hall(InitialTiles(w, d), q) <==> p == q
  {
    InitialPlaced(w, d);
    InitialTileAt(w, d, p);
    InitialTileAt(w, d, q);
    HallIdDecodes(p.x, p.y, d);
    HallIdDecodes(q.x, q.y, d);
  }

  lemma InitialPartitioned(w: nat, d: nat)
    ensures Placed(w, d, InitialTiles(w, d))
    ensures Partitioned(w, d, InitialTiles(w, d), InitialBuckets(w, d))
  {
    var t, b := InitialTiles(w, d), InitialBuckets(w, d);
    InitialPlaced(w, d);
    forall p | InGrid(w, d, p) ensures Hall(t, p) in b && p in b[Hall(t, p)] {
      InitialTileFacts(w, d, p);
    }
    forall h, k | h in b && 0 <= k < |b[h]| ensures InGrid(w, d, b[h][k]) && Hall(t, b[h][k]) == h {
      BucketsUpToAt(w * d, d, h);
      HallIdEncodes(h, w, d);
      InitialTileAt(w, d, Pos(h / d, h % d));
    }
    forall h | h in b ensures NoDup(b[h]) {
      BucketsUpToAt(w * d, d, h);
    }
  }

  lemma InitialMirrored(w: nat, d: nat)
    ensures Placed(w, d, InitialTiles(w, d))
    ensures Mirrored(w, d, InitialTiles(w, d))
    ensures forall wl :: !IsOpen(w, d, InitialTiles(w, d), wl)
    ensures OpenWalls(w, d, InitialTiles(w, d)) == {}
  {
    var t := InitialTiles(w, d);
    InitialPlaced(w, d);
    forall p | InGrid(w, d, p)
      ensures At(t, p).N && At(t, p).E && At(t, p).S && At(t, p).W
    {
      InitialTileAt(w, d, p);
    }
    assert Mirrored(w, d, t);
  }

  /** The constructor establishes the loop invariant, with no wall open and `w*d` live halls. */
  lemma InitialKInv(w: nat, d: nat)
    ensures KInv(w, d, KState(InitialTiles(w, d), InitialBuckets(w, d), InitialWalls(w, d)))
    ensures OpenWalls(w, d, InitialTiles(w, d)) == {}
    ensures |LiveHalls(InitialBuckets(w, d))| == w * d
  {
    var t, b := InitialTiles(w, d), InitialBuckets(w, d);
    InitialPartitioned(w, d);
    InitialMirrored(w, d);
    forall wl ensures wl in InitialWalls(w, d) <==> IsInteriorWall(w, d, wl) {
      InitialWallsExact(w, d, wl);
    }
    forall h | h in b ensures b[h] != [] {
      BucketsUpToAt(w * d, d, h);
    }
    assert LiveHalls(b) == b.Keys;
    BucketsUpToSize(w * d, d);
    forall p, q | InGrid(w, d, p) && InGrid(w, d, q) && Hall(t, p) == Hall(t, q)
      ensures Linked(w, d, t, p, q)
    {
      InitialHallsDistinct(w, d, p, q);
      LinkedRefl(w, d, t, p);
    }
  }

  /** Shuffling (the in-place `sort` with a random comparator) keeps the invariant, since only
      which walls remain matters to it. */
  lemma ShuffleKeepsInv(w: nat, d: nat, s: KState, shuffled: seq<MazeWall>)
    requires KInv(w, d, s) && multiset(shuffled) == multiset(s.walls)
    ensures KInv(w, d, s.(walls := shuffled))
  {
    forall k | 0 <= k < |shuffled| ensures IsInteriorWall(w, d, shuffled[k]) {
      assert shuffled[k] in multiset(s.walls);
    }
    forall wl | IsInteriorWall(w, d, wl) ensures wl in shuffled || Joined(w, d, s.tiles, wl) {
      assert wl in s.walls <==> wl in multiset(s.walls);
    }
  }

  // ---------------------------------------------------------------- one iteration

  /** The popped wall is opened exactly when its sides lie in different halls; afterwards both
      sides share a hall, and the tiles of side2's former hall carry side1's hall. */
  lemma StepJoins(w: nat, d: nat, s: KState, p: Pos)
    requires KInv(w, d, s) && s.walls != [] && InGrid(w, d, p)
    ensures var wl := s.walls[|s.walls| - 1];
      && IsInteriorWall(w, d, wl) && KInv(w, d, Step(w, d, s))
      && Joined(w, d, Step(w, d, s).tiles, wl)
      && Hall(Step(w, d, s).tiles, p) ==
           (if Hall(s.tiles, p) == Hall(s.tiles, wl.side2) then Hall(s.tiles, wl.side1) else Hall(s.tiles, p))
      && OpenWalls(w, d, Step(w, d, s).tiles) ==
           (if Joined(w, d, s.tiles, wl) then OpenWalls(w, d, s.tiles) else OpenWalls(w, d, s.tiles) + {wl})
      && (!Joined(w, d, s.tiles, wl) ==> wl !in OpenWalls(w, d, s.tiles))
  {
    var wl := s.walls[|s.walls| - 1];
    StepKeepsInv(w, d, s);
    if !Joined(w, d, s.tiles, wl) {
      assert Merging(w, d, s, wl);
      MergeHalls(w, d, s, wl, p);
      MergeHalls(w, d, s, wl, wl.side1);
      MergeHalls(w, d, s, wl, wl.side2);
      MergeOpenWalls(w, d, s, wl);
    }
  }

  /** Opening a V wall clears exactly side1.E and side2.W, an H wall exactly side1.S and side2.N;
      a wall whose sides already share a hall changes nothing. No flag is ever set. */
  lemma StepFlags(w: nat, d: nat, s: KState, p: Pos)
    requires KInv(w, d, s) && s.walls != [] && InGrid(w, d, p)
    ensures var wl := s.walls[|s.walls| - 1];
      var t, t' := s.tiles, Step(w, d, s).tiles;
      var merged := Hall(t, wl.side1) != Hall(t, wl.side2);
      && Placed(w, d, t')
      && At(t', p).N == (At(t, p).N && !(merged && wl.orientation == H && p == wl.side2))
      && At(t', p).S == (At(t, p).S && !(merged && wl.orientation == H && p == wl.side1))
      && At(t', p).W == (At(t, p).W && !(merged && wl.orientation == V && p == wl.side2))
      && At(t', p).E == (At(t, p).E && !(merged && wl.orientation == V && p == wl.side1))
  {
    var wl := s.walls[|s.walls| - 1];
    StepKeepsInv(w, d, s);
    if Hall(s.tiles, wl.side1) != Hall(s.tiles, wl.side2) {
      MergeAt(w, d, s, wl, p);
    }
  }

  /** A bucket emptied by a merge stays empty. */
  lemma StepKeepsEmpty(w: nat, d: nat, s: KState, h: int)
    requires KInv(w, d, s) && s.walls != []
    requires h in s.tilesByHall && s.tilesByHall[h] == []
    ensures h in Step(w, d, s).tilesByHall && Step(w, d, s).tilesByHall[h] == []
  {
    var wl := s.walls[|s.walls| - 1];
    assert IsInteriorWall(w, d, wl);
    assert wl.side1 in s.tilesByHall[Hall(s.tiles, wl.side1)];
  }

  lemma {:induction false} NoDupCount(s: seq<Pos>, x: Pos)
    requires NoDup(s) && x in s
    ensures multiset(s)[x] == 1
  {
    var last := s[|s| - 1];
    var init := s[..|s| - 1];
    assert s == init + [last];
    if x == last {
      assert x !in init;
    } else {
      NoDupCount(init, x);
    }
  }

  /** Each tile appears exactly once among the buckets: once in the bucket of its own hall and in
      no other bucket. */
  lemma TileInOneBucket(w: nat, d: nat, s: KState, p: Pos, h: int)
    requires KInv(w, d, s) && InGrid(w, d, p) && h in s.tilesByHall
    ensures p in s.tilesByHall[h] <==> h == Hall(s.tiles, p)
    ensures multiset(s.tilesByHall[h])[p] == if h == Hall(s.tiles, p) then 1 else 0
  {
    var b := s.tilesByHall[h];
    if h == Hall(s.tiles, p) {
      NoDupCount(b, p);
    }
  }

  // ---------------------------------------------------------------- the finished maze

  lemma {:induction false} FloodColumn(w: nat, d: nat, tiles: Tiles, i: int, j: int)
    requires Placed(w, d, tiles) && Settled(w, d, tiles, []) && 0 <= i < w && 0 <= j < d
    ensures Hall(tiles, Pos(i, j)) == Hall(tiles, Pos(i, 0))
    decreases j
  {
    if j > 0 {
      FloodColumn(w, d, tiles, i, j - 1);
      assert IsInteriorWall(w, d, HWall(i, j));
    }
  }

  lemma {:induction false} FloodRow(w: nat, d: nat, tiles: Tiles, i: int)
    requires Placed(w, d, tiles) && Settled(w, d, tiles, []) && 0 <= i < w && 0 < d
    ensures Hall(tiles, Pos(i, 0)) == Hall(tiles, Origin)
    decreases i
  {
    if i > 0 {
      FloodRow(w, d, tiles, i - 1);
      assert IsInteriorWall(w, d, VWall(i, 0));
    }
  }

  lemma {:induction false} NoDupSize(s: seq<Pos>)
    requires NoDup(s)
    ensures |set x | x in s| == |s|
  {
    if s != [] {
      var init := s[..|s| - 1];
      NoDupSize(init);
      assert (set x | x in s) == (set x | x in init) + {s[|s| - 1]};
    } else {
      assert (set x | x in s) == {};
    }
  }

  /** The finished maze: one hall holds all `w*d` tiles, exactly `w*d - 1` walls are open, and
      every two tiles are linked through open passages, i.e. the passages form a connected graph
      on `w*d` tiles with `w*d - 1` edges, a spanning tree. */
  ghost predicate Spanning(w: nat, d: nat, s: KState)
    requires Placed(w, d, s.tiles)
  {
    && InGrid(w, d, Origin) && Hall(s.tiles, Origin) in s.tilesByHall
    && (forall p :: InGrid(w, d, p) ==> Hall(s.tiles, p) == Hall(s.tiles, Origin))
    && LiveHalls(s.tilesByHall) == {Hall(s.tiles, Origin)}
    && |s.tilesByHall[Hall(s.tiles, Origin)]| == w * d
    && |OpenWalls(w, d, s.tiles)| == w * d - 1
    && (forall p, q :: InGrid(w, d, p) && InGrid(w, d, q) ==> Linked(w, d, s.tiles, p, q))
  }

  /** Once every wall has been popped from a grid with at least one tile, the maze is spanning. */
  lemma SettledMazeIsSpanning(w: nat, d: nat, s: KState)
    requires KInv(w, d, s) && s.walls == [] && w >= 1 && d >= 1
    ensures Spanning(w, d, s)
  {
    var t, b := s.tiles, s.tilesByHall;
    var h0 := Hall(t, Origin);
    assert InGrid(w, d, Origin);
    forall p | InGrid(w, d, p) ensures Hall(t, p) == h0 {
      FloodColumn(w, d, t, p.x, p.y);
      FloodRow(w, d, t, p.x);
    }
    forall h | h in LiveHalls(b) ensures h == h0 {
      assert InGrid(w, d, b[h][0]) && Hall(t, b[h][0]) == h;
    }
    assert Origin in b[h0];
    assert LiveHalls(b) == {h0};
    var bucket := b[h0];
    assert (set x | x in bucket) == Cells(w, d) by {
      forall x ensures x in bucket <==> x in Cells(w, d) {
        CellsAreInGrid(w, d, x);
        if x in bucket {
          var k :| 0 <= k < |bucket| && bucket[k] == x;
        }
      }
    }
    NoDupSize(bucket);
    CellsSize(w, d);
  }
}
