/** What one iteration of the Kruskal carving loop does and keeps, and what the loop has
    produced once no wall is left. */
module KruskalLemmas {
  import opened Grid
  import opened KruskalWalls
  import opened KruskalModel

  /** Opening a V wall changes exactly side1.E and side2.W; an H wall exactly side1.S and
      side2.N. Every other flag, every hall and every coordinate stays as it was. */
  lemma ClearWallAt(w: nat, d: nat, tiles: Tiles, wl: MazeWall, p: Pos)
    requires Placed(w, d, tiles) && IsInteriorWall(w, d, wl) && InGrid(w, d, p)
    ensures Holds(ClearWall(tiles, wl), p)
    ensures var t := At(tiles, p);
      At(ClearWall(tiles, wl), p) ==
        match wl.orientation
        case V => if p == wl.side1 then t.(E := false) else if p == wl.side2 then t.(W := false) else t
        case H => if p == wl.side1 then t.(S := false) else if p == wl.side2 then t.(N := false) else t
  {
  }

  /** The tiles after a merge over `wl`, tile by tile. */
  lemma MergeAt(w: nat, d: nat, s: KState, wl: MazeWall, p: Pos)
    requires Placed(w, d, s.tiles) && IsInteriorWall(w, d, wl) && InGrid(w, d, p)
    requires Hall(s.tiles, wl.side1) in s.tilesByHall && Hall(s.tiles, wl.side2) in s.tilesByHall
    requires Hall(s.tiles, wl.side1) != Hall(s.tiles, wl.side2)
    ensures var t' := Merge(s.tiles, s.tilesByHall, wl).tiles;
      && Holds(t', p)
      && At(t', p).x == At(s.tiles, p).x && At(t', p).y == At(s.tiles, p).y
      && Hall(t', p) == (if Hall(s.tiles, p) == Hall(s.tiles, wl.side2) then Hall(s.tiles, wl.side1) else Hall(s.tiles, p))
      && At(t', p).N == (At(s.tiles, p).N && !(wl.orientation == H && p == wl.side2))
      && At(t', p).S == (At(s.tiles, p).S && !(wl.orientation == H && p == wl.side1))
      && At(t', p).W == (At(s.tiles, p).W && !(wl.orientation == V && p == wl.side2))
      && At(t', p).E == (At(s.tiles, p).E && !(wl.orientation == V && p == wl.side1))
  {
    var h1 := Hall(s.tiles, wl.side1);
    var h2 := Hall(s.tiles, wl.side2);
    var t0 := Relabel(s.tiles, h2, h1);
    assert Placed(w, d, t0);
    ClearWallAt(w, d, t0, wl, p);
  }

  /** The precondition shared by the merge lemmas: `wl` joins two different halls. */
  ghost predicate Merging(w: nat, d: nat, s: KState, wl: MazeWall) {
    && Placed(w, d, s.tiles)
    && Partitioned(w, d, s.tiles, s.tilesByHall)
    && IsInteriorWall(w, d, wl)
    && Hall(s.tiles, wl.side1) != Hall(s.tiles, wl.side2)
  }

  lemma MergePlaced(w: nat, d: nat, s: KState, wl: MazeWall)
    requires Merging(w, d, s, wl)
    ensures Placed(w, d, Merge(s.tiles, s.tilesByHall, wl).tiles)
  {
    var t' := Merge(s.tiles, s.tilesByHall, wl).tiles;
    forall p | InGrid(w, d, p) ensures At(t', p).x == p.x && At(t', p).y == p.y {
      MergeAt(w, d, s, wl, p);
    }
  }

  /** Tiles of side2's hall now carry side1's hall; all other tiles keep theirs. */
  lemma MergeHalls(w: nat, d: nat, s: KState, wl: MazeWall, p: Pos)
    requires Merging(w, d, s, wl) && InGrid(w, d, p)
    ensures Placed(w, d, Merge(s.tiles, s.tilesByHall, wl).tiles)
    ensures Hall(Merge(s.tiles, s.tilesByHall, wl).tiles, p) ==
      if Hall(s.tiles, p) == Hall(s.tiles, wl.side2) then Hall(s.tiles, wl.side1) else Hall(s.tiles, p)
  {
    MergePlaced(w, d, s, wl);
    MergeAt(w, d, s, wl, p);
  }

  lemma MergeMirrored(w: nat, d: nat, s: KState, wl: MazeWall)
    requires Merging(w, d, s, wl) && Mirrored(w, d, s.tiles)
    ensures Placed(w, d, Merge(s.tiles, s.tilesByHall, wl).tiles)
    ensures Mirrored(w, d, Merge(s.tiles, s.tilesByHall, wl).tiles)
  {
    var t := s.tiles;
    var t' := Merge(s.tiles, s.tilesByHall, wl).tiles;
    MergePlaced(w, d, s, wl);
    forall p | InGrid(w, d, p)
      ensures && (p.x == 0 ==> At(t', p).W)
              && (p.x == w - 1 ==> At(t', p).E)
              && (p.y == 0 ==> At(t', p).N)
              && (p.y == d - 1 ==> At(t', p).S)
              && (p.x > 0 ==> At(t', p).W == At(t', WestOf(p)).E)
              && (p.y > 0 ==> At(t', p).N == At(t', NorthOf(p)).S)
    {
      MergeAt(w, d, s, wl, p);
      if p.x > 0 {
        MergeAt(w, d, s, wl, WestOf(p));
      }
      if p.y > 0 {
        MergeAt(w, d, s, wl, NorthOf(p));
      }
    }
  }

  /** A merge opens `wl` and no other wall, and closes none. */
  lemma MergeOpens(w: nat, d: nat, s: KState, wl: MazeWall, x: MazeWall)
    requires Merging(w, d, s, wl)
    ensures Placed(w, d, Merge(s.tiles, s.tilesByHall, wl).tiles)
    ensures IsOpen(w, d, Merge(s.tiles, s.tilesByHall, wl).tiles, x) <==> IsOpen(w, d, s.tiles, x) || x == wl
  {
    MergePlaced(w, d, s, wl);
    if IsInteriorWall(w, d, x) {
      MergeAt(w, d, s, wl, x.side1);
    }
  }

  lemma MergeOpenWalls(w: nat, d: nat, s: KState, wl: MazeWall)
    requires Merging(w, d, s, wl)
    requires OpenInsideHalls(w, d, s.tiles)
    ensures Placed(w, d, Merge(s.tiles, s.tilesByHall, wl).tiles)
    ensures OpenWalls(w, d, Merge(s.tiles, s.tilesByHall, wl).tiles) == OpenWalls(w, d, s.tiles) + {wl}
    ensures wl !in OpenWalls(w, d, s.tiles)
  {
    var t' := Merge(s.tiles, s.tilesByHall, wl).tiles;
    MergePlaced(w, d, s, wl);
    forall x ensures x in OpenWalls(w, d, t') <==> x in OpenWalls(w, d, s.tiles) + {wl} {
      MergeOpens(w, d, s, wl, x);
      InitialWallsExact(w, d, x);
    }
  }

  lemma MergePartitioned(w: nat, d: nat, s: KState, wl: MazeWall)
    requires Merging(w, d, s, wl)
    ensures Placed(w, d, Merge(s.tiles, s.tilesByHall, wl).tiles)
    ensures Partitioned(w, d, Merge(s.tiles, s.tilesByHall, wl).tiles, Merge(s.tiles, s.tilesByHall, wl).tilesByHall)
  {
    MergeFiles(w, d, s, wl);
    MergeBucketsSound(w, d, s, wl);
    MergeBucketsNoDup(w, d, s, wl);
  }

  /** After a merge every tile is still filed under its own hall. */
  lemma MergeFiles(w: nat, d: nat, s: KState, wl: MazeWall)
    requires Merging(w, d, s, wl)
    ensures Placed(w, d, Merge(s.tiles, s.tilesByHall, wl).tiles)
    ensures forall p :: InGrid(w, d, p) ==>
      Hall(Merge(s.tiles, s.tilesByHall, wl).tiles, p) in Merge(s.tiles, s.tilesByHall, wl).tilesByHall &&
      p in Merge(s.tiles, s.tilesByHall, wl).tilesByHall[Hall(Merge(s.tiles, s.tilesByHall, wl).tiles, p)]
  {
    var s' := Merge(s.tiles, s.tilesByHall, wl);
    MergePlaced(w, d, s, wl);
    assert s'.tilesByHall.Keys == s.tilesByHall.Keys;
    forall p | InGrid(w, d, p) ensures Hall(s'.tiles, p) in s'.tilesByHall && p in s'.tilesByHall[Hall(s'.tiles, p)] {
      MergeHalls(w, d, s, wl, p);
    }
  }

  /** After a merge every bucket holds only tiles of its own hall. */
  lemma MergeBucketsSound(w: nat, d: nat, s: KState, wl: MazeWall)
    requires Merging(w, d, s, wl)
    ensures Placed(w, d, Merge(s.tiles, s.tilesByHall, wl).tiles)
    ensures forall h, k ::
      h in Merge(s.tiles, s.tilesByHall, wl).tilesByHall && 0 <= k < |Merge(s.tiles, s.tilesByHall, wl).tilesByHall[h]| ==>
        InGrid(w, d, Merge(s.tiles, s.tilesByHall, wl).tilesByHall[h][k]) &&
        Hall(Merge(s.tiles, s.tilesByHall, wl).tiles, Merge(s.tiles, s.tilesByHall, wl).tilesByHall[h][k]) == h
  {
    var s' := Merge(s.tiles, s.tilesByHall, wl);
    var h1 := Hall(s.tiles, wl.side1);
    var h2 := Hall(s.tiles, wl.side2);
    var b, b' := s.tilesByHall, s'.tilesByHall;
    MergePlaced(w, d, s, wl);
    forall h, k | h in b' && 0 <= k < |b'[h]|
      ensures InGrid(w, d, b'[h][k]) && Hall(s'.tiles, b'[h][k]) == h
    {
      if h == h1 {
        if k < |b[h1]| {
          assert b'[h][k] == b[h1][k];
        } else {
          assert b'[h][k] == b[h2][k - |b[h1]|];
        }
      } else {
        assert h != h2 && b'[h] == b[h];
      }
      MergeHalls(w, d, s, wl, b'[h][k]);
    }
  }

  /** After a merge no bucket lists a tile twice. */
  lemma MergeBucketsNoDup(w: nat, d: nat, s: KState, wl: MazeWall)
    requires Merging(w, d, s, wl)
    ensures forall h :: h in Merge(s.tiles, s.tilesByHall, wl).tilesByHall ==>
      NoDup(Merge(s.tiles, s.tilesByHall, wl).tilesByHall[h])
  {
    var h1 := Hall(s.tiles, wl.side1);
    var h2 := Hall(s.tiles, wl.side2);
    var b, b' := s.tilesByHall, Merge(s.tiles, s.tilesByHall, wl).tilesByHall;
    forall h | h in b' ensures NoDup(b'[h]) {
      if h == h1 {
        var c := b[h1] + b[h2];
        forall k, l | 0 <= k < l < |c| ensures c[k] != c[l] {
          if l >= |b[h1]| && k < |b[h1]| {
            assert Hall(s.tiles, c[k]) == h1 && Hall(s.tiles, c[l]) == h2;
          }
        }
      }
    }
  }

  lemma MergeLiveHalls(w: nat, d: nat, s: KState, wl: MazeWall)
    requires Merging(w, d, s, wl)
    ensures LiveHalls(Merge(s.tiles, s.tilesByHall, wl).tilesByHall) ==
      LiveHalls(s.tilesByHall) - {Hall(s.tiles, wl.side2)}
    ensures Hall(s.tiles, wl.side2) in LiveHalls(s.tilesByHall)
  {
    var b := s.tilesByHall;
    assert wl.side1 in b[Hall(s.tiles, wl.side1)];
    assert wl.side2 in b[Hall(s.tiles, wl.side2)];
  }

  /** A merge closes no passage. */
  lemma MergeKeepsOpen(w: nat, d: nat, s: KState, wl: MazeWall)
    requires Merging(w, d, s, wl)
    ensures Placed(w, d, Merge(s.tiles, s.tilesByHall, wl).tiles)
    ensures forall x :: IsOpen(w, d, s.tiles, x) ==> IsOpen(w, d, Merge(s.tiles, s.tilesByHall, wl).tiles, x)
  {
    MergePlaced(w, d, s, wl);
    forall x | IsOpen(w, d, s.tiles, x) ensures IsOpen(w, d, Merge(s.tiles, s.tilesByHall, wl).tiles, x) {
      MergeOpens(w, d, s, wl, x);
    }
  }

  /** The merged wall links its two sides. */
  lemma MergeBridges(w: nat, d: nat, s: KState, wl: MazeWall)
    requires Merging(w, d, s, wl)
    ensures Placed(w, d, Merge(s.tiles, s.tilesByHall, wl).tiles)
    ensures Linked(w, d, Merge(s.tiles, s.tilesByHall, wl).tiles, wl.side1, wl.side2)
  {
    MergeOpens(w, d, s, wl, wl);
    assert Between(wl.side1, wl.side2) == wl;
    LinkedByPassage(w, d, Merge(s.tiles, s.tilesByHall, wl).tiles, wl.side1, wl.side2);
  }

  /** Walks `p ~ a` and `b ~ q` that survive into `t'`, joined there by a walk `a ~ b`. */
  lemma LinkedAcross(w: nat, d: nat, t: Tiles, t': Tiles, p: Pos, a: Pos, b: Pos, q: Pos)
    requires Placed(w, d, t) && Placed(w, d, t')
    requires forall x :: IsOpen(w, d, t, x) ==> IsOpen(w, d, t', x)
    requires Linked(w, d, t, p, a) && Linked(w, d, t, b, q) && Linked(w, d, t', a, b)
    ensures Linked(w, d, t', p, q)
  {
    LinkedMono(w, d, t, t', p, a);
    LinkedMono(w, d, t, t', b, q);
    LinkedTrans(w, d, t', p, a, b);
    LinkedTrans(w, d, t', p, b, q);
  }

  lemma MergeLinked(w: nat, d: nat, s: KState, wl: MazeWall, p: Pos, q: Pos)
    requires Merging(w, d, s, wl) && InGrid(w, d, p) && InGrid(w, d, q)
    requires HallsConnected(w, d, s.tiles)
    ensures Placed(w, d, Merge(s.tiles, s.tilesByHall, wl).tiles)
    ensures Hall(Merge(s.tiles, s.tilesByHall, wl).tiles, p) == Hall(Merge(s.tiles, s.tilesByHall, wl).tiles, q) ==>
      Linked(w, d, Merge(s.tiles, s.tilesByHall, wl).tiles, p, q)
  {
    var t, t' := s.tiles, Merge(s.tiles, s.tilesByHall, wl).tiles;
    var a, b := wl.side1, wl.side2;
    MergeHalls(w, d, s, wl, p);
    MergeHalls(w, d, s, wl, q);
    MergeKeepsOpen(w, d, s, wl);
    if Hall(t', p) == Hall(t', q) {
      if Hall(t, p) == Hall(t, q) {
        LinkedMono(w, d, t, t', p, q);
      } else {
        MergeBridges(w, d, s, wl);
        if Hall(t, p) == Hall(t, a) {
          // p is in side1's hall, q in side2's
          LinkedAcross(w, d, t, t', p, a, b, q);
        } else {
          LinkedAcross(w, d, t, t', q, a, b, p);
          LinkedSym(w, d, t', q, p);
        }
      }
    }
  }

  lemma MergeSettles(w: nat, d: nat, s: KState, wl: MazeWall, x: MazeWall)
    requires Merging(w, d, s, wl) && IsInteriorWall(w, d, x)
    ensures Placed(w, d, Merge(s.tiles, s.tilesByHall, wl).tiles)
    ensures Joined(w, d, s.tiles, x) || x == wl ==> Joined(w, d, Merge(s.tiles, s.tilesByHall, wl).tiles, x)
  {
    MergeHalls(w, d, s, wl, x.side1);
    MergeHalls(w, d, s, wl, x.side2);
    MergeHalls(w, d, s, wl, wl.side1);
  }

  lemma MergeSettlesAll(w: nat, d: nat, s: KState, wl: MazeWall, rest: seq<MazeWall>)
    requires Merging(w, d, s, wl) && s.walls == rest + [wl]
    requires Settled(w, d, s.tiles, s.walls)
    ensures Placed(w, d, Merge(s.tiles, s.tilesByHall, wl).tiles)
    ensures Settled(w, d, Merge(s.tiles, s.tilesByHall, wl).tiles, rest)
  {
    MergePlaced(w, d, s, wl);
    forall x | IsInteriorWall(w, d, x) ensures x in rest || Joined(w, d, Merge(s.tiles, s.tilesByHall, wl).tiles, x) {
      MergeSettles(w, d, s, wl, x);
    }
  }

  lemma MergeOpenJoinedAll(w: nat, d: nat, s: KState, wl: MazeWall)
    requires Merging(w, d, s, wl)
    requires OpenInsideHalls(w, d, s.tiles)
    ensures Placed(w, d, Merge(s.tiles, s.tilesByHall, wl).tiles)
    ensures OpenInsideHalls(w, d, Merge(s.tiles, s.tilesByHall, wl).tiles)
  {
    var t' := Merge(s.tiles, s.tilesByHall, wl).tiles;
    MergePlaced(w, d, s, wl);
    forall x | IsOpen(w, d, t', x) ensures Joined(w, d, t', x) {
      MergeOpens(w, d, s, wl, x);
      MergeSettles(w, d, s, wl, x);
    }
  }

  lemma MergeLinkedAll(w: nat, d: nat, s: KState, wl: MazeWall)
    requires Merging(w, d, s, wl)
    requires HallsConnected(w, d, s.tiles)
    ensures Placed(w, d, Merge(s.tiles, s.tilesByHall, wl).tiles)
    ensures HallsConnected(w, d, Merge(s.tiles, s.tilesByHall, wl).tiles)
  {
    var t' := Merge(s.tiles, s.tilesByHall, wl).tiles;
    MergePlaced(w, d, s, wl);
    forall p, q | InGrid(w, d, p) && InGrid(w, d, q) && Hall(t', p) == Hall(t', q)
      ensures Linked(w, d, t', p, q)
    {
      MergeLinked(w, d, s, wl, p, q);
    }
  }

  lemma MergeCount(w: nat, d: nat, s: KState, wl: MazeWall)
    requires Merging(w, d, s, wl)
    requires OpenInsideHalls(w, d, s.tiles)
    requires Counted(w, d, s.tiles, s.tilesByHall)
    ensures Placed(w, d, Merge(s.tiles, s.tilesByHall, wl).tiles)
    ensures Counted(w, d, Merge(s.tiles, s.tilesByHall, wl).tiles, Merge(s.tiles, s.tilesByHall, wl).tilesByHall)
  {
    MergeOpenWalls(w, d, s, wl);
    MergeLiveHalls(w, d, s, wl);
  }

  lemma MergeKeepsInv(w: nat, d: nat, s: KState)
    requires KInv(w, d, s) && s.walls != []
    requires Hall(s.tiles, s.walls[|s.walls| - 1].side1) != Hall(s.tiles, s.walls[|s.walls| - 1].side2)
    ensures KInv(w, d, Step(w, d, s))
  {
    var wl := s.walls[|s.walls| - 1];
    var rest := s.walls[..|s.walls| - 1];
    assert s.walls == rest + [wl];
    assert Step(w, d, s) == Merge(s.tiles, s.tilesByHall, wl).(walls := rest);
    assert IsInteriorWall(w, d, wl);
    MergedInv(w, d, s, wl, rest);
  }

  /** The invariant after merging across `wl`, the last wall of the list. */
  lemma MergedInv(w: nat, d: nat, s: KState, wl: MazeWall, rest: seq<MazeWall>)
    requires Merging(w, d, s, wl) && Mirrored(w, d, s.tiles) && s.walls == rest + [wl]
    requires WallsInterior(w, d, s.walls) && Settled(w, d, s.tiles, s.walls)
    requires OpenInsideHalls(w, d, s.tiles) && Counted(w, d, s.tiles, s.tilesByHall)
    requires HallsConnected(w, d, s.tiles)
    ensures KInv(w, d, Merge(s.tiles, s.tilesByHall, wl).(walls := rest))
  {
    MergeMirrored(w, d, s, wl);
    MergePartitioned(w, d, s, wl);
    MergeSettlesAll(w, d, s, wl, rest);
    MergeOpenJoinedAll(w, d, s, wl);
    MergeCount(w, d, s, wl);
    MergeLinkedAll(w, d, s, wl);
    assert WallsInterior(w, d, rest) by {
      forall k | 0 <= k < |rest| ensures IsInteriorWall(w, d, rest[k]) {
        assert rest[k] == s.walls[k];
      }
    }
  }

  /** The loop invariant survives every iteration. */
  lemma StepKeepsInv(w: nat, d: nat, s: KState)
    requires KInv(w, d, s) && s.walls != []
    ensures KInv(w, d, Step(w, d, s))
  {
    var wl := s.walls[|s.walls| - 1];
    var rest := s.walls[..|s.walls| - 1];
    if Hall(s.tiles, wl.side1) != Hall(s.tiles, wl.side2) {
      MergeKeepsInv(w, d, s);
    } else {
      assert s.walls == rest + [wl];
      assert Settled(w, d, s.tiles, rest);
      assert WallsInterior(w, d, rest);
    }
  }
}
