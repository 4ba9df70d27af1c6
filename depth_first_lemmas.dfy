/** What the neighbour filter returns, what `removeWall` changes, and what each iteration of the
    depth-first carving loop keeps and decreases (scripts/MazeGeneratorVariant.js). */
module DepthFirstLemmas {
  import opened Grid
  import opened DepthFirstModel

  // ---------------------------------------------------------------- neighbours

  /** Position of q in the listing order N, S, W, E around p. */
  function Rank(p: Pos, q: Pos): int {
    if q == NorthOf(p) then 0 else if q == SouthOf(p) then 1 else if q == WestOf(p) then 2 else 3
  }

  ghost function Kept(w: nat, d: nat, tiles: Tiles, q: Pos): seq<Pos>
    requires Placed(w, d, tiles)
  {
    if Unvisited(w, d, tiles, q) then [q] else []
  }

  lemma NeighborsUnfold(w: nat, d: nat, tiles: Tiles, p: Pos)
    requires Placed(w, d, tiles)
    ensures UnvisitedNeighbors(w, d, tiles, p) ==
      Kept(w, d, tiles, NorthOf(p)) + Kept(w, d, tiles, SouthOf(p)) + Kept(w, d, tiles, WestOf(p)) + Kept(w, d, tiles, EastOf(p))
  {
    var n, s, we, e := NorthOf(p), SouthOf(p), WestOf(p), EastOf(p);
    assert Locs(p)[..3] == [n, s, we];
    assert [n, s, we][..2] == [n, s];
    assert [n, s][..1] == [n];
    assert [n][..0] == [];
    assert UnvisitedAmong(w, d, tiles, [n]) == Kept(w, d, tiles, n);
    assert UnvisitedAmong(w, d, tiles, [n, s]) == UnvisitedAmong(w, d, tiles, [n]) + Kept(w, d, tiles, s);
    assert UnvisitedAmong(w, d, tiles, [n, s, we]) == UnvisitedAmong(w, d, tiles, [n, s]) + Kept(w, d, tiles, we);
    assert UnvisitedAmong(w, d, tiles, Locs(p)) == UnvisitedAmong(w, d, tiles, [n, s, we]) + Kept(w, d, tiles, e);
  }

  /** `getUnvisitedNeighbors` returns exactly the in-grid, unvisited orthogonal neighbours; it is
      empty exactly when no neighbour is left unvisited. */
  lemma NeighborsMembers(w: nat, d: nat, tiles: Tiles, p: Pos)
    requires Placed(w, d, tiles)
    ensures forall q :: q in UnvisitedNeighbors(w, d, tiles, p) <==> Adjacent(p, q) && InGrid(w, d, q) && !At(tiles, q).visited
    ensures UnvisitedNeighbors(w, d, tiles, p) == [] <==> !HasUnvisitedNeighbor(w, d, tiles, p)
  {
    forall q ensures q in UnvisitedNeighbors(w, d, tiles, p) <==> Adjacent(p, q) && Unvisited(w, d, tiles, q) {
      UnvisitedAmongMembers(w, d, tiles, Locs(p), q);
    }
    NeighborsUnfold(w, d, tiles, p);
  }

  /** The neighbours come in the order (x, y-1), (x, y+1), (x-1, y), (x+1, y), so there are at
      most four of them and none is listed twice. */
  lemma NeighborsOrder(w: nat, d: nat, tiles: Tiles, p: Pos)
    requires Placed(w, d, tiles)
    ensures |UnvisitedNeighbors(w, d, tiles, p)| <= 4
    ensures forall k, l :: 0 <= k < l < |UnvisitedNeighbors(w, d, tiles, p)| ==>
      Rank(p, UnvisitedNeighbors(w, d, tiles, p)[k]) < Rank(p, UnvisitedNeighbors(w, d, tiles, p)[l])
  {
    NeighborsUnfold(w, d, tiles, p);
    var a, b, c, e := Kept(w, d, tiles, NorthOf(p)), Kept(w, d, tiles, SouthOf(p)), Kept(w, d, tiles, WestOf(p)), Kept(w, d, tiles, EastOf(p));
    assert forall k :: 0 <= k < |a| ==> Rank(p, a[k]) == 0;
    assert forall k :: 0 <= k < |b| ==> Rank(p, b[k]) == 1;
    assert forall k :: 0 <= k < |c| ==> Rank(p, c[k]) == 2;
    assert forall k :: 0 <= k < |e| ==> Rank(p, e[k]) == 3;
    RanksAscend(p, a, b, c, e);
  }

  lemma RanksAscend(p: Pos, a: seq<Pos>, b: seq<Pos>, c: seq<Pos>, e: seq<Pos>)
    requires |a| <= 1 && |b| <= 1 && |c| <= 1 && |e| <= 1
    requires forall k :: 0 <= k < |a| ==> Rank(p, a[k]) == 0
    requires forall k :: 0 <= k < |b| ==> Rank(p, b[k]) == 1
    requires forall k :: 0 <= k < |c| ==> Rank(p, c[k]) == 2
    requires forall k :: 0 <= k < |e| ==> Rank(p, e[k]) == 3
    ensures |a + b + c + e| <= 4
    ensures forall k, l :: 0 <= k < l < |a + b + c + e| ==> Rank(p, (a + b + c + e)[k]) < Rank(p, (a + b + c + e)[l])
  {
    var u := a + b + c + e;
    forall k | 0 <= k < |u| ensures Rank(p, u[k]) == if k < |a| then 0 else if k < |a + b| then 1 else if k < |a + b + c| then 2 else 3 {
      if k < |a| {
        assert u[k] == a[k];
      } else if k < |a + b| {
        assert u[k] == b[k - |a|];
      } else if k < |a + b + c| {
        assert u[k] == c[k - |a + b|];
      } else {
        assert u[k] == e[k - |a + b + c|];
      }
    }
  }

  // ---------------------------------------------------------------- removing a wall

  /** Between grid-adjacent tiles `removeWall(a, b)` clears exactly the two flags facing each
      other; every other flag, mark and coordinate stays as it was. */
  lemma WallRemovedAt(w: nat, d: nat, tiles: Tiles, a: Pos, b: Pos, p: Pos)
    requires Placed(w, d, tiles) && InGrid(w, d, a) && InGrid(w, d, b) && Adjacent(a, b) && InGrid(w, d, p)
    ensures Holds(WallRemoved(tiles, a, b), p)
    ensures var t, t' := At(tiles, p), At(WallRemoved(tiles, a, b), p);
      && t'.visited == t.visited && t'.x == t.x && t'.y == t.y && t'.start == t.start && t'.end == t.end
      && t'.N == (t.N && !(p == a && b == NorthOf(a)) && !(p == b && a == NorthOf(b)))
      && t'.S == (t.S && !(p == a && b == SouthOf(a)) && !(p == b && a == SouthOf(b)))
      && t'.W == (t.W && !(p == a && b == WestOf(a)) && !(p == b && a == WestOf(b)))
      && t'.E == (t.E && !(p == a && b == EastOf(a)) && !(p == b && a == EastOf(b)))
  {
    if b == WestOf(a) || b == EastOf(a) {
      WallRemovedAcrossX(w, d, tiles, a, b, p);
    } else {
      WallRemovedAcrossY(w, d, tiles, a, b, p);
    }
  }

  /** `WallRemovedAt` for tiles side by side: only the first half changes flags. */
  lemma WallRemovedAcrossX(w: nat, d: nat, tiles: Tiles, a: Pos, b: Pos, p: Pos)
    requires Placed(w, d, tiles) && InGrid(w, d, a) && InGrid(w, d, b) && InGrid(w, d, p)
    requires b == WestOf(a) || b == EastOf(a)
    ensures Holds(WallRemoved(tiles, a, b), p)
    ensures var t, t' := At(tiles, p), At(WallRemoved(tiles, a, b), p);
      && t'.visited == t.visited && t'.x == t.x && t'.y == t.y && t'.start == t.start && t'.end == t.end
      && t'.N == (t.N && !(p == a && b == NorthOf(a)) && !(p == b && a == NorthOf(b)))
      && t'.S == (t.S && !(p == a && b == SouthOf(a)) && !(p == b && a == SouthOf(b)))
      && t'.W == (t.W && !(p == a && b == WestOf(a)) && !(p == b && a == WestOf(b)))
      && t'.E == (t.E && !(p == a && b == EastOf(a)) && !(p == b && a == EastOf(b)))
  {
    var r1 := WallRemovedAlongX(tiles, a, b);
    AlongXAt(tiles, a, b, a);
    AlongXAt(tiles, a, b, b);
    assert WallRemoved(tiles, a, b) == r1;
    AlongXAt(tiles, a, b, p);
  }

  /** `WallRemovedAt` for tiles one above the other: only the second half changes flags. */
  lemma WallRemovedAcrossY(w: nat, d: nat, tiles: Tiles, a: Pos, b: Pos, p: Pos)
    requires Placed(w, d, tiles) && InGrid(w, d, a) && InGrid(w, d, b) && InGrid(w, d, p)
    requires b == NorthOf(a) || b == SouthOf(a)
    ensures Holds(WallRemoved(tiles, a, b), p)
    ensures var t, t' := At(tiles, p), At(WallRemoved(tiles, a, b), p);
      && t'.visited == t.visited && t'.x == t.x && t'.y == t.y && t'.start == t.start && t'.end == t.end
      && t'.N == (t.N && !(p == a && b == NorthOf(a)) && !(p == b && a == NorthOf(b)))
      && t'.S == (t.S && !(p == a && b == SouthOf(a)) && !(p == b && a == SouthOf(b)))
      && t'.W == (t.W && !(p == a && b == WestOf(a)) && !(p == b && a == WestOf(b)))
      && t'.E == (t.E && !(p == a && b == EastOf(a)) && !(p == b && a == EastOf(b)))
  {
    assert WallRemovedAlongX(tiles, a, b) == tiles;
    AlongYAt(tiles, a, b, p);
  }

  lemma WallRemovedPlaced(w: nat, d: nat, tiles: Tiles, a: Pos, b: Pos)
    requires Placed(w, d, tiles) && InGrid(w, d, a) && InGrid(w, d, b) && Adjacent(a, b)
    ensures Placed(w, d, WallRemoved(tiles, a, b))
  {
    var r := WallRemoved(tiles, a, b);
    forall q | InGrid(w, d, q) ensures At(r, q).x == q.x && At(r, q).y == q.y {
      WallRemovedAt(w, d, tiles, a, b, q);
    }
  }

  /** Two updates at different positions. */
  lemma SetTwiceAt(tiles: Tiles, a: Pos, ta: Tile, b: Pos, tb: Tile, p: Pos)
    requires Holds(tiles, a) && Holds(tiles, b) && Holds(tiles, p) && a != b
    ensures Holds(SetTile(SetTile(tiles, a, ta), b, tb), p)
    ensures At(SetTile(SetTile(tiles, a, ta), b, tb), p) == if p == b then tb else if p == a then ta else At(tiles, p)
  {
  }

  /** The first half of `removeWall` at one tile: `W` and `E` are cleared on the two tiles when
      their x coordinates differ by one, and nothing else changes. */
  lemma AlongXAt(tiles: Tiles, a: Pos, b: Pos, p: Pos)
    requires Holds(tiles, a) && Holds(tiles, b) && Holds(tiles, p)
    ensures Holds(WallRemovedAlongX(tiles, a, b), p)
    ensures var dx := At(tiles, a).x - At(tiles, b).x;
      At(WallRemovedAlongX(tiles, a, b), p) == At(tiles, p).(
        W := At(tiles, p).W && !(p == a && dx == 1) && !(p == b && dx == -1),
        E := At(tiles, p).E && !(p == b && dx == 1) && !(p == a && dx == -1))
  {
    var dx := At(tiles, a).x - At(tiles, b).x;
    if dx == 1 {
      AlongXPlus(tiles, a, b, p);
    } else if dx == -1 {
      AlongXMinus(tiles, a, b, p);
    } else {
      assert WallRemovedAlongX(tiles, a, b) == tiles;
    }
  }

  /** `AlongXAt` when `dx == 1`. */
  lemma AlongXPlus(tiles: Tiles, a: Pos, b: Pos, p: Pos)
    requires Holds(tiles, a) && Holds(tiles, b) && Holds(tiles, p)
    requires At(tiles, a).x - At(tiles, b).x == 1
    ensures Holds(WallRemovedAlongX(tiles, a, b), p)
    ensures var dx := At(tiles, a).x - At(tiles, b).x;
      At(WallRemovedAlongX(tiles, a, b), p) == At(tiles, p).(
        W := At(tiles, p).W && !(p == a && dx == 1) && !(p == b && dx == -1),
        E := At(tiles, p).E && !(p == b && dx == 1) && !(p == a && dx == -1))
  {
    AlongXApart(tiles, a, b, p, At(tiles, a).(W := false), At(tiles, b).(E := false));
    var r := WallRemovedAlongX(tiles, a, b);
    var t := At(tiles, p);
    if p == b {
      assert At(r, p) == t.(E := false);
    } else if p == a {
      assert At(r, p) == t.(W := false);
    } else {
      assert At(r, p) == t;
    }
  }

  /** `AlongXAt` when `dx == -1`. */
  lemma AlongXMinus(tiles: Tiles, a: Pos, b: Pos, p: Pos)
    requires Holds(tiles, a) && Holds(tiles, b) && Holds(tiles, p)
    requires At(tiles, a).x - At(tiles, b).x == -1
    ensures Holds(WallRemovedAlongX(tiles, a, b), p)
    ensures var dx := At(tiles, a).x - At(tiles, b).x;
      At(WallRemovedAlongX(tiles, a, b), p) == At(tiles, p).(
        W := At(tiles, p).W && !(p == a && dx == 1) && !(p == b && dx == -1),
        E := At(tiles, p).E && !(p == b && dx == 1) && !(p == a && dx == -1))
  {
    AlongXApart(tiles, a, b, p, At(tiles, a).(E := false), At(tiles, b).(W := false));
    var r := WallRemovedAlongX(tiles, a, b);
    var t := At(tiles, p);
    if p == b {
      assert At(r, p) == t.(W := false);
    } else if p == a {
      assert At(r, p) == t.(E := false);
    } else {
      assert At(r, p) == t;
    }
  }

  /** `AlongXAt` when the tiles are one apart: the first update goes to `a`, the second to `b`. */
  lemma AlongXApart(tiles: Tiles, a: Pos, b: Pos, p: Pos, ta: Tile, tb: Tile)
    requires Holds(tiles, a) && Holds(tiles, b) && Holds(tiles, p)
    requires var dx := At(tiles, a).x - At(tiles, b).x;
      (dx == 1 && ta == At(tiles, a).(W := false) && tb == At(tiles, b).(E := false)) ||
      (dx == -1 && ta == At(tiles, a).(E := false) && tb == At(tiles, b).(W := false))
    ensures Holds(WallRemovedAlongX(tiles, a, b), p)
    ensures At(WallRemovedAlongX(tiles, a, b), p) == if p == b then tb else if p == a then ta else At(tiles, p)
  {
    var u := SetTile(tiles, a, ta);
    assert a != b;
    assert At(u, b) == At(tiles, b);
    assert WallRemovedAlongX(tiles, a, b) == SetTile(u, b, tb);
    SetTwiceAt(tiles, a, ta, b, tb, p);
  }

  /** The second half of `removeWall` at one tile: `N` and `S` are cleared on the two tiles when
      their y coordinates differ by one, and nothing else changes. */
  lemma AlongYAt(tiles: Tiles, a: Pos, b: Pos, p: Pos)
    requires Holds(tiles, a) && Holds(tiles, b) && Holds(tiles, p)
    ensures Holds(WallRemovedAlongY(tiles, a, b), p)
    ensures var dy := At(tiles, a).y - At(tiles, b).y;
      At(WallRemovedAlongY(tiles, a, b), p) == At(tiles, p).(
        N := At(tiles, p).N && !(p == a && dy == 1) && !(p == b && dy == -1),
        S := At(tiles, p).S && !(p == b && dy == 1) && !(p == a && dy == -1))
  {
    var dy := At(tiles, a).y - At(tiles, b).y;
    if dy == 1 {
      AlongYPlus(tiles, a, b, p);
    } else if dy == -1 {
      AlongYMinus(tiles, a, b, p);
    } else {
      assert WallRemovedAlongY(tiles, a, b) == tiles;
    }
  }

  /** `AlongYAt` when `dy == 1`. */
  lemma AlongYPlus(tiles: Tiles, a: Pos, b: Pos, p: Pos)
    requires Holds(tiles, a) && Holds(tiles, b) && Holds(tiles, p)
    requires At(tiles, a).y - At(tiles, b).y == 1
    ensures Holds(WallRemovedAlongY(tiles, a, b), p)
    ensures var dy := At(tiles, a).y - At(tiles, b).y;
      At(WallRemovedAlongY(tiles, a, b), p) == At(tiles, p).(
        N := At(tiles, p).N && !(p == a && dy == 1) && !(p == b && dy == -1),
        S := At(tiles, p).S && !(p == b && dy == 1) && !(p == a && dy == -1))
  {
    AlongYApart(tiles, a, b, p, At(tiles, a).(N := false), At(tiles, b).(S := false));
    var r := WallRemovedAlongY(tiles, a, b);
    var t := At(tiles, p);
    if p == b {
      assert At(r, p) == t.(S := false);
    } else if p == a {
      assert At(r, p) == t.(N := false);
    } else {
      assert At(r, p) == t;
    }
  }

  /** `AlongYAt` when `dy == -1`. */
  lemma AlongYMinus(tiles: Tiles, a: Pos, b: Pos, p: Pos)
    requires Holds(tiles, a) && Holds(tiles, b) && Holds(tiles, p)
    requires At(tiles, a).y - At(tiles, b).y == -1
    ensures Holds(WallRemovedAlongY(tiles, a, b), p)
    ensures var dy := At(tiles, a).y - At(tiles, b).y;
      At(WallRemovedAlongY(tiles, a, b), p) == At(tiles, p).(
        N := At(tiles, p).N && !(p == a && dy == 1) && !(p == b && dy == -1),
        S := At(tiles, p).S && !(p == b && dy == 1) && !(p == a && dy == -1))
  {
    AlongYApart(tiles, a, b, p, At(tiles, a).(S := false), At(tiles, b).(N := false));
    var r := WallRemovedAlongY(tiles, a, b);
    var t := At(tiles, p);
    if p == b {
      assert At(r, p) == t.(N := false);
    } else if p == a {
      assert At(r, p) == t.(S := false);
    } else {
      assert At(r, p) == t;
    }
  }

  /** `AlongYAt` when the tiles are one apart: the first update goes to `a`, the second to `b`. */
  lemma AlongYApart(tiles: Tiles, a: Pos, b: Pos, p: Pos, ta: Tile, tb: Tile)
    requires Holds(tiles, a) && Holds(tiles, b) && Holds(tiles, p)
    requires var dy := At(tiles, a).y - At(tiles, b).y;
      (dy == 1 && ta == At(tiles, a).(N := false) && tb == At(tiles, b).(S := false)) ||
      (dy == -1 && ta == At(tiles, a).(S := false) && tb == At(tiles, b).(N := false))
    ensures Holds(WallRemovedAlongY(tiles, a, b), p)
    ensures At(WallRemovedAlongY(tiles, a, b), p) == if p == b then tb else if p == a then ta else At(tiles, p)
  {
    var u := SetTile(tiles, a, ta);
    assert a != b;
    assert At(u, b) == At(tiles, b);
    assert WallRemovedAlongY(tiles, a, b) == SetTile(u, b, tb);
    SetTwiceAt(tiles, a, ta, b, tb, p);
  }

  /** Removing the wall between adjacent tiles keeps the flags mirrored. */
  lemma WallRemovedMirrored(w: nat, d: nat, tiles: Tiles, a: Pos, b: Pos)
    requires Placed(w, d, tiles) && Mirrored(w, d, tiles)
    requires InGrid(w, d, a) && InGrid(w, d, b) && Adjacent(a, b)
    ensures Placed(w, d, WallRemoved(tiles, a, b)) && Mirrored(w, d, WallRemoved(tiles, a, b))
  {
    var r := WallRemoved(tiles, a, b);
    WallRemovedPlaced(w, d, tiles, a, b);
    forall p | InGrid(w, d, p)
      ensures (p.x == 0 ==> At(r, p).W) && (p.x == w - 1 ==> At(r, p).E)
      ensures (p.y == 0 ==> At(r, p).N) && (p.y == d - 1 ==> At(r, p).S)
      ensures p.x > 0 ==> At(r, p).W == At(r, WestOf(p)).E
      ensures p.y > 0 ==> At(r, p).N == At(r, NorthOf(p)).S
    {
      WallRemovedAt(w, d, tiles, a, b, p);
      if p.x > 0 {
        assert InGrid(w, d, WestOf(p));
        WallRemovedAt(w, d, tiles, a, b, WestOf(p));
      }
      if p.y > 0 {
        assert InGrid(w, d, NorthOf(p));
        WallRemovedAt(w, d, tiles, a, b, NorthOf(p));
      }
    }
  }
  /** Carving from `a` into the adjacent `b` clears the two facing flags and marks `b` visited;
      every other flag, mark and coordinate stays as it was. */
  lemma CarvedAt(w: nat, d: nat, tiles: Tiles, a: Pos, b: Pos, p: Pos)
    requires Placed(w, d, tiles) && InGrid(w, d, a) && InGrid(w, d, b) && Adjacent(a, b) && InGrid(w, d, p)
    ensures Holds(Carved(tiles, a, b), p)
    ensures var t, t' := At(tiles, p), At(Carved(tiles, a, b), p);
      && t'.visited == (t.visited || p == b)
      && t'.x == t.x && t'.y == t.y && t'.start == t.start && t'.end == t.end
      && t'.N == (t.N && !(p == a && b == NorthOf(a)) && !(p == b && a == NorthOf(b)))
      && t'.S == (t.S && !(p == a && b == SouthOf(a)) && !(p == b && a == SouthOf(b)))
      && t'.W == (t.W && !(p == a && b == WestOf(a)) && !(p == b && a == WestOf(b)))
      && t'.E == (t.E && !(p == a && b == EastOf(a)) && !(p == b && a == EastOf(b)))
  {
    WallRemovedAt(w, d, tiles, a, b, p);
    WallRemovedAt(w, d, tiles, a, b, b);
  }

  lemma CarvedPlaced(w: nat, d: nat, tiles: Tiles, a: Pos, b: Pos)
    requires Placed(w, d, tiles) && InGrid(w, d, a) && InGrid(w, d, b) && Adjacent(a, b)
    ensures Placed(w, d, Carved(tiles, a, b))
  {
    var r := Carved(tiles, a, b);
    WallRemovedPlaced(w, d, tiles, a, b);
    forall q | InGrid(w, d, q) ensures At(r, q).x == q.x && At(r, q).y == q.y {
      CarvedAt(w, d, tiles, a, b, q);
    }
  }

  /** Carving keeps the flags mirrored and the start and end marks. */
  lemma CarvedMirrored(w: nat, d: nat, tiles: Tiles, a: Pos, b: Pos)
    requires Placed(w, d, tiles) && Mirrored(w, d, tiles) && Marks(w, d, tiles)
    requires InGrid(w, d, a) && InGrid(w, d, b) && Adjacent(a, b)
    ensures Placed(w, d, Carved(tiles, a, b))
    ensures Mirrored(w, d, Carved(tiles, a, b)) && Marks(w, d, Carved(tiles, a, b))
  {
    var r := Carved(tiles, a, b);
    CarvedPlaced(w, d, tiles, a, b);
    forall p | InGrid(w, d, p)
      ensures (p.x == 0 ==> At(r, p).W) && (p.x == w - 1 ==> At(r, p).E)
      ensures (p.y == 0 ==> At(r, p).N) && (p.y == d - 1 ==> At(r, p).S)
      ensures p.x > 0 ==> At(r, p).W == At(r, WestOf(p)).E
      ensures p.y > 0 ==> At(r, p).N == At(r, NorthOf(p)).S
      ensures At(r, p).start == (p == Origin) && !At(r, p).end
    {
      CarvedAt(w, d, tiles, a, b, p);
      if p.x > 0 {
        assert InGrid(w, d, WestOf(p));
        CarvedAt(w, d, tiles, a, b, WestOf(p));
      }
      if p.y > 0 {
        assert InGrid(w, d, NorthOf(p));
        CarvedAt(w, d, tiles, a, b, NorthOf(p));
      }
    }
  }
}
