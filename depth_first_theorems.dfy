/** What the depth-first generator (scripts/MazeGeneratorVariant.js) establishes at
    construction, what each iteration of its carving loop keeps and decreases, and what holds once
    the stack is empty. */
module DepthFirstTheorems {
  import opened Grid
  import opened DepthFirstModel
  import opened DepthFirstLemmas

  // ---------------------------------------------------------------- sets of tiles

  lemma VisitedMembers(w: nat, d: nat, tiles: Tiles, p: Pos)
    requires Placed(w, d, tiles)
    ensures p in Visited(w, d, tiles) <==> InGrid(w, d, p) && At(tiles, p).visited
    ensures p in NotVisited(w, d, tiles) <==> InGrid(w, d, p) && !At(tiles, p).visited
  {
    if InGrid(w, d, p) {
      assert p == Pos(p.x, p.y);
    }
  }

  lemma OpenMembers(w: nat, d: nat, tiles: Tiles, p: Pos)
    requires Placed(w, d, tiles)
    ensures p in OpenEast(w, d, tiles) <==> InGrid(w, d, p) && p.x < w - 1 && !At(tiles, p).E
    ensures p in OpenSouth(w, d, tiles) <==> InGrid(w, d, p) && p.y < d - 1 && !At(tiles, p).S
  {
    if InGrid(w, d, p) {
      assert p == Pos(p.x, p.y);
    }
  }

  lemma SubsetSize<T>(a: set<T>, b: set<T>)
    requires a <= b
    ensures |a| <= |b|
  {
    assert b == a + (b - a);
  }

  // ---------------------------------------------------------------- construction

  lemma FreshTileAt(w: nat, d: nat, p: Pos)
    requires InGrid(w, d, p)
    ensures Holds(FreshTiles(w, d), p) && At(FreshTiles(w, d), p) == NewTile(p.x, p.y)
  {
    assert FreshTiles(w, d)[p.x] == FreshColumn(p.x, d);
  }

  /** After construction every tile has four walls and is neither visited nor an end; only
      `tiles[0][0]` is marked start, and the stack is exactly `[tiles[0][0]]`. */
  lemma InitialTileAt(w: nat, d: nat, p: Pos)
    requires w >= 1 && d >= 1 && InGrid(w, d, p)
    ensures Holds(InitialCarving(w, d).tiles, p)
    ensures At(InitialCarving(w, d).tiles, p) == NewTile(p.x, p.y).(start := p == Origin)
    ensures InitialCarving(w, d).stack == [Origin]
  {
    FreshTileAt(w, d, p);
    FreshTileAt(w, d, Origin);
  }

  /** The constructor establishes the loop invariant; the start tile is left unvisited. */
  lemma InitialDInv(w: nat, d: nat)
    requires w >= 1 && d >= 1
    ensures DInv(w, d, InitialCarving(w, d))
    ensures !At(InitialCarving(w, d).tiles, Origin).visited
  {
    var s := InitialCarving(w, d);
    var t := s.tiles;
    forall p | InGrid(w, d, p) ensures At(t, p) == NewTile(p.x, p.y).(start := p == Origin) {
      InitialTileAt(w, d, p);
    }
    assert Placed(w, d, t);
    assert Mirrored(w, d, t);
    assert Marks(w, d, t);
    forall p | InGrid(w, d, p) ensures p !in Visited(w, d, t) && p !in OpenEast(w, d, t) && p !in OpenSouth(w, d, t) {
      VisitedMembers(w, d, t, p);
      OpenMembers(w, d, t, p);
    }
    forall p ensures p !in OpenEast(w, d, t) && p !in OpenSouth(w, d, t) {
      OpenMembers(w, d, t, p);
    }
    assert OpenEast(w, d, t) == {} && OpenSouth(w, d, t) == {};
    assert Covered(w, d, s);
  }

  // ---------------------------------------------------------------- carving one tile

  /** Carving from `a` into `b` marks `b` visited and nothing else. */
  lemma CarvedUnvisited(w: nat, d: nat, tiles: Tiles, a: Pos, b: Pos, q: Pos)
    requires Placed(w, d, tiles) && InGrid(w, d, a) && InGrid(w, d, b) && Adjacent(a, b)
    ensures Placed(w, d, Carved(tiles, a, b))
    ensures Unvisited(w, d, Carved(tiles, a, b), q) <==> Unvisited(w, d, tiles, q) && q != b
  {
    CarvedPlaced(w, d, tiles, a, b);
    if InGrid(w, d, q) {
      CarvedAt(w, d, tiles, a, b, q);
    }
  }

  /** Carving into an unvisited `b` moves exactly `b` from the unvisited to the visited tiles. */
  lemma CarvedVisited(w: nat, d: nat, tiles: Tiles, a: Pos, b: Pos)
    requires Placed(w, d, tiles) && InGrid(w, d, a) && InGrid(w, d, b) && Adjacent(a, b)
    requires !At(tiles, b).visited
    ensures Placed(w, d, Carved(tiles, a, b))
    ensures Visited(w, d, Carved(tiles, a, b)) == Visited(w, d, tiles) + {b}
    ensures NotVisited(w, d, Carved(tiles, a, b)) == NotVisited(w, d, tiles) - {b}
    ensures b !in Visited(w, d, tiles) && b in NotVisited(w, d, tiles)
  {
    var r := Carved(tiles, a, b);
    CarvedPlaced(w, d, tiles, a, b);
    forall p ensures (p in Visited(w, d, r) <==> p in Visited(w, d, tiles) + {b})
      && (p in NotVisited(w, d, r) <==> p in NotVisited(w, d, tiles) - {b})
    {
      VisitedMembers(w, d, tiles, p);
      VisitedMembers(w, d, r, p);
      if InGrid(w, d, p) {
        CarvedAt(w, d, tiles, a, b, p);
      }
    }
    VisitedMembers(w, d, tiles, b);
  }

  /** Carving opens at most one east or south wall. */
  lemma CarvedOpen(w: nat, d: nat, tiles: Tiles, a: Pos, b: Pos)
    requires Placed(w, d, tiles) && InGrid(w, d, a) && InGrid(w, d, b) && Adjacent(a, b)
    ensures Placed(w, d, Carved(tiles, a, b))
    ensures |OpenEast(w, d, Carved(tiles, a, b))| + |OpenSouth(w, d, Carved(tiles, a, b))|
      <= |OpenEast(w, d, tiles)| + |OpenSouth(w, d, tiles)| + 1
  {
    var r := Carved(tiles, a, b);
    CarvedPlaced(w, d, tiles, a, b);
    var e0 := if b == EastOf(a) then {a} else if a == EastOf(b) then {b} else {};
    var s0 := if b == SouthOf(a) then {a} else if a == SouthOf(b) then {b} else {};
    forall p ensures (p in OpenEast(w, d, r) ==> p in OpenEast(w, d, tiles) + e0)
      && (p in OpenSouth(w, d, r) ==> p in OpenSouth(w, d, tiles) + s0)
    {
      OpenMembers(w, d, tiles, p);
      OpenMembers(w, d, r, p);
      if InGrid(w, d, p) {
        CarvedAt(w, d, tiles, a, b, p);
      }
    }
    SubsetSize(OpenEast(w, d, r), OpenEast(w, d, tiles) + e0);
    SubsetSize(OpenSouth(w, d, r), OpenSouth(w, d, tiles) + s0);
  }

  // ---------------------------------------------------------------- one iteration

  /** The iteration's function is defined: the stack is a non-empty list of grid positions and
      the pick is a valid index. */
  ghost predicate Steppable(w: nat, d: nat, s: Carving, k: nat) {
    Placed(w, d, s.tiles) && s.stack != [] && StackInGrid(w, d, s.stack) && ValidPick(w, d, s, k)
  }

  /** `next` is a grid neighbour of `current` that is not yet visited, and the iteration carves
      into it. */
  lemma NextFacts(w: nat, d: nat, s: Carving, k: nat)
    requires Steppable(w, d, s, k)
    requires UnvisitedNeighbors(w, d, s.tiles, s.stack[|s.stack| - 1]) != []
    ensures var current := s.stack[|s.stack| - 1];
      var u := UnvisitedNeighbors(w, d, s.tiles, current);
      var next := u[k];
      && InGrid(w, d, current) && InGrid(w, d, next) && Adjacent(current, next)
      && !At(s.tiles, next).visited
      && CarveStep(w, d, s, k) ==
        Carving(Carved(s.tiles, current, next), s.stack[..|s.stack| - 1] + (if |u| > 1 then [current] else []) + [next])
  {
    var current := s.stack[|s.stack| - 1];
    assert InGrid(w, d, current);
    var u := UnvisitedNeighbors(w, d, s.tiles, current);
    NeighborsMembers(w, d, s.tiles, current);
    assert u[k] in u;
  }

  /** The tiles after one iteration, tile by tile: `next` becomes visited and the wall between
      `current` and `next` is removed; nothing else changes, so visited marks and removed walls
      never revert. */
  lemma CarveTileAt(w: nat, d: nat, s: Carving, k: nat, p: Pos)
    requires Steppable(w, d, s, k) && InGrid(w, d, p)
    ensures Placed(w, d, CarveStep(w, d, s, k).tiles)
    ensures var current := s.stack[|s.stack| - 1];
      var u := UnvisitedNeighbors(w, d, s.tiles, current);
      var t, t' := At(s.tiles, p), At(CarveStep(w, d, s, k).tiles, p);
      if u == [] then t' == t
      else
        var next := u[k];
        && t'.visited == (t.visited || p == next)
        && t'.x == t.x && t'.y == t.y && t'.start == t.start && t'.end == t.end
        && t'.N == (t.N && !(p == current && next == NorthOf(current)) && !(p == next && current == NorthOf(next)))
        && t'.S == (t.S && !(p == current && next == SouthOf(current)) && !(p == next && current == SouthOf(next)))
        && t'.W == (t.W && !(p == current && next == WestOf(current)) && !(p == next && current == WestOf(next)))
        && t'.E == (t.E && !(p == current && next == EastOf(current)) && !(p == next && current == EastOf(next)))
  {
    var current := s.stack[|s.stack| - 1];
    var u := UnvisitedNeighbors(w, d, s.tiles, current);
    if u != [] {
      NextFacts(w, d, s, k);
      CarvedPlaced(w, d, s.tiles, current, u[k]);
      CarvedAt(w, d, s.tiles, current, u[k], p);
    }
  }

  /** The mirror relation, the start and end marks and the stack's positions survive. */
  lemma CarveKeepsShape(w: nat, d: nat, s: Carving, k: nat)
    requires Steppable(w, d, s, k) && Mirrored(w, d, s.tiles) && Marks(w, d, s.tiles)
    ensures var s' := CarveStep(w, d, s, k);
      Placed(w, d, s'.tiles) && Mirrored(w, d, s'.tiles) && Marks(w, d, s'.tiles) && StackInGrid(w, d, s'.stack)
  {
    var current := s.stack[|s.stack| - 1];
    var rest := s.stack[..|s.stack| - 1];
    var u := UnvisitedNeighbors(w, d, s.tiles, current);
    if u != [] {
      NextFacts(w, d, s, k);
      CarvedMirrored(w, d, s.tiles, current, u[k]);
      StackExtended(w, d, rest, if |u| > 1 then [current] else [], u[k]);
    } else {
      assert CarveStep(w, d, s, k) == Carving(s.tiles, rest);
    }
  }

  lemma StackExtended(w: nat, d: nat, rest: seq<Pos>, back: seq<Pos>, next: Pos)
    requires StackInGrid(w, d, rest) && StackInGrid(w, d, back) && InGrid(w, d, next)
    ensures StackInGrid(w, d, rest + back + [next])
  {
  }

  /** Popping a tile without unvisited neighbours keeps the stack covering. */
  lemma PopCovered(w: nat, d: nat, s: Carving, k: nat)
    requires Steppable(w, d, s, k) && Covered(w, d, s)
    requires UnvisitedNeighbors(w, d, s.tiles, s.stack[|s.stack| - 1]) == []
    ensures Covered(w, d, CarveStep(w, d, s, k))
  {
    var current := s.stack[|s.stack| - 1];
    var rest := s.stack[..|s.stack| - 1];
    assert s.stack == rest + [current];
    NeighborsMembers(w, d, s.tiles, current);
  }

  /** Carving never gives a tile a new unvisited neighbour. */
  lemma CarvedHasUnvisited(w: nat, d: nat, tiles: Tiles, a: Pos, b: Pos, p: Pos)
    requires Placed(w, d, tiles) && InGrid(w, d, a) && InGrid(w, d, b) && Adjacent(a, b)
    ensures Placed(w, d, Carved(tiles, a, b))
    ensures HasUnvisitedNeighbor(w, d, Carved(tiles, a, b), p) ==> HasUnvisitedNeighbor(w, d, tiles, p)
  {
    CarvedUnvisited(w, d, tiles, a, b, NorthOf(p));
    CarvedUnvisited(w, d, tiles, a, b, SouthOf(p));
    CarvedUnvisited(w, d, tiles, a, b, WestOf(p));
    CarvedUnvisited(w, d, tiles, a, b, EastOf(p));
  }

  /** A tile whose only unvisited neighbour was `b` has none once `b` is carved into. */
  lemma CarvedSole(w: nat, d: nat, tiles: Tiles, a: Pos, b: Pos)
    requires Placed(w, d, tiles) && InGrid(w, d, a) && InGrid(w, d, b) && Adjacent(a, b)
    requires UnvisitedNeighbors(w, d, tiles, a) == [b]
    ensures Placed(w, d, Carved(tiles, a, b))
    ensures !HasUnvisitedNeighbor(w, d, Carved(tiles, a, b), a)
  {
    NeighborsMembers(w, d, tiles, a);
    CarvedUnvisited(w, d, tiles, a, b, NorthOf(a));
    CarvedUnvisited(w, d, tiles, a, b, SouthOf(a));
    CarvedUnvisited(w, d, tiles, a, b, WestOf(a));
    CarvedUnvisited(w, d, tiles, a, b, EastOf(a));
    assert Adjacent(a, NorthOf(a)) && Adjacent(a, SouthOf(a)) && Adjacent(a, WestOf(a)) && Adjacent(a, EastOf(a));
  }

  /** After carving into `next`, a tile with an unvisited neighbour is `next` itself (pushed),
      `current` with further unvisited neighbours (pushed back), or another tile that already had
      that neighbour and so was and stays on the stack. */
  lemma CoveredAfterCarve(w: nat, d: nat, t: Tiles, rest: seq<Pos>, current: Pos, next: Pos, back: seq<Pos>)
    requires Placed(w, d, t) && InGrid(w, d, current) && InGrid(w, d, next) && Adjacent(current, next)
    requires Covered(w, d, Carving(t, rest + [current]))
    requires back == [current] || (back == [] && UnvisitedNeighbors(w, d, t, current) == [next])
    ensures Placed(w, d, Carved(t, current, next))
    ensures Covered(w, d, Carving(Carved(t, current, next), rest + back + [next]))
  {
    var t' := Carved(t, current, next);
    CarvedPlaced(w, d, t, current, next);
    forall p | InGrid(w, d, p) && (At(t', p).visited || p == Origin) && HasUnvisitedNeighbor(w, d, t', p)
      ensures p in rest + back + [next]
    {
      CoveredAfterCarveAt(w, d, t, rest, current, next, back, p);
    }
  }

  /** `CoveredAfterCarve` for one tile `p`. */
  lemma CoveredAfterCarveAt(w: nat, d: nat, t: Tiles, rest: seq<Pos>, current: Pos, next: Pos, back: seq<Pos>, p: Pos)
    requires Placed(w, d, t) && InGrid(w, d, current) && InGrid(w, d, next) && Adjacent(current, next)
    requires Covered(w, d, Carving(t, rest + [current]))
    requires back == [current] || (back == [] && UnvisitedNeighbors(w, d, t, current) == [next])
    requires Placed(w, d, Carved(t, current, next)) && InGrid(w, d, p)
    requires At(Carved(t, current, next), p).visited || p == Origin
    requires HasUnvisitedNeighbor(w, d, Carved(t, current, next), p)
    ensures p in rest + back + [next]
  {
    var stack' := rest + back + [next];
    if back == [] {
      CarvedSole(w, d, t, current, next);
    }
    CarvedAt(w, d, t, current, next, p);
    CarvedHasUnvisited(w, d, t, current, next, p);
    if p == next {
      assert stack'[|stack'| - 1] == next;
    } else if p == current {
      assert stack'[|rest|] == current;
    } else {
      assert p in rest + [current];
      assert stack' == rest + (back + [next]);
    }
  }

  lemma CarveCovered(w: nat, d: nat, s: Carving, k: nat)
    requires Steppable(w, d, s, k) && Covered(w, d, s)
    requires UnvisitedNeighbors(w, d, s.tiles, s.stack[|s.stack| - 1]) != []
    ensures Placed(w, d, CarveStep(w, d, s, k).tiles)
    ensures Covered(w, d, CarveStep(w, d, s, k))
  {
    var current := s.stack[|s.stack| - 1];
    var rest := s.stack[..|s.stack| - 1];
    assert s == Carving(s.tiles, rest + [current]);
    var u := UnvisitedNeighbors(w, d, s.tiles, current);
    NextFacts(w, d, s, k);
    var next := u[k];
    if |u| == 1 {
      assert u == [next];
    }
    CoveredAfterCarve(w, d, s.tiles, rest, current, next, if |u| > 1 then [current] else []);
  }

  lemma CarveCounts(w: nat, d: nat, s: Carving, k: nat)
    requires Steppable(w, d, s, k)
    requires |OpenEast(w, d, s.tiles)| + |OpenSouth(w, d, s.tiles)| <= |Visited(w, d, s.tiles)|
    ensures var s' := CarveStep(w, d, s, k);
      && Placed(w, d, s'.tiles)
      && |OpenEast(w, d, s'.tiles)| + |OpenSouth(w, d, s'.tiles)| <= |Visited(w, d, s'.tiles)|
      && Measure(w, d, s') < Measure(w, d, s)
  {
    var current := s.stack[|s.stack| - 1];
    var u := UnvisitedNeighbors(w, d, s.tiles, current);
    if u != [] {
      NextFacts(w, d, s, k);
      CarvedVisited(w, d, s.tiles, current, u[k]);
      CarvedOpen(w, d, s.tiles, current, u[k]);
    }
  }

  /** The iteration may be taken: the invariant holds, the stack is not empty, and the pick is a
      valid index. */
  ghost predicate CanStep(w: nat, d: nat, s: Carving, k: nat) {
    DInv(w, d, s) && s.stack != [] && ValidPick(w, d, s, k)
  }

  /** Each iteration keeps the invariant and decreases `2·(unvisited tiles) + stack length`. */
  lemma CarveKeepsInv(w: nat, d: nat, s: Carving, k: nat)
    requires CanStep(w, d, s, k)
    ensures DInv(w, d, CarveStep(w, d, s, k))
    ensures Measure(w, d, CarveStep(w, d, s, k)) < Measure(w, d, s)
  {
    assert Steppable(w, d, s, k);
    CarveKeepsShape(w, d, s, k);
    CarveCounts(w, d, s, k);
    CarveTileAt(w, d, s, k, Origin);
    var u := UnvisitedNeighbors(w, d, s.tiles, s.stack[|s.stack| - 1]);
    if u == [] {
      PopCovered(w, d, s, k);
    } else {
      CarveCovered(w, d, s, k);
      NextFacts(w, d, s, k);
    }
  }

  /** Nothing is undone: a visited mark stays set and an open wall stays open. */
  predicate NoRevert(a: Tile, b: Tile) {
    && (a.visited ==> b.visited)
    && (!a.N ==> !b.N) && (!a.S ==> !b.S) && (!a.E ==> !b.E) && (!a.W ==> !b.W)
  }

  ghost predicate Progressed(w: nat, d: nat, t0: Tiles, t1: Tiles)
    requires Placed(w, d, t0) && Placed(w, d, t1)
  {
    forall p {:trigger InGrid(w, d, p)} :: InGrid(w, d, p) ==> NoRevert(At(t0, p), At(t1, p))
  }

  /** Each iteration only sets visited marks and opens walls. */
  lemma CarveMonotone(w: nat, d: nat, s: Carving, k: nat)
    requires Steppable(w, d, s, k)
    ensures Placed(w, d, CarveStep(w, d, s, k).tiles)
    ensures Progressed(w, d, s.tiles, CarveStep(w, d, s, k).tiles)
  {
    CarveTileAt(w, d, s, k, Origin);
    forall p | InGrid(w, d, p) ensures NoRevert(At(s.tiles, p), At(CarveStep(w, d, s, k).tiles, p)) {
      CarveTileAt(w, d, s, k, p);
    }
  }

  lemma ProgressedTrans(w: nat, d: nat, t0: Tiles, t1: Tiles, t2: Tiles)
    requires Placed(w, d, t0) && Placed(w, d, t1) && Placed(w, d, t2)
    requires Progressed(w, d, t0, t1) && Progressed(w, d, t1, t2)
    ensures Progressed(w, d, t0, t2)
  {
  }

  // ---------------------------------------------------------------- the finished maze

  /** A tile that is visited, or is the start tile. */
  ghost predicate Reached(w: nat, d: nat, tiles: Tiles, p: Pos)
    requires Placed(w, d, tiles) && InGrid(w, d, p)
  {
    At(tiles, p).visited || p == Origin
  }

  lemma {:induction false} ReachedColumn(w: nat, d: nat, s: Carving, i: int, j: int)
    requires DInv(w, d, s) && s.stack == [] && 0 <= i < w && 0 <= j < d
    requires Reached(w, d, s.tiles, Pos(i, 0))
    ensures Reached(w, d, s.tiles, Pos(i, j))
    decreases j
  {
    if j > 0 {
      ReachedColumn(w, d, s, i, j - 1);
      assert !HasUnvisitedNeighbor(w, d, s.tiles, Pos(i, j - 1));
      assert SouthOf(Pos(i, j - 1)) == Pos(i, j);
    }
  }

  lemma {:induction false} ReachedRow(w: nat, d: nat, s: Carving, i: int)
    requires DInv(w, d, s) && s.stack == [] && 0 <= i < w
    ensures Reached(w, d, s.tiles, Pos(i, 0))
    decreases i
  {
    if i > 0 {
      ReachedRow(w, d, s, i - 1);
      assert !HasUnvisitedNeighbor(w, d, s.tiles, Pos(i - 1, 0));
      assert EastOf(Pos(i - 1, 0)) == Pos(i, 0);
    }
  }

  /** When the stack is empty: in a grid of two or more tiles every tile, `tiles[0][0]` included,
      is visited; in a 1×1 grid the only tile stays unvisited; and at most `w*d` walls are open. */
  lemma CarvedAll(w: nat, d: nat, s: Carving)
    requires DInv(w, d, s) && s.stack == []
    ensures (w >= 2 || d >= 2) ==> forall p :: InGrid(w, d, p) ==> At(s.tiles, p).visited
    ensures w == 1 && d == 1 ==> !At(s.tiles, Origin).visited
    ensures |OpenEast(w, d, s.tiles)| + |OpenSouth(w, d, s.tiles)| <= w * d
  {
    var t := s.tiles;
    forall p | InGrid(w, d, p) ensures Reached(w, d, t, p) {
      ReachedRow(w, d, s, p.x);
      ReachedColumn(w, d, s, p.x, p.y);
    }
    if w >= 2 || d >= 2 {
      var q := if w >= 2 then Pos(1, 0) else Pos(0, 1);
      assert InGrid(w, d, q) && Reached(w, d, t, q);
      assert !HasUnvisitedNeighbor(w, d, t, q);
      assert Origin == WestOf(q) || Origin == NorthOf(q);
      assert At(t, Origin).visited;
    }
    forall p | p in Visited(w, d, t) ensures p in Cells(w, d) {
      VisitedMembers(w, d, t, p);
      CellsAreInGrid(w, d, p);
    }
    SubsetSize(Visited(w, d, t), Cells(w, d));
    CellsSize(w, d);
  }
}
