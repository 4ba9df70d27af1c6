/** The exit lift of scripts/Scene/RoomTypes/StartEnd.js: `getRotation` collects the open sides of
    a tile (N, E, S, W, in that order; `true` means a wall), picks one at random and turns it into
    the lift's rotation; `loadStartEndPreset` loads the lift only when there is a rotation. */
module StartEnd {
  import opened Wrappers

  /** A `THREE.Euler`. The angles are written as multiples of π radians, so `y == -0.5` is -π/2. */
  datatype Euler = Euler(x: real, y: real, z: real, order: string)

  /** A point in the scene, as `position` is passed on to the scene builder. */
  datatype Point = Point(x: real, y: real, z: real)

  /** The call `sceneBuilder.load_glb_object(EXIT_LIFT, position, {rotation, scale})`. */
  datatype LoadRequest = LoadRequest(path: string, position: Point, rotation: Euler, scale: Point)

  /** `EXIT_LIFT` (line 4). */
  const ExitLift: string := "glb/elevator.glb"

  /** The scale of the lift on every axis (line 17). */
  const LiftScale: real := 0.015

  /** `sides.map((value, index) => value ? -1 : index)` (line 25). */
  function Marked(sides: seq<bool>): (r: seq<int>)
    ensures |r| == |sides|
  {
    seq(|sides|, i requires 0 <= i < |sides| => if sides[i] then -1 else i)
  }

  /** `.filter(index => index !== -1)` (line 26). */
  function Kept(s: seq<int>): (r: seq<int>)
    ensures |r| <= |s|
    ensures -1 !in r
  {
    if s == [] then [] else (if s[0] != -1 then [s[0]] else []) + Kept(s[1..])
  }

  /** The candidate list `walls` of lines 24-26 (despite its name it holds the open sides). */
  function Candidates(sides: seq<bool>): seq<int>
  {
    Kept(Marked(sides))
  }

  /** `Math.floor(Math.random() * walls.length)` (line 27), for a draw `0 <= r < 1`. */
  function PickIndex(r: real, n: nat): int
  {
    (r * n as real).Floor
  }

  /** The `switch` of lines 29-40. */
  function RotationFor(index: int): Option<Euler>
  {
    match index
    case 0 => Some(Euler(0.0, 0.0, 0.0, "XYZ"))
    case 1 => Some(Euler(0.0, -0.5, 0.0, "XYZ"))
    case 2 => Some(Euler(0.0, 1.0, 0.0, "XYZ"))
    case 3 => Some(Euler(0.0, 0.5, 0.0, "XYZ"))
    case _ => None
  }

  /** `getRotation` (lines 22-41) for the draw `r`. Reading past the end of `walls` gives
      `undefined`, which falls to the `default` case. */
  function GetRotation(sides: seq<bool>, r: real): Option<Euler>
    requires 0.0 <= r < 1.0
  {
    var walls := Candidates(sides);
    var i := PickIndex(r, |walls|);
    if 0 <= i < |walls| then RotationFor(walls[i]) else None
  }

  /** `loadStartEndPreset` (lines 5-20): a rotation object is truthy and `null` is not, so the lift
      is loaded exactly when `getRotation` returned one. */
  function LoadStartEndPreset(position: Point, sides: seq<bool>, r: real): Option<LoadRequest>
    requires 0.0 <= r < 1.0
  {
    match GetRotation(sides, r)
    case None => None
    case Some(rotation) =>
      Some(LoadRequest(ExitLift, position, rotation, Point(LiftScale, LiftScale, LiftScale)))
  }

  /** The filter keeps exactly the entries other than -1. */
  lemma {:induction false} KeptMembers(s: seq<int>)
    ensures forall x :: x in Kept(s) <==> x in s && x != -1
  {
    if s != [] {
      KeptMembers(s[1..]);
      assert s == [s[0]] + s[1..];
    }
  }

  /** A list of nothing but -1 filters to the empty list. */
  lemma {:induction false} KeptAllMarks(s: seq<int>)
    requires forall i :: 0 <= i < |s| ==> s[i] == -1
    ensures Kept(s) == []
  {
    if s != [] {
      KeptAllMarks(s[1..]);
    }
  }

  /** The entries other than -1 ascend strictly. */
  predicate AscendingApartFromMarks(s: seq<int>)
  {
    forall p, q :: 0 <= p < q < |s| && s[p] != -1 && s[q] != -1 ==> s[p] < s[q]
  }

  predicate StrictlyAscending(s: seq<int>)
  {
    forall p, q :: 0 <= p < q < |s| ==> s[p] < s[q]
  }

  /** The filter keeps the order of what it keeps. */
  lemma {:induction false} KeptAscending(s: seq<int>)
    requires AscendingApartFromMarks(s)
    ensures StrictlyAscending(Kept(s))
  {
    if s != [] {
      var rest := s[1..];
      assert AscendingApartFromMarks(rest) by {
        forall p, q | 0 <= p < q < |rest| && rest[p] != -1 && rest[q] != -1
          ensures rest[p] < rest[q]
        {
          assert rest[p] == s[p + 1] && rest[q] == s[q + 1];
        }
      }
      KeptAscending(rest);
      KeptMembers(rest);
      if s[0] != -1 {
        var k := Kept(rest);
        forall q | 0 <= q < |k|
          ensures s[0] < k[q]
        {
          assert k[q] in k;
          var j :| 0 <= j < |rest| && rest[j] == k[q];
          assert s[j + 1] == k[q];
        }
        assert Kept(s) == [s[0]] + k;
      }
    }
  }

  /** The candidate list holds exactly the indices of the open sides, in ascending order. */
  lemma CandidatesExact(sides: seq<bool>)
    ensures forall i :: i in Candidates(sides) <==> 0 <= i < |sides| && !sides[i]
    ensures StrictlyAscending(Candidates(sides))
  {
    var m := Marked(sides);
    KeptMembers(m);
    KeptAscending(m);
    forall i
      ensures i in Candidates(sides) <==> 0 <= i < |sides| && !sides[i]
    {
      if 0 <= i < |sides| && !sides[i] {
        assert m[i] == i;
      }
      if i in m && i != -1 {
        var j :| 0 <= j < |m| && m[j] == i;
      }
    }
  }

  /** A draw in [0, 1) picks an index of a non-empty list. */
  lemma PickInRange(r: real, n: nat)
    requires 0.0 <= r < 1.0 && n > 0
    ensures 0 <= PickIndex(r, n) < n
  {
    var nr := n as real;
    assert 0.0 <= r * nr;
    assert r * nr < nr by {
      assert (1.0 - r) * nr > 0.0;
    }
  }

  /** Every index of the list is picked by some draw: the draw `k / n` picks index `k`. */
  lemma PickReaches(k: nat, n: nat)
    requires k < n
    ensures 0.0 <= (k as real) / (n as real) < 1.0
    ensures PickIndex((k as real) / (n as real), n) == k
  {
    var nr := n as real;
    assert (k as real) / nr * nr == k as real;
  }

  /** When the result is a rotation, it faces an open side of the tile. */
  lemma ChosenSideIsOpen(sides: seq<bool>, r: real)
    requires 0.0 <= r < 1.0
    ensures GetRotation(sides, r).Some? ==>
      exists i :: 0 <= i < |sides| && !sides[i] && RotationFor(i) == GetRotation(sides, r)
  {
    CandidatesExact(sides);
    var walls := Candidates(sides);
    var i := PickIndex(r, |walls|);
    if 0 <= i < |walls| {
      assert walls[i] in walls;
    }
  }

  /** On a four-sided tile, every open side is the one the lift faces for some draw. */
  lemma EveryOpenSideReachable(sides: seq<bool>, side: nat)
    requires |sides| == 4 && side < 4 && !sides[side]
    ensures exists r :: 0.0 <= r < 1.0 && GetRotation(sides, r) == RotationFor(side)
  {
    CandidatesExact(sides);
    var walls := Candidates(sides);
    assert side in walls;
    var k :| 0 <= k < |walls| && walls[k] == side;
    PickReaches(k, |walls|);
    var r := (k as real) / (|walls| as real);
    assert GetRotation(sides, r) == RotationFor(side);
  }

  /** On a four-sided tile with an open side, the lift is always loaded. */
  lemma OpenTileLoads(position: Point, sides: seq<bool>, r: real)
    requires |sides| == 4 && 0.0 <= r < 1.0
    requires exists i :: 0 <= i < 4 && !sides[i]
    ensures LoadStartEndPreset(position, sides, r).Some?
    ensures LoadStartEndPreset(position, sides, r).value.path == ExitLift
    ensures LoadStartEndPreset(position, sides, r).value.scale == Point(0.015, 0.015, 0.015)
  {
    CandidatesExact(sides);
    var walls := Candidates(sides);
    var i :| 0 <= i < 4 && !sides[i];
    assert i in walls;
    PickInRange(r, |walls|);
    var k := PickIndex(r, |walls|);
    assert walls[k] in walls;
  }

  /** A tile walled on every side gets no rotation, and nothing is loaded. */
  lemma ClosedTileLoadsNothing(position: Point, sides: seq<bool>, r: real)
    requires 0.0 <= r < 1.0
    requires forall i :: 0 <= i < |sides| ==> sides[i]
    ensures GetRotation(sides, r) == None
    ensures LoadStartEndPreset(position, sides, r) == None
  {
    KeptAllMarks(Marked(sides));
    assert PickIndex(r, 0) == 0;
  }

  /** N, E, S and W give four different rotations that differ only in the angle about y; every
      other index gives none. */
  lemma RotationsDiffer()
    ensures forall i :: 0 <= i < 4 ==>
      RotationFor(i).Some? && RotationFor(i).value.x == 0.0 && RotationFor(i).value.z == 0.0 &&
      RotationFor(i).value.order == "XYZ"
    ensures forall i, j :: 0 <= i < j < 4 ==> RotationFor(i).value.y != RotationFor(j).value.y
    ensures forall i :: !(0 <= i < 4) ==> RotationFor(i) == None
  {
  }
}
