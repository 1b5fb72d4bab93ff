// Train track pieces: which tracks block ground pieces and which neighbouring
// tiles a track connects to, from its type and orientation.

module Tracks {
  import opened Pieces

  const SINGLETON: int := 0
  const TERMINAL: int := 1
  const STRAIGHT: int := 2
  const T_JUNCTION: int := 3
  const X_JUNCTION: int := 4
  const TURN: int := 5

  /**
   * The per-direction tile offsets of Piece.DX and Piece.DY, indexed by
   * orientation. Piece.java is not part of this model, so the offsets are a
   * parameter; all that is assumed of them is that they are four distinct
   * unit steps.
   */
  datatype Compass = Compass(dx: seq<int>, dy: seq<int>)

  ghost predicate UnitSteps(c: Compass)
  {
    |c.dx| == 4 && |c.dy| == 4 &&
    (forall d :: 0 <= d < 4 ==> Distance(0, 0, c.dx[d], c.dy[d]) == 1) &&
    (forall d, e :: 0 <= d < e < 4 ==> c.dx[d] != c.dx[e] || c.dy[d] != c.dy[e])
  }

  /** Singletons and terminals keep ground pieces off their tile. */
  predicate PreventsGroundOverlap(trackType: int)
  {
    trackType == SINGLETON || trackType == TERMINAL
  }

  /** `preventsOverlap`: only ground pieces that are not trains are kept off. */
  predicate PreventsOverlap(trackType: int, lapper: Piece)
  {
    PreventsGroundOverlap(trackType) && !lapper.kind.Train? && !lapper.airborne
  }

  /** `isInDirection`: (tx, ty) is one step from (x, y) towards `dir`. */
  predicate InDirection(c: Compass, x: int, y: int, tx: int, ty: int, dir: int)
    requires |c.dx| == 4 && |c.dy| == 4 && 0 <= dir < 4
  {
    tx == x + c.dx[dir] && ty == y + c.dy[dir]
  }

  /** `computeOrientation`: a track keeps its orientation wherever it is placed. */
  function ComputeOrientation(orient: int, nx: int, ny: int): (o: int)
    ensures o == orient
  {
    orient
  }

  /** `isConnectedTo` for a track of the given type at (x, y) facing `orient`. */
  predicate ConnectedTo(c: Compass, trackType: int, x: int, y: int, orient: int, tx: int, ty: int)
    requires |c.dx| == 4 && |c.dy| == 4 && 0 <= orient < 4
  {
    if trackType == TERMINAL then
      InDirection(c, x, y, tx, ty, orient)
    else if trackType == STRAIGHT then
      InDirection(c, x, y, tx, ty, orient) || InDirection(c, x, y, tx, ty, (orient + 2) % 4)
    else if trackType == T_JUNCTION then
      Distance(x, y, tx, ty) == 1 && !InDirection(c, x, y, tx, ty, orient)
    else if trackType == X_JUNCTION then
      Distance(x, y, tx, ty) == 1
    else if trackType == TURN then
      InDirection(c, x, y, tx, ty, orient) || InDirection(c, x, y, tx, ty, (orient + 1) % 4)
    else
      false  // SINGLETON and every unknown type
  }

  /** The directions a track of the given type and orientation joins. */
  function ConnectedDirections(trackType: int, orient: int): (ds: set<int>)
    requires 0 <= orient < 4
    ensures forall d :: d in ds ==> 0 <= d < 4
  {
    if trackType == TERMINAL then {orient}
    else if trackType == STRAIGHT then {orient, (orient + 2) % 4}
    else if trackType == T_JUNCTION then {0, 1, 2, 3} - {orient}
    else if trackType == X_JUNCTION then {0, 1, 2, 3}
    else if trackType == TURN then {orient, (orient + 1) % 4}
    else {}
  }

  /** A track never connects to a tile that is not adjacent to it. */
  lemma ConnectedOnlyToNeighbours(c: Compass, trackType: int, x: int, y: int, orient: int, tx: int, ty: int)
    requires UnitSteps(c) && 0 <= orient < 4
    requires ConnectedTo(c, trackType, x, y, orient, tx, ty)
    ensures Distance(x, y, tx, ty) == 1
  {
    assert Distance(x, y, x + c.dx[orient], y + c.dy[orient]) == Distance(0, 0, c.dx[orient], c.dy[orient]);
    assert Distance(x, y, x + c.dx[(orient + 1) % 4], y + c.dy[(orient + 1) % 4])
      == Distance(0, 0, c.dx[(orient + 1) % 4], c.dy[(orient + 1) % 4]);
    assert Distance(x, y, x + c.dx[(orient + 2) % 4], y + c.dy[(orient + 2) % 4])
      == Distance(0, 0, c.dx[(orient + 2) % 4], c.dy[(orient + 2) % 4]);
  }

  /**
   * Over the four neighbouring tiles, a track connects exactly to the steps
   * in its connected directions: none for a singleton, one for a terminal,
   * two opposite ones for a straight piece, two consecutive ones for a turn,
   * all but the facing one for a T-junction and all four for a cross.
   */
  lemma ConnectedNeighbours(c: Compass, trackType: int, x: int, y: int, orient: int, d: int)
    requires UnitSteps(c) && 0 <= orient < 4 && 0 <= d < 4
    ensures ConnectedTo(c, trackType, x, y, orient, x + c.dx[d], y + c.dy[d])
        <==> d in ConnectedDirections(trackType, orient)
  {
    assert Distance(x, y, x + c.dx[d], y + c.dy[d]) == Distance(0, 0, c.dx[d], c.dy[d]);
    forall e | 0 <= e < 4
      ensures (c.dx[e] == c.dx[d] && c.dy[e] == c.dy[d]) <==> e == d
    {
      if e < d {
        assert c.dx[e] != c.dx[d] || c.dy[e] != c.dy[d];
      } else if d < e {
        assert c.dx[d] != c.dx[e] || c.dy[d] != c.dy[e];
      }
    }
  }

  /** The number of neighbours each track type joins. */
  lemma ConnectionCounts(orient: int)
    requires 0 <= orient < 4
    ensures |ConnectedDirections(SINGLETON, orient)| == 0
    ensures |ConnectedDirections(TERMINAL, orient)| == 1
    ensures |ConnectedDirections(STRAIGHT, orient)| == 2
    ensures |ConnectedDirections(T_JUNCTION, orient)| == 3
    ensures |ConnectedDirections(X_JUNCTION, orient)| == 4
    ensures |ConnectedDirections(TURN, orient)| == 2
  {
    assert {0, 1, 2, 3} - {orient} == if orient == 0 then {1, 2, 3}
      else if orient == 1 then {0, 2, 3} else if orient == 2 then {0, 1, 3} else {0, 1, 2};
  }

  /** A straight track joins the same tiles whichever of its two ends it faces. */
  lemma StraightIgnoresFacing(c: Compass, x: int, y: int, orient: int, tx: int, ty: int)
    requires |c.dx| == 4 && |c.dy| == 4 && 0 <= orient < 4
    ensures ConnectedTo(c, STRAIGHT, x, y, orient, tx, ty)
        == ConnectedTo(c, STRAIGHT, x, y, (orient + 2) % 4, tx, ty)
  {
    assert ((orient + 2) % 4 + 2) % 4 == orient;
  }

  /** Trains and airborne pieces pass over every track; other pieces are kept
      off exactly the singletons and terminals. */
  lemma OverlapRules(trackType: int, lapper: Piece)
    ensures (lapper.kind.Train? || lapper.airborne) ==> !PreventsOverlap(trackType, lapper)
    ensures !lapper.kind.Train? && !lapper.airborne ==>
      (PreventsOverlap(trackType, lapper) <==> trackType in {SINGLETON, TERMINAL})
  {
  }
}
