// The facts about a game piece that the board's occupancy and movement code
// consults. Piece.java itself is not part of this model: its accessors
// (getMoveDistance, traversalCost, isFlyer, isAirborne, ...) appear here as
// plain fields of the piece value.

module Pieces {
  import opened AwtRect

  /** The piece classes the board distinguishes with `instanceof`. */
  datatype PieceKind =
    | Unit                       // any other piece
    | BigPiece(bounds: Rect)     // a piece covering a rectangle of tiles
    | Track(trackType: int)      // a piece of train track
    | Bonus
    | Train

  datatype Piece = Piece(
    pieceId: int,
    kind: PieceKind,
    x: int,
    y: int,
    orientation: int,
    owner: int,
    flyer: bool,
    airborne: bool,
    moveDistance: int,
    maxFireDistance: int,
    // the cost of entering a tile, given its predominant terrain code
    traversalCost: int -> int)

  /** Java's `getDistance`: the Manhattan distance between two tiles. */
  function Distance(x1: int, y1: int, x2: int, y2: int): nat
  {
    (if x1 >= x2 then x1 - x2 else x2 - x1) + (if y1 >= y2 then y1 - y2 else y2 - y1)
  }
}
