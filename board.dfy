// The game board: a grid of tiles over a finer heightfield of vertices, the
// per-tile occupancy state that pieces cast onto it, and the move and attack
// sets computed from that state.
//
// The Java board keeps every grid in a flat row-major byte array indexed
// `y*width + x`; here each grid is a two-dimensional array indexed [x, y].

module Board {
  import opened JavaValues
  import opened AwtRect
  import opened Pieces
  import opened Flood
  import Tracks

  const BASE_TRAVERSAL: int := 10
  const HEIGHTFIELD_SUBDIVISIONS: int := 4
  const ELEVATION_UNITS_PER_TILE: int := 64
  const MAX_OCCUPIABLE_HEIGHT_DELTA: int := 16
  const MAX_OCCUPIABLE_WATER_LEVEL: Byte := 1
  const BORDER_SIZE: int := 8

  // Tile states. A non-negative state is the owner index of the piece on the tile.
  const O_FLAT: Byte := -1
  const O_ROUGH: Byte := -2
  const O_IMPASS: Byte := -3
  const O_PROP: Byte := -4

  /** `Arrays.fill`: every cell of `a` becomes `v`. */
  method Fill(a: array2<Byte>, v: Byte)
    modifies a
    ensures forall x, y :: 0 <= x < a.Length0 && 0 <= y < a.Length1 ==> a[x, y] == v
  {
    var x := 0;
    while x < a.Length0
      invariant 0 <= x <= a.Length0
      invariant forall x', y :: 0 <= x' < x && 0 <= y < a.Length1 ==> a[x', y] == v
    {
      var y := 0;
      while y < a.Length1
        invariant 0 <= y <= a.Length1
        invariant forall x', y' :: 0 <= x' < x && 0 <= y' < a.Length1 ==> a[x', y'] == v
        invariant forall y' :: 0 <= y' < y ==> a[x, y'] == v
      {
        a[x, y] := v;
        y := y + 1;
      }
      x := x + 1;
    }
  }

  /** The shadow height a stored shadow byte stands for: `(byte)(v - 128)` read back plus 128. */
  lemma ShadowByte(v: int)
    ensures ToByte(v - 128) + 128 == v % 256
  {
    var low := (v - 128) % 256;
    assert v % 256 == (low + 128) % 256;
  }

  // ---- the state a piece casts on the tile grid ----

  /** The tile state `shadowPiece(p)` leaves at (x, y), where it was `t`. */
  function ShadowedState(p: Piece, play: Rect, x: int, y: int, t: Byte): Byte
  {
    if p.kind.BigPiece? then
      (if Contains(p.kind.bounds, x, y) && Contains(play, x, y) then O_PROP else t)
    else if !Contains(play, p.x, p.y) || x != p.x || y != p.y then t
    else if p.kind.Track? then
      (if Tracks.PreventsGroundOverlap(p.kind.trackType) then O_PROP else t)
    else if p.kind.Bonus? then O_FLAT
    else if p.kind.Train? || p.owner < 0 then O_PROP
    else ToByte(p.owner)
  }

  /** Only big pieces and ground-blocking tracks change the base state: to a prop. */
  function ShadowedBase(p: Piece, play: Rect, x: int, y: int, bt: Byte): Byte
  {
    if p.kind.BigPiece? then
      (if Contains(p.kind.bounds, x, y) && Contains(play, x, y) then O_PROP else bt)
    else if Contains(play, p.x, p.y) && x == p.x && y == p.y && p.kind.Track?
      && Tracks.PreventsGroundOverlap(p.kind.trackType) then O_PROP
    else bt
  }

  /** Where a prop is cast, the piece elevation becomes two tiles. */
  function ShadowedElevation(p: Piece, play: Rect, x: int, y: int, e: Byte): Byte
  {
    if ShadowedBase(p, play, x, y, O_FLAT) == O_PROP then 2 else e
  }

  /** The tile state after shadowing `ps` in order, starting from `t`. */
  function FoldState(ps: seq<Piece>, play: Rect, x: int, y: int, t: Byte): Byte
  {
    if ps == [] then t
    else ShadowedState(ps[|ps| - 1], play, x, y, FoldState(ps[..|ps| - 1], play, x, y, t))
  }

  function FoldBase(ps: seq<Piece>, play: Rect, x: int, y: int, bt: Byte): Byte
  {
    if ps == [] then bt
    else ShadowedBase(ps[|ps| - 1], play, x, y, FoldBase(ps[..|ps| - 1], play, x, y, bt))
  }

  function FoldElevation(ps: seq<Piece>, play: Rect, x: int, y: int, e: Byte): Byte
  {
    if ps == [] then e
    else ShadowedElevation(ps[|ps| - 1], play, x, y, FoldElevation(ps[..|ps| - 1], play, x, y, e))
  }

  /** The ground rule of `canOccupy`: a free flat tile, or a tile held by the
      piece's own side over flat ground. */
  predicate GroundPasses(q: Piece, t: Byte, bt: Byte)
  {
    t == O_FLAT || (t == q.owner && bt == O_FLAT)
  }

  /**
   * What a piece's shadow does to its own tile: a non-big piece off the play
   * area casts nothing; on it a bonus frees the tile, a train or an unowned
   * piece makes it a prop, and any other piece (but a track) marks it with
   * its owner.
   */
  lemma ShadowOnOwnTile(p: Piece, play: Rect, t: Byte)
    requires !p.kind.BigPiece?
    ensures !Contains(play, p.x, p.y) ==> forall x, y :: ShadowedState(p, play, x, y, t) == t
    ensures Contains(play, p.x, p.y) ==>
      (p.kind.Bonus? ==> ShadowedState(p, play, p.x, p.y, t) == O_FLAT) &&
      ((p.kind.Train? || (p.owner < 0 && !p.kind.Track? && !p.kind.Bonus?)) ==>
        ShadowedState(p, play, p.x, p.y, t) == O_PROP) &&
      (p.kind.Unit? && 0 <= p.owner <= BYTE_MAX ==> ShadowedState(p, play, p.x, p.y, t) == p.owner)
    ensures forall x, y :: (x, y) != (p.x, p.y) ==> ShadowedState(p, play, x, y, t) == t
  {
  }

  /**
   * A piece that is neither big nor a ground-blocking track leaves the base
   * state and the elevation alone, so `clearShadow` (which copies the base
   * state back) undoes its shadow completely.
   */
  lemma ClearUndoesShadow(p: Piece, play: Rect, x: int, y: int, bt: Byte, e: Byte)
    requires !p.kind.BigPiece?
    requires p.kind.Track? ==> !Tracks.PreventsGroundOverlap(p.kind.trackType)
    ensures ShadowedBase(p, play, x, y, bt) == bt
    ensures ShadowedElevation(p, play, x, y, e) == e
  {
  }

  /**
   * Under a unit of player `o` standing on flat ground, only the other
   * ground pieces of player `o` may pass; a free flat tile admits every
   * ground piece.
   */
  lemma OwnersPassThrough(p: Piece, q: Piece, play: Rect, bt: Byte)
    requires p.kind.Unit? && 0 <= p.owner <= BYTE_MAX && Contains(play, p.x, p.y)
    ensures GroundPasses(q, ShadowedState(p, play, p.x, p.y, bt), bt) <==> (q.owner == p.owner && bt == O_FLAT)
    ensures GroundPasses(q, O_FLAT, bt)
  {
  }

  /** Every terrain costs the piece between 0 and 127 points to enter. */
  ghost predicate CostsFit(piece: Piece)
  {
    forall code :: 0 <= piece.traversalCost(code) <= BYTE_MAX
  }

  /**
   * The attacks gained from a to b all lie in the play area, on tiles that
   * held 0 in g, within `bound` steps of (x, y).
   */
  ghost predicate NewAttacks(play: Rect, a: set<Pos>, b: set<Pos>, g: Grid, x: int, y: int, bound: int)
  {
    a <= b &&
    forall q :: q in b && q !in a ==> Contains(play, q.0, q.1) && At(g, q) == 0 && Distance(x, y, q.0, q.1) <= bound
  }

  /** Attacks found from a neighbour of (x, y) within one step less are within `bound` of (x, y). */
  lemma NewAttacksFromNeighbour(play: Rect, a: set<Pos>, b: set<Pos>, g: Grid, h: Grid,
                                x: int, y: int, n: Pos, bound: int)
    requires NewAttacks(play, a, b, h, n.0, n.1, bound - 1) && Marked(g, h) && Adjacent((x, y), n)
    ensures NewAttacks(play, a, b, g, x, y, bound)
  {
    forall q | q in b && q !in a ensures Contains(play, q.0, q.1) && At(g, q) == 0 && Distance(x, y, q.0, q.1) <= bound {
      assert At(h, q) == 0;
    }
  }

  lemma NewAttacksJoin(play: Rect, a: set<Pos>, b: set<Pos>, c: set<Pos>, g: Grid, x: int, y: int, bound: int)
    requires NewAttacks(play, a, b, g, x, y, bound) && NewAttacks(play, b, c, g, x, y, bound)
    ensures NewAttacks(play, a, c, g, x, y, bound)
  {
    forall q | q in c && q !in a ensures Contains(play, q.0, q.1) && At(g, q) == 0 && Distance(x, y, q.0, q.1) <= bound {
      if q in b {
        assert q in b && q !in a;
      }
    }
  }

  /** What a piece starts its move flood with: ten points per step of its move distance, plus one. */
  function MoveBudget(piece: Piece): int
  {
    piece.moveDistance * BASE_TRAVERSAL + 1
  }

  /**
   * The four sides of the ring of tiles `dd` steps from (px, py), as
   * `computeAttacks` walks them: each side starts at a corner of the
   * diamond and stops one tile short of the next.
   */
  predicate RingSide(px: int, py: int, dd: int, side: int, q: Pos)
  {
    if side == 0 then px <= q.0 < px + dd && q.1 == py - dd + (q.0 - px)
    else if side == 1 then py <= q.1 < py + dd && q.0 == px + dd - (q.1 - py)
    else if side == 2 then px - dd < q.0 <= px && q.1 == py + dd - (px - q.0)
    else py - dd < q.1 <= py && q.0 == px - dd + (py - q.1)
  }

  /** The four sides make up exactly the tiles at distance dd. */
  lemma RingSides(px: int, py: int, dd: int, q: Pos)
    ensures (RingSide(px, py, dd, 0, q) || RingSide(px, py, dd, 1, q) ||
             RingSide(px, py, dd, 2, q) || RingSide(px, py, dd, 3, q)) <==>
            dd >= 1 && Distance(px, py, q.0, q.1) == dd
  {
  }

  /** code occurs in m and no code occurs more often. */
  ghost predicate MostCommon(m: multiset<Byte>, code: int)
  {
    0 < m[code] && forall c :: m[c] <= m[code]
  }

  class BangBoard {
    const width: nat
    const height: nat
    const hfwidth: nat
    const hfheight: nat
    /** One byte per heightfield vertex: height, terrain code, shadow height. */
    const heightfield: array2<Byte>
    const terrain: array2<Byte>
    const shadows: array2<Byte>
    /** One byte per tile: predominant terrain, tile state, base tile state,
        piece elevation and the planning grid of the floods. */
    const pterrain: array2<Byte>
    const tstate: array2<Byte>
    const btstate: array2<Byte>
    const estate: array2<Byte>
    const pgrid: array2<Byte>
    const playarea: Rect
    var waterLevel: Byte
    var minEdgeHeight: Byte
    /** A snapshot of the planning grid `pgrid`, kept beside it for the proofs. */
    ghost var plan: Grid

    predicate VertexGrid(a: array2<Byte>)
    {
      a.Length0 == hfwidth && a.Length1 == hfheight
    }

    predicate TileGrid(a: array2<Byte>)
    {
      a.Length0 == width && a.Length1 == height
    }

    ghost predicate Valid()
    {
      hfwidth == width * HEIGHTFIELD_SUBDIVISIONS + 1 &&
      hfheight == height * HEIGHTFIELD_SUBDIVISIONS + 1 &&
      VertexGrid(heightfield) && VertexGrid(terrain) && VertexGrid(shadows) &&
      heightfield != terrain && heightfield != shadows && terrain != shadows && terrain != pterrain &&
      TileGrid(pterrain) && TileGrid(tstate) && TileGrid(btstate) && TileGrid(estate) && TileGrid(pgrid) &&
      pterrain != tstate && pterrain != btstate && pterrain != estate && pterrain != pgrid &&
      tstate != btstate && tstate != estate && tstate != pgrid &&
      btstate != estate && btstate != pgrid && estate != pgrid &&
      heightfield != tstate && heightfield != btstate && heightfield != estate && heightfield != pgrid &&
      heightfield != pterrain && terrain != tstate && terrain != btstate && terrain != estate &&
      terrain != pgrid && shadows != pterrain && shadows != tstate && shadows != btstate &&
      shadows != estate && shadows != pgrid &&
      playarea == Rect(BORDER_SIZE, BORDER_SIZE, width - 2 * BORDER_SIZE, height - 2 * BORDER_SIZE)
    }

    /** `plan` holds exactly what `pgrid` holds. */
    ghost predicate Planned()
      reads this, pgrid
    {
      pgrid.Length0 == width && pgrid.Length1 == height &&
      |plan| == width && (forall x :: 0 <= x < width ==> |plan[x]| == height) &&
      forall x, y :: 0 <= x < width && 0 <= y < height ==> plan[x][y] == pgrid[x, y]
    }

    predicate OnBoard(x: int, y: int)
    {
      0 <= x < width && 0 <= y < height
    }

    predicate InHeightfield(x: int, y: int)
    {
      0 <= x < hfwidth && 0 <= y < hfheight
    }

    /**
     * A board of the given size: vertex grids of (4w+1) x (4h+1), tile
     * grids of w x h, a play area inside an eight-tile border, every shadow
     * at height 0 and no water.
     */
    constructor (width: nat, height: nat)
      ensures Valid() && this.width == width && this.height == height
      ensures hfwidth * hfheight == (width * 4 + 1) * (height * 4 + 1)
      ensures forall x, y :: InHeightfield(x, y) ==>
        heightfield[x, y] == 0 && terrain[x, y] == 0 && ShadowValue(x, y) == 0
      ensures forall x, y :: OnBoard(x, y) ==>
        pterrain[x, y] == 0 && tstate[x, y] == 0 && btstate[x, y] == 0 && estate[x, y] == 0 && pgrid[x, y] == 0
      ensures waterLevel == -128 && minEdgeHeight == 0 && Planned()
      ensures playarea == Rect(8, 8, width - 16, height - 16)
    {
      this.width := width;
      this.height := height;
      hfwidth := width * HEIGHTFIELD_SUBDIVISIONS + 1;
      hfheight := height * HEIGHTFIELD_SUBDIVISIONS + 1;
      heightfield := new Byte[width * HEIGHTFIELD_SUBDIVISIONS + 1, height * HEIGHTFIELD_SUBDIVISIONS + 1]((x, y) => 0);
      terrain := new Byte[width * HEIGHTFIELD_SUBDIVISIONS + 1, height * HEIGHTFIELD_SUBDIVISIONS + 1]((x, y) => 0);
      shadows := new Byte[width * HEIGHTFIELD_SUBDIVISIONS + 1, height * HEIGHTFIELD_SUBDIVISIONS + 1]((x, y) => 0);
      waterLevel := -128;
      minEdgeHeight := 0;
      pterrain := new Byte[width, height]((x, y) => 0);
      btstate := new Byte[width, height]((x, y) => 0);
      estate := new Byte[width, height]((x, y) => 0);
      tstate := new Byte[width, height]((x, y) => 0);
      pgrid := new Byte[width, height]((x, y) => 0);
      playarea := Rect(BORDER_SIZE, BORDER_SIZE, width - 2 * BORDER_SIZE, height - 2 * BORDER_SIZE);
      plan := seq(width, x => seq(height, y => 0));
      new;
      FillShadows(0);
    }

    // ---- heightfield ----

    /** The edge vertices: the first and last rows and columns of the heightfield. */
    ghost predicate OnEdge(x: int, y: int)
    {
      InHeightfield(x, y) && (x == 0 || y == 0 || x == hfwidth - 1 || y == hfheight - 1)
    }

    /** `m` is the least height on the edge of the heightfield. */
    ghost predicate EdgeMinimum(m: int)
      requires Valid()
      reads heightfield
    {
      (forall x, y :: OnEdge(x, y) ==> m <= heightfield[x, y]) &&
      exists x, y :: OnEdge(x, y) && heightfield[x, y] == m
    }

    /** `getHeightfieldValue`: the height of a vertex; beyond the edge, the minimum edge height. */
    function HeightfieldValue(x: int, y: int): (v: Byte)
      requires Valid()
      reads this, heightfield
      ensures InHeightfield(x, y) ==> v == heightfield[x, y]
      ensures !InHeightfield(x, y) && EdgeMinimum(minEdgeHeight) ==>
        (forall ex, ey :: OnEdge(ex, ey) ==> v <= heightfield[ex, ey]) &&
        exists ex, ey :: OnEdge(ex, ey) && v == heightfield[ex, ey]
    {
      if x < 0 || y < 0 || x >= hfwidth || y >= hfheight then minEdgeHeight else heightfield[x, y]
    }

    /** `updateMinEdgeHeight`: records the least height on the heightfield's edge. */
    method UpdateMinEdgeHeight()
      requires Valid()
      modifies this`minEdgeHeight
      ensures EdgeMinimum(minEdgeHeight)
    {
      var m: Byte := BYTE_MAX;
      ghost var wx, wy := 0, 0;
      var x := 0;
      while x < hfwidth
        invariant 0 <= x <= hfwidth
        invariant forall x' :: 0 <= x' < x ==> m <= heightfield[x', 0] && m <= heightfield[x', hfheight - 1]
        invariant x == 0 ==> m == BYTE_MAX
        invariant x > 0 ==> OnEdge(wx, wy) && heightfield[wx, wy] == m
      {
        if heightfield[x, 0] <= m { wx, wy := x, 0; }
        m := Min(m, heightfield[x, 0]);
        if heightfield[x, hfheight - 1] <= m { wx, wy := x, hfheight - 1; }
        m := Min(m, heightfield[x, hfheight - 1]);
        x := x + 1;
      }
      var y := 0;
      while y < hfheight
        invariant 0 <= y <= hfheight
        invariant forall x' :: 0 <= x' < hfwidth ==> m <= heightfield[x', 0] && m <= heightfield[x', hfheight - 1]
        invariant forall y' :: 0 <= y' < y ==> m <= heightfield[0, y'] && m <= heightfield[hfwidth - 1, y']
        invariant OnEdge(wx, wy) && heightfield[wx, wy] == m
      {
        ghost var m0 := m;
        if heightfield[0, y] <= m { wx, wy := 0, y; }
        m := Min(m, heightfield[0, y]);
        if heightfield[hfwidth - 1, y] <= m { wx, wy := hfwidth - 1, y; }
        m := Min(m, heightfield[hfwidth - 1, y]);
        assert m <= m0 && m <= heightfield[0, y] && m <= heightfield[hfwidth - 1, y];
        y := y + 1;
      }
      minEdgeHeight := m;
      forall ex, ey | OnEdge(ex, ey) ensures m <= heightfield[ex, ey] {
        if ex == 0 || ex == hfwidth - 1 {
          assert m <= heightfield[0, ey] && m <= heightfield[hfwidth - 1, ey];
        } else {
          assert m <= heightfield[ex, 0] && m <= heightfield[ex, hfheight - 1];
        }
      }
    }

    /** `setHeightfieldValue`. */
    method SetHeightfieldValue(x: int, y: int, value: Byte)
      requires Valid() && InHeightfield(x, y)
      modifies heightfield
      ensures HeightfieldValue(x, y) == value
      ensures forall x', y' :: InHeightfield(x', y') && (x', y') != (x, y) ==> heightfield[x', y'] == old(heightfield[x', y'])
    {
      heightfield[x, y] := value;
    }

    /**
     * `addHeightfieldValue`: the Java int sum, clamped into a byte; no other
     * vertex changes.
     */
    method AddHeightfieldValue(x: int, y: int, value: Int32)
      requires Valid() && InHeightfield(x, y)
      modifies heightfield
      ensures heightfield[x, y] == ClampByte(Wrap32(old(heightfield[x, y]) + value))
      ensures INT_MIN <= old(heightfield[x, y]) + value <= INT_MAX ==> heightfield[x, y] == ClampByte(old(heightfield[x, y]) + value)
      ensures forall x', y' :: InHeightfield(x', y') && (x', y') != (x, y) ==> heightfield[x', y'] == old(heightfield[x', y'])
    {
      heightfield[x, y] := ClampByte(Wrap32(heightfield[x, y] + value));
    }

    // ---- terrain and shadows ----

    /** `getTerrainValue`: coordinates beyond the grid are clamped. */
    function TerrainValue(x: int, y: int): Byte
      requires Valid()
      reads terrain
    {
      terrain[Min(Max(x, 0), hfwidth - 1), Min(Max(y, 0), hfheight - 1)]
    }

    /** Inside the grid the terrain code is the vertex's own; beyond it the edge repeats outwards. */
    lemma TerrainValueClamps(x: int, y: int)
      requires Valid()
      ensures InHeightfield(x, y) ==> TerrainValue(x, y) == terrain[x, y]
      ensures 0 <= y < hfheight && x < 0 ==> TerrainValue(x, y) == terrain[0, y]
      ensures 0 <= y < hfheight && x >= hfwidth ==> TerrainValue(x, y) == terrain[hfwidth - 1, y]
      ensures 0 <= x < hfwidth && y < 0 ==> TerrainValue(x, y) == terrain[x, 0]
      ensures 0 <= x < hfwidth && y >= hfheight ==> TerrainValue(x, y) == terrain[x, hfheight - 1]
      ensures x < 0 && y < 0 ==> TerrainValue(x, y) == terrain[0, 0]
    {
    }

    /** `setTerrainValue`. */
    method SetTerrainValue(x: int, y: int, value: Byte)
      requires Valid() && InHeightfield(x, y)
      modifies terrain
      ensures TerrainValue(x, y) == value
      ensures forall x', y' :: InHeightfield(x', y') && (x', y') != (x, y) ==> terrain[x', y'] == old(terrain[x', y'])
    {
      terrain[x, y] := value;
    }

    /** `fillTerrain`: every vertex takes the terrain's code, narrowed to a byte. */
    method FillTerrain(code: int)
      requires Valid()
      modifies terrain
      ensures forall x, y :: InHeightfield(x, y) ==> TerrainValue(x, y) == ToByte(code)
    {
      Fill(terrain, ToByte(code));
    }

    /** `getShadowValue`: the shadow height above the terrain, 0 beyond the grid. */
    function ShadowValue(x: int, y: int): (v: int)
      requires Valid()
      reads shadows
      ensures 0 <= v <= 255
      ensures !InHeightfield(x, y) ==> v == 0
    {
      if x < 0 || y < 0 || x >= hfwidth || y >= hfheight then 0 else shadows[x, y] + 128
    }

    /** `setShadowValue`: a height is kept modulo 256, so 0..255 reads back unchanged. */
    method SetShadowValue(x: int, y: int, value: Int32)
      requires Valid() && InHeightfield(x, y)
      modifies shadows
      ensures ShadowValue(x, y) == value % 256
      ensures 0 <= value <= 255 ==> ShadowValue(x, y) == value
      ensures forall x', y' :: InHeightfield(x', y') && (x', y') != (x, y) ==> shadows[x', y'] == old(shadows[x', y'])
    {
      shadows[x, y] := ToByte(value - 128);
      ShadowByte(value);
    }

    /** `fillShadows`. */
    method FillShadows(value: Int32)
      requires Valid()
      modifies shadows
      ensures forall x, y :: InHeightfield(x, y) ==> ShadowValue(x, y) == value % 256
    {
      Fill(shadows, ToByte(value - 128));
      ShadowByte(value);
    }

    // ---- the terrain class of a tile ----

    /** Some vertex of tile (tx, ty), edges included, lies below the water less `level`. */
    ghost predicate UnderWater(tx: int, ty: int, level: int)
      requires Valid()
      reads this, heightfield
    {
      exists x, y :: 4 * tx <= x <= 4 * tx + 4 && 4 * ty <= y <= 4 * ty + 4 &&
        HeightfieldValue(x, y) < waterLevel - level
    }

    /** Some vertex is more than 16 units from its right, lower or diagonal neighbour. */
    predicate SteepVertex(x: int, y: int)
      requires Valid()
      reads this, heightfield
    {
      var ll := HeightfieldValue(x, y);
      Abs(HeightfieldValue(x, y + 1) - ll) > MAX_OCCUPIABLE_HEIGHT_DELTA ||
      Abs(HeightfieldValue(x + 1, y + 1) - ll) > MAX_OCCUPIABLE_HEIGHT_DELTA ||
      Abs(HeightfieldValue(x + 1, y) - ll) > MAX_OCCUPIABLE_HEIGHT_DELTA
    }

    /** Some vertex of tile (tx, ty), right and bottom edges excluded, is steep. */
    ghost predicate Steep(tx: int, ty: int)
      requires Valid()
      reads this, heightfield
    {
      exists x, y :: 4 * tx <= x < 4 * tx + 4 && 4 * ty <= y < 4 * ty + 4 && SteepVertex(x, y)
    }

    /** The state the terrain alone gives a tile: deep water is impassable, steep ground rough. */
    ghost function BaseState(x: int, y: int): Byte
      requires Valid()
      reads this, heightfield
    {
      if UnderWater(x, y, MAX_OCCUPIABLE_WATER_LEVEL) then O_IMPASS
      else if Steep(x, y) then O_ROUGH
      else O_FLAT
    }

    /** Deeper water covers a subset of what shallower water covers. */
    lemma DeepWaterIsWater(tx: int, ty: int, deep: int, shallow: int)
      requires Valid() && shallow <= deep
      ensures UnderWater(tx, ty, deep) ==> UnderWater(tx, ty, shallow)
    {
      if UnderWater(tx, ty, deep) {
        var x, y :| 4 * tx <= x <= 4 * tx + 4 && 4 * ty <= y <= 4 * ty + 4 &&
          HeightfieldValue(x, y) < waterLevel - deep;
        assert HeightfieldValue(x, y) < waterLevel - shallow;
      }
    }

    /** `isUnderWater(tx, ty, level)`. */
    method IsUnderWaterLevel(tx: int, ty: int, level: Byte) returns (r: bool)
      requires Valid()
      ensures r <==> UnderWater(tx, ty, level)
    {
      var y := 4 * ty;
      while y <= 4 * ty + 4
        invariant 4 * ty <= y <= 4 * ty + 5
        invariant forall x', y' :: 4 * tx <= x' <= 4 * tx + 4 && 4 * ty <= y' < y ==>
          HeightfieldValue(x', y') >= waterLevel - level
      {
        var x := 4 * tx;
        while x <= 4 * tx + 4
          invariant 4 * tx <= x <= 4 * tx + 5
          invariant forall x' :: 4 * tx <= x' < x ==> HeightfieldValue(x', y) >= waterLevel - level
        {
          if HeightfieldValue(x, y) < waterLevel - level {
            return true;
          }
          x := x + 1;
        }
        y := y + 1;
      }
      return false;
    }

    /** `isUnderWater(tx, ty)`: under any water at all. */
    method IsUnderWater(tx: int, ty: int) returns (r: bool)
      requires Valid()
      ensures r <==> UnderWater(tx, ty, 0)
    {
      r := IsUnderWaterLevel(tx, ty, 0);
    }

    /** `isUnderDeepWater`: under more water than a piece can stand in. */
    method IsUnderDeepWater(tx: int, ty: int) returns (r: bool)
      requires Valid()
      ensures r <==> UnderWater(tx, ty, MAX_OCCUPIABLE_WATER_LEVEL)
    {
      r := IsUnderWaterLevel(tx, ty, MAX_OCCUPIABLE_WATER_LEVEL);
    }

    /** `exceedsMaxHeightDelta`. */
    method ExceedsMaxHeightDelta(tx: int, ty: int) returns (r: bool)
      requires Valid()
      ensures r <==> Steep(tx, ty)
    {
      var y := 4 * ty;
      while y < 4 * ty + 4
        invariant 4 * ty <= y <= 4 * ty + 4
        invariant forall x', y' :: 4 * tx <= x' < 4 * tx + 4 && 4 * ty <= y' < y ==> !SteepVertex(x', y')
      {
        var x := 4 * tx;
        while x < 4 * tx + 4
          invariant 4 * tx <= x <= 4 * tx + 4
          invariant forall x' :: 4 * tx <= x' < x ==> !SteepVertex(x', y)
        {
          var ll := HeightfieldValue(x, y);
          var d1 := HeightfieldValue(x, y + 1) - ll;
          var d2 := HeightfieldValue(x + 1, y + 1) - ll;
          var d3 := HeightfieldValue(x + 1, y) - ll;
          if Abs(d1) > MAX_OCCUPIABLE_HEIGHT_DELTA || Abs(d2) > MAX_OCCUPIABLE_HEIGHT_DELTA
            || Abs(d3) > MAX_OCCUPIABLE_HEIGHT_DELTA {
            assert SteepVertex(x, y);
            return true;
          }
          x := x + 1;
        }
        y := y + 1;
      }
      return false;
    }

    // ---- occupancy ----

    /** `isGroundOccupiable(x, y, rough)`. */
    predicate IsGroundOccupiable(x: int, y: int, rough: bool): (r: bool)
      requires Valid()
      reads btstate
      ensures r ==> OnBoard(x, y) && (btstate[x, y] == O_FLAT || btstate[x, y] == O_ROUGH)
    {
      Contains(playarea, x, y) && (btstate[x, y] == O_FLAT || (rough && btstate[x, y] == O_ROUGH))
    }

    /** `canOccupy`: flyers and trains go anywhere in the play area, ground pieces by `GroundPasses`. */
    predicate CanOccupy(piece: Piece, x: int, y: int): (r: bool)
      requires Valid()
      reads tstate, btstate
      ensures r ==> OnBoard(x, y)
      ensures IsOccupiable(x, y) ==> r
    {
      Contains(playarea, x, y) &&
      (piece.flyer || piece.kind.Train? || GroundPasses(piece, tstate[x, y], btstate[x, y]))
    }

    /** `isOccupiable`: in the play area and free. */
    predicate IsOccupiable(x: int, y: int): (r: bool)
      requires Valid()
      reads tstate
      ensures r ==> OnBoard(x, y) && tstate[x, y] == O_FLAT
    {
      Contains(playarea, x, y) && tstate[x, y] == O_FLAT
    }

    /** `isUnderProp`. */
    predicate IsUnderProp(x: int, y: int): (r: bool)
      requires Valid()
      reads tstate
      ensures r ==> OnBoard(x, y) && !IsOccupiable(x, y)
    {
      Contains(playarea, x, y) && tstate[x, y] == O_PROP
    }

    /**
     * How the occupancy questions relate: nothing outside the play area may
     * be entered; a free tile admits every piece; flyers and trains enter
     * every tile of the play area; a tile under a prop is never free and
     * admits a ground piece of a real player only if it is a flyer or train.
     */
    lemma OccupancyRelations(piece: Piece, x: int, y: int)
      requires Valid()
      ensures !Contains(playarea, x, y) ==>
        !CanOccupy(piece, x, y) && !IsOccupiable(x, y) && !IsUnderProp(x, y) && !IsGroundOccupiable(x, y, true)
      ensures IsOccupiable(x, y) ==> CanOccupy(piece, x, y)
      ensures (piece.flyer || piece.kind.Train?) ==> (CanOccupy(piece, x, y) <==> Contains(playarea, x, y))
      ensures IsUnderProp(x, y) ==> !IsOccupiable(x, y)
      ensures IsUnderProp(x, y) && piece.owner >= 0 ==> (CanOccupy(piece, x, y) <==> piece.flyer || piece.kind.Train?)
      ensures IsGroundOccupiable(x, y, false) ==> IsGroundOccupiable(x, y, true)
    {
    }

    // ---- shadows ----

    /** The tiles of `b` that are also in the play area. */
    predicate Covered(b: Rect, x: int, y: int)
    {
      Contains(b, x, y) && Contains(playarea, x, y)
    }

    /** One row of a big piece's footprint: every covered tile of row `yy` becomes a prop of height 2. */
    method CoverRow(b: Rect, yy: int)
      requires Valid()
      modifies tstate, btstate, estate
      ensures forall x, y :: OnBoard(x, y) ==>
        tstate[x, y] == (if y == yy && Covered(b, x, y) then O_PROP else old(tstate[x, y])) &&
        btstate[x, y] == (if y == yy && Covered(b, x, y) then O_PROP else old(btstate[x, y])) &&
        estate[x, y] == (if y == yy && Covered(b, x, y) then 2 else old(estate[x, y]))
    {
      var xx := b.x;
      while xx < b.x + b.width
        invariant b.width >= 0 ==> b.x <= xx <= b.x + b.width
        invariant forall x, y :: OnBoard(x, y) ==>
          tstate[x, y] == (if y == yy && x < xx && Covered(b, x, y) then O_PROP else old(tstate[x, y])) &&
          btstate[x, y] == (if y == yy && x < xx && Covered(b, x, y) then O_PROP else old(btstate[x, y])) &&
          estate[x, y] == (if y == yy && x < xx && Covered(b, x, y) then 2 else old(estate[x, y]))
      {
        if Contains(playarea, xx, yy) && Contains(b, xx, yy) {
          tstate[xx, yy] := O_PROP;
          btstate[xx, yy] := O_PROP;
          estate[xx, yy] := 2;
        }
        xx := xx + 1;
      }
    }

    /** `shadowPiece`: casts one piece onto the tile grid. */
    method ShadowPiece(p: Piece)
      requires Valid()
      modifies tstate, btstate, estate
      ensures forall x, y :: OnBoard(x, y) ==>
        tstate[x, y] == ShadowedState(p, playarea, x, y, old(tstate[x, y])) &&
        btstate[x, y] == ShadowedBase(p, playarea, x, y, old(btstate[x, y])) &&
        estate[x, y] == ShadowedElevation(p, playarea, x, y, old(estate[x, y]))
    {
      if p.kind.BigPiece? {
        var b := p.kind.bounds;
        var yy := b.y;
        while yy < b.y + b.height
          invariant b.height >= 0 ==> b.y <= yy <= b.y + b.height
          invariant forall x, y :: OnBoard(x, y) ==>
            tstate[x, y] == (if y < yy && Covered(b, x, y) then O_PROP else old(tstate[x, y])) &&
            btstate[x, y] == (if y < yy && Covered(b, x, y) then O_PROP else old(btstate[x, y])) &&
            estate[x, y] == (if y < yy && Covered(b, x, y) then 2 else old(estate[x, y]))
        {
          CoverRow(b, yy);
          yy := yy + 1;
        }
      } else if !Contains(playarea, p.x, p.y) {
        return;
      } else if p.kind.Track? {
        if Tracks.PreventsGroundOverlap(p.kind.trackType) {
          tstate[p.x, p.y] := O_PROP;
          btstate[p.x, p.y] := O_PROP;
          estate[p.x, p.y] := 2;
        }
      } else if p.kind.Bonus? {
        tstate[p.x, p.y] := O_FLAT;
      } else if p.kind.Train? || p.owner < 0 {
        tstate[p.x, p.y] := O_PROP;
      } else {
        tstate[p.x, p.y] := ToByte(p.owner);
      }
    }

    /** `clearShadow`: the piece's tile goes back to its base state; nothing else changes. */
    method ClearShadow(p: Piece)
      requires Valid() && OnBoard(p.x, p.y)
      modifies tstate
      ensures forall x, y :: OnBoard(x, y) ==>
        tstate[x, y] == (if x == p.x && y == p.y then btstate[x, y] else old(tstate[x, y]))
    {
      tstate[p.x, p.y] := btstate[p.x, p.y];
    }

    /** The first phase of `shadowPieces` for one row: each tile takes its terrain class. */
    method ShadeRow(yy: int)
      requires Valid() && 0 <= yy < height
      modifies tstate, btstate
      ensures forall x, y :: OnBoard(x, y) ==>
        tstate[x, y] == (if y == yy then BaseState(x, y) else old(tstate[x, y])) &&
        btstate[x, y] == (if y == yy then BaseState(x, y) else old(btstate[x, y]))
    {
      var xx := 0;
      while xx < width
        invariant 0 <= xx <= width
        invariant forall x, y {:trigger tstate[x, y]} :: OnBoard(x, y) ==>
          tstate[x, y] == (if y == yy && x < xx then old(BaseState(x, y)) else old(tstate[x, y]))
        invariant forall x, y {:trigger btstate[x, y]} :: OnBoard(x, y) ==>
          btstate[x, y] == (if y == yy && x < xx then old(BaseState(x, y)) else old(btstate[x, y]))
      {
        var tvalue: Byte;
        var deep := IsUnderDeepWater(xx, yy);
        if deep {
          tvalue := O_IMPASS;
        } else {
          var steep := ExceedsMaxHeightDelta(xx, yy);
          tvalue := if steep then O_ROUGH else O_FLAT;
        }
        SetBoth(xx, yy, tvalue);
        xx := xx + 1;
      }
    }

    /** Writes one tile's state into both the tile and the base state. */
    method SetBoth(xx: int, yy: int, v: Byte)
      requires Valid() && OnBoard(xx, yy)
      modifies tstate, btstate
      ensures forall x, y {:trigger tstate[x, y]} :: OnBoard(x, y) ==>
        tstate[x, y] == if x == xx && y == yy then v else old(tstate[x, y])
      ensures forall x, y {:trigger btstate[x, y]} :: OnBoard(x, y) ==>
        btstate[x, y] == if x == xx && y == yy then v else old(btstate[x, y])
    {
      tstate[xx, yy] := v;
      btstate[xx, yy] := v;
    }

    /**
     * `shadowPieces`: every tile first takes the state its terrain gives it,
     * in both the tile and the base state; then the pieces are cast in order.
     */
    method ShadowPieces(pieces: seq<Piece>)
      requires Valid()
      modifies tstate, btstate, estate
      ensures forall x, y :: OnBoard(x, y) ==>
        tstate[x, y] == FoldState(pieces, playarea, x, y, BaseState(x, y)) &&
        btstate[x, y] == FoldBase(pieces, playarea, x, y, BaseState(x, y)) &&
        estate[x, y] == FoldElevation(pieces, playarea, x, y, old(estate[x, y]))
    {
      var yy := 0;
      while yy < height
        invariant 0 <= yy <= height
        invariant forall x, y :: OnBoard(x, y) ==>
          tstate[x, y] == (if y < yy then BaseState(x, y) else old(tstate[x, y])) &&
          btstate[x, y] == (if y < yy then BaseState(x, y) else old(btstate[x, y]))
        invariant forall x, y :: OnBoard(x, y) ==> estate[x, y] == old(estate[x, y])
      {
        ShadeRow(yy);
        yy := yy + 1;
      }
      var i := 0;
      while i < |pieces|
        invariant 0 <= i <= |pieces|
        invariant forall x, y :: OnBoard(x, y) ==>
          tstate[x, y] == FoldState(pieces[..i], playarea, x, y, BaseState(x, y)) &&
          btstate[x, y] == FoldBase(pieces[..i], playarea, x, y, BaseState(x, y)) &&
          estate[x, y] == FoldElevation(pieces[..i], playarea, x, y, old(estate[x, y]))
      {
        ShadowPiece(pieces[i]);
        assert pieces[..i + 1][..i] == pieces[..i];
        i := i + 1;
      }
      assert pieces[..|pieces|] == pieces;
    }

    // ---- the move flood ----

    /** The planning grid's value at a tile is the array's; off the board it is 0. */
    lemma PlanAt(x: int, y: int)
      requires Valid() && Planned()
      ensures OnGrid(plan, (x, y)) <==> OnBoard(x, y)
      ensures At(plan, (x, y)) == if OnBoard(x, y) then pgrid[x, y] else 0
    {
    }

    /** f holds, for every tile, whether `piece` may enter it and what that costs. */
    ghost predicate Fits(piece: Piece, f: Field)
      requires Valid()
      reads tstate, btstate, pterrain
    {
      (forall p: Pos {:trigger Open(f, p)} :: Open(f, p) <==> CanOccupy(piece, p.0, p.1)) &&
      forall p: Pos {:trigger Cost(f, p)} :: OnBoard(p.0, p.1) ==> Cost(f, p) == piece.traversalCost(pterrain[p.0, p.1])
    }

    /** What the move flood of `piece` sees: the tiles it may enter, and what each costs. */
    ghost function MoveField(piece: Piece): (f: Field)
      requires Valid()
      reads tstate, btstate, pterrain
      ensures Fits(piece, f)
    {
      Field(seq(width, (x: int) requires 0 <= x < width reads tstate, btstate =>
              seq(height, (y: int) requires 0 <= y < height reads tstate, btstate => CanOccupy(piece, x, y))),
            seq(width, (x: int) requires 0 <= x < width reads pterrain =>
              seq(height, (y: int) requires 0 <= y < height reads pterrain => piece.traversalCost(pterrain[x, y]))))
    }

    /** Writes one cell of the path grid, keeping its ghost copy in step. */
    method SetPath(xx: int, yy: int, v: Byte)
      requires Valid() && Planned() && OnBoard(xx, yy)
      modifies this`plan, pgrid
      ensures Planned() && plan == Put(old(plan), (xx, yy), v)
    {
      ghost var g := plan;
      PlanAt(xx, yy);
      pgrid[xx, yy] := v;
      plan := Put(plan, (xx, yy), v);
      forall x, y | 0 <= x < width && 0 <= y < height ensures plan[x][y] == pgrid[x, y] {
        assert At(plan, (x, y)) == plan[x][y];
        if (x, y) != (xx, yy) {
          assert At(g, (x, y)) == g[x][y];
        }
      }
    }

    /**
     * `considerMoving`: enters (xx, yy) from the neighbour c when the piece
     * may stand there and arrives with more points than any route found so
     * far. The whole call is one flood step: nothing went down, and every
     * tile it raised is passable, holds at most `remain` and can improve
     * none of its neighbours; the moves gained are exactly the tiles raised.
     */
    method ConsiderMoving(piece: Piece, moves: set<Pos>, xx: int, yy: int, remain: Byte,
                          ghost f: Field, ghost start: int, ghost s: Pos, ghost c: Pos)
      returns (moves': set<Pos>)
      requires Valid() && Fits(piece, f) && CostsFit(piece)
      requires 1 <= remain
      requires Planned() && NonNegative(plan) && Reached(f, start, s, plan)
      requires Adjacent(c, (xx, yy)) && At(plan, c) >= remain
      modifies this`plan, pgrid
      decreases Potential(plan), 0
      ensures Planned() && NonNegative(plan) && Reached(f, start, s, plan)
      ensures Spread(f, old(plan), plan, remain)
      ensures Open(f, (xx, yy)) ==> At(plan, (xx, yy)) >= remain - Cost(f, (xx, yy))
      ensures Gained(moves, moves', old(plan), plan)
      ensures Potential(plan) <= Potential(old(plan)) && At(plan, c) == At(old(plan), c)
    {
      ghost var g := plan;
      var p := (xx, yy);
      if !Contains(playarea, xx, yy) || !CanOccupy(piece, xx, yy) {
        assert !Open(f, p);
        SpreadNothing(f, plan, remain);
        return moves;
      }
      assert Open(f, p) && Cost(f, p) == piece.traversalCost(pterrain[xx, yy]);
      var premain := ToByte(remain - piece.traversalCost(pterrain[xx, yy]));
      assert premain == remain - Cost(f, p);
      var current := pgrid[xx, yy];
      PlanAt(xx, yy);
      if premain <= current {
        SpreadNothing(f, plan, remain);
        return moves;
      }
      SetPath(xx, yy, premain);
      ghost var a := plan;
      PotentialGrowth(g, a, p);
      ReachedRaise(f, start, s, g, c, p, premain);
      assert Gained(moves, moves + {p}, g, a);
      moves' := ExpandNeighbours(piece, moves + {p}, xx, yy, premain, f, start, s);
      GainedChain(moves, moves + {p}, moves', g, a, plan);
      RaiseThenSpread(f, g, plan, p, premain, remain);
      PotentialGrowth(g, plan, p);
      assert Raised(g, plan, c) ==> At(plan, c) <= remain;
    }

    /**
     * The four neighbour calls of `considerMoving` (and of `computeMoves`)
     * from (xx, yy), which holds `remain`: together they are one flood step
     * that leaves (xx, yy) as it was and closed.
     */
    method ExpandNeighbours(piece: Piece, moves: set<Pos>, xx: int, yy: int, remain: Byte,
                            ghost f: Field, ghost start: int, ghost s: Pos)
      returns (moves': set<Pos>)
      requires Valid() && Fits(piece, f) && CostsFit(piece)
      requires 1 <= remain
      requires Planned() && NonNegative(plan) && Reached(f, start, s, plan)
      requires At(plan, (xx, yy)) == remain
      modifies this`plan, pgrid
      decreases Potential(plan), 1
      ensures Planned() && NonNegative(plan) && Reached(f, start, s, plan)
      ensures Spread(f, old(plan), plan, remain)
      ensures At(plan, (xx, yy)) == remain && Closed(f, plan, (xx, yy))
      ensures Gained(moves, moves', old(plan), plan)
    {
      var p := (xx, yy);
      ghost var a0 := plan;
      var m1 := ConsiderMoving(piece, moves, xx + 1, yy, remain, f, start, s, p);
      ghost var a1 := plan;
      var m2 := ConsiderMoving(piece, m1, xx - 1, yy, remain, f, start, s, p);
      ghost var a2 := plan;
      var m3 := ConsiderMoving(piece, m2, xx, yy + 1, remain, f, start, s, p);
      ghost var a3 := plan;
      moves' := ConsiderMoving(piece, m3, xx, yy - 1, remain, f, start, s, p);
      NeighboursClose(f, a0, a1, a2, a3, plan, p, remain, moves, m1, m2, m3, moves');
    }

    // ---- the fire flood ----

    /**
     * `considerFiring`: marks, from (xx, yy), every tile of the play area it
     * reaches within `remain` steps without crossing a tile already marked
     * or a move of the piece. Every attack it adds lies in the play area, on
     * a tile that held 0, within the fire distance of (xx, yy); tiles that
     * held a value keep it.
     */
    method ConsiderFiring(attacks: set<Pos>, xx: int, yy: int, remain: Byte, check: bool)
      returns (attacks': set<Pos>)
      requires Valid() && Planned()
      requires check ==> remain >= 1
      modifies this`plan, pgrid
      decreases Max(remain, 0) + (if check then 0 else 1)
      ensures Planned() && Marked(old(plan), plan)
      ensures NewAttacks(playarea, attacks, attacks', old(plan), xx, yy, if check then remain - 1 else remain)
    {
      ghost var g := plan;
      if !Contains(playarea, xx, yy) {
        return attacks;
      }
      var p := (xx, yy);
      var premain := remain;
      attacks' := attacks;
      if check {
        PlanAt(xx, yy);
        if pgrid[xx, yy] != 0 {
          return attacks;
        }
        attacks' := attacks' + {p};
        premain := ToByte(remain - 1);
        SetPath(xx, yy, ToByte(-1 * premain));
        MarkedPut(g, p, ToByte(-1 * premain));
      }
      ghost var bound := if check then remain - 1 else remain;
      assert premain == bound;
      assert NewAttacks(playarea, attacks, attacks', g, xx, yy, bound);
      if premain > 0 {
        ghost var a0, b0 := plan, attacks';
        attacks' := ConsiderFiring(attacks', xx + 1, yy, premain, true);
        NewAttacksFromNeighbour(playarea, b0, attacks', g, a0, xx, yy, (xx + 1, yy), bound);
        NewAttacksJoin(playarea, attacks, b0, attacks', g, xx, yy, bound);
        MarkedChain(g, a0, plan);

        ghost var a1, b1 := plan, attacks';
        attacks' := ConsiderFiring(attacks', xx - 1, yy, premain, true);
        NewAttacksFromNeighbour(playarea, b1, attacks', g, a1, xx, yy, (xx - 1, yy), bound);
        NewAttacksJoin(playarea, attacks, b1, attacks', g, xx, yy, bound);
        MarkedChain(g, a1, plan);

        ghost var a2, b2 := plan, attacks';
        attacks' := ConsiderFiring(attacks', xx, yy + 1, premain, true);
        NewAttacksFromNeighbour(playarea, b2, attacks', g, a2, xx, yy, (xx, yy + 1), bound);
        NewAttacksJoin(playarea, attacks, b2, attacks', g, xx, yy, bound);
        MarkedChain(g, a2, plan);

        ghost var a3, b3 := plan, attacks';
        attacks' := ConsiderFiring(attacks', xx, yy - 1, premain, true);
        NewAttacksFromNeighbour(playarea, b3, attacks', g, a3, xx, yy, (xx, yy - 1), bound);
        NewAttacksJoin(playarea, attacks, b3, attacks', g, xx, yy, bound);
        MarkedChain(g, a3, plan);
      }
    }

    /** `piece` can walk from its tile to q with the points of its move distance. */
    ghost predicate Reachable(piece: Piece, q: Pos)
      requires Valid()
      reads tstate, btstate, pterrain
    {
      WalksTo(MoveField(piece), MoveBudget(piece), (piece.x, piece.y), q)
    }

    /**
     * `computeMoves`: the moves of `piece` are exactly the free tiles other
     * than its own that it can walk to; when attacks are asked for, each
     * lies in the play area, is neither a move nor the piece's own tile, and
     * is within the fire distance of the piece or of one of its moves.
     */
    method ComputeMoves(piece: Piece, withAttacks: bool) returns (moves: set<Pos>, attacks: set<Pos>)
      requires Valid() && OnBoard(piece.x, piece.y) && CostsFit(piece)
      requires 0 <= piece.moveDistance <= 12
      modifies this`plan, pgrid
      ensures Planned()
      ensures forall q :: q in moves <==>
        q != (piece.x, piece.y) && OnBoard(q.0, q.1) && tstate[q.0, q.1] < 0 && Reachable(piece, q)
      ensures !withAttacks ==> attacks == {}
      ensures forall q :: q in attacks ==>
        Contains(playarea, q.0, q.1) && q !in moves && q != (piece.x, piece.y) &&
        InFireRange(moves, piece.x, piece.y, ToByte(piece.maxFireDistance), q)
    {
      var home := (piece.x, piece.y);
      var found, f := SpreadMoves(piece);
      ghost var P := plan;
      moves := PruneMoves(found);
      attacks := {};
      if withAttacks {
        ghost var Q := plan;
        assert forall q :: q in moves ==> At(Q, q) > 0;
        attacks := FireFromAll(moves, piece.x, piece.y, ToByte(piece.maxFireDistance));
        forall q | q in attacks ensures q !in moves && q != home {
          assert At(Q, q) == 0;
        }
      }
      assert MoveField(piece) == f;
      MovesExact(piece, f, MoveBudget(piece), found, moves);
    }

    /**
     * The first half of `computeMoves`: clears the path grid, gives the
     * piece's tile ten points per step of its move distance plus one, and
     * floods from there. The tiles raised are exactly the tiles other than
     * its own that the piece can walk to; each is on the board and holds a
     * positive count, as does the piece's tile.
     */
    method SpreadMoves(piece: Piece) returns (found: set<Pos>, ghost f: Field)
      requires Valid() && OnBoard(piece.x, piece.y) && CostsFit(piece)
      requires 0 <= piece.moveDistance <= 12
      modifies this`plan, pgrid
      ensures Planned() && f == MoveField(piece)
      ensures forall q :: q in found <==>
        q != (piece.x, piece.y) && WalksTo(f, MoveBudget(piece), (piece.x, piece.y), q)
      ensures forall q :: q in found ==> OnBoard(q.0, q.1) && At(plan, q) > 0
      ensures At(plan, (piece.x, piece.y)) > 0
    {
      var home := (piece.x, piece.y);
      f := MoveField(piece);
      var remain := ToByte(piece.moveDistance * BASE_TRAVERSAL + 1);
      assert remain == MoveBudget(piece);
      ClearPath();
      SetPath(piece.x, piece.y, remain);
      ghost var p0 := plan;
      ReachedStart(f, remain, home, p0);
      found := ExpandNeighbours(piece, {}, piece.x, piece.y, remain, f, remain, home);
      FloodExact(f, p0, plan, remain, home, found);
      OpenIsOnBoard(piece, f, found);
      forall q | q in found ensures At(plan, q) > 0 {
        assert At(plan, q) > At(p0, q);
      }
      assert MoveField(piece) == f;
    }

    /** `Arrays.fill(_pgrid, (byte)0)`. */
    method ClearPath()
      requires Valid()
      modifies this`plan, pgrid
      ensures Planned() && forall q :: At(plan, q) == 0
    {
      Fill(pgrid, 0);
      plan := seq(width, x => seq(height, y => 0));
    }

    lemma OpenIsOnBoard(piece: Piece, f: Field, found: set<Pos>)
      requires Valid() && Fits(piece, f)
      requires forall q :: q in found ==> Open(f, q)
      ensures forall q :: q in found ==> OnBoard(q.0, q.1)
    {
      forall q | q in found ensures OnBoard(q.0, q.1) {
        assert CanOccupy(piece, q.0, q.1);
      }
    }

    /** The flood's tiles, less those holding a piece, are the reachable free tiles. */
    lemma MovesExact(piece: Piece, f: Field, start: int, found: set<Pos>, moves: set<Pos>)
      requires Valid() && f == MoveField(piece) && start == MoveBudget(piece)
      requires forall q :: q in found <==> q != (piece.x, piece.y) && WalksTo(f, start, (piece.x, piece.y), q)
      requires forall q :: q in found ==> OnBoard(q.0, q.1)
      requires forall q :: q in moves <==> q in found && !HoldsPiece(q.0, q.1)
      ensures forall q :: q in moves <==>
        q != (piece.x, piece.y) && OnBoard(q.0, q.1) && tstate[q.0, q.1] < 0 && Reachable(piece, q)
    {
    }

    /** A piece stands on (x, y): its occupancy state is an owner index. */
    predicate HoldsPiece(x: int, y: int)
      requires Valid()
      reads tstate
    {
      OnBoard(x, y) && tstate[x, y] >= 0
    }

    /** The part of `computeMoves` that drops the moves landing on another piece. */
    method PruneMoves(found: set<Pos>) returns (moves: set<Pos>)
      requires Valid() && Planned()
      requires forall q :: q in found ==> OnBoard(q.0, q.1)
      modifies this`plan, pgrid
      ensures Planned()
      ensures forall q :: q in moves <==> q in found && !HoldsPiece(q.0, q.1)
      ensures forall q :: At(plan, q) == if q in found && HoldsPiece(q.0, q.1) then 0 else At(old(plan), q)
    {
      ghost var P := plan;
      moves := found;
      var pending := found;
      while pending != {}
        invariant Planned() && pending <= found
        invariant forall q :: q in moves <==> q in found && (q in pending || !HoldsPiece(q.0, q.1))
        invariant forall q :: At(plan, q) == if q in found && q !in pending && HoldsPiece(q.0, q.1) then 0 else At(P, q)
        decreases |pending|
      {
        var q :| q in pending;
        if HoldsPiece(q.0, q.1) {
          moves := moves - {q};
          SetPath(q.0, q.1, 0);
        }
        pending := pending - {q};
      }
    }

    /** q is within `fire` steps of (x, y) or of one of `moves`. */
    ghost predicate InFireRange(moves: set<Pos>, x: int, y: int, fire: int, q: Pos)
    {
      Distance(x, y, q.0, q.1) <= fire || exists m :: m in moves && Distance(m.0, m.1, q.0, q.1) <= fire
    }

    /**
     * The part of `computeMoves` that fires from the piece's tile and then
     * from every move: only tiles that held 0 become attacks.
     */
    method FireFromAll(moves: set<Pos>, x: int, y: int, fire: Byte) returns (attacks: set<Pos>)
      requires Valid() && Planned()
      modifies this`plan, pgrid
      ensures Planned() && Marked(old(plan), plan)
      ensures forall a :: a in attacks ==>
        Contains(playarea, a.0, a.1) && At(old(plan), a) == 0 && InFireRange(moves, x, y, fire, a)
    {
      ghost var Q := plan;
      attacks := ConsiderFiring({}, x, y, fire, false);
      var pending := moves;
      while pending != {}
        invariant Planned() && Marked(Q, plan) && pending <= moves
        invariant forall a :: a in attacks ==>
          Contains(playarea, a.0, a.1) && At(Q, a) == 0 && InFireRange(moves, x, y, fire, a)
        decreases |pending|
      {
        var m :| m in pending;
        ghost var g, before := plan, attacks;
        attacks := ConsiderFiring(attacks, m.0, m.1, fire, false);
        forall a | a in attacks && a !in before ensures At(Q, a) == 0 && InFireRange(moves, x, y, fire, a) {
          assert At(g, a) == 0;
          assert m in moves && Distance(m.0, m.1, a.0, a.1) <= fire;
        }
        MarkedChain(Q, g, plan);
        pending := pending - {m};
      }
    }

    // ---- attack rings ----

    /**
     * `computeAttacks`: adds every tile of the play area whose distance
     * from (px, py) is at least one, at least `minFire` and at most
     * `maxFire`, and nothing else.
     */
    method ComputeAttacks(minFire: int, maxFire: int, px: int, py: int, attacks: set<Pos>)
      returns (attacks': set<Pos>)
      requires Valid()
      ensures forall q :: q in attacks' <==> (q in attacks ||
        (Contains(playarea, q.0, q.1) && 1 <= Distance(px, py, q.0, q.1) && minFire <= Distance(px, py, q.0, q.1) <= maxFire))
    {
      attacks' := attacks;
      var dd := minFire;
      while dd <= maxFire
        invariant minFire <= dd && (dd <= maxFire + 1 || dd == minFire)
        invariant forall q :: q in attacks' <==> (q in attacks ||
          (Contains(playarea, q.0, q.1) && 1 <= Distance(px, py, q.0, q.1) && minFire <= Distance(px, py, q.0, q.1) < dd))
        decreases maxFire - dd
      {
        attacks' := AddRing(attacks', px, py, dd);
        dd := dd + 1;
      }
    }

    /** One turn of `computeAttacks`' outer loop: the play-area tiles at distance dd. */
    method AddRing(attacks: set<Pos>, px: int, py: int, dd: int) returns (attacks': set<Pos>)
      requires Valid()
      ensures forall q :: q in attacks' <==> (q in attacks ||
        (Contains(playarea, q.0, q.1) && dd >= 1 && Distance(px, py, q.0, q.1) == dd))
    {
      var a := attacks;
      var xx, yy := px, py - dd;
      while yy < py
        invariant px <= xx <= px + Max(dd, 0) && yy == py - dd + (xx - px)
        invariant forall q :: q in a <==> (q in attacks ||
          (Contains(playarea, q.0, q.1) && px <= q.0 < xx && q.1 == py - dd + (q.0 - px)))
        decreases py - yy
      {
        if Contains(playarea, xx, yy) {
          a := a + {(xx, yy)};
        }
        xx, yy := xx + 1, yy + 1;
      }
      ghost var a1 := a;
      xx, yy := px + dd, py;
      while xx > px
        invariant py <= yy <= py + Max(dd, 0) && xx == px + dd - (yy - py)
        invariant forall q :: q in a <==> (q in a1 ||
          (Contains(playarea, q.0, q.1) && py <= q.1 < yy && q.0 == px + dd - (q.1 - py)))
        decreases xx - px
      {
        if Contains(playarea, xx, yy) {
          a := a + {(xx, yy)};
        }
        xx, yy := xx - 1, yy + 1;
      }
      ghost var a2 := a;
      xx, yy := px, py + dd;
      while yy > py
        invariant px - Max(dd, 0) <= xx <= px && yy == py + dd - (px - xx)
        invariant forall q :: q in a <==> (q in a2 ||
          (Contains(playarea, q.0, q.1) && xx < q.0 <= px && q.1 == py + dd - (px - q.0)))
        decreases yy - py
      {
        if Contains(playarea, xx, yy) {
          a := a + {(xx, yy)};
        }
        xx, yy := xx - 1, yy - 1;
      }
      ghost var a3 := a;
      xx, yy := px - dd, py;
      while xx < px
        invariant py - Max(dd, 0) <= yy <= py && xx == px - dd + (py - yy)
        invariant forall q :: q in a <==> (q in a3 ||
          (Contains(playarea, q.0, q.1) && yy < q.1 <= py && q.0 == px - dd + (py - q.1)))
        decreases px - xx
      {
        if Contains(playarea, xx, yy) {
          a := a + {(xx, yy)};
        }
        xx, yy := xx + 1, yy - 1;
      }
      attacks' := a;
      forall q ensures q in attacks' <==> q in attacks || (Contains(playarea, q.0, q.1) && dd >= 1 && Distance(px, py, q.0, q.1) == dd) {
        RingSides(px, py, dd, q);
      }
    }

    // ---- predominant terrain ----

    /** The terrain codes of the vertices x1 <= x < x2 of row y, left to right. */
    ghost function Row(x1: int, x2: int, y: int): seq<Byte>
      requires Valid()
      reads terrain
      decreases x2 - x1
    {
      if x2 <= x1 then [] else Row(x1, x2 - 1, y) + [TerrainValue(x2 - 1, y)]
    }

    /** The terrain codes of the rows y1 <= y < y2, row after row. */
    ghost function Rows(x1: int, x2: int, y1: int, y2: int): seq<Byte>
      requires Valid()
      reads terrain
      decreases y2 - y1
    {
      if y2 <= y1 then [] else Rows(x1, x2, y1, y2 - 1) + Row(x1, x2, y2 - 1)
    }

    /** The codes of the heightfield vertices on and around tile (tx, ty), corners included. */
    ghost function TileSamples(tx: int, ty: int): seq<Byte>
      requires Valid()
      reads terrain
    {
      var x1, y1 := tx * HEIGHTFIELD_SUBDIVISIONS, ty * HEIGHTFIELD_SUBDIVISIONS;
      Rows(x1, x1 + HEIGHTFIELD_SUBDIVISIONS + 1, y1, y1 + HEIGHTFIELD_SUBDIVISIONS + 1)
    }

    /** code occurs under tile (tx, ty) and no code occurs more often. */
    ghost predicate Predominant(tx: int, ty: int, code: int)
      requires Valid()
      reads terrain
    {
      MostCommon(multiset(TileSamples(tx, ty)), code)
    }

    /**
     * The counting half of `computePredominantTerrain`: the `IntIntMap` of
     * occurrence counts is held as a multiset, whose multiplicity of a code
     * is the count the map stores for it.
     */
    method TallyTile(tx: int, ty: int) returns (counts: multiset<Byte>)
      requires Valid()
      ensures counts == multiset(TileSamples(tx, ty))
    {
      counts := multiset{};
      var x1, y1 := tx * HEIGHTFIELD_SUBDIVISIONS, ty * HEIGHTFIELD_SUBDIVISIONS;
      var x2, y2 := x1 + HEIGHTFIELD_SUBDIVISIONS, y1 + HEIGHTFIELD_SUBDIVISIONS;
      var y := y1;
      while y <= y2
        invariant y1 <= y <= y2 + 1 && counts == multiset(Rows(x1, x2 + 1, y1, y))
      {
        counts := TallyRow(counts, x1, x2, y);
        RowsStep(x1, x2 + 1, y1, y);
        y := y + 1;
      }
    }

    /** One more row adds its codes to the count of the rows before it. */
    lemma RowsStep(x1: int, x2: int, y1: int, y: int)
      requires Valid() && y1 <= y
      ensures multiset(Rows(x1, x2, y1, y + 1)) == multiset(Rows(x1, x2, y1, y)) + multiset(Row(x1, x2, y))
    {
    }

    /** One row of the count: every vertex from x1 to x2 adds one to its code. */
    method TallyRow(counts: multiset<Byte>, x1: int, x2: int, y: int) returns (counts': multiset<Byte>)
      requires Valid() && x1 <= x2
      ensures counts' == counts + multiset(Row(x1, x2 + 1, y))
    {
      counts' := counts;
      var x := x1;
      while x <= x2
        invariant x1 <= x <= x2 + 1 && counts' == counts + multiset(Row(x1, x, y))
      {
        var v := TerrainValue(x, y);
        counts' := counts' + multiset{v};
        x := x + 1;
      }
    }

    /** The last vertex of the tile is among its samples, so a tile has at least one. */
    lemma SampledLast(tx: int, ty: int)
      requires Valid()
      ensures TerrainValue(tx * HEIGHTFIELD_SUBDIVISIONS + HEIGHTFIELD_SUBDIVISIONS, ty * HEIGHTFIELD_SUBDIVISIONS + HEIGHTFIELD_SUBDIVISIONS) in multiset(TileSamples(tx, ty))
    {
      var x1, y1 := tx * HEIGHTFIELD_SUBDIVISIONS, ty * HEIGHTFIELD_SUBDIVISIONS;
      var x2, y2 := x1 + HEIGHTFIELD_SUBDIVISIONS, y1 + HEIGHTFIELD_SUBDIVISIONS;
      assert Row(x1, x2 + 1, y2) == Row(x1, x2, y2) + [TerrainValue(x2, y2)];
      assert TileSamples(tx, ty) == Rows(x1, x2 + 1, y1, y2) + Row(x1, x2 + 1, y2);
    }

    /**
     * `computePredominantTerrain`: counts the codes of the vertices under
     * the tile and returns one that no other code outnumbers. Which of
     * several equally frequent codes wins depends on the order in which the
     * counts are visited, which is left open here.
     */
    method ComputePredominantTerrain(tx: int, ty: int) returns (code: Byte)
      requires Valid()
      ensures Predominant(tx, ty, code)
    {
      var counts := TallyTile(tx, ty);
      var maxCount, maxCode := 0, 0;
      var keys := set c | c in counts;
      while keys != {}
        invariant forall c :: c in counts && c !in keys ==> counts[c] <= maxCount
        invariant maxCount == 0 || (maxCode in counts && counts[maxCode] == maxCount)
        decreases |keys|
      {
        var k :| k in keys;
        if counts[k] > maxCount {
          maxCode, maxCount := k, counts[k];
        }
        keys := keys - {k};
      }
      SampledLast(tx, ty);
      code := ToByte(maxCode);
    }

    /**
     * `updatePredominantTerrain(x, y, width, height)`: every tile of the
     * rectangle gets a predominant code of the vertices under it; the other
     * tiles keep theirs.
     */
    method UpdatePredominantTerrainIn(x: int, y: int, w: int, h: int)
      requires Valid() && 0 <= x && 0 <= y && x + w <= width && y + h <= height
      modifies pterrain
      ensures forall tx, ty :: x <= tx < x + w && y <= ty < y + h ==> Predominant(tx, ty, pterrain[tx, ty])
      ensures forall tx, ty :: OnBoard(tx, ty) && !(x <= tx < x + w && y <= ty < y + h) ==>
        pterrain[tx, ty] == old(pterrain[tx, ty])
    {
      var ty := y;
      while ty < y + h
        invariant y <= ty <= Max(y, y + h)
        invariant forall i, j :: x <= i < x + w && y <= j < ty ==> Predominant(i, j, pterrain[i, j])
        invariant forall i, j :: OnBoard(i, j) && !(x <= i < x + w && y <= j < ty) ==> pterrain[i, j] == old(pterrain[i, j])
      {
        UpdatePredominantRow(x, w, ty);
        ty := ty + 1;
      }
    }

    /** One turn of the outer loop of `updatePredominantTerrain`: tiles x <= tx < x + w of row ty. */
    method UpdatePredominantRow(x: int, w: int, ty: int)
      requires Valid() && 0 <= x && x + w <= width && 0 <= ty < height
      modifies pterrain
      ensures forall i :: x <= i < x + w ==> Predominant(i, ty, pterrain[i, ty])
      ensures forall i, j :: OnBoard(i, j) && !(x <= i < x + w && j == ty) ==> pterrain[i, j] == old(pterrain[i, j])
    {
      var tx := x;
      ghost var codes: seq<Byte> := [];
      while tx < x + w
        invariant x <= tx <= Max(x, x + w) && |codes| == tx - x
        invariant forall i {:trigger pterrain[i, ty]} :: x <= i < tx ==> pterrain[i, ty] == codes[i - x] && old(Predominant(i, ty, codes[i - x]))
        invariant forall i, j {:trigger pterrain[i, j]} :: OnBoard(i, j) && !(x <= i < tx && j == ty) ==> pterrain[i, j] == old(pterrain[i, j])
      {
        var code := ComputePredominantTerrain(tx, ty);
        assert old(Predominant(tx, ty, code));
        pterrain[tx, ty] := code;
        codes := codes + [code];
        tx := tx + 1;
      }
    }

    /** `updatePredominantTerrain()`: the whole board. */
    method UpdatePredominantTerrain()
      requires Valid()
      modifies pterrain
      ensures forall tx, ty :: OnBoard(tx, ty) ==> Predominant(tx, ty, pterrain[tx, ty])
    {
      UpdatePredominantTerrainIn(0, 0, width, height);
    }

    // ---- elevation ----

    /** `getHeightfieldElevation`: the height of the vertex at the centre of the tile. */
    function HeightfieldElevation(x: int, y: int): (v: Byte)
      requires Valid()
      reads this, heightfield
      ensures OnBoard(x, y) ==> v == heightfield[4 * x + 2, 4 * y + 2]
    {
      HeightfieldValue(x * HEIGHTFIELD_SUBDIVISIONS + HEIGHTFIELD_SUBDIVISIONS / 2,
                       y * HEIGHTFIELD_SUBDIVISIONS + HEIGHTFIELD_SUBDIVISIONS / 2)
    }

    /** `getPieceElevation`: whole tiles of piece height in elevation units, 0 off the board. */
    function PieceElevation(x: int, y: int): (e: int)
      requires Valid()
      reads estate
      ensures e % ELEVATION_UNITS_PER_TILE == 0
      ensures OnBoard(x, y) ==> e / ELEVATION_UNITS_PER_TILE == estate[x, y]
      ensures !OnBoard(x, y) ==> e == 0
    {
      if x < 0 || y < 0 || x >= width || y >= height then 0 else estate[x, y] * ELEVATION_UNITS_PER_TILE
    }

    /** `getElevation`. */
    function Elevation(x: int, y: int): (e: int)
      requires Valid()
      reads this, heightfield, estate
      ensures OnBoard(x, y) ==> e == heightfield[4 * x + 2, 4 * y + 2] + estate[x, y] * ELEVATION_UNITS_PER_TILE
      ensures !OnBoard(x, y) ==> e == HeightfieldElevation(x, y)
    {
      HeightfieldElevation(x, y) + PieceElevation(x, y)
    }
  }
}
