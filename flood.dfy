// The value-level side of the board's move and fire floods: snapshots of the
// planning grid, the passable tiles a piece may enter with what entering each
// costs, walks with their remaining budget, and the closure property a
// finished move flood has.

module Flood {
  import opened JavaValues

  /** A tile, as (x, y). */
  type Pos = (int, int)

  /** A snapshot of a per-tile byte array, indexed [x][y]. */
  type Grid = seq<seq<Byte>>

  /** The value recorded at p; tiles off the grid read 0. */
  function At(g: Grid, p: Pos): int
  {
    if 0 <= p.0 < |g| && 0 <= p.1 < |g[p.0]| then g[p.0][p.1] else 0
  }

  predicate OnGrid(g: Grid, p: Pos)
  {
    0 <= p.0 < |g| && 0 <= p.1 < |g[p.0]|
  }

  /** g with the value at p replaced by v. */
  function Put(g: Grid, p: Pos, v: Byte): (h: Grid)
    requires OnGrid(g, p)
    ensures SameShape(g, h) && At(h, p) == v
    ensures forall q :: q != p ==> At(h, q) == At(g, q)
  {
    var row: seq<Byte> := g[p.0][p.1 := v];
    g[p.0 := row]
  }

  ghost predicate NonNegative(g: Grid)
  {
    forall p :: At(g, p) >= 0
  }

  predicate SameShape(g: Grid, h: Grid)
  {
    |g| == |h| && forall i :: 0 <= i < |g| ==> |g[i]| == |h[i]|
  }

  /** No recorded value went down. */
  ghost predicate Grown(g: Grid, h: Grid)
  {
    SameShape(g, h) && forall p :: At(h, p) >= At(g, p)
  }

  /** The tiles a piece may enter and the cost of entering each one. */
  datatype Field = Field(open: seq<seq<bool>>, cost: seq<seq<int>>)

  predicate Open(f: Field, p: Pos)
  {
    0 <= p.0 < |f.open| && 0 <= p.1 < |f.open[p.0]| && f.open[p.0][p.1]
  }

  function Cost(f: Field, p: Pos): int
  {
    if 0 <= p.0 < |f.cost| && 0 <= p.1 < |f.cost[p.0]| then f.cost[p.0][p.1] else 0
  }

  /** Every passable tile costs between 0 and 127 to enter. */
  ghost predicate ByteCosts(f: Field)
  {
    forall p :: Open(f, p) ==> 0 <= Cost(f, p) <= BYTE_MAX
  }

  predicate Adjacent(p: Pos, q: Pos)
  {
    q == (p.0 + 1, p.1) || q == (p.0 - 1, p.1) || q == (p.0, p.1 + 1) || q == (p.0, p.1 - 1)
  }

  /** Entering q from p could not leave more budget than q already records. */
  predicate Covers(f: Field, g: Grid, p: Pos, q: Pos)
  {
    Open(f, q) ==> At(g, q) >= At(g, p) - Cost(f, q)
  }

  /** None of p's four neighbours could be improved from p. */
  predicate Closed(f: Field, g: Grid, p: Pos)
  {
    Covers(f, g, p, (p.0 + 1, p.1)) && Covers(f, g, p, (p.0 - 1, p.1)) &&
    Covers(f, g, p, (p.0, p.1 + 1)) && Covers(f, g, p, (p.0, p.1 - 1))
  }

  /**
   * What one flood step with budget `remain` leaves behind: values only went
   * up, and every tile it raised is passable, holds at most `remain` and is
   * closed.
   */
  ghost predicate Spread(f: Field, g: Grid, h: Grid, remain: int)
  {
    Grown(g, h) &&
    forall p {:trigger Raised(g, h, p)} :: Raised(g, h, p) ==> Open(f, p) && At(h, p) <= remain && Closed(f, h, p)
  }

  /** The value at p differs between g and h. */
  predicate Raised(g: Grid, h: Grid, p: Pos)
  {
    At(h, p) != At(g, p)
  }

  lemma SpreadNothing(f: Field, g: Grid, remain: int)
    ensures Spread(f, g, g, remain)
  {
  }

  /** A closed tile stays closed while its own value stays put and the others grow. */
  lemma ClosedPersists(f: Field, g: Grid, h: Grid, p: Pos)
    requires Grown(g, h) && At(h, p) == At(g, p) && Closed(f, g, p)
    ensures Closed(f, h, p)
  {
    assert At(h, (p.0 + 1, p.1)) >= At(g, (p.0 + 1, p.1));
    assert At(h, (p.0 - 1, p.1)) >= At(g, (p.0 - 1, p.1));
    assert At(h, (p.0, p.1 + 1)) >= At(g, (p.0, p.1 + 1));
    assert At(h, (p.0, p.1 - 1)) >= At(g, (p.0, p.1 - 1));
  }

  /** Two flood steps with the same budget make one. */
  lemma SpreadChain(f: Field, g: Grid, h: Grid, k: Grid, remain: int)
    requires Spread(f, g, h, remain) && Spread(f, h, k, remain)
    ensures Spread(f, g, k, remain)
  {
    forall p | Raised(g, k, p)
      ensures Open(f, p) && At(k, p) <= remain && Closed(f, k, p)
    {
      if !Raised(h, k, p) {
        assert Raised(g, h, p);
        ClosedPersists(f, h, k, p);
      }
    }
  }

  /**
   * The neighbour step of considerMoving: after raising p to `premain` (more
   * than it held, and no more than the caller's `remain`), four flood steps
   * with budget `premain` from its neighbours leave p closed, so the whole
   * call is a flood step with budget `remain`.
   */
  lemma RaiseThenSpread(f: Field, g: Grid, h: Grid, p: Pos, premain: Byte, remain: int)
    requires OnGrid(g, p) && At(g, p) < premain <= remain && Open(f, p)
    requires Spread(f, Put(g, p, premain), h, premain) && At(h, p) == premain && Closed(f, h, p)
    ensures Spread(f, g, h, remain)
  {
    var a := Put(g, p, premain);
    forall q | Raised(g, h, q)
      ensures Open(f, q) && At(h, q) <= remain && Closed(f, h, q)
    {
      if q != p {
        assert Raised(a, h, q);
      }
    }
  }

  /**
   * The four neighbour calls together: each is a flood step with budget
   * `remain` and leaves its neighbour at least `remain` less its cost, so p,
   * holding `remain`, ends closed and unchanged.
   */
  lemma NeighboursClose(f: Field, g0: Grid, g1: Grid, g2: Grid, g3: Grid, g4: Grid, p: Pos, remain: int,
                        m0: set<Pos>, m1: set<Pos>, m2: set<Pos>, m3: set<Pos>, m4: set<Pos>)
    requires At(g0, p) == remain
    requires Spread(f, g0, g1, remain) && Spread(f, g1, g2, remain)
    requires Spread(f, g2, g3, remain) && Spread(f, g3, g4, remain)
    requires Open(f, (p.0 + 1, p.1)) ==> At(g1, (p.0 + 1, p.1)) >= remain - Cost(f, (p.0 + 1, p.1))
    requires Open(f, (p.0 - 1, p.1)) ==> At(g2, (p.0 - 1, p.1)) >= remain - Cost(f, (p.0 - 1, p.1))
    requires Open(f, (p.0, p.1 + 1)) ==> At(g3, (p.0, p.1 + 1)) >= remain - Cost(f, (p.0, p.1 + 1))
    requires Open(f, (p.0, p.1 - 1)) ==> At(g4, (p.0, p.1 - 1)) >= remain - Cost(f, (p.0, p.1 - 1))
    requires Gained(m0, m1, g0, g1) && Gained(m1, m2, g1, g2) && Gained(m2, m3, g2, g3) && Gained(m3, m4, g3, g4)
    ensures Spread(f, g0, g4, remain)
    ensures At(g4, p) == remain && Closed(f, g4, p)
    ensures Gained(m0, m4, g0, g4)
  {
    SpreadChain(f, g0, g1, g2, remain);
    SpreadChain(f, g0, g2, g3, remain);
    SpreadChain(f, g0, g3, g4, remain);
    GainedChain(m0, m1, m2, g0, g1, g2);
    GainedChain(m0, m2, m3, g0, g2, g3);
    GainedChain(m0, m3, m4, g0, g3, g4);
    assert Raised(g0, g4, p) ==> At(g4, p) <= remain;
    assert At(g4, (p.0 + 1, p.1)) >= At(g1, (p.0 + 1, p.1));
    assert At(g4, (p.0 - 1, p.1)) >= At(g2, (p.0 - 1, p.1));
    assert At(g4, (p.0, p.1 + 1)) >= At(g3, (p.0, p.1 + 1));
  }

  // ---- potential: the measure that makes the move flood terminate ----

  function RowPotential(r: seq<Byte>): nat
  {
    if r == [] then 0 else RowPotential(r[..|r| - 1]) + (BYTE_MAX - r[|r| - 1])
  }

  /** The sum over all tiles of how far each is below 127. */
  function Potential(g: Grid): nat
  {
    if g == [] then 0 else Potential(g[..|g| - 1]) + RowPotential(g[|g| - 1])
  }

  lemma {:induction false} RowPotentialGrowth(r: seq<Byte>, s: seq<Byte>, k: int)
    requires |r| == |s| && forall j :: 0 <= j < |r| ==> s[j] >= r[j]
    ensures RowPotential(s) <= RowPotential(r)
    ensures 0 <= k < |r| && s[k] > r[k] ==> RowPotential(s) < RowPotential(r)
  {
    if r != [] {
      RowPotentialGrowth(r[..|r| - 1], s[..|s| - 1], k);
    }
  }

  lemma {:induction false} PotentialGrowth(g: Grid, h: Grid, p: Pos)
    requires Grown(g, h)
    ensures Potential(h) <= Potential(g)
    ensures At(h, p) > At(g, p) ==> Potential(h) < Potential(g)
  {
    if g != [] {
      var n := |g| - 1;
      assert Grown(g[..n], h[..n]) by {
        forall q ensures At(h[..n], q) >= At(g[..n], q) {
          assert At(h, q) >= At(g, q);
        }
      }
      PotentialGrowth(g[..n], h[..n], p);
      forall j | 0 <= j < |g[n]| ensures h[n][j] >= g[n][j] {
        assert At(h, (n, j)) >= At(g, (n, j));
      }
      RowPotentialGrowth(g[n], h[n], p.1);
    }
  }

  // ---- walks: the paths the move flood explores ----

  /** The budget left at the end of `path`, starting from `start` on its first tile. */
  function Budget(f: Field, start: int, path: seq<Pos>): int
  {
    if |path| <= 1 then start else Budget(f, start, path[..|path| - 1]) - Cost(f, path[|path| - 1])
  }

  /**
   * A walk from s on which a piece with `start` points never runs out: every
   * step enters an adjacent passable tile and leaves a positive budget.
   */
  predicate Walk(f: Field, start: int, s: Pos, path: seq<Pos>)
  {
    if |path| <= 1 then
      |path| == 1 && path[0] == s
    else
      Walk(f, start, s, path[..|path| - 1]) && Adjacent(path[|path| - 2], path[|path| - 1]) &&
      Open(f, path[|path| - 1]) && Budget(f, start, path) > 0
  }

  /**
   * A grid that holds at least `start` at s and in which every positive tile
   * is closed records, at the end of every walk from s, at least the budget
   * the walk leaves.
   */
  lemma {:induction false} ClosedGridBoundsWalks(f: Field, g: Grid, start: int, s: Pos, path: seq<Pos>)
    requires start > 0 && At(g, s) >= start
    requires forall p {:trigger Closed(f, g, p)} :: At(g, p) > 0 ==> Closed(f, g, p)
    requires Walk(f, start, s, path)
    ensures At(g, path[|path| - 1]) >= Budget(f, start, path)
  {
    if |path| > 1 {
      var front := path[..|path| - 1];
      ClosedGridBoundsWalks(f, g, start, s, front);
      assert front[|front| - 1] == path[|path| - 2];
      assert Closed(f, g, path[|path| - 2]);
      assert Budget(f, start, front) > 0;
    }
  }

  /** Some walk from s ends at p and leaves at least the value g records there. */
  ghost predicate ReachedAt(f: Field, start: int, s: Pos, g: Grid, p: Pos)
  {
    exists path :: |path| >= 1 && Walk(f, start, s, path) && path[|path| - 1] == p && Budget(f, start, path) >= At(g, p)
  }

  /** Every positive tile of g is reached. */
  ghost predicate Reached(f: Field, start: int, s: Pos, g: Grid)
  {
    forall p {:trigger ReachedAt(f, start, s, g, p)} :: At(g, p) > 0 ==> ReachedAt(f, start, s, g, p)
  }

  /** Only the start tile is positive, and it holds no more than `start`. */
  lemma ReachedStart(f: Field, start: int, s: Pos, g: Grid)
    requires forall p :: p != s ==> At(g, p) <= 0
    requires At(g, s) <= start
    ensures Reached(f, start, s, g)
  {
    forall p | At(g, p) > 0 ensures ReachedAt(f, start, s, g, p) {
      assert Walk(f, start, s, [s]) && Budget(f, start, [s]) == start;
    }
  }

  /**
   * Raising p, a passable neighbour of c, to v keeps every positive tile
   * reached, provided c records at least v plus the cost of entering p.
   */
  lemma ReachedRaise(f: Field, start: int, s: Pos, g: Grid, c: Pos, p: Pos, v: Byte)
    requires Reached(f, start, s, g) && OnGrid(g, p)
    requires Adjacent(c, p) && Open(f, p) && v > 0 && At(g, c) >= v + Cost(f, p) && At(g, c) > 0
    ensures Reached(f, start, s, Put(g, p, v))
  {
    var a := Put(g, p, v);
    forall q | At(a, q) > 0 ensures ReachedAt(f, start, s, a, q) {
      if q == p {
        assert ReachedAt(f, start, s, g, c);
        var pc :| |pc| >= 1 && Walk(f, start, s, pc) && pc[|pc| - 1] == c && Budget(f, start, pc) >= At(g, c);
        var path := pc + [p];
        assert path[..|path| - 1] == pc;
        assert Walk(f, start, s, path);
      } else {
        assert ReachedAt(f, start, s, g, q);
      }
    }
  }

  /** The move set went from m to n by gaining exactly the tiles raised from g to h. */
  ghost predicate Gained(m: set<Pos>, n: set<Pos>, g: Grid, h: Grid)
  {
    forall p :: p in n <==> p in m || At(h, p) > At(g, p)
  }

  lemma GainedChain(m0: set<Pos>, m1: set<Pos>, m2: set<Pos>, g: Grid, h: Grid, k: Grid)
    requires Grown(g, h) && Grown(h, k)
    requires Gained(m0, m1, g, h) && Gained(m1, m2, h, k)
    ensures Gained(m0, m2, g, k)
  {
    forall p ensures p in m2 <==> p in m0 || At(k, p) > At(g, p) {
      assert At(h, p) >= At(g, p) && At(k, p) >= At(h, p);
    }
  }

  // ---- the fire flood ----

  /** considerFiring changes only tiles holding 0, and leaves those at or below 0. */
  ghost predicate Marked(g: Grid, h: Grid)
  {
    SameShape(g, h) &&
    forall p :: (At(g, p) != 0 ==> At(h, p) == At(g, p)) && (At(g, p) == 0 ==> At(h, p) <= 0)
  }

  lemma MarkedChain(g: Grid, h: Grid, k: Grid)
    requires Marked(g, h) && Marked(h, k)
    ensures Marked(g, k)
  {
    forall p ensures (At(g, p) != 0 ==> At(k, p) == At(g, p)) && (At(g, p) == 0 ==> At(k, p) <= 0) {
      assert At(h, p) != 0 ==> At(k, p) == At(h, p);
    }
  }

  lemma MarkedPut(g: Grid, p: Pos, v: Byte)
    requires OnGrid(g, p) && At(g, p) == 0 && v <= 0
    ensures Marked(g, Put(g, p, v))
  {
  }

  /**
   * Completeness of the move flood: when the flood from s, started with
   * `start` points at s and 0 elsewhere, has spread and left s closed, the
   * end of every walk from s other than s itself was raised.
   */
  lemma {:induction false} FloodComplete(f: Field, g0: Grid, h: Grid, start: int, s: Pos, path: seq<Pos>)
    requires start > 0 && At(g0, s) == start && forall p :: p != s ==> At(g0, p) == 0
    requires Spread(f, g0, h, start) && At(h, s) == start && Closed(f, h, s)
    requires Walk(f, start, s, path) && path[|path| - 1] != s
    ensures At(h, path[|path| - 1]) > At(g0, path[|path| - 1])
  {
    forall p {:trigger Closed(f, h, p)} | At(h, p) > 0 ensures Closed(f, h, p) {
      if p != s {
        assert Raised(g0, h, p);
      }
    }
    ClosedGridBoundsWalks(f, h, start, s, path);
  }

  /** Some walk from s on which `start` points never run out ends at q. */
  ghost predicate WalksTo(f: Field, start: int, s: Pos, q: Pos)
  {
    exists path :: |path| >= 1 && Walk(f, start, s, path) && path[|path| - 1] == q
  }

  /**
   * The whole move flood: the tiles it gains are exactly the tiles other
   * than s that some walk from s reaches, and each of them is open.
   */
  lemma FloodExact(f: Field, g0: Grid, h: Grid, start: int, s: Pos, m: set<Pos>)
    requires start > 0 && At(g0, s) == start && forall p :: p != s ==> At(g0, p) == 0
    requires Spread(f, g0, h, start) && At(h, s) == start && Closed(f, h, s)
    requires Reached(f, start, s, h) && Gained({}, m, g0, h)
    ensures forall q :: q in m <==> q != s && WalksTo(f, start, s, q)
    ensures forall q :: q in m ==> Open(f, q)
  {
    forall q ensures q in m <==> q != s && WalksTo(f, start, s, q) {
      if q in m {
        assert At(h, q) > At(g0, q) >= 0;
        assert ReachedAt(f, start, s, h, q);
        var path :| |path| >= 1 && Walk(f, start, s, path) && path[|path| - 1] == q && Budget(f, start, path) >= At(h, q);
      }
      if q != s && WalksTo(f, start, s, q) {
        var path :| |path| >= 1 && Walk(f, start, s, path) && path[|path| - 1] == q;
        FloodComplete(f, g0, h, start, s, path);
      }
    }
    forall q | q in m ensures Open(f, q) {
      assert Raised(g0, h, q);
    }
  }
}
