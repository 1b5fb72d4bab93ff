// The board action scheduler of the board view. Every board action names the
// pieces it affects, the pieces it waits for and possibly a rectangle of the
// board; an action may start only when none of these is held by an action
// that is executing or queued ahead of it. The scheduler's state is the list
// of running actions, the list of waiting actions, a per-piece count of
// executing actions, the list of executing rectangles, and the reservations
// (pending piece ids and rectangles) that new actions are checked against.
// `postRunnable` becomes an explicit list of posted actions whose runnables
// have not yet run; the clock is a parameter.

module BoardActions {
  import opened JavaValues
  import opened AwtRect
  import opened Pieces

  /** A running action older than this many milliseconds is reported as stuck. */
  const STUCK_MILLIS: int := 5000

  /** Which `BoardAction` subclass an action is. */
  datatype Kind =
    | Custom          // any subclass outside this model
    | PieceCreated    // creates a piece sprite
    | PieceUpdated    // updates a piece sprite
    | PieceRemoved    // removes a piece sprite

  /** The listener told when all pending sprites have resolved. */
  class ResolutionObserver {
  }

  class BoardAction {
    /** The time at which this action was started; 0 once reported as stuck. */
    var start: int
    /** The pieces the action affects; it holds them while it runs. */
    const pieceIds: seq<int>
    /** The pieces the action waits for without affecting them. */
    const waiterIds: seq<int>
    /** The pieces that need special move handling. */
    const moveIds: seq<int>
    /** The area of the board the action affects, if any. */
    const bounds: Option<Rect>
    const kind: Kind
    /** The tick of the piece actions. */
    const tick: int

    /** An action of a subclass outside this model, declaring its ids and area. */
    constructor (pieceIds: seq<int>, waiterIds: seq<int>, moveIds: seq<int>, bounds: Option<Rect>)
      ensures this.pieceIds == pieceIds && this.waiterIds == waiterIds && this.moveIds == moveIds
      ensures this.bounds == bounds && kind == Custom && start == 0
    {
      this.pieceIds := pieceIds;
      this.waiterIds := waiterIds;
      this.moveIds := moveIds;
      this.bounds := bounds;
      kind := Custom;
      tick := 0;
      start := 0;
    }

    /** `PieceCreatedAction`: holds the piece and the tile it appears on. */
    constructor Created(piece: Piece, tick: int)
      ensures pieceIds == [piece.pieceId] && waiterIds == [] && moveIds == []
      ensures bounds == Some(Rect(piece.x, piece.y, 1, 1))
      ensures kind == PieceCreated && this.tick == tick && start == 0
    {
      pieceIds := [piece.pieceId];
      waiterIds := [];
      moveIds := [];
      bounds := Some(Rect(piece.x, piece.y, 1, 1));
      kind := PieceCreated;
      this.tick := tick;
      start := 0;
    }

    /** `PieceUpdatedAction`: holds the old piece's id and no area. */
    constructor Updated(opiece: Piece, npiece: Piece, tick: int)
      ensures pieceIds == [opiece.pieceId] && waiterIds == [] && moveIds == []
      ensures bounds == None && kind == PieceUpdated && this.tick == tick && start == 0
    {
      pieceIds := [opiece.pieceId];
      waiterIds := [];
      moveIds := [];
      bounds := None;
      kind := PieceUpdated;
      this.tick := tick;
      start := 0;
    }

    /** `PieceRemovedAction`: holds the piece and the tile it leaves. */
    constructor Removed(piece: Piece, tick: int)
      ensures pieceIds == [piece.pieceId] && waiterIds == [] && moveIds == []
      ensures bounds == Some(Rect(piece.x, piece.y, 1, 1))
      ensures kind == PieceRemoved && this.tick == tick && start == 0
    {
      pieceIds := [piece.pieceId];
      waiterIds := [];
      moveIds := [];
      bounds := Some(Rect(piece.x, piece.y, 1, 1));
      kind := PieceRemoved;
      this.tick := tick;
      start := 0;
    }

    /**
     * `canExecute`: the action may start exactly when none of its
     * affected or awaited pieces is pending and its area meets no pending
     * rectangle.
     */
    method CanExecute(penders: set<int>, boundset: set<Rect>) returns (r: bool)
      ensures r <==> !Blocked(this, penders, boundset)
    {
      var ii := 0;
      while ii < |pieceIds|
        invariant 0 <= ii <= |pieceIds|
        invariant forall j :: 0 <= j < ii ==> pieceIds[j] !in penders
      {
        if pieceIds[ii] in penders {
          var k := pieceIds[ii];
          assert k in pieceIds && k in penders;
          return false;
        }
        ii := ii + 1;
      }
      ii := 0;
      while ii < |waiterIds|
        invariant 0 <= ii <= |waiterIds|
        invariant forall j :: 0 <= j < ii ==> waiterIds[j] !in penders
      {
        if waiterIds[ii] in penders {
          var k := waiterIds[ii];
          assert k in waiterIds && k in penders;
          return false;
        }
        ii := ii + 1;
      }
      if bounds.Some? {
        var rest := boundset;
        while rest != {}
          invariant rest <= boundset
          invariant forall q :: q in boundset && q !in rest ==> !Intersects(q, bounds.value)
          decreases |rest|
        {
          var q :| q in rest;
          if Intersects(q, bounds.value) {
            assert q in boundset;
            return false;
          }
          rest := rest - {q};
        }
      }
      return true;
    }
  }

  // ---- reservations and conflicts ----

  /** The pieces an action reserves: its positive affected ids. */
  ghost function Reserved(a: BoardAction): set<int>
  {
    set k | k in a.pieceIds && k > 0
  }

  /** The rectangle an action reserves, as a set. */
  ghost function BoundsOf(a: BoardAction): set<Rect>
  {
    if a.bounds.Some? then {a.bounds.value} else {}
  }

  /** Some affected or awaited piece is pending, or the area meets a pending rectangle. */
  ghost predicate Blocked(a: BoardAction, penders: set<int>, boundset: set<Rect>)
  {
    (exists k :: k in a.pieceIds && k in penders) ||
    (exists k :: k in a.waiterIds && k in penders) ||
    (a.bounds.Some? && exists q :: q in boundset && Intersects(q, a.bounds.value))
  }

  /** Blocking by a union is blocking by one of its parts. */
  lemma BlockedUnion(a: BoardAction, p1: set<int>, b1: set<Rect>, p2: set<int>, b2: set<Rect>)
    ensures Blocked(a, p1 + p2, b1 + b2) <==> Blocked(a, p1, b1) || Blocked(a, p2, b2)
  {
  }

  /** Two actions hold no piece and no overlapping area in common. */
  ghost predicate Apart(a: BoardAction, b: BoardAction)
  {
    Reserved(a) !! Reserved(b) &&
    !(a.bounds.Some? && b.bounds.Some? && Intersects(a.bounds.value, b.bounds.value))
  }

  /** No two running actions hold the same piece or overlapping areas. */
  ghost predicate Exclusive(rs: seq<BoardAction>)
  {
    forall i, j :: 0 <= i < j < |rs| ==> Apart(rs[i], rs[j])
  }

  lemma ExclusiveAppend(rs: seq<BoardAction>, a: BoardAction)
    requires Exclusive(rs) && forall r :: r in rs ==> Apart(r, a)
    ensures Exclusive(rs + [a])
  {
    forall i, j | 0 <= i < j < |rs + [a]|
      ensures Apart((rs + [a])[i], (rs + [a])[j])
    {
      assert (rs + [a])[i] == rs[i];
      if j == |rs| {
        assert rs[i] in rs;
      } else {
        assert (rs + [a])[j] == rs[j];
      }
    }
  }

  lemma ExclusiveRemove(rs: seq<BoardAction>, p: int)
    requires Exclusive(rs) && 0 <= p < |rs|
    ensures Exclusive(rs[..p] + rs[p + 1..])
  {
    var t := rs[..p] + rs[p + 1..];
    forall i, j | 0 <= i < j < |t|
      ensures Apart(t[i], t[j])
    {
      var i' := if i < p then i else i + 1;
      var j' := if j < p then j else j + 1;
      assert t[i] == rs[i'] && t[j] == rs[j'];
    }
  }

  // ---- executing counts and rectangles ----

  /** The value `IntIntMap.get`-with-default gives: 0 for an absent key. */
  function Count(m: map<int, int>, k: int): int
  {
    if k in m then m[k] else 0
  }

  /** `noteExecuting`'s counter loop: each positive id's count moves by d. */
  function Bump(m: map<int, int>, ids: seq<int>, d: int): map<int, int>
  {
    if ids == [] then m
    else
      var m' := Bump(m, ids[..|ids| - 1], d);
      var k := ids[|ids| - 1];
      if k > 0 then m'[k := Count(m', k) + d] else m'
  }

  /** Each positive id once per occurrence: what one running action adds to the counts. */
  function PositiveUnits(ids: seq<int>): multiset<int>
  {
    if ids == [] then multiset{}
    else (PositiveUnits(ids[..|ids| - 1]) +
          (if ids[|ids| - 1] > 0 then multiset{ids[|ids| - 1]} else multiset{}))
  }

  lemma {:induction false} PositiveUnitsMeaning(ids: seq<int>, k: int)
    ensures PositiveUnits(ids)[k] == if k > 0 then multiset(ids)[k] else 0
  {
    if ids != [] {
      PositiveUnitsMeaning(ids[..|ids| - 1], k);
      assert ids == ids[..|ids| - 1] + [ids[|ids| - 1]];
    }
  }

  /** Bumping by d moves each positive id's count by d per occurrence; other keys keep theirs. */
  lemma {:induction false} BumpCount(m: map<int, int>, ids: seq<int>, d: int, k: int)
    ensures Count(Bump(m, ids, d), k) == Count(m, k) + d * PositiveUnits(ids)[k]
    ensures k in Bump(m, ids, d) <==> k in m || (k > 0 && k in ids)
  {
    if ids != [] {
      var ids' := ids[..|ids| - 1];
      BumpCount(m, ids', d, k);
      assert ids == ids' + [ids[|ids| - 1]];
      var c := PositiveUnits(ids')[k];
      if ids[|ids| - 1] > 0 && ids[|ids| - 1] == k {
        assert PositiveUnits(ids)[k] == c + 1;
        MulSucc(d, c);
      } else {
        assert PositiveUnits(ids)[k] == c;
      }
    }
  }

  lemma MulSucc(d: int, c: int)
    ensures d * (c + 1) == d * c + d
  {
  }

  /** `ArrayList.indexOf`: the first position of x, or -1. */
  function IndexOf<T(==)>(s: seq<T>, x: T): (i: int)
    ensures -1 <= i < |s|
    ensures 0 <= i ==> s[i] == x && x !in s[..i]
    ensures i < 0 <==> x !in s
  {
    if s == [] then -1
    else if s[0] == x then 0
    else (
      var i := IndexOf(s[1..], x);
      assert s == [s[0]] + s[1..];
      if i < 0 then -1 else i + 1)
  }

  /** `ArrayList.remove(Object)`: drops the first copy of x, if any. */
  function RemoveOne<T(==)>(s: seq<T>, x: T): seq<T>
  {
    var i := IndexOf(s, x);
    if i < 0 then s else s[..i] + s[i + 1..]
  }

  /** Removing one copy takes exactly one x out of the bag, when there is one. */
  lemma RemoveOneBag<T>(s: seq<T>, x: T)
    ensures multiset(RemoveOne(s, x)) == multiset(s) - multiset{x}
  {
    var i := IndexOf(s, x);
    if i >= 0 {
      assert s == s[..i] + [x] + s[i + 1..];
    } else {
      assert multiset(s)[x] == 0;
    }
  }

  function Repeat(x: Rect, n: nat): seq<Rect>
  {
    seq(n, _ => x)
  }

  /** `noteExecuting`'s rectangle loop for a negative delta: n removals in turn. */
  function RemoveCopies(e: seq<Rect>, x: Rect, n: nat): seq<Rect>
  {
    if n == 0 then e else RemoveOne(RemoveCopies(e, x, n - 1), x)
  }

  /** The executing rectangles after `noteExecuting` with delta d. */
  function Shift(e: seq<Rect>, b: Option<Rect>, d: int): seq<Rect>
  {
    if b.None? then e
    else if d > 0 then e + Repeat(b.value, d)
    else RemoveCopies(e, b.value, -d)
  }

  /** Taking one x out of a bag lowers x's count by one, never below zero. */
  lemma TakeOne(b: multiset<Rect>, x: Rect, y: Rect)
    ensures (b - multiset{x})[y] == if y == x then Max(b[x] as int - 1, 0) else b[y]
  {
  }

  lemma {:induction false} RemoveCopiesBag(e: seq<Rect>, x: Rect, n: nat, y: Rect)
    ensures multiset(RemoveCopies(e, x, n))[y] ==
      if y == x then Max(multiset(e)[x] as int - n, 0) else multiset(e)[y]
  {
    if n > 0 {
      var e' := RemoveCopies(e, x, n - 1);
      RemoveCopiesBag(e, x, n - 1, y);
      assert RemoveCopies(e, x, n) == RemoveOne(e', x);
      RemoveOneBag(e', x);
      TakeOne(multiset(e'), x, y);
    }
  }

  /** Shifting by d moves the number of copies of the rectangle by d, never below zero. */
  lemma ShiftBag(e: seq<Rect>, x: Rect, d: int, y: Rect)
    ensures multiset(Shift(e, Some(x), d))[y] ==
      if y == x then Max(multiset(e)[x] + d, 0) else multiset(e)[y]
  {
    if d > 0 {
      assert multiset(Repeat(x, d))[y] == if y == x then d else 0 by {
        RepeatBag(x, d, y);
      }
    } else {
      RemoveCopiesBag(e, x, -d, y);
    }
  }

  lemma {:induction false} RepeatBag(x: Rect, n: nat, y: Rect)
    ensures multiset(Repeat(x, n))[y] == if y == x then n else 0
  {
    if n > 0 {
      assert Repeat(x, n) == Repeat(x, n - 1) + [x];
      RepeatBag(x, n - 1, y);
    }
  }

  /** `noteExecuting(a, +1)` followed by `noteExecuting(a, -1)` restores every count and the bag of rectangles. */
  lemma ExecutingRoundTrip(m: map<int, int>, e: seq<Rect>, ids: seq<int>, b: Option<Rect>)
    ensures forall k :: Count(Bump(Bump(m, ids, 1), ids, -1), k) == Count(m, k)
    ensures multiset(Shift(Shift(e, b, 1), b, -1)) == multiset(e)
  {
    forall k ensures Count(Bump(Bump(m, ids, 1), ids, -1), k) == Count(m, k) {
      BumpCount(m, ids, 1, k);
      BumpCount(Bump(m, ids, 1), ids, -1, k);
    }
    if b.Some? {
      forall y ensures multiset(Shift(Shift(e, b, 1), b, -1))[y] == multiset(e)[y] {
        ShiftBag(e, b.value, 1, y);
        ShiftBag(Shift(e, b, 1), b.value, -1, y);
      }
    }
  }

  /** The reserved rectangles of an action, one per action with an area. */
  ghost function BoundsBag(a: BoardAction): multiset<Rect>
  {
    if a.bounds.Some? then multiset{a.bounds.value} else multiset{}
  }

  /** The counts the running actions account for. */
  ghost function RunningUnits(rs: seq<BoardAction>): multiset<int>
  {
    if rs == [] then multiset{} else RunningUnits(rs[..|rs| - 1]) + PositiveUnits(rs[|rs| - 1].pieceIds)
  }

  /** The rectangles the running actions account for. */
  ghost function RunningBounds(rs: seq<BoardAction>): multiset<Rect>
  {
    if rs == [] then multiset{} else RunningBounds(rs[..|rs| - 1]) + BoundsBag(rs[|rs| - 1])
  }

  lemma {:induction false} UnitsConcat(a: seq<BoardAction>, b: seq<BoardAction>)
    ensures RunningUnits(a + b) == RunningUnits(a) + RunningUnits(b)
  {
    if b == [] {
      assert a + b == a;
    } else {
      var b' := b[..|b| - 1];
      assert (a + b)[..|a + b| - 1] == a + b';
      UnitsConcat(a, b');
    }
  }

  lemma {:induction false} BoundsConcat(a: seq<BoardAction>, b: seq<BoardAction>)
    ensures RunningBounds(a + b) == RunningBounds(a) + RunningBounds(b)
  {
    if b == [] {
      assert a + b == a;
    } else {
      var b' := b[..|b| - 1];
      assert (a + b)[..|a + b| - 1] == a + b';
      BoundsConcat(a, b');
    }
  }

  lemma {:induction false} RunningHas(rs: seq<BoardAction>, r: BoardAction)
    requires r in rs
    ensures PositiveUnits(r.pieceIds) <= RunningUnits(rs)
    ensures BoundsBag(r) <= RunningBounds(rs)
  {
    if rs[|rs| - 1] != r {
      assert rs == rs[..|rs| - 1] + [rs[|rs| - 1]];
      RunningHas(rs[..|rs| - 1], r);
    }
  }

  /** A positive piece id is counted exactly when some running action holds it. */
  lemma {:induction false} RunningUnitsMember(rs: seq<BoardAction>, k: int)
    ensures RunningUnits(rs)[k] > 0 <==> exists r :: r in rs && k in Reserved(r)
  {
    if rs != [] {
      var rs' := rs[..|rs| - 1];
      var last := rs[|rs| - 1];
      RunningUnitsMember(rs', k);
      PositiveUnitsMeaning(last.pieceIds, k);
      assert rs == rs' + [last];
      if RunningUnits(rs)[k] > 0 {
        if RunningUnits(rs')[k] > 0 {
          var r :| r in rs' && k in Reserved(r);
          assert r in rs;
        } else {
          assert k in Reserved(last) && last in rs;
        }
      } else {
        forall r | r in rs
          ensures k !in Reserved(r)
        {
          if r != last {
            assert r in rs';
          }
        }
      }
    }
  }

  /** `_ebounds`-to-`_pbounds`: the distinct rectangles of a list. */
  ghost function BoundsIn(e: seq<Rect>): set<Rect>
  {
    set q | q in e
  }

  /** The pieces whose executing count is positive. */
  ghost function ExecutingIds(m: map<int, int>): set<int>
  {
    set k | k in m && m[k] > 0
  }

  /** Starting one more action adds at most its own pieces to the executing ones. */
  lemma DispatchExecuting(m: map<int, int>, ids: seq<int>)
    ensures ExecutingIds(Bump(m, ids, 1)) <= ExecutingIds(m) + (set k | k in ids && k > 0)
  {
    forall k | k in ExecutingIds(Bump(m, ids, 1))
      ensures k in ExecutingIds(m) || (k in ids && k > 0)
    {
      BumpCount(m, ids, 1, k);
      PositiveUnitsMeaning(ids, k);
    }
  }

  // ---- the scheduler state ----

  /** The scheduler fields of the board view. */
  datatype Sched = Sched(
    ractions: seq<BoardAction>,   // running: dispatched and not yet completed
    pactions: seq<BoardAction>,   // waiting, in submission order
    eunits: map<int, int>,        // per piece, how many running actions affect it
    punits: set<int>,             // reserved pieces
    ebounds: seq<Rect>,           // the rectangles of running actions
    pbounds: set<Rect>,           // reserved rectangles
    posted: seq<BoardAction>)     // dispatched actions whose runnables have not run

  /** The counts are the pieces of the running actions, per occurrence, and only positive ids are keys. */
  ghost predicate Accounts(m: map<int, int>, rs: seq<BoardAction>)
  {
    (forall k :: k in m ==> k > 0) &&
    (forall k :: Count(m, k) == RunningUnits(rs)[k])
  }

  /** The counts and rectangles account for the running actions, which hold nothing in common. */
  ghost predicate Core(s: Sched)
  {
    Accounts(s.eunits, s.ractions) &&
    multiset(s.ebounds) == RunningBounds(s.ractions) &&
    Exclusive(s.ractions)
  }

  /** What runs and what waits is reserved. */
  ghost predicate Covered(s: Sched)
  {
    ExecutingIds(s.eunits) <= s.punits &&
    BoundsIn(s.ebounds) <= s.pbounds &&
    forall a :: a in s.pactions ==> Reserved(a) <= s.punits && BoundsOf(a) <= s.pbounds
  }

  ghost predicate Inv(s: Sched)
  {
    Core(s) && Covered(s)
  }

  /** `notePending`. */
  ghost function Pended(s: Sched, a: BoardAction): Sched
  {
    s.(punits := s.punits + Reserved(a), pbounds := s.pbounds + BoundsOf(a))
  }

  /** `noteExecuting`. */
  ghost function Executing(s: Sched, a: BoardAction, d: int): Sched
  {
    s.(eunits := Bump(s.eunits, a.pieceIds, d), ebounds := Shift(s.ebounds, a.bounds, d))
  }

  /** `processAction`: the action counts as executing, runs and is posted. */
  ghost function Dispatched(s: Sched, a: BoardAction): Sched
  {
    Executing(s, a, 1).(ractions := s.ractions + [a], posted := s.posted + [a])
  }

  /** `executeAction`, without the stuck-action report. */
  ghost function Submitted(s: Sched, a: BoardAction): Sched
  {
    Pended(if Blocked(a, s.punits, s.pbounds) then s.(pactions := s.pactions + [a])
           else Dispatched(s, a), a)
  }

  /** Everything the actions of acts reserve, together. */
  ghost function ReservedAll(acts: seq<BoardAction>): set<int>
  {
    if acts == [] then {} else ReservedAll(acts[..|acts| - 1]) + Reserved(acts[|acts| - 1])
  }

  ghost function BoundsAll(acts: seq<BoardAction>): set<Rect>
  {
    if acts == [] then {} else BoundsAll(acts[..|acts| - 1]) + BoundsOf(acts[|acts| - 1])
  }

  /**
   * Which waiting actions a scan dispatches: each one that nothing executing
   * and no action ahead of it in the queue blocks.
   */
  ghost function Dispatch(acts: seq<BoardAction>, p: set<int>, b: set<Rect>): (go: seq<bool>)
    ensures |go| == |acts|
  {
    seq(|acts|, j requires 0 <= j < |acts| =>
      !Blocked(acts[j], p + ReservedAll(acts[..j]), b + BoundsAll(acts[..j])))
  }

  /** The elements of s whose flag is v, in order. */
  ghost function Pick(s: seq<BoardAction>, f: seq<bool>, v: bool): seq<BoardAction>
    requires |f| == |s|
  {
    if s == [] then []
    else Pick(s[..|s| - 1], f[..|s| - 1], v) + (if f[|s| - 1] == v then [s[|s| - 1]] else [])
  }

  /** `processAction` applied to each action of D in turn, as counts. */
  ghost function BumpAll(m: map<int, int>, d: seq<BoardAction>): map<int, int>
  {
    if d == [] then m else Bump(BumpAll(m, d[..|d| - 1]), d[|d| - 1].pieceIds, 1)
  }

  /** The rectangles of D, in order. */
  ghost function BoundsSeq(d: seq<BoardAction>): seq<Rect>
  {
    if d == [] then []
    else BoundsSeq(d[..|d| - 1]) + Shift([], d[|d| - 1].bounds, 1)
  }

  /** The scan of `processActions`, against the reservations s already holds. */
  ghost function Scanned(s: Sched): Sched
  {
    var go := Dispatch(s.pactions, s.punits, s.pbounds);
    var d := Pick(s.pactions, go, true);
    s.(ractions := s.ractions + d, pactions := Pick(s.pactions, go, false),
       eunits := BumpAll(s.eunits, d), ebounds := s.ebounds + BoundsSeq(d),
       posted := s.posted + d,
       punits := s.punits + ReservedAll(s.pactions), pbounds := s.pbounds + BoundsAll(s.pactions))
  }

  /** `processActions`: reservations rebuilt from what executes, then the scan. */
  ghost function Processed(s: Sched): Sched
  {
    Scanned(s.(punits := ExecutingIds(s.eunits), pbounds := BoundsIn(s.ebounds)))
  }

  /** `actionCompleted`: a second completion changes nothing. */
  ghost function Completed(s: Sched, a: BoardAction): Sched
  {
    if a !in s.ractions then s
    else Processed(Executing(s.(ractions := RemoveOne(s.ractions, a)), a, -1))
  }

  /** Whether the runnable of an action returns leaving it running: only other subclasses wait. */
  predicate Waits(a: BoardAction, executeResult: bool)
  {
    a.kind == Custom && executeResult
  }

  /** The posted runnable of the first posted action runs. */
  ghost function Ran(s: Sched, waits: bool): Sched
    requires s.posted != []
  {
    var s1 := s.(posted := s.posted[1..]);
    if waits then s1 else Completed(s1, s.posted[0])
  }

  /** `noActions`. */
  ghost predicate Idle(s: Sched)
  {
    s.pactions == [] && forall k :: k in s.eunits ==> s.eunits[k] <= 0
  }

  // ---- properties of the scheduler ----

  lemma {:induction false} ReservedAllMember(acts: seq<BoardAction>, a: BoardAction, p: set<int>, b: set<Rect>)
    ensures Blocked(a, p + ReservedAll(acts), b + BoundsAll(acts)) <==>
      Blocked(a, p, b) || exists i :: 0 <= i < |acts| && Blocked(a, Reserved(acts[i]), BoundsOf(acts[i]))
  {
    if acts != [] {
      var acts' := acts[..|acts| - 1];
      var last := acts[|acts| - 1];
      ReservedAllMember(acts', a, p, b);
      BlockedUnion(a, p + ReservedAll(acts'), b + BoundsAll(acts'), Reserved(last), BoundsOf(last));
      assert p + ReservedAll(acts) == (p + ReservedAll(acts')) + Reserved(last);
      assert b + BoundsAll(acts) == (b + BoundsAll(acts')) + BoundsOf(last);
      if exists i :: 0 <= i < |acts| && Blocked(a, Reserved(acts[i]), BoundsOf(acts[i])) {
        var i :| 0 <= i < |acts| && Blocked(a, Reserved(acts[i]), BoundsOf(acts[i]));
        if i < |acts'| {
          assert acts'[i] == acts[i];
        }
      }
      if exists i :: 0 <= i < |acts'| && Blocked(a, Reserved(acts'[i]), BoundsOf(acts'[i])) {
        var i :| 0 <= i < |acts'| && Blocked(a, Reserved(acts'[i]), BoundsOf(acts'[i]));
        assert acts[i] == acts'[i];
      }
    }
  }

  /**
   * The dispatch rule of `processActions`: a waiting action starts exactly
   * when nothing executing blocks it and no action ahead of it in the
   * queue, started or still waiting, holds anything it needs. In
   * particular no action overtakes an earlier one it conflicts with.
   */
  lemma DispatchRule(acts: seq<BoardAction>, p: set<int>, b: set<Rect>, j: int)
    requires 0 <= j < |acts|
    ensures Dispatch(acts, p, b)[j] <==>
      !Blocked(acts[j], p, b) &&
      forall i :: 0 <= i < j ==> !Blocked(acts[j], Reserved(acts[i]), BoundsOf(acts[i]))
  {
    ReservedAllMember(acts[..j], acts[j], p, b);
    assert forall i :: 0 <= i < j ==> acts[..j][i] == acts[i];
  }

  /** The scan splits the queue: every waiting action is dispatched or kept, none lost or doubled. */
  lemma {:induction false} PickPartition(s: seq<BoardAction>, f: seq<bool>)
    requires |f| == |s|
    ensures multiset(Pick(s, f, true)) + multiset(Pick(s, f, false)) == multiset(s)
  {
    if s != [] {
      PickPartition(s[..|s| - 1], f[..|s| - 1]);
      assert s == s[..|s| - 1] + [s[|s| - 1]];
    }
  }

  /** An action that nothing reserved blocks shares nothing with the running actions. */
  lemma ApartFromRunning(s: Sched, a: BoardAction, p: set<int>, b: set<Rect>)
    requires Core(s) && ExecutingIds(s.eunits) <= p && BoundsIn(s.ebounds) <= b
    requires !Blocked(a, p, b)
    ensures forall r :: r in s.ractions ==> Apart(r, a)
  {
    forall r | r in s.ractions
      ensures Apart(r, a)
    {
      RunningHas(s.ractions, r);
      forall k | k in Reserved(r)
        ensures k in ExecutingIds(s.eunits)
      {
        PositiveUnitsMeaning(r.pieceIds, k);
        assert Count(s.eunits, k) == RunningUnits(s.ractions)[k];
      }
      if r.bounds.Some? {
        assert r.bounds.value in multiset(s.ebounds);
        assert r.bounds.value in BoundsIn(s.ebounds);
      }
    }
  }

  /** Counting one more running action's pieces. */
  lemma UnitsStart(m: map<int, int>, rs: seq<BoardAction>, a: BoardAction)
    requires Accounts(m, rs)
    ensures Accounts(Bump(m, a.pieceIds, 1), rs + [a])
  {
    UnitsConcat(rs, [a]);
    assert [a][..0] == [];
    forall k ensures Count(Bump(m, a.pieceIds, 1), k) == RunningUnits(rs + [a])[k] &&
                     (k in Bump(m, a.pieceIds, 1) ==> k > 0) {
      BumpCount(m, a.pieceIds, 1, k);
    }
  }

  /** Recording one more running action's rectangle. */
  lemma BoundsStart(e: seq<Rect>, rs: seq<BoardAction>, a: BoardAction)
    requires multiset(e) == RunningBounds(rs)
    ensures multiset(Shift(e, a.bounds, 1)) == RunningBounds(rs + [a])
  {
    BoundsConcat(rs, [a]);
    assert [a][..0] == [];
    if a.bounds.Some? {
      forall y ensures multiset(Shift(e, a.bounds, 1))[y] == RunningBounds(rs + [a])[y] {
        ShiftBag(e, a.bounds.value, 1, y);
      }
    }
  }

  /** Starting an action that shares nothing with the running ones keeps the accounting. */
  lemma DispatchKeepsCore(s: Sched, a: BoardAction)
    requires Core(s) && forall r :: r in s.ractions ==> Apart(r, a)
    ensures Core(Dispatched(s, a))
  {
    UnitsStart(s.eunits, s.ractions, a);
    BoundsStart(s.ebounds, s.ractions, a);
    ExclusiveAppend(s.ractions, a);
  }

  /** Where `RemoveOne` cuts a list that holds x. */
  lemma RemoveOneSplit<T>(s: seq<T>, x: T)
    requires x in s
    ensures var p := IndexOf(s, x);
      RemoveOne(s, x) == s[..p] + s[p + 1..] && s == (s[..p] + [x]) + s[p + 1..]
  {
    var p := IndexOf(s, x);
    assert s == (s[..p] + [x]) + s[p + 1..];
  }

  /** Taking one running action out removes exactly its pieces from the accounting. */
  lemma RemovedUnits(rs: seq<BoardAction>, a: BoardAction)
    requires a in rs
    ensures RunningUnits(RemoveOne(rs, a)) + PositiveUnits(a.pieceIds) == RunningUnits(rs)
  {
    var p := IndexOf(rs, a);
    var pre, post := rs[..p], rs[p + 1..];
    RemoveOneSplit(rs, a);
    UnitsConcat(pre + [a], post);
    UnitsConcat(pre, [a]);
    UnitsConcat(pre, post);
    assert [a][..0] == [];
    assert RunningUnits([a]) == PositiveUnits(a.pieceIds);
    assert RunningUnits(rs) == RunningUnits(pre) + PositiveUnits(a.pieceIds) + RunningUnits(post);
  }

  /** Taking one running action out removes exactly its rectangle from the accounting. */
  lemma RemovedBounds(rs: seq<BoardAction>, a: BoardAction)
    requires a in rs
    ensures RunningBounds(RemoveOne(rs, a)) + BoundsBag(a) == RunningBounds(rs)
  {
    var p := IndexOf(rs, a);
    var pre, post := rs[..p], rs[p + 1..];
    RemoveOneSplit(rs, a);
    BoundsConcat(pre + [a], post);
    BoundsConcat(pre, [a]);
    BoundsConcat(pre, post);
    assert [a][..0] == [];
    assert RunningBounds([a]) == BoundsBag(a);
    assert RunningBounds(rs) == RunningBounds(pre) + BoundsBag(a) + RunningBounds(post);
  }

  /** Uncounting a completed action's pieces. */
  lemma UnitsStop(m: map<int, int>, rs: seq<BoardAction>, a: BoardAction)
    requires Accounts(m, rs) && a in rs
    ensures Accounts(Bump(m, a.pieceIds, -1), RemoveOne(rs, a))
  {
    RemovedUnits(rs, a);
    forall k ensures Count(Bump(m, a.pieceIds, -1), k) == RunningUnits(RemoveOne(rs, a))[k] &&
                     (k in Bump(m, a.pieceIds, -1) ==> k > 0) {
      BumpCount(m, a.pieceIds, -1, k);
    }
  }

  /** Dropping a completed action's rectangle. */
  lemma BoundsStop(e: seq<Rect>, rs: seq<BoardAction>, a: BoardAction)
    requires multiset(e) == RunningBounds(rs) && a in rs
    ensures multiset(Shift(e, a.bounds, -1)) == RunningBounds(RemoveOne(rs, a))
  {
    RemovedBounds(rs, a);
    if a.bounds.Some? {
      forall y ensures multiset(Shift(e, a.bounds, -1))[y] == RunningBounds(RemoveOne(rs, a))[y] {
        ShiftBag(e, a.bounds.value, -1, y);
      }
    }
  }

  /** Completing a running action keeps the accounting. */
  lemma CompleteKeepsCore(s: Sched, a: BoardAction)
    requires Core(s) && a in s.ractions
    ensures Core(Executing(s.(ractions := RemoveOne(s.ractions, a)), a, -1))
  {
    UnitsStop(s.eunits, s.ractions, a);
    BoundsStop(s.ebounds, s.ractions, a);
    ExclusiveRemove(s.ractions, IndexOf(s.ractions, a));
  }

  /** Completion only lowers counts and drops rectangles, so what it leaves stays reserved. */
  lemma CompleteKeepsCovered(s: Sched, a: BoardAction)
    requires Inv(s) && a in s.ractions
    ensures Covered(Executing(s.(ractions := RemoveOne(s.ractions, a)), a, -1))
  {
    var t := Executing(s.(ractions := RemoveOne(s.ractions, a)), a, -1);
    forall k | k in ExecutingIds(t.eunits)
      ensures k in s.punits
    {
      BumpCount(s.eunits, a.pieceIds, -1, k);
    }
    if a.bounds.Some? {
      forall y | y in t.ebounds
        ensures y in s.pbounds
      {
        ShiftBag(s.ebounds, a.bounds.value, -1, y);
        assert y in multiset(s.ebounds);
      }
    }
  }

  /** `executeAction` keeps the scheduler consistent. */
  lemma SubmitKeepsInv(s: Sched, a: BoardAction)
    requires Inv(s)
    ensures Inv(Submitted(s, a))
  {
    if !Blocked(a, s.punits, s.pbounds) {
      ApartFromRunning(s, a, s.punits, s.pbounds);
      DispatchKeepsCore(s, a);
      DispatchExecuting(s.eunits, a.pieceIds);
      var t := Dispatched(s, a);
      forall y | y in t.ebounds
        ensures y in s.pbounds + BoundsOf(a)
      {
        if a.bounds.Some? {
          ShiftBag(s.ebounds, a.bounds.value, 1, y);
          if y != a.bounds.value {
            assert y in multiset(s.ebounds);
          }
        }
      }
    }
  }

  /**
   * A submitted action that conflicts with one already waiting does not
   * start ahead of it: it joins the end of the queue.
   */
  lemma SubmitNoOvertaking(s: Sched, a: BoardAction, q: BoardAction)
    requires Inv(s) && q in s.pactions && Blocked(a, Reserved(q), BoundsOf(q))
    ensures Submitted(s, a).pactions == s.pactions + [a]
    ensures Submitted(s, a).ractions == s.ractions
  {
    assert Reserved(q) <= s.punits && BoundsOf(q) <= s.pbounds;
    BlockedUnion(a, Reserved(q), BoundsOf(q), s.punits, s.pbounds);
    assert Reserved(q) + s.punits == s.punits && BoundsOf(q) + s.pbounds == s.pbounds;
  }

  /** An action with a piece that completes once is no longer running (so a second completion is ignored). */
  lemma CompletedOnce(s: Sched, a: BoardAction)
    requires Inv(s) && a in s.ractions && a !in s.pactions && Reserved(a) != {}
    ensures a !in Completed(s, a).ractions
  {
    var rs := s.ractions;
    var p := IndexOf(rs, a);
    var rest := rs[..p] + rs[p + 1..];
    forall i | 0 <= i < |rest|
      ensures rest[i] != a
    {
      var i' := if i < p then i else i + 1;
      assert rest[i] == rs[i'];
      if i' < p {
        assert Apart(rs[i'], rs[p]);
      } else {
        assert Apart(rs[p], rs[i']);
      }
    }
    var u := Executing(s.(ractions := rest), a, -1);
    var v := u.(punits := ExecutingIds(u.eunits), pbounds := BoundsIn(u.ebounds));
    var go := Dispatch(v.pactions, v.punits, v.pbounds);
    PickPartition(v.pactions, go);
    assert a !in multiset(v.pactions);
  }

  /**
   * `noActions` under the accounting: nothing waits and every running
   * action holds no piece. Running actions that reserve only an area
   * do not count.
   */
  lemma IdleMeans(s: Sched)
    requires Core(s)
    ensures Idle(s) <==> s.pactions == [] && forall r :: r in s.ractions ==> Reserved(r) == {}
  {
    if s.pactions == [] {
      if Idle(s) {
        forall r | r in s.ractions
          ensures Reserved(r) == {}
        {
          forall k | k in Reserved(r)
            ensures k in s.eunits && s.eunits[k] > 0
          {
            RunningUnitsMember(s.ractions, k);
            assert Count(s.eunits, k) == RunningUnits(s.ractions)[k];
          }
        }
      } else {
        var k :| k in s.eunits && s.eunits[k] > 0;
        RunningUnitsMember(s.ractions, k);
        assert Count(s.eunits, k) == RunningUnits(s.ractions)[k];
      }
    }
  }

  /** A stuck report fires for a started action that has run longer than the limit. */
  predicate Stuck(start: int, now: int)
  {
    start > 0 && now - start > STUCK_MILLIS
  }

  /** The stuck-action check of `executeAction`: a reported action's start becomes 0, so it is reported once. */
  method ReportStuck(rs: seq<BoardAction>, now: int) returns (stuck: seq<BoardAction>)
    modifies rs
    ensures forall r :: r in rs ==> r.start == if Stuck(old(r.start), now) then 0 else old(r.start)
    ensures forall r :: r in stuck <==> r in rs && Stuck(old(r.start), now)
  {
    stuck := [];
    var ii := 0;
    while ii < |rs|
      invariant 0 <= ii <= |rs|
      invariant forall r :: r in rs ==>
        r.start == if r in rs[..ii] && Stuck(old(r.start), now) then 0 else old(r.start)
      invariant forall r :: r in stuck <==> r in rs[..ii] && Stuck(old(r.start), now)
    {
      var running := rs[ii];
      assert rs[..ii + 1] == rs[..ii] + [running];
      if running.start > 0 && now - running.start > STUCK_MILLIS {
        stuck := stuck + [running];
        running.start := 0;
      }
      ii := ii + 1;
    }
    assert rs[..ii] == rs;
  }

  /** A set of ids with no member is empty: what lets a loop pick a key from a non-empty set. */
  lemma NoMembersEmpty(s: set<int>)
    ensures (forall k :: k !in s) ==> s == {}
  {
    if forall k :: k !in s {
      assert s == {};
    }
  }

  // ---- the board view ----

  class BoardView {
    var ractions: seq<BoardAction>
    var pactions: seq<BoardAction>
    var eunits: map<int, int>
    var punits: set<int>
    var ebounds: seq<Rect>
    var pbounds: set<Rect>
    var posted: seq<BoardAction>
    /** How many board elements are still resolving. */
    var resolving: int
    var toLoad: int
    var loaded: int
    /** The observers waiting for resolution to finish. */
    var resolutionObs: seq<ResolutionObserver>

    ghost function State(): Sched
      reads this
    {
      Sched(ractions, pactions, eunits, punits, ebounds, pbounds, posted)
    }

    ghost predicate Valid()
      reads this
    {
      Inv(State())
    }

    /** Nothing resolving means nobody is waiting for resolution. */
    ghost predicate ResolutionConsistent()
      reads this
    {
      resolving >= 0 && (resolving == 0 ==> resolutionObs == [])
    }

    constructor ()
      ensures Valid() && ResolutionConsistent()
      ensures State() == Sched([], [], map[], {}, [], {}, [])
      ensures resolving == 0 && toLoad == 0 && loaded == 0
    {
      ractions, pactions, eunits, punits := [], [], map[], {};
      ebounds, pbounds, posted := [], {}, [];
      resolving, toLoad, loaded, resolutionObs := 0, 0, 0, [];
    }

    /** `notePending`: reserves the action's positive ids and its rectangle. */
    method NotePending(a: BoardAction)
      modifies this`punits, this`pbounds
      ensures State() == Pended(old(State()), a)
    {
      var ii := 0;
      while ii < |a.pieceIds|
        invariant 0 <= ii <= |a.pieceIds|
        invariant punits == old(punits) + (set k | k in a.pieceIds[..ii] && k > 0) && pbounds == old(pbounds)
      {
        if a.pieceIds[ii] > 0 {
          punits := punits + {a.pieceIds[ii]};
        }
        assert a.pieceIds[..ii + 1] == a.pieceIds[..ii] + [a.pieceIds[ii]];
        ii := ii + 1;
      }
      assert a.pieceIds[..ii] == a.pieceIds;
      assert punits == old(punits) + Reserved(a);
      if a.bounds.Some? {
        pbounds := pbounds + {a.bounds.value};
      }
    }

    /** `noteExecuting`: positive ids counted up or down by delta, the rectangle added or removed |delta| times. */
    method NoteExecuting(a: BoardAction, delta: int)
      modifies this`eunits, this`ebounds
      ensures State() == Executing(old(State()), a, delta)
    {
      var ii := 0;
      while ii < |a.pieceIds|
        invariant 0 <= ii <= |a.pieceIds|
        invariant eunits == Bump(old(eunits), a.pieceIds[..ii], delta) && ebounds == old(ebounds)
      {
        var k := a.pieceIds[ii];
        if k > 0 {
          eunits := eunits[k := Count(eunits, k) + delta];
        }
        assert a.pieceIds[..ii + 1][..ii] == a.pieceIds[..ii];
        ii := ii + 1;
      }
      assert a.pieceIds[..ii] == a.pieceIds;
      if a.bounds.Some? {
        var x := a.bounds.value;
        var n := if delta >= 0 then delta else -delta;
        var jj := 0;
        assert Repeat(x, 0) == [];
        while jj < n
          invariant 0 <= jj <= n
          invariant eunits == Bump(old(eunits), a.pieceIds, delta)
          invariant ebounds == if delta > 0 then old(ebounds) + Repeat(x, jj) else RemoveCopies(old(ebounds), x, jj)
        {
          if delta > 0 {
            assert Repeat(x, jj + 1) == Repeat(x, jj) + [x];
            ebounds := ebounds + [x];
          } else {
            ebounds := RemoveOne(ebounds, x);
          }
          jj := jj + 1;
        }
      }
    }

    /** `processAction`: the action counts as executing, joins the running list and is posted. */
    method ProcessAction(a: BoardAction)
      modifies this`eunits, this`ebounds, this`ractions, this`posted
      ensures State() == Dispatched(old(State()), a)
    {
      NoteExecuting(a, 1);
      ractions := ractions + [a];
      posted := posted + [a];
    }

    /** The first half of `processActions`: the reservations become what executes. */
    method RebuildPending()
      modifies this`punits, this`pbounds
      ensures State() == old(State()).(punits := ExecutingIds(eunits), pbounds := BoundsIn(ebounds))
    {
      punits := {};
      var keys := eunits.Keys;
      while keys != {}
        invariant keys <= eunits.Keys
        invariant punits == set k | k in eunits && k !in keys && eunits[k] > 0
        invariant pbounds == old(pbounds)
        decreases |keys|
      {
        NoMembersEmpty(keys);
        var k :| k in keys;
        if eunits[k] > 0 {
          punits := punits + {k};
        }
        keys := keys - {k};
      }
      pbounds := {};
      var ii := 0;
      while ii < |ebounds|
        invariant 0 <= ii <= |ebounds|
        invariant pbounds == BoundsIn(ebounds[..ii]) && punits == ExecutingIds(eunits)
      {
        assert ebounds[..ii + 1] == ebounds[..ii] + [ebounds[ii]];
        pbounds := pbounds + {ebounds[ii]};
        ii := ii + 1;
      }
      assert ebounds[..ii] == ebounds;
    }

    /**
     * The scan of `processActions`: front to back, each waiting action that
     * can execute is dispatched and leaves the queue, the others keep their
     * order, and every scanned action reserves what it holds.
     */
    method ScanPending()
      requires Core(State()) && ExecutingIds(eunits) <= punits && BoundsIn(ebounds) <= pbounds
      modifies this`ractions, this`pactions, this`eunits, this`punits, this`ebounds, this`pbounds, this`posted
      ensures State() == Scanned(old(State())) && Valid()
    {
      ghost var s0 := State();
      ghost var base := s0.(pactions := []);
      ghost var acts := pactions;
      var at := 0;
      ghost var i := 0;
      while at < |pactions|
        invariant 0 <= i <= |acts|
        invariant State() == Spliced(SubmitAll(base, acts[..i]), acts[i..])
        invariant at == |SubmitAll(base, acts[..i]).pactions|
        decreases |acts| - i
      {
        at := ScanOne(base, acts, i, at);
        i := i + 1;
      }
      assert acts[..i] == acts;
      ScanIsSubmitAll(s0);
      SubmitAllKeepsInv(base, acts);
    }

    /** One turn of the scan's iterator: start the action under it and remove it, or step past it. */
    method ScanOne(ghost base: Sched, ghost acts: seq<BoardAction>, ghost i: int, at: int) returns (at': int)
      requires 0 <= i < |acts| && at == |SubmitAll(base, acts[..i]).pactions|
      requires State() == Spliced(SubmitAll(base, acts[..i]), acts[i..])
      modifies this`ractions, this`pactions, this`eunits, this`punits, this`ebounds, this`pbounds, this`posted
      ensures State() == Spliced(SubmitAll(base, acts[..i + 1]), acts[i + 1..])
      ensures at' == |SubmitAll(base, acts[..i + 1]).pactions|
    {
      ScanStep(base, acts, i);
      var action := pactions[at];
      var can := action.CanExecute(punits, pbounds);
      if can {
        pactions := pactions[..at] + pactions[at + 1..];
        ProcessAction(action);
        at' := at;
      } else {
        at' := at + 1;
      }
      NotePending(action);
    }

    /** `processActions`. */
    method ProcessActions()
      requires Core(State())
      modifies this`ractions, this`pactions, this`eunits, this`punits, this`ebounds, this`pbounds, this`posted
      ensures State() == Processed(old(State())) && Valid()
    {
      RebuildPending();
      ScanPending();
    }

    /**
     * `executeAction`: the action starts at once if nothing reserved blocks
     * it and otherwise joins the end of the queue; either way what it holds
     * becomes reserved. Running actions that have run for too long are
     * reported once.
     */
    method ExecuteAction(a: BoardAction, now: int) returns (stuck: seq<BoardAction>)
      modifies this`ractions, this`pactions, this`eunits, this`punits, this`ebounds, this`pbounds, this`posted
      modifies a, ractions
      ensures State() == Submitted(old(State()), a)
      ensures forall r :: r in ractions ==> r.start == if Stuck(old(r.start), now) then 0 else old(r.start)
      ensures forall r :: r in stuck <==> r in ractions && Stuck(old(r.start), now)
      ensures a !in ractions ==> a.start == old(a.start)
    {
      Submit(a);
      stuck := ReportStuck(ractions, now);
    }

    /** The queueing half of `executeAction`. */
    method Submit(a: BoardAction)
      modifies this`ractions, this`pactions, this`eunits, this`punits, this`ebounds, this`pbounds, this`posted
      ensures State() == Submitted(old(State()), a)
    {
      var can := a.CanExecute(punits, pbounds);
      if can {
        ProcessAction(a);
      } else {
        pactions := pactions + [a];
      }
      NotePending(a);
    }

    /**
     * `actionCompleted`: completing an action that is not running changes
     * nothing; otherwise it stops running, its holds are released and the
     * queue is scanned again.
     */
    method ActionCompleted(a: BoardAction) returns (recompleted: bool)
      requires Valid()
      modifies this`ractions, this`pactions, this`eunits, this`punits, this`ebounds, this`pbounds, this`posted
      ensures recompleted <==> a !in old(ractions)
      ensures State() == Completed(old(State()), a) && Valid()
    {
      if IndexOf(ractions, a) < 0 {
        return true;
      }
      CompleteKeepsCore(State(), a);
      ractions := RemoveOne(ractions, a);
      NoteExecuting(a, -1);
      ProcessActions();
      return false;
    }

    /**
     * The runnable `processAction` posts: the action is started at `now`;
     * unless it is a custom action whose `execute` returned true, it is
     * completed straight away.
     */
    method RunPosted(now: int, executeResult: bool) returns (recompleted: bool)
      requires Valid() && posted != []
      modifies this`ractions, this`pactions, this`eunits, this`punits, this`ebounds, this`pbounds, this`posted
      modifies posted[0]
      ensures old(posted)[0].start == now
      ensures State() == Ran(old(State()), Waits(old(posted)[0], executeResult)) && Valid()
      ensures Waits(old(posted)[0], executeResult) ==> !recompleted
    {
      var action := posted[0];
      posted := posted[1..];
      action.start := now;
      if Waits(action, executeResult) {
        return false;
      }
      recompleted := ActionCompleted(action);
    }

    /** `noActions`: nothing waits and no piece has a positive executing count. */
    method NoActions() returns (r: bool)
      ensures r == Idle(State())
    {
      if pactions != [] {
        return false;
      }
      var keys := eunits.Keys;
      while keys != {}
        invariant keys <= eunits.Keys
        invariant forall k :: k in eunits && k !in keys ==> eunits[k] <= 0
        decreases |keys|
      {
        NoMembersEmpty(keys);
        var k :| k in keys;
        if eunits[k] > 0 {
          return false;
        }
        keys := keys - {k};
      }
      return true;
    }

    /** `addResolving`. */
    method AddResolving()
      modifies this`resolving, this`toLoad
      ensures resolving == old(resolving) + 1 && toLoad == old(toLoad) + 1
      ensures old(ResolutionConsistent()) ==> ResolutionConsistent()
    {
      resolving := resolving + 1;
      toLoad := toLoad + 1;
    }

    /**
     * `clearResolving`: when the last element finishes resolving, every
     * waiting observer is handed back to be told, and the list is emptied.
     */
    method ClearResolving() returns (notified: seq<ResolutionObserver>)
      modifies this`resolving, this`loaded, this`resolutionObs
      ensures resolving == old(resolving) - 1 && loaded == old(loaded) + 1
      ensures resolving == 0 ==> notified == old(resolutionObs) && resolutionObs == []
      ensures resolving != 0 ==> notified == [] && resolutionObs == old(resolutionObs)
      ensures old(ResolutionConsistent()) && old(resolving) > 0 ==> ResolutionConsistent()
    {
      resolving := resolving - 1;
      loaded := loaded + 1;
      notified := [];
      if resolving == 0 && |resolutionObs| > 0 {
        notified := resolutionObs;
        resolutionObs := [];
      }
    }

    /** `addResolutionObserver`: told at once when nothing is resolving, otherwise kept until resolution ends. */
    method AddResolutionObserver(obs: ResolutionObserver) returns (notifyNow: bool)
      modifies this`resolutionObs
      ensures notifyNow <==> resolving == 0
      ensures resolutionObs == if notifyNow then old(resolutionObs) else old(resolutionObs) + [obs]
      ensures old(ResolutionConsistent()) ==> ResolutionConsistent()
    {
      if resolving == 0 {
        notifyNow := true;
      } else {
        notifyNow := false;
        resolutionObs := resolutionObs + [obs];
      }
    }
  }

  /** t with the unscanned rest of the queue still behind the kept actions, as during the scan. */
  ghost function Spliced(t: Sched, rest: seq<BoardAction>): Sched
  {
    t.(pactions := t.pactions + rest)
  }

  /** Submitting each action of acts in turn. */
  ghost function SubmitAll(s: Sched, acts: seq<BoardAction>): Sched
  {
    if acts == [] then s else Submitted(SubmitAll(s, acts[..|acts| - 1]), acts[|acts| - 1])
  }

  lemma {:induction false} SubmitAllKeepsInv(s: Sched, acts: seq<BoardAction>)
    requires Inv(s)
    ensures Inv(SubmitAll(s, acts))
  {
    if acts != [] {
      SubmitAllKeepsInv(s, acts[..|acts| - 1]);
      SubmitKeepsInv(SubmitAll(s, acts[..|acts| - 1]), acts[|acts| - 1]);
    }
  }

  lemma DispatchPrefix(acts: seq<BoardAction>, p: set<int>, b: set<Rect>, n: int)
    requires 0 <= n <= |acts|
    ensures Dispatch(acts, p, b)[..n] == Dispatch(acts[..n], p, b)
  {
    assert forall j :: 0 <= j < n ==> acts[..n][..j] == acts[..j];
  }

  /** Submitting a queue action by action reserves everything in it. */
  lemma {:induction false} SubmitAllReserves(s: Sched, acts: seq<BoardAction>)
    ensures SubmitAll(s, acts).punits == s.punits + ReservedAll(acts)
    ensures SubmitAll(s, acts).pbounds == s.pbounds + BoundsAll(acts)
  {
    if acts != [] {
      SubmitAllReserves(s, acts[..|acts| - 1]);
    }
  }

  /** Submitting a queue action by action starts exactly the actions `Dispatch` flags, in order, and keeps the rest. */
  lemma {:induction false} SubmitAllStarts(s: Sched, acts: seq<BoardAction>)
    ensures var t := SubmitAll(s, acts);
      var go := Dispatch(acts, s.punits, s.pbounds);
      t.ractions == s.ractions + Pick(acts, go, true) && t.posted == s.posted + Pick(acts, go, true) &&
      t.pactions == s.pactions + Pick(acts, go, false)
  {
    if acts != [] {
      var n := |acts| - 1;
      var acts', a := acts[..n], acts[n];
      SubmitAllStarts(s, acts');
      SubmitAllReserves(s, acts');
      DispatchPrefix(acts, s.punits, s.pbounds, n);
      var go := Dispatch(acts, s.punits, s.pbounds);
      var u := SubmitAll(s, acts');
      assert go[n] == !Blocked(a, u.punits, u.pbounds);
      var d', k' := Pick(acts', go[..n], true), Pick(acts', go[..n], false);
      if go[n] {
        assert u.ractions + [a] == s.ractions + (d' + [a]);
        assert u.posted + [a] == s.posted + (d' + [a]);
        assert Pick(acts, go, false) == k';
      } else {
        assert u.pactions + [a] == s.pactions + (k' + [a]);
        assert Pick(acts, go, true) == d';
      }
    }
  }

  /** Submitting a queue action by action counts exactly the started actions as executing. */
  lemma {:induction false} SubmitAllCounts(s: Sched, acts: seq<BoardAction>)
    ensures var t := SubmitAll(s, acts);
      var d := Pick(acts, Dispatch(acts, s.punits, s.pbounds), true);
      t.eunits == BumpAll(s.eunits, d) && t.ebounds == s.ebounds + BoundsSeq(d)
  {
    if acts != [] {
      var n := |acts| - 1;
      var acts', a := acts[..n], acts[n];
      SubmitAllCounts(s, acts');
      SubmitAllReserves(s, acts');
      DispatchPrefix(acts, s.punits, s.pbounds, n);
      var go := Dispatch(acts, s.punits, s.pbounds);
      var u := SubmitAll(s, acts');
      assert go[n] == !Blocked(a, u.punits, u.pbounds);
      var d' := Pick(acts', go[..n], true);
      if go[n] {
        assert Pick(acts, go, true) == d' + [a];
        DispatchedStep(d', a, u.ebounds);
        assert u.ebounds + Shift([], a.bounds, 1) == s.ebounds + BoundsSeq(d' + [a]);
      } else {
        assert Pick(acts, go, true) == d';
      }
    }
  }

  /**
   * One step of the scan as written: the iterator's action is the next one
   * of the queue, and removing it when it starts, or stepping past it when
   * it waits, gives the queue submitting one more action leaves.
   */
  lemma ScanStep(base: Sched, acts: seq<BoardAction>, i: int)
    requires 0 <= i < |acts|
    ensures var t := SubmitAll(base, acts[..i]);
      var st := Spliced(t, acts[i..]);
      var a, at := acts[i], |t.pactions|;
      var t' := SubmitAll(base, acts[..i + 1]);
      at < |st.pactions| && st.pactions[at] == a &&
      (!Blocked(a, st.punits, st.pbounds) ==>
        |t'.pactions| == at &&
        Spliced(t', acts[i + 1..]) == Pended(Dispatched(st.(pactions := st.pactions[..at] + st.pactions[at + 1..]), a), a)) &&
      (Blocked(a, st.punits, st.pbounds) ==>
        |t'.pactions| == at + 1 && Spliced(t', acts[i + 1..]) == Pended(st, a))
  {
    var t := SubmitAll(base, acts[..i]);
    var at := |t.pactions|;
    assert acts[..i + 1][..i] == acts[..i];
    assert acts[i..] == [acts[i]] + acts[i + 1..];
    assert (t.pactions + acts[i..])[..at] + (t.pactions + acts[i..])[at + 1..] == t.pactions + acts[i + 1..];
  }

  /** The scan as written, action by action, computes the reference `Scanned`. */
  lemma ScanIsSubmitAll(s: Sched)
    ensures SubmitAll(s.(pactions := []), s.pactions) == Scanned(s)
  {
    var base := s.(pactions := []);
    SubmitAllReserves(base, s.pactions);
    SubmitAllStarts(base, s.pactions);
    SubmitAllCounts(base, s.pactions);
  }

  /** The bookkeeping of one dispatch: counts and rectangles of one more started action. */
  lemma DispatchedStep(d: seq<BoardAction>, a: BoardAction, e: seq<Rect>)
    ensures forall m :: BumpAll(m, d + [a]) == Bump(BumpAll(m, d), a.pieceIds, 1)
    ensures BoundsSeq(d + [a]) == BoundsSeq(d) + Shift([], a.bounds, 1)
    ensures e + Shift([], a.bounds, 1) == Shift(e, a.bounds, 1)
    ensures BoundsIn(Shift(e, a.bounds, 1)) == BoundsIn(e) + BoundsOf(a)
  {
    assert (d + [a])[..|d|] == d;
    if a.bounds.Some? {
      assert Repeat(a.bounds.value, 1) == [a.bounds.value];
    }
  }
}
