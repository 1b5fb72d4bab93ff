// The render queue's buckets: growable element lists that double when full,
// clear by nulling their slots and sort by their bucket's ordering; routing
// of elements into the opaque, transparent and ortho buckets; and the swap
// of front and back buckets.

module RenderQueues {
  import opened JavaValues

  // Renderer.QUEUE_OPAQUE, QUEUE_TRANSPARENT and QUEUE_ORTHO. Renderer.java
  // is not part of this model; these are the values jME gives them.
  const QUEUE_OPAQUE: int := 2
  const QUEUE_TRANSPARENT: int := 3
  const QUEUE_ORTHO: int := 4

  /** The initial capacity of a bucket. */
  const DEFAULT_SIZE: int := 32

  /** A scene element as the queue sees it. The camera distance, a float in
      the renderer, is an integer here. */
  class SceneElement {
    const zOrder: Int32
    const queueDistance: int

    constructor (zOrder: Int32, queueDistance: int)
      ensures this.zOrder == zOrder && this.queueDistance == queueDistance
    {
      this.zOrder := zOrder;
      this.queueDistance := queueDistance;
    }
  }

  /** The comparator a bucket sorts with. */
  datatype Ordering = OpaqueOrder | TransparentOrder | OrthoOrder

  /**
   * The sort key under each ordering, smallest first: opaque elements nearest
   * the camera first, transparent ones farthest first, ortho ones highest Z
   * order first.
   */
  function Key(c: Ordering, e: SceneElement?): int
  {
    if e == null then 0
    else match c
      case OpaqueOrder => e.queueDistance
      case TransparentOrder => -e.queueDistance
      case OrthoOrder => -(e.zOrder as int)
  }

  /** `OrthoComp.compare` as written: `o2.getZOrder() - o1.getZOrder()` in Java int arithmetic. */
  function OrthoCompare(z1: Int32, z2: Int32): (r: Int32)
    ensures INT_MIN <= z2 - z1 <= INT_MAX ==> r == z2 - z1
    ensures (r - (z2 - z1)) % 0x1_0000_0000 == 0
  {
    Wrap32(z2 - z1)
  }

  /** The comparison OrthoComp is meant to make: a higher Z order sorts first. */
  function OrthoCompareIntended(z1: Int32, z2: Int32): (r: int)
    ensures r < 0 <==> z1 > z2
    ensures r > 0 <==> z1 < z2
  {
    if z2 < z1 then -1 else if z2 > z1 then 1 else 0
  }

  function Sign(v: int): int { if v < 0 then -1 else if v > 0 then 1 else 0 }

  /** When the difference of the Z orders fits in an int, the subtraction
      orders as intended. */
  lemma OrthoCompareAgrees(z1: Int32, z2: Int32)
    requires INT_MIN <= z2 - z1 <= INT_MAX
    ensures Sign(OrthoCompare(z1, z2)) == OrthoCompareIntended(z1, z2)
  {
  }

  /** With Z orders Integer.MIN_VALUE and 0 the subtraction overflows: each
      element is reported to sort before the other, breaking the comparator
      contract, and the lower Z order is put first. */
  lemma OrthoCompareOverflows()
    ensures OrthoCompare(INT_MIN, 0) < 0 && OrthoCompare(0, INT_MIN) < 0
    ensures OrthoCompareIntended(INT_MIN, 0) > 0
  {
    assert Wrap32(0 - INT_MIN) == INT_MIN;
  }

  /** Ortho keys order elements exactly as the intended comparison does. */
  lemma OrthoKeyMatchesIntended(a: SceneElement, b: SceneElement)
    ensures Key(OrthoOrder, a) < Key(OrthoOrder, b) <==> OrthoCompareIntended(a.zOrder, b.zOrder) < 0
  {
  }

  ghost predicate SortedBy(c: Ordering, s: seq<SceneElement?>)
  {
    forall i, j :: 0 <= i < j < |s| ==> Key(c, s[i]) <= Key(c, s[j])
  }

  /**
   * When no two Z orders of an ortho bucket differ by more than an int holds,
   * sorting by the ortho key is ordering by OrthoComp as written: every
   * element compares at most zero against each later one.
   */
  lemma OrthoSortedAsWritten(s: seq<SceneElement?>)
    requires forall i :: 0 <= i < |s| ==> s[i] != null
    requires forall i, j :: 0 <= i < |s| && 0 <= j < |s| ==>
      INT_MIN <= s[j].zOrder - s[i].zOrder <= INT_MAX
    ensures SortedBy(OrthoOrder, s) <==>
      forall i, j :: 0 <= i < j < |s| ==> OrthoCompare(s[i].zOrder, s[j].zOrder) <= 0
  {
    forall i, j | 0 <= i < j < |s|
      ensures Key(OrthoOrder, s[i]) <= Key(OrthoOrder, s[j]) <==> OrthoCompare(s[i].zOrder, s[j].zOrder) <= 0
    {
      assert OrthoCompare(s[i].zOrder, s[j].zOrder) == s[j].zOrder - s[i].zOrder;
    }
  }

  /** Prepending an element no larger than any other keeps a list sorted. */
  lemma SortedCons(c: Ordering, x: SceneElement?, t: seq<SceneElement?>)
    requires SortedBy(c, t)
    requires forall y :: y in t ==> Key(c, x) <= Key(c, y)
    ensures SortedBy(c, [x] + t)
  {
    var r := [x] + t;
    forall i, j | 0 <= i < j < |r| ensures Key(c, r[i]) <= Key(c, r[j]) {
      if i == 0 {
        assert r[j] == t[j - 1] && r[j] in t;
      } else {
        assert r[i] == t[i - 1] && r[j] == t[j - 1];
      }
    }
  }

  /** Every element of a sorted list has a key no smaller than its head's. */
  lemma HeadIsLeast(c: Ordering, s: seq<SceneElement?>, e: SceneElement?)
    requires SortedBy(c, s) && (s != [] ==> Key(c, e) <= Key(c, s[0]))
    ensures forall y :: y in s ==> Key(c, e) <= Key(c, y)
  {
    forall y | y in s ensures Key(c, e) <= Key(c, y) {
      var k :| 0 <= k < |s| && s[k] == y;
      assert s[0] == y || Key(c, s[0]) <= Key(c, s[k]);
    }
  }

  /** The tail of a sorted list is sorted. */
  lemma SortedTail(c: Ordering, s: seq<SceneElement?>)
    requires SortedBy(c, s) && s != []
    ensures SortedBy(c, s[1..])
  {
    forall i, j | 0 <= i < j < |s| - 1 ensures Key(c, s[1..][i]) <= Key(c, s[1..][j]) {
      assert s[1..][i] == s[i + 1] && s[1..][j] == s[j + 1];
    }
  }

  /** The elements of the insertion into the tail all have keys no smaller
      than the head's. */
  lemma HeadBelowInsertion(c: Ordering, e: SceneElement?, s: seq<SceneElement?>, rest: seq<SceneElement?>)
    requires SortedBy(c, s) && s != [] && Key(c, s[0]) <= Key(c, e)
    requires multiset(rest) == multiset(s[1..]) + multiset{e}
    ensures forall y :: y in rest ==> Key(c, s[0]) <= Key(c, y)
  {
    forall y | y in rest ensures Key(c, s[0]) <= Key(c, y) {
      assert y in multiset(rest);
      if y != e {
        assert y in multiset(s[1..]);
        var k :| 0 <= k < |s| - 1 && s[1..][k] == y;
        assert s[k + 1] == y;
      }
    }
  }

  /** Inserts `e` into sorted `s` after every element whose key is not larger. */
  function Insert(c: Ordering, e: SceneElement?, s: seq<SceneElement?>): (r: seq<SceneElement?>)
    requires SortedBy(c, s)
    ensures multiset(r) == multiset(s) + multiset{e}
    ensures SortedBy(c, r)
  {
    if s == [] || Key(c, e) < Key(c, s[0]) then
      HeadIsLeast(c, s, e);
      SortedCons(c, e, s);
      [e] + s
    else
      SortedTail(c, s);
      var rest := Insert(c, e, s[1..]);
      assert s == [s[0]] + s[1..];
      HeadBelowInsertion(c, e, s, rest);
      SortedCons(c, s[0], rest);
      [s[0]] + rest
  }

  /** A stable sort of `s` by key (SortUtil.msort is not part of this model;
      this is the order it is documented to produce). */
  function SortByKey(c: Ordering, s: seq<SceneElement?>): (r: seq<SceneElement?>)
    ensures multiset(r) == multiset(s)
    ensures SortedBy(c, r)
  {
    if s == [] then []
    else
      assert s == s[..|s| - 1] + [s[|s| - 1]];
      Insert(c, s[|s| - 1], SortByKey(c, s[..|s| - 1]))
  }

  function Pow2(k: nat): (p: nat)
    ensures p >= 1
  {
    if k == 0 then 1 else 2 * Pow2(k - 1)
  }

  class SceneElementList {
    var list: array<SceneElement?>
    var tlist: array?<SceneElement?>
    var listSize: nat
    const order: Ordering
    ghost var doublings: nat
    ghost var Repr: set<object>

    /**
     * The capacity is 32 doubled some number of times; the used prefix holds
     * elements and every slot past it is null.
     */
    ghost predicate Valid()
      reads this, Repr
    {
      Repr == {this, list} + (if tlist == null then {} else {tlist}) &&
      tlist != list &&
      list.Length == DEFAULT_SIZE * Pow2(doublings) &&
      listSize <= list.Length &&
      (forall i :: 0 <= i < listSize ==> list[i] != null) &&
      (forall i :: listSize <= i < list.Length ==> list[i] == null)
    }

    /** The queued elements, in list order. */
    ghost function Contents(): seq<SceneElement?>
      reads this, list
      requires listSize <= list.Length
    {
      list[..listSize]
    }

    constructor (order: Ordering)
      ensures Valid() && fresh(Repr) && this.order == order
      ensures Contents() == [] && list.Length == DEFAULT_SIZE && tlist == null
    {
      this.order := order;
      listSize := 0;
      list := new SceneElement?[DEFAULT_SIZE](_ => null);
      tlist := null;
      doublings := 0;
      Repr := {this, list};
    }

    /** The doubling step of `add`: a list twice as long holding the same
        elements, every slot past them null. */
    method Grow()
      requires Valid()
      modifies this
      ensures Valid() && fresh(Repr - old(Repr)) && fresh(list)
      ensures Contents() == old(Contents()) && list.Length == 2 * old(list.Length)
      ensures tlist == old(tlist) && listSize == old(listSize)
    {
      var temp := new SceneElement?[list.Length * 2](_ => null);
      var i := 0;
      while i < listSize
        invariant 0 <= i <= listSize
        invariant forall k :: 0 <= k < i ==> temp[k] == list[k]
        invariant forall k :: i <= k < temp.Length ==> temp[k] == null
        modifies temp
      {
        temp[i] := list[i];
        i := i + 1;
      }
      assert temp[..listSize] == list[..listSize];
      list := temp;
      doublings := doublings + 1;
      assert list.Length == DEFAULT_SIZE * Pow2(doublings);
      Repr := {this, list} + (if tlist == null then {} else {tlist});
    }

    /** `add`: appends `s`, first doubling the capacity when the list is full. */
    method Add(s: SceneElement)
      requires Valid()
      modifies Repr
      ensures Valid() && fresh(Repr - old(Repr))
      ensures Contents() == old(Contents()) + [s]
      ensures list.Length == if old(listSize) == old(list.Length) then 2 * old(list.Length) else old(list.Length)
      ensures tlist == old(tlist) && (tlist != null ==> tlist[..] == old(tlist[..]))
    {
      if listSize == list.Length {
        Grow();
      }
      list[listSize] := s;
      listSize := listSize + 1;
    }

    /** `clear`: empties the list, nulling the used slots and the whole
        temporary array. */
    method Clear()
      requires Valid()
      modifies Repr
      ensures Valid() && Repr == old(Repr)
      ensures Contents() == [] && list == old(list) && tlist == old(tlist)
      ensures forall i :: 0 <= i < list.Length ==> list[i] == null
      ensures tlist != null ==> forall i :: 0 <= i < tlist.Length ==> tlist[i] == null
    {
      var i := 0;
      while i < listSize
        invariant 0 <= i <= listSize
        invariant forall k :: 0 <= k < i ==> list[k] == null
        invariant forall k :: i <= k < listSize ==> list[k] == old(list[k])
        invariant forall k :: listSize <= k < list.Length ==> list[k] == null
        modifies list
      {
        list[i] := null;
        i := i + 1;
      }
      if tlist != null {
        forall k | 0 <= k < tlist.Length {
          tlist[k] := null;
        }
      }
      listSize := 0;
    }

    /** The first half of `sort`: the temporary array becomes a copy of the
        list, allocated afresh unless one of the right length already exists. */
    method CopyToTemp()
      requires Valid()
      modifies Repr
      ensures Valid() && fresh(Repr - old(Repr))
      ensures list == old(list) && listSize == old(listSize) && list[..] == old(list[..])
      ensures tlist != null && tlist[..] == list[..]
    {
      if tlist == null || tlist.Length != list.Length {
        var copy := new SceneElement?[list.Length];
        forall k | 0 <= k < list.Length {
          copy[k] := list[k];
        }
        tlist := copy;
        Repr := {this, list, tlist};
      } else {
        forall k | 0 <= k < list.Length {
          tlist[k] := list[k];
        }
      }
    }

    /** The second half of `sort`: the merged order is written back over the
        used prefix. */
    method WriteBack(sorted: seq<SceneElement?>)
      requires Valid() && |sorted| == listSize && null !in sorted
      modifies list
      ensures Valid() && list[..listSize] == sorted
    {
      var i := 0;
      while i < listSize
        invariant 0 <= i <= listSize
        invariant forall k :: 0 <= k < i ==> list[k] == sorted[k]
        invariant forall k :: listSize <= k < list.Length ==> list[k] == null
        modifies list
      {
        list[i] := sorted[i];
        i := i + 1;
      }
      assert list[..listSize] == sorted;
    }

    /**
     * `sort`: with more than one element, copies the list into the temporary
     * array and merges it back in the bucket's order. The size never changes.
     */
    method Sort()
      requires Valid()
      modifies Repr
      ensures Valid() && fresh(Repr - old(Repr))
      ensures list == old(list) && listSize == old(listSize)
      ensures old(listSize) <= 1 ==> Contents() == old(Contents())
      ensures multiset(Contents()) == multiset(old(Contents()))
      ensures SortedBy(order, Contents())
    {
      if listSize > 1 {
        CopyToTemp();
        assert tlist[..listSize] == old(list[..listSize]);
        var sorted := SortByKey(order, tlist[..listSize]);
        assert null !in multiset(sorted);
        WriteBack(sorted);
      }
    }
  }

  /**
   * The six buckets of a render queue, held by their contents. Every bucket
   * operation the queue performs is an `add`, a `clear` or an exchange of two
   * buckets, whose effect on the contents SceneElementList states.
   */
  class RenderQueue {
    var opaqueBucket: seq<SceneElement>
    var opaqueBackBucket: seq<SceneElement>
    var transparentBucket: seq<SceneElement>
    var transparentBackBucket: seq<SceneElement>
    var orthoBucket: seq<SceneElement>
    var orthoBackBucket: seq<SceneElement>

    /** The contents of the six buckets: opaque, opaque back, transparent,
        transparent back, ortho, ortho back. */
    function Contents(): (c: seq<seq<SceneElement>>)
      reads this
      ensures |c| == 6
    {
      [opaqueBucket, opaqueBackBucket, transparentBucket,
       transparentBackBucket, orthoBucket, orthoBackBucket]
    }

    /** `setupBuckets`: six empty buckets. */
    constructor ()
      ensures Contents() == [[], [], [], [], [], []]
    {
      opaqueBucket, opaqueBackBucket := [], [];
      transparentBucket, transparentBackBucket := [], [];
      orthoBucket, orthoBackBucket := [], [];
    }

    /**
     * `addToQueue`: appends `s` to exactly the front bucket the code names;
     * any other code raises and changes nothing.
     */
    method AddToQueue(s: SceneElement, bucket: int) returns (ok: bool)
      modifies this
      ensures ok <==> Route(bucket) >= 0
      ensures ok ==> Contents() == old(Contents())[Route(bucket) := old(Contents())[Route(bucket)] + [s]]
      ensures !ok ==> Contents() == old(Contents())
    {
      if bucket == QUEUE_OPAQUE {
        opaqueBucket := opaqueBucket + [s];
      } else if bucket == QUEUE_TRANSPARENT {
        transparentBucket := transparentBucket + [s];
      } else if bucket == QUEUE_ORTHO {
        orthoBucket := orthoBucket + [s];
      } else {
        return false;
      }
      ok := true;
    }

    /** `clearBuckets`: empties the three front buckets; the back buckets keep
        their elements. */
    method ClearBuckets()
      modifies this
      ensures Contents() == old(Contents())[0 := []][2 := []][4 := []]
    {
      transparentBucket := [];
      opaqueBucket := [];
      orthoBucket := [];
    }

    /** `swapBuckets`: each front bucket trades places with its back bucket. */
    method SwapBuckets()
      modifies this
      ensures Contents() == Swapped(old(Contents()))
    {
      var swap := transparentBucket;
      transparentBucket := transparentBackBucket;
      transparentBackBucket := swap;

      swap := orthoBucket;
      orthoBucket := orthoBackBucket;
      orthoBackBucket := swap;

      swap := opaqueBucket;
      opaqueBucket := opaqueBackBucket;
      opaqueBackBucket := swap;
    }
  }

  /** The position in a queue's contents of the bucket a queue code routes
      to, or -1 for a code the queue rejects. */
  function Route(bucket: int): (i: int)
    ensures i in {-1, 0, 2, 4}
    ensures i >= 0 <==> bucket in {QUEUE_OPAQUE, QUEUE_TRANSPARENT, QUEUE_ORTHO}
    ensures i == 0 <==> bucket == QUEUE_OPAQUE
    ensures i == 2 <==> bucket == QUEUE_TRANSPARENT
    ensures i == 4 <==> bucket == QUEUE_ORTHO
  {
    if bucket == QUEUE_OPAQUE then 0
    else if bucket == QUEUE_TRANSPARENT then 2
    else if bucket == QUEUE_ORTHO then 4
    else -1
  }

  /** Front and back buckets exchanged, pair by pair. */
  function Swapped<T>(c: seq<T>): (r: seq<T>)
    requires |c| == 6
    ensures |r| == 6
    ensures forall k :: 0 <= k < 3 ==> r[2 * k] == c[2 * k + 1] && r[2 * k + 1] == c[2 * k]
  {
    [c[1], c[0], c[3], c[2], c[5], c[4]]
  }

  /** Swapping twice restores the original arrangement. */
  lemma SwapInvolution<T>(c: seq<T>)
    requires |c| == 6
    ensures Swapped(Swapped(c)) == c
  {
  }

  /** Adding to a bucket never disturbs a back bucket. */
  lemma AddTouchesFrontOnly(c: seq<seq<SceneElement>>, s: SceneElement, bucket: int)
    requires |c| == 6 && Route(bucket) >= 0
    ensures var d := c[Route(bucket) := c[Route(bucket)] + [s]];
      d[1] == c[1] && d[3] == c[3] && d[5] == c[5]
  {
  }
}
