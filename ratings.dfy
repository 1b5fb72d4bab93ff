// Player rank levels: the rating thresholds of each rank, the sparse
// histogram of ratings they are computed from, the percentile scan that
// turns the histogram into thresholds, and the grouping of stored
// thresholds by scenario.

module Ratings {
  import opened JavaValues

  /** The percentage of players a rank's holders must out-rate, rank by rank. */
  const RANK_PERCENTAGES: seq<int> := [50, 65, 75, 85, 90, 95, 99]
  const RANKS: nat := 7

  lemma RankPercentagesIncrease()
    ensures |RANK_PERCENTAGES| == RANKS
    ensures forall i, j :: 0 <= i < j < RANKS ==> RANK_PERCENTAGES[i] < RANK_PERCENTAGES[j]
    ensures forall i :: 0 <= i < RANKS ==> RANK_PERCENTAGES[i] <= 99
  {
  }

  predicate Nondecreasing(s: seq<int>)
  {
    forall i, j :: 0 <= i < j < |s| ==> s[i] <= s[j]
  }

  // ---------------------------------------------------------------- ranks

  /** The number of thresholds a rating reaches. */
  function CountAtMost(s: seq<int>, rating: int): (n: nat)
    ensures n <= |s|
  {
    if s == [] then 0
    else CountAtMost(s[..|s| - 1], rating) + (if s[|s| - 1] <= rating then 1 else 0)
  }

  /** When the first k thresholds are reached and the rest are not, the
      rating reaches exactly k of them. */
  lemma {:induction false} CountSplit(s: seq<int>, rating: int, k: nat)
    requires k <= |s|
    requires forall j :: 0 <= j < k ==> s[j] <= rating
    requires forall j :: k <= j < |s| ==> rating < s[j]
    ensures CountAtMost(s, rating) == k
  {
    if s != [] {
      var p := s[..|s| - 1];
      if k == |s| {
        CountSplit(p, rating, k - 1);
      } else {
        CountSplit(p, rating, k);
      }
    }
  }

  /** A higher rating reaches at least as many thresholds. */
  lemma {:induction false} CountMonotone(s: seq<int>, r1: int, r2: int)
    requires r1 <= r2
    ensures CountAtMost(s, r1) <= CountAtMost(s, r2)
  {
    if s != [] {
      CountMonotone(s[..|s| - 1], r1, r2);
    }
  }

  class RankLevels {
    const scenario: string
    const levels: array<int>

    /** A scenario's levels, every threshold zero until loaded. */
    constructor (scenario: string)
      ensures this.scenario == scenario && fresh(levels)
      ensures levels.Length == RANKS && forall k :: 0 <= k < RANKS ==> levels[k] == 0
    {
      this.scenario := scenario;
      levels := new int[RANKS](_ => 0);
    }

    /**
     * `getRank`: counts down from the top rank past every threshold above the
     * rating. The result is the top rank whose threshold, and no threshold
     * above it, the rating reaches; for nondecreasing thresholds that is the
     * number of thresholds reached.
     */
    method GetRank(rating: int) returns (rank: int)
      ensures 0 <= rank <= levels.Length
      ensures rank == 0 || levels[rank - 1] <= rating
      ensures forall j :: rank <= j < levels.Length ==> rating < levels[j]
      ensures Nondecreasing(levels[..]) ==> rank == CountAtMost(levels[..], rating)
    {
      rank := levels.Length;
      while rank > 0 && rating < levels[rank - 1]
        invariant 0 <= rank <= levels.Length
        invariant forall j :: rank <= j < levels.Length ==> rating < levels[j]
      {
        rank := rank - 1;
      }
      if Nondecreasing(levels[..]) {
        forall j | 0 <= j < rank ensures levels[..][j] <= rating {
          assert levels[j] <= levels[rank - 1];
        }
        CountSplit(levels[..], rating, rank);
      }
    }
  }

  // ------------------------------------------------------------ histogram

  /** A (value, count) pair, compared by value. */
  datatype IntTuple = IntTuple(left: int, right: int)

  /** `IntIntMap.get`: -1 for a key that is absent. */
  function MapGet(m: map<Int32, int>, k: Int32): int
  {
    if k in m then m[k] else -1
  }

  /** The number of values that lie in `keys`. */
  ghost function CountIn(values: seq<Int32>, keys: set<Int32>): nat
  {
    if values == [] then 0
    else CountIn(values[..|values| - 1], keys) + (if values[|values| - 1] in keys then 1 else 0)
  }

  lemma {:induction false} CountInAdd(values: seq<Int32>, keys: set<Int32>, k: Int32)
    requires k !in keys
    ensures CountIn(values, keys + {k}) == CountIn(values, keys) + multiset(values)[k]
  {
    if values != [] {
      var p := values[..|values| - 1];
      assert values == p + [values[|values| - 1]];
      CountInAdd(p, keys, k);
    }
  }

  lemma {:induction false} CountInNone(values: seq<Int32>)
    ensures CountIn(values, {}) == 0
  {
    if values != [] {
      CountInNone(values[..|values| - 1]);
    }
  }

  lemma {:induction false} CountInAll(values: seq<Int32>, keys: set<Int32>)
    requires forall v :: v in values ==> v in keys
    ensures CountIn(values, keys) == |values|
  {
    if values != [] {
      var p := values[..|values| - 1];
      assert values == p + [values[|values| - 1]];
      CountInAll(p, keys);
    }
  }

  /** The total of the counts in a list of tuples. */
  function SumRights(s: seq<IntTuple>): int
  {
    if s == [] then 0 else s[0].right + SumRights(s[1..])
  }

  lemma {:induction false} SumRightsSnoc(s: seq<IntTuple>, t: IntTuple)
    ensures SumRights(s + [t]) == SumRights(s) + t.right
  {
    if s != [] {
      assert (s + [t])[1..] == s[1..] + [t];
      SumRightsSnoc(s[1..], t);
    }
  }

  predicate StrictlyAscending(s: seq<IntTuple>)
  {
    forall i, j :: 0 <= i < j < |s| ==> s[i].left < s[j].left
  }

  /** No tuple of `s` has value `v`. */
  predicate Unlisted(v: int, s: seq<IntTuple>)
  {
    forall i :: 0 <= i < |s| ==> s[i].left != v
  }

  /** Prepending a tuple below every value keeps a list strictly ascending. */
  lemma AscendingCons(x: IntTuple, s: seq<IntTuple>)
    requires StrictlyAscending(s)
    requires forall y :: y in s ==> x.left < y.left
    ensures StrictlyAscending([x] + s)
  {
    var r := [x] + s;
    forall i, j | 0 <= i < j < |r| ensures r[i].left < r[j].left {
      if i == 0 {
        assert r[j] == s[j - 1] && r[j] in s;
      } else {
        assert r[i] == s[i - 1] && r[j] == s[j - 1];
      }
    }
  }

  /** A bound below every element of `s` and below `t` bounds a permutation
      of `s` with `t` added. */
  lemma AboveAll(x: IntTuple, s: seq<IntTuple>, t: IntTuple, r: seq<IntTuple>)
    requires multiset(r) == multiset(s) + multiset{t}
    requires x.left < t.left && forall y :: y in s ==> x.left < y.left
    ensures forall y :: y in r ==> x.left < y.left
  {
    forall y | y in r ensures x.left < y.left {
      assert y in multiset(r);
      if y != t {
        assert y in multiset(s);
      }
    }
  }

  /** Inserts a tuple with a new value into a strictly ascending list. */
  function InsertTuple(t: IntTuple, s: seq<IntTuple>): (r: seq<IntTuple>)
    requires StrictlyAscending(s) && Unlisted(t.left, s)
    ensures StrictlyAscending(r)
    ensures multiset(r) == multiset(s) + multiset{t}
  {
    if s == [] || t.left < s[0].left then
      BelowHead(t.left, s);
      AscendingCons(t, s);
      [t] + s
    else
      AscendingTail(t.left, s);
      var rest := InsertTuple(t, s[1..]);
      assert s == [s[0]] + s[1..];
      HeadBelowTail(s);
      AboveAll(s[0], s[1..], t, rest);
      AscendingCons(s[0], rest);
      [s[0]] + rest
  }

  /** A value below the head of an ascending list is below all of it. */
  lemma BelowHead(v: int, s: seq<IntTuple>)
    requires StrictlyAscending(s) && (s != [] ==> v < s[0].left)
    ensures forall y :: y in s ==> v < y.left
  {
    forall y | y in s ensures v < y.left {
      var k :| 0 <= k < |s| && s[k] == y;
      assert k == 0 || s[0].left < s[k].left;
    }
  }

  /** The head of an ascending list is below all of its tail. */
  lemma HeadBelowTail(s: seq<IntTuple>)
    requires StrictlyAscending(s) && s != []
    ensures forall y :: y in s[1..] ==> s[0].left < y.left
  {
    forall y | y in s[1..] ensures s[0].left < y.left {
      var k :| 0 <= k < |s| - 1 && s[1..][k] == y;
      assert s[k + 1] == y;
    }
  }

  /** The tail of an ascending list is ascending and still misses `v`. */
  lemma AscendingTail(v: int, s: seq<IntTuple>)
    requires StrictlyAscending(s) && Unlisted(v, s) && s != []
    ensures StrictlyAscending(s[1..]) && Unlisted(v, s[1..])
  {
    forall i, j | 0 <= i < j < |s| - 1 ensures s[1..][i].left < s[1..][j].left {
      assert s[1..][i] == s[i + 1] && s[1..][j] == s[j + 1];
    }
    forall i | 0 <= i < |s| - 1 ensures s[1..][i].left != v {
      assert s[1..][i] == s[i + 1];
    }
  }

  /** Inserting a tuple adds its count to the total. */
  lemma {:induction false} InsertTupleSum(t: IntTuple, s: seq<IntTuple>)
    requires StrictlyAscending(s) && Unlisted(t.left, s)
    ensures SumRights(InsertTuple(t, s)) == SumRights(s) + t.right
  {
    if s == [] || t.left < s[0].left {
      assert ([t] + s)[1..] == s;
    } else {
      var r := InsertTuple(t, s);
      assert r[1..] == InsertTuple(t, s[1..]);
      InsertTupleSum(t, s[1..]);
    }
  }

  /** A value that no tuple of `p` has is missing from any permutation of `p`. */
  lemma StillUnlisted(p: seq<IntTuple>, t: IntTuple, sp: seq<IntTuple>)
    requires forall i :: 0 <= i < |p| ==> p[i].left != t.left
    requires multiset(sp) == multiset(p)
    ensures Unlisted(t.left, sp)
  {
    forall i | 0 <= i < |sp| ensures sp[i].left != t.left {
      assert sp[i] in multiset(p);
      var k :| 0 <= k < |p| && p[k] == sp[i];
    }
  }

  /** Sorts tuples with distinct values by value (QuickSort.sort is not part
      of this model; IntTuple orders by value first). */
  function SortTuples(s: seq<IntTuple>): (r: seq<IntTuple>)
    requires forall i, j :: 0 <= i < j < |s| ==> s[i].left != s[j].left
    ensures StrictlyAscending(r)
    ensures multiset(r) == multiset(s)
    ensures SumRights(r) == SumRights(s)
  {
    if s == [] then []
    else
      var p := s[..|s| - 1];
      var t := s[|s| - 1];
      assert s == p + [t];
      var sp := SortTuples(p);
      StillUnlisted(p, t, sp);
      SumRightsSnoc(p, t);
      InsertTupleSum(t, sp);
      InsertTuple(t, sp)
  }

  /** Reordering a list of tuples keeps it the list of a map's entries. */
  lemma SortKeepsEntries(m: map<Int32, int>, s: seq<IntTuple>, r: seq<IntTuple>)
    requires multiset(r) == multiset(s)
    requires forall i :: 0 <= i < |s| ==> s[i].left in m && s[i].right == m[s[i].left]
    requires forall v :: v in m ==> exists i :: 0 <= i < |s| && s[i].left == v
    ensures forall i :: 0 <= i < |r| ==> r[i].left in m && r[i].right == m[r[i].left]
    ensures forall v :: v in m ==> exists i :: 0 <= i < |r| && r[i].left == v
  {
    forall i | 0 <= i < |r| ensures r[i].left in m && r[i].right == m[r[i].left] {
      assert r[i] in multiset(s);
      var k :| 0 <= k < |s| && s[k] == r[i];
    }
    forall v | v in m ensures exists i :: 0 <= i < |r| && r[i].left == v {
      var k :| 0 <= k < |s| && s[k].left == v;
      assert s[k] in multiset(r);
      var i :| 0 <= i < |r| && r[i] == s[k];
    }
  }

  /** Entries that match a bucket map keyed by the values and counting their
      occurrences also match the values themselves. */
  lemma BucketEntries(values: seq<Int32>, m: map<Int32, int>, r: seq<IntTuple>)
    requires forall v :: v in m <==> v in values
    requires forall v :: v in m ==> m[v] == multiset(values)[v]
    requires forall i :: 0 <= i < |r| ==> r[i].left in m && r[i].right == m[r[i].left]
    requires forall v :: v in m ==> exists i :: 0 <= i < |r| && r[i].left == v
    ensures forall i :: 0 <= i < |r| ==> r[i].left in values && r[i].right == multiset(values)[r[i].left]
    ensures forall i :: 0 <= i < |r| ==> r[i].right >= 1
    ensures forall v :: v in values ==> exists i :: 0 <= i < |r| && r[i].left == v
  {
    forall i | 0 <= i < |r| ensures r[i].right >= 1 {
      assert r[i].left in values;
    }
  }

  /** The bucket map is keyed by exactly the values and counts their occurrences. */
  ghost predicate Counts(values: seq<Int32>, m: map<Int32, int>)
  {
    (forall v :: v in m <==> v in values) &&
    (forall v :: v in m ==> m[v] == multiset(values)[v])
  }

  /** The range covers every value and is attained; it stays at its initial
      extremes while there are no values. */
  ghost predicate Range(values: seq<Int32>, lo: Int32, hi: Int32)
  {
    (forall v :: v in values ==> lo <= v <= hi) &&
    (values == [] ==> lo == INT_MAX && hi == INT_MIN) &&
    (values != [] ==> lo in values && hi in values)
  }

  /** Counting one more occurrence of `value` keeps the counts. */
  lemma IncrementCounts(values: seq<Int32>, m: map<Int32, int>, value: Int32)
    requires Counts(values, m)
    ensures Counts(values + [value], m[value := (if value in m then m[value] else 0) + 1])
  {
    var m' := m[value := (if value in m then m[value] else 0) + 1];
    assert multiset(values + [value]) == multiset(values) + multiset{value};
    forall v | v in m' ensures m'[v] == multiset(values + [value])[v] {
      if v != value {
        assert v in m;
      }
    }
  }

  /** Widening the range to a new value keeps it covering and attained. */
  lemma WidenRange(values: seq<Int32>, lo: Int32, hi: Int32, value: Int32)
    requires Range(values, lo, hi)
    ensures Range(values + [value], Min(lo, value), Max(hi, value))
  {
    var values' := values + [value];
    assert value in values';
    assert forall v :: v in values ==> v in values';
  }

  /**
   * The tuples collected from map `m` with `keys` still to visit: one per
   * visited key, each with its count, no key twice, and counts adding up to
   * the occurrences of the visited keys among the values.
   */
  ghost predicate Collected(m: map<Int32, int>, values: seq<Int32>, keys: set<Int32>, collected: seq<IntTuple>)
  {
    (forall i :: 0 <= i < |collected| ==>
      collected[i].left in m && collected[i].left !in keys && collected[i].right == m[collected[i].left]) &&
    (forall i, j :: 0 <= i < j < |collected| ==> collected[i].left != collected[j].left) &&
    (forall v :: v in m && v !in keys ==> exists i :: 0 <= i < |collected| && collected[i].left == v) &&
    SumRights(collected) == CountIn(values, m.Keys - keys)
  }

  /** Visiting one more key appends its tuple. */
  lemma CollectStep(m: map<Int32, int>, values: seq<Int32>, keys: set<Int32>, collected: seq<IntTuple>, k: Int32)
    requires k in keys && keys <= m.Keys && Collected(m, values, keys, collected)
    requires forall v :: v in m ==> m[v] == multiset(values)[v]
    ensures Collected(m, values, keys - {k}, collected + [IntTuple(k, m[k])])
  {
    var collected' := collected + [IntTuple(k, m[k])];
    var keys' := keys - {k};
    CountInAdd(values, m.Keys - keys, k);
    assert (m.Keys - keys) + {k} == m.Keys - keys';
    SumRightsSnoc(collected, IntTuple(k, m[k]));
    forall v | v in m && v !in keys'
      ensures exists i :: 0 <= i < |collected'| && collected'[i].left == v
    {
      if v == k {
        assert collected'[|collected|].left == v;
      } else {
        var i :| 0 <= i < |collected| && collected[i].left == v;
        assert collected'[i].left == v;
      }
    }
  }

  /** The bucket map that adding `values` in order builds. */
  function BucketsOf(values: seq<Int32>): map<Int32, int>
  {
    if values == [] then map[]
    else
      var m, v := BucketsOf(values[..|values| - 1]), values[|values| - 1];
      m[v := (if v in m then m[v] else 0) + 1]
  }

  /** The minimum that adding `values` in order leaves, from Integer.MAX_VALUE. */
  function MinOf(values: seq<Int32>): Int32
  {
    if values == [] then INT_MAX else Min(MinOf(values[..|values| - 1]), values[|values| - 1])
  }

  /** The maximum that adding `values` in order leaves, from Integer.MIN_VALUE. */
  function MaxOf(values: seq<Int32>): Int32
  {
    if values == [] then INT_MIN else Max(MaxOf(values[..|values| - 1]), values[|values| - 1])
  }

  /** The buckets are keyed by exactly the values and count their occurrences. */
  lemma {:induction false} BucketsCount(values: seq<Int32>)
    ensures Counts(values, BucketsOf(values))
  {
    if values != [] {
      var p := values[..|values| - 1];
      assert values == p + [values[|values| - 1]];
      BucketsCount(p);
      IncrementCounts(p, BucketsOf(p), values[|values| - 1]);
    }
  }

  /** The minimum and maximum cover every value and are attained; without
      values they are the initial extremes. */
  lemma {:induction false} RangeOf(values: seq<Int32>)
    ensures Range(values, MinOf(values), MaxOf(values))
  {
    if values != [] {
      var p := values[..|values| - 1];
      assert values == p + [values[|values| - 1]];
      RangeOf(p);
      WidenRange(p, MinOf(p), MaxOf(p), values[|values| - 1]);
    }
  }

  /** A histogram of integer values with buckets of width one. */
  class SparseHistogram {
    var minValue: Int32
    var maxValue: Int32
    var count: int
    var buckets: map<Int32, int>
    /** The values added so far, in order. */
    ghost var values: seq<Int32>

    /**
     * The count is the number of values added, and the buckets, the minimum
     * and the maximum are what adding those values in order produces.
     */
    ghost predicate Valid()
      reads this
    {
      count == |values| && buckets == BucketsOf(values) &&
      minValue == MinOf(values) && maxValue == MaxOf(values)
    }

    constructor ()
      ensures Valid() && values == []
    {
      minValue, maxValue, count := INT_MAX, INT_MIN, 0;
      buckets := map[];
      values := [];
    }

    /** `addValue`: one more occurrence of `value`, widening the range to it. */
    method AddValue(value: Int32)
      requires Valid()
      modifies this
      ensures Valid() && values == old(values) + [value]
      ensures count == old(count) + 1
      ensures buckets == old(buckets)[value := (if value in old(buckets) then old(buckets)[value] else 0) + 1]
      ensures minValue == Min(old(minValue), value) && maxValue == Max(old(maxValue), value)
    {
      // IntIntMap.increment starts an absent key from zero
      buckets := buckets[value := (if value in buckets then buckets[value] else 0) + 1];
      count := count + 1;
      assert (values + [value])[..|values|] == values;
      values := values + [value];
      if value < minValue {
        minValue := value;
      }
      if value > maxValue {
        maxValue := value;
      }
    }

    /**
     * `getBuckets`: the dense bucket counts from minValue to maxValue. The
     * length is computed in Java int arithmetic, and a negative length raises
     * (None). Entry i counts the occurrences of `minValue + i`, also wrapped.
     * An empty histogram gives two empty buckets, because
     * `Integer.MIN_VALUE - Integer.MAX_VALUE + 1` wraps to 2.
     */
    method GetBuckets() returns (r: Option<seq<int>>)
      requires Valid()
      ensures r.Some? <==> Wrap32(Wrap32(maxValue - minValue) + 1) >= 0
      ensures r.Some? ==> |r.value| == Wrap32(Wrap32(maxValue - minValue) + 1)
      ensures r.Some? ==> forall i :: 0 <= i < |r.value| ==> r.value[i] == multiset(values)[Wrap32(minValue + i)]
      ensures values == [] ==> r == Some([0, 0])
      ensures values != [] && maxValue - minValue < INT_MAX ==>
        r.Some? && |r.value| == maxValue - minValue + 1 &&
        (forall i :: 0 <= i < |r.value| ==> r.value[i] == multiset(values)[minValue + i])
    {
      BucketsCount(values);
      var len := Wrap32(Wrap32(maxValue - minValue) + 1);
      if len < 0 {
        return None;
      }
      var b: seq<int> := [];
      var i := 0;
      while i < len
        invariant 0 <= i <= len && |b| == i
        invariant forall k :: 0 <= k < i ==> b[k] == multiset(values)[Wrap32(minValue + k)]
      {
        b := b + [Max(MapGet(buckets, Wrap32(minValue + i)), 0)];
        i := i + 1;
      }
      r := Some(b);
      if values == [] {
        assert Wrap32(INT_MIN - INT_MAX) == 1;
        assert len == 2;
        assert b == [b[0], b[1]] && b[0] == 0 && b[1] == 0;
      }
    }

    /** The collecting loop of `getFilledBuckets`: one tuple per key of the
        bucket map, in the map's iteration order. */
    method CollectBuckets() returns (collected: seq<IntTuple>)
      requires Valid()
      ensures forall i :: 0 <= i < |collected| ==>
        collected[i].left in buckets && collected[i].right == buckets[collected[i].left]
      ensures forall i, j :: 0 <= i < j < |collected| ==> collected[i].left != collected[j].left
      ensures forall v :: v in buckets ==> exists i :: 0 <= i < |collected| && collected[i].left == v
      ensures SumRights(collected) == count
    {
      BucketsCount(values);
      var keys := buckets.Keys;
      collected := [];
      CountInNone(values);
      assert buckets.Keys - keys == {};
      while keys != {}
        invariant keys <= buckets.Keys && Collected(buckets, values, keys, collected)
        decreases keys
      {
        var k :| k in keys;
        CollectStep(buckets, values, keys, collected, k);
        collected := collected + [IntTuple(k, buckets[k])];
        keys := keys - {k};
      }
      assert buckets.Keys - keys == buckets.Keys;
      CountInAll(values, buckets.Keys);
    }

    /**
     * `getFilledBuckets`: a (value, count) tuple for every value added,
     * sorted by value. The values are distinct, every count is at least one
     * and the counts add up to the number of values.
     */
    method GetFilledBuckets() returns (r: seq<IntTuple>)
      requires Valid()
      ensures StrictlyAscending(r)
      ensures forall i :: 0 <= i < |r| ==> r[i].left in values && r[i].right == multiset(values)[r[i].left]
      ensures forall i :: 0 <= i < |r| ==> r[i].right >= 1
      ensures forall v :: v in values ==> exists i :: 0 <= i < |r| && r[i].left == v
      ensures SumRights(r) == count
      ensures r == Filled(values)
    {
      BucketsCount(values);
      var collected := CollectBuckets();
      r := SortTuples(collected);
      SortKeepsEntries(buckets, collected, r);
      BucketEntries(values, buckets, r);
      IsFilled(values, r);
    }
  }

  // ------------------------------------------------------- filled table

  /** Every tuple of `r` is a value of `values` with its count, and every value has a tuple. */
  ghost predicate Tabulates(values: seq<Int32>, r: seq<IntTuple>)
  {
    (forall x :: x in r ==> x.left in values && x.right == multiset(values)[x.left]) &&
    (forall v :: v in values ==> exists x :: x in r && x.left == v)
  }

  /** The tuple of `s` with value `v`, if any, counts one more. */
  function BumpEntry(s: seq<IntTuple>, v: int): (r: seq<IntTuple>)
    ensures |r| == |s| && forall i :: 0 <= i < |s| ==> r[i].left == s[i].left
  {
    seq(|s|, i requires 0 <= i < |s| => if s[i].left == v then IntTuple(v, s[i].right + 1) else s[i])
  }

  /**
   * The filled histogram of `values`, built one value at a time: a value
   * seen before counts one more, a new value is inserted in order with
   * count one. This is the reference `getFilledBuckets` is held to.
   */
  function Filled(values: seq<Int32>): (r: seq<IntTuple>)
    ensures StrictlyAscending(r)
  {
    if values == [] then []
    else
      var s := Filled(values[..|values| - 1]);
      var v := values[|values| - 1];
      if Unlisted(v, s) then InsertTuple(IntTuple(v, 1), s) else BumpEntry(s, v)
  }

  /** The filled table lists each value of `values` once, with its count. */
  lemma {:induction false} FilledTabulates(values: seq<Int32>)
    ensures Tabulates(values, Filled(values))
  {
    if values != [] {
      var p, v := values[..|values| - 1], values[|values| - 1];
      assert values == p + [v];
      FilledTabulates(p);
      var s := Filled(p);
      if v in p {
        var x :| x in s && x.left == v;
        var i :| 0 <= i < |s| && s[i] == x;
        assert !Unlisted(v, s);
        BumpTabulates(p, v, s);
      } else {
        InsertTabulates(p, v, s);
      }
    }
  }

  /** Counting a value seen before once more keeps the table filled. */
  lemma BumpTabulates(p: seq<Int32>, v: Int32, s: seq<IntTuple>)
    requires v in p && Tabulates(p, s)
    ensures Tabulates(p + [v], BumpEntry(s, v))
  {
    var values: seq<Int32> := p + [v];
    var r := BumpEntry(s, v);
    assert multiset(values) == multiset(p) + multiset{v};
    forall x: IntTuple | x in r ensures x.left in values && x.right == multiset(values)[x.left] {
      var i :| 0 <= i < |r| && r[i] == x;
      assert s[i] in s;
    }
    forall w | w in values ensures exists x :: x in r && x.left == w {
      assert w in p;
      var y :| y in s && y.left == w;
      var i :| 0 <= i < |s| && s[i] == y;
      assert r[i] in r;
    }
  }

  /** Inserting a new value with count one keeps the table filled. */
  lemma InsertTabulates(p: seq<Int32>, v: Int32, s: seq<IntTuple>)
    requires v !in p && Tabulates(p, s) && StrictlyAscending(s)
    ensures Unlisted(v, s)
    ensures Tabulates(p + [v], InsertTuple(IntTuple(v, 1), s))
  {
    forall i | 0 <= i < |s| ensures s[i].left != v {
      assert s[i] in s;
    }
    var values: seq<Int32> := p + [v];
    var t := IntTuple(v, 1);
    var r := InsertTuple(t, s);
    assert multiset(values) == multiset(p) + multiset{v};
    forall x: IntTuple | x in r ensures x.left in values && x.right == multiset(values)[x.left] {
      assert x in multiset(r);
      if x != t {
        assert x in multiset(s);
      }
    }
    forall w | w in values ensures exists x :: x in r && x.left == w {
      assert t in multiset(r);
      if w != v {
        assert w in p;
        var y :| y in s && y.left == w;
        assert y in multiset(r);
      }
    }
  }

  /** Two strictly ascending tables with the same tuples are the same list. */
  lemma {:induction false} AscendingUnique(a: seq<IntTuple>, b: seq<IntTuple>)
    requires StrictlyAscending(a) && StrictlyAscending(b)
    requires forall x :: x in a <==> x in b
    ensures a == b
    decreases |a|
  {
    if a != [] { assert a[0] in a; }
    if b != [] { assert b[0] in b; }
    if a != [] && b != [] {
      HeadsAgree(a, b);
      forall x ensures x in a[1..] <==> x in b[1..] {
        if x in a[1..] { TailMember(a, b, x); }
        if x in b[1..] { TailMember(b, a, x); }
      }
      AscendingUnique(a[1..], b[1..]);
      assert a == [a[0]] + a[1..] && b == [b[0]] + b[1..];
    }
  }

  /** Two strictly ascending tables with the same tuples start with the same one. */
  lemma HeadsAgree(a: seq<IntTuple>, b: seq<IntTuple>)
    requires StrictlyAscending(a) && StrictlyAscending(b)
    requires |a| > 0 && |b| > 0
    requires forall x :: x in a <==> x in b
    ensures a[0] == b[0]
  {
    assert a[0] in a && b[0] in b;
    var j :| 0 <= j < |b| && b[j] == a[0];
    var k :| 0 <= k < |a| && a[k] == b[0];
    assert j == 0;
  }

  /** Past a shared head, a later tuple of one ascending table is a later tuple of the other. */
  lemma TailMember(a: seq<IntTuple>, b: seq<IntTuple>, x: IntTuple)
    requires StrictlyAscending(a) && StrictlyAscending(b)
    requires |a| > 0 && |b| > 0 && a[0] == b[0]
    requires forall y :: y in a ==> y in b
    requires x in a[1..]
    ensures x in b[1..]
  {
    var i :| 0 <= i < |a[1..]| && a[1..][i] == x;
    assert a[i + 1] == x && a[0].left < x.left && x in a;
    var m :| 0 <= m < |b| && b[m] == x;
    assert m != 0;
    assert b[1..][m - 1] == x;
  }

  /** A strictly ascending table of a list of values is unique. */
  lemma TabulatesUnique(values: seq<Int32>, a: seq<IntTuple>, b: seq<IntTuple>)
    requires StrictlyAscending(a) && StrictlyAscending(b)
    requires Tabulates(values, a) && Tabulates(values, b)
    ensures a == b
  {
    forall x ensures x in a <==> x in b {
      if x in a {
        var y :| y in b && y.left == x.left;
      }
      if x in b {
        var y :| y in a && y.left == x.left;
      }
    }
    AscendingUnique(a, b);
  }

  /** A strictly ascending list of each value with its count is the filled table. */
  lemma IsFilled(values: seq<Int32>, r: seq<IntTuple>)
    requires StrictlyAscending(r)
    requires forall i :: 0 <= i < |r| ==> r[i].left in values && r[i].right == multiset(values)[r[i].left]
    requires forall v :: v in values ==> exists i :: 0 <= i < |r| && r[i].left == v
    ensures r == Filled(values)
  {
    forall x: IntTuple | x in r ensures x.left in values && x.right == multiset(values)[x.left] {
      var i :| 0 <= i < |r| && r[i] == x;
    }
    forall v | v in values ensures exists x :: x in r && x.left == v {
      var i :| 0 <= i < |r| && r[i].left == v;
      assert r[i] in r;
    }
    FilledTabulates(values);
    TabulatesUnique(values, r, Filled(values));
  }

  // ------------------------------------------------------------ rank scan

  /**
   * The percentage of players at or below a running total,
   * `(int)((sum / (float)userCount) * 100)`. The quotient is taken exactly
   * and truncated; for no players the float quotient is infinite or NaN,
   * which the cast turns into an extreme int or zero.
   */
  function Pct(sum: int, userCount: nat): (p: int)
    ensures userCount > 0 && sum >= 0 ==> p * userCount <= 100 * sum < (p + 1) * userCount
    ensures userCount == 0 ==> (p > 0 <==> sum > 0) && (p < 0 <==> sum < 0)
  {
    if userCount == 0 then (if sum > 0 then INT_MAX else if sum < 0 then INT_MIN else 0)
    else JavaDiv(100 * sum, userCount)
  }

  /** The running total of the first n bucket counts. */
  function Cum(b: seq<IntTuple>, n: nat): int
    requires n <= |b|
  {
    SumRights(b[..n])
  }

  lemma CumStep(b: seq<IntTuple>, k: nat)
    requires k < |b|
    ensures Cum(b, k + 1) == Cum(b, k) + b[k].right
  {
    assert b[..k + 1] == b[..k] + [b[k]];
    SumRightsSnoc(b[..k], b[k]);
  }

  /** Bucket k reaches rank s: the share of players up to and including it
      is at least the rank's percentage. */
  predicate Reaches(b: seq<IntTuple>, userCount: nat, s: nat, k: nat)
    requires s < RANKS && k < |b|
  {
    RANK_PERCENTAGES[s] <= Pct(Cum(b, k + 1), userCount)
  }

  /** The first bucket at or after k that reaches rank s, if any. */
  function FirstReaching(b: seq<IntTuple>, userCount: nat, s: nat, k: nat): (r: Option<nat>)
    requires s < RANKS && k <= |b|
    decreases |b| - k
    ensures r.Some? ==> k <= r.value < |b| && Reaches(b, userCount, s, r.value)
    ensures r.Some? ==> forall j :: k <= j < r.value ==> !Reaches(b, userCount, s, j)
    ensures r.None? ==> forall j :: k <= j < |b| ==> !Reaches(b, userCount, s, j)
  {
    if k == |b| then None
    else if Reaches(b, userCount, s, k) then Some(k)
    else FirstReaching(b, userCount, s, k + 1)
  }

  /** A bucket that reaches a rank reaches every lower rank, so lower ranks
      are reached first: ranks are assigned in increasing order. */
  lemma FirstReachingOrdered(b: seq<IntTuple>, userCount: nat, s: nat, t: nat)
    requires s < t < RANKS
    requires FirstReaching(b, userCount, t, 0).Some?
    ensures FirstReaching(b, userCount, s, 0).Some?
    ensures FirstReaching(b, userCount, s, 0).value <= FirstReaching(b, userCount, t, 0).value
  {
    RankPercentagesIncrease();
    var kt := FirstReaching(b, userCount, t, 0).value;
    assert Reaches(b, userCount, s, kt);
  }

  /** When the counts add up to the number of players, the last bucket holds
      every player and so reaches every rank. */
  lemma AllRanksReached(b: seq<IntTuple>, userCount: nat, s: nat)
    requires b != [] && userCount > 0 && Cum(b, |b|) == userCount && s < RANKS
    ensures FirstReaching(b, userCount, s, 0).Some?
  {
    RankPercentagesIncrease();
    WholeIsHundredPercent(userCount);
    assert Reaches(b, userCount, s, |b| - 1);
  }

  /** All of the players are a hundred percent of them. */
  lemma WholeIsHundredPercent(userCount: nat)
    requires userCount > 0
    ensures Pct(userCount, userCount) == 100
  {
    var u: int := userCount;
    var q: int, r: int := (100 * u) / u, (100 * u) % u;
    assert 100 * u == q * u + r && 0 <= r < u;
    assert (100 - q) * u == r;
    if q < 100 { MulAtLeast(100 - q, u); }
    if q > 100 { MulAtLeast(q - 100, u); }
    assert JavaDiv(100 * u, u) == q;
  }

  lemma MulAtLeast(d: int, u: int)
    requires d >= 1 && u > 0
    ensures d * u >= u && (-d) * u <= -u
  {
    assert d * u == (d - 1) * u + u;
    assert (d - 1) * u >= 0;
  }

  /** A bucket that reaches rank s, with none before it, is the first. */
  lemma FirstIs(b: seq<IntTuple>, userCount: nat, s: nat, k: nat)
    requires s < RANKS && k < |b| && Reaches(b, userCount, s, k)
    requires forall j :: 0 <= j < k ==> !Reaches(b, userCount, s, j)
    ensures FirstReaching(b, userCount, s, 0) == Some(k)
  {
  }

  /** The levels and accumulated counts `calculateRanks` produces. */
  datatype Metrics = Metrics(scenario: string, levels: seq<int>, accumUsers: seq<int>, totalUsers: int)

  /** Rank s has been given the first bucket that reaches it. */
  ghost predicate Assigned(b: seq<IntTuple>, userCount: nat, s: nat, levels: seq<int>, accum: seq<int>)
    requires s < RANKS && |levels| == RANKS && |accum| == RANKS
  {
    FirstReaching(b, userCount, s, 0).Some? &&
    levels[s] == b[FirstReaching(b, userCount, s, 0).value].left + 1 &&
    accum[s] == Cum(b, FirstReaching(b, userCount, s, 0).value + 1)
  }

  /** Rank s is still unassigned and no bucket before `bidx` reaches it. */
  ghost predicate Pending(b: seq<IntTuple>, userCount: nat, s: nat, levels: seq<int>, accum: seq<int>, bidx: nat)
    requires s < RANKS && |levels| == RANKS && |accum| == RANKS && bidx <= |b|
  {
    levels[s] == 0 && accum[s] == 0 &&
    forall j :: 0 <= j < bidx ==> !Reaches(b, userCount, s, j)
  }

  /** Giving rank `sidx`, which bucket `bidx` reaches, that bucket's level and
      running total keeps the ranks before it assigned and those after it
      pending. */
  lemma AssignStep(b: seq<IntTuple>, userCount: nat, sidx: nat, bidx: nat, levels: seq<int>, accum: seq<int>)
    requires sidx < RANKS && bidx < |b| && |levels| == RANKS && |accum| == RANKS
    requires RANK_PERCENTAGES[sidx] <= Pct(Cum(b, bidx + 1), userCount)
    requires forall s :: 0 <= s < sidx ==>
      Assigned(b, userCount, s, levels, accum) && FirstReaching(b, userCount, s, 0).value <= bidx
    requires forall s :: sidx <= s < RANKS ==> Pending(b, userCount, s, levels, accum, bidx)
    ensures var levels', accum' := levels[sidx := b[bidx].left + 1], accum[sidx := Cum(b, bidx + 1)];
      (forall s :: 0 <= s < sidx + 1 ==>
        Assigned(b, userCount, s, levels', accum') && FirstReaching(b, userCount, s, 0).value <= bidx) &&
      (forall s :: sidx + 1 <= s < RANKS ==> Pending(b, userCount, s, levels', accum', bidx))
  {
    var levels', accum' := levels[sidx := b[bidx].left + 1], accum[sidx := Cum(b, bidx + 1)];
    assert Pending(b, userCount, sidx, levels, accum, bidx);
    assert Reaches(b, userCount, sidx, bidx);
    FirstIs(b, userCount, sidx, bidx);
    forall s | 0 <= s < sidx + 1
      ensures Assigned(b, userCount, s, levels', accum') && FirstReaching(b, userCount, s, 0).value <= bidx
    {
      if s < sidx {
        assert Assigned(b, userCount, s, levels, accum);
        assert levels'[s] == levels[s] && accum'[s] == accum[s];
      }
    }
    forall s | sidx + 1 <= s < RANKS ensures Pending(b, userCount, s, levels', accum', bidx) {
      assert Pending(b, userCount, s, levels, accum, bidx);
      assert levels'[s] == levels[s] && accum'[s] == accum[s];
    }
  }

  /** Ranks that bucket `bidx` does not reach stay pending past it. */
  lemma PendingStep(b: seq<IntTuple>, userCount: nat, sidx: nat, bidx: nat, next: nat, levels: seq<int>, accum: seq<int>)
    requires sidx <= RANKS && bidx < |b| && next == bidx + 1 && |levels| == RANKS && |accum| == RANKS
    requires sidx < RANKS ==> RANK_PERCENTAGES[sidx] > Pct(Cum(b, next), userCount)
    requires forall s :: sidx <= s < RANKS ==> Pending(b, userCount, s, levels, accum, bidx)
    ensures forall s :: sidx <= s < RANKS ==> Pending(b, userCount, s, levels, accum, next)
  {
    RankPercentagesIncrease();
    forall s | sidx <= s < RANKS ensures Pending(b, userCount, s, levels, accum, next) {
      assert Pending(b, userCount, s, levels, accum, bidx);
      assert RANK_PERCENTAGES[sidx] <= RANK_PERCENTAGES[s];
      assert !Reaches(b, userCount, s, bidx);
      forall j | 0 <= j < next ensures !Reaches(b, userCount, s, j) {
        if j < bidx {
          assert !Reaches(b, userCount, s, j);
        }
      }
    }
  }

  /**
   * The rank loop of `calculateRanks`: scanning the buckets in order, a rank
   * whose percentage the running share reaches gets the level one above the
   * bucket's value and the running total. Each rank gets the first bucket
   * that reaches it; a rank no bucket reaches keeps level and total zero.
   */
  method ComputeLevels(scenario: string, b: seq<IntTuple>, userCount: nat) returns (met: Metrics)
    ensures met.scenario == scenario && met.totalUsers == userCount
    ensures |met.levels| == RANKS && |met.accumUsers| == RANKS
    ensures LevelsByReach(b, userCount, met.levels, met.accumUsers)
  {
    var levels: seq<int> := seq(RANKS, _ => 0);
    var accum: seq<int> := seq(RANKS, _ => 0);
    var sidx := 0;
    var sum := 0;
    var bidx := 0;
    while bidx < |b| && sidx < RANKS
      invariant 0 <= bidx <= |b| && 0 <= sidx <= RANKS
      invariant |levels| == RANKS && |accum| == RANKS
      invariant sum == Cum(b, bidx)
      invariant forall s :: 0 <= s < sidx ==>
        Assigned(b, userCount, s, levels, accum) && FirstReaching(b, userCount, s, 0).value < bidx
      invariant forall s :: sidx <= s < RANKS ==> Pending(b, userCount, s, levels, accum, bidx)
    {
      CumStep(b, bidx);
      sum := sum + b[bidx].right;
      var pct := Pct(sum, userCount);
      while sidx < RANKS && RANK_PERCENTAGES[sidx] <= pct
        invariant 0 <= sidx <= RANKS
        invariant |levels| == RANKS && |accum| == RANKS
        invariant forall s :: 0 <= s < sidx ==>
          Assigned(b, userCount, s, levels, accum) && FirstReaching(b, userCount, s, 0).value <= bidx
        invariant forall s :: sidx <= s < RANKS ==> Pending(b, userCount, s, levels, accum, bidx)
      {
        AssignStep(b, userCount, sidx, bidx, levels, accum);
        accum := accum[sidx := sum];
        levels := levels[sidx := b[bidx].left + 1];
        sidx := sidx + 1;
      }
      PendingStep(b, userCount, sidx, bidx, bidx + 1, levels, accum);
      bidx := bidx + 1;
    }
    forall s | sidx <= s < RANKS
      ensures FirstReaching(b, userCount, s, 0).None? && levels[s] == 0 && accum[s] == 0
    {
      assert Pending(b, userCount, s, levels, accum, bidx) && bidx == |b|;
    }
    forall s | 0 <= s < sidx
      ensures FirstReaching(b, userCount, s, 0).Some? &&
        levels[s] == b[FirstReaching(b, userCount, s, 0).value].left + 1 &&
        accum[s] == Cum(b, FirstReaching(b, userCount, s, 0).value + 1)
    {
      assert Assigned(b, userCount, s, levels, accum);
    }
    met := Metrics(scenario, levels, accum, userCount);
  }

  /**
   * Each rank's level is one above the value of the first tuple of `b` at
   * which the running share of players reaches the rank's percentage, and
   * its total is the running count there; a rank no tuple reaches keeps
   * level and total zero.
   */
  ghost predicate LevelsByReach(b: seq<IntTuple>, count: nat, levels: seq<int>, accum: seq<int>)
    requires |levels| == RANKS && |accum| == RANKS
  {
    (forall s :: 0 <= s < RANKS && FirstReaching(b, count, s, 0).Some? ==>
      levels[s] == b[FirstReaching(b, count, s, 0).value].left + 1 &&
      accum[s] == Cum(b, FirstReaching(b, count, s, 0).value + 1)) &&
    (forall s :: 0 <= s < RANKS && FirstReaching(b, count, s, 0).None? ==>
      levels[s] == 0 && accum[s] == 0)
  }

  /**
   * `calculateRanks` over a histogram of ratings: each rank's level is one
   * above the first rating, in ascending order, at which the running share
   * of players reaches the rank's percentage. With at least one rating every
   * rank is reached, at a level one above some rating, and the levels never
   * fall from one rank to the next; with none, every level stays zero.
   */
  method CalculateRanks(scenario: string, h: SparseHistogram) returns (met: Metrics)
    requires h.Valid()
    ensures met.scenario == scenario && met.totalUsers == h.count
    ensures |met.levels| == RANKS && |met.accumUsers| == RANKS
    ensures h.count > 0 ==> forall s :: 0 <= s < RANKS ==> met.levels[s] - 1 in h.values
    ensures h.count > 0 ==> forall s :: 0 <= s < RANKS ==> met.accumUsers[s] > 0
    ensures h.count == 0 ==> forall s :: 0 <= s < RANKS ==> met.levels[s] == 0
    ensures Nondecreasing(met.levels)
    ensures LevelsByReach(Filled(h.values), h.count, met.levels, met.accumUsers)
  {
    var buckets := h.GetFilledBuckets();
    met := ComputeLevels(scenario, buckets, h.count);
    ScanOfFilled(buckets, h.values, h.count, met.levels, met.accumUsers);
  }

  /**
   * The rank scan over filled buckets (ascending values, counts of at least
   * one adding up to the number of players): with players, every rank is
   * reached, at a level one above an added value and a positive running
   * total; without, nothing is reached. Either way the levels never fall.
   */
  lemma ScanOfFilled(b: seq<IntTuple>, values: seq<Int32>, count: nat, levels: seq<int>, accum: seq<int>)
    requires StrictlyAscending(b) && SumRights(b) == count
    requires forall i :: 0 <= i < |b| ==> b[i].left in values && b[i].right >= 1
    requires |levels| == RANKS && |accum| == RANKS
    requires LevelsByReach(b, count, levels, accum)
    ensures count > 0 ==> forall s :: 0 <= s < RANKS ==> levels[s] - 1 in values
    ensures count > 0 ==> forall s :: 0 <= s < RANKS ==> accum[s] > 0
    ensures count == 0 ==> forall s :: 0 <= s < RANKS ==> levels[s] == 0
    ensures Nondecreasing(levels)
  {
    if count > 0 {
      assert b[..|b|] == b;
      forall s | 0 <= s < RANKS ensures FirstReaching(b, count, s, 0).Some? {
        AllRanksReached(b, count, s);
      }
      ReachedLevels(b, values, count, levels, accum);
    } else {
      SumRightsAtLeastLength(b);
    }
  }

  /** When every rank is reached, each level is one above an added value, each
      total is positive, and the levels never fall. */
  lemma ReachedLevels(b: seq<IntTuple>, values: seq<Int32>, count: nat, levels: seq<int>, accum: seq<int>)
    requires StrictlyAscending(b)
    requires forall i :: 0 <= i < |b| ==> b[i].left in values && b[i].right >= 1
    requires |levels| == RANKS && |accum| == RANKS
    requires LevelsByReach(b, count, levels, accum)
    requires forall s :: 0 <= s < RANKS ==> FirstReaching(b, count, s, 0).Some?
    ensures forall s :: 0 <= s < RANKS ==> levels[s] - 1 in values && accum[s] > 0
    ensures Nondecreasing(levels)
  {
    forall s | 0 <= s < RANKS ensures levels[s] - 1 in values && accum[s] > 0 {
      var k := FirstReaching(b, count, s, 0).value;
      CumPositive(b, k + 1);
    }
    forall s, t | 0 <= s < t < RANKS ensures levels[s] <= levels[t] {
      FirstReachingOrdered(b, count, s, t);
    }
  }

  /** Counts of at least one add up to at least the number of tuples. */
  lemma {:induction false} SumRightsAtLeastLength(b: seq<IntTuple>)
    requires forall i :: 0 <= i < |b| ==> b[i].right >= 1
    ensures SumRights(b) >= |b|
  {
    if b != [] {
      assert forall i :: 0 <= i < |b| - 1 ==> b[1..][i] == b[i + 1];
      SumRightsAtLeastLength(b[1..]);
    }
  }

  /** Counts of at least one give a positive running total. */
  lemma {:induction false} CumPositive(b: seq<IntTuple>, n: nat)
    requires 0 < n <= |b|
    requires forall i :: 0 <= i < |b| ==> b[i].right >= 1
    ensures Cum(b, n) > 0
  {
    CumStep(b, n - 1);
    if n > 1 {
      CumPositive(b, n - 1);
    } else {
      assert b[..0] == [];
    }
  }

  // ------------------------------------------------------------ loadRanks

  /** A row of the RANKS table. */
  datatype Row = Row(scenario: string, rank: int, level: int)

  /** One scenario's levels as `loadRanks` assembles them. */
  datatype Group = Group(scenario: string, levels: seq<int>)

  /** The number of the first n rows whose scenario differs from the
      previous row's. */
  function ScenarioStarts(rows: seq<Row>, n: nat): nat
    requires n <= |rows|
  {
    if n == 0 then 0
    else ScenarioStarts(rows, n - 1) + (if n == 1 || rows[n - 1].scenario != rows[n - 2].scenario then 1 else 0)
  }

  /** Every group has one level per rank. */
  predicate Wide(g: seq<Group>)
  {
    forall i :: 0 <= i < |g| ==> |g[i].levels| == RANKS
  }

  /** The effect of one row on the groups built so far. */
  function AddRow(g: seq<Group>, r: Row): (g': seq<Group>)
    requires 0 <= r.rank < RANKS
    requires Wide(g)
    ensures Wide(g')
    ensures |g'| > 0 && g'[|g'| - 1].scenario == r.scenario
    ensures g' [..|g'| - 1] == (if g != [] && g[|g| - 1].scenario == r.scenario then g[..|g| - 1] else g)
  {
    if g == [] || g[|g| - 1].scenario != r.scenario then
      g + [Group(r.scenario, seq(RANKS, _ => 0)[r.rank := r.level])]
    else
      g[..|g| - 1] + [Group(r.scenario, g[|g| - 1].levels[r.rank := r.level])]
  }

  /** The first n rows' ranks index the levels array. */
  predicate RanksBelow(rows: seq<Row>, n: nat)
    requires n <= |rows|
  {
    forall i :: 0 <= i < n ==> 0 <= rows[i].rank < RANKS
  }

  /** Every row's rank indexes the levels array. */
  predicate RanksInRange(rows: seq<Row>)
  {
    RanksBelow(rows, |rows|)
  }

  /**
   * The levels `loadRanks` builds from the first n rows: a new group, with
   * every level zero, starts at each row whose scenario differs from the
   * previous row's, and each row sets its rank's level in the current group.
   */
  function GroupedUpTo(rows: seq<Row>, n: nat): (g: seq<Group>)
    requires n <= |rows| && RanksBelow(rows, n)
    ensures Wide(g)
    ensures |g| == 0 <==> n == 0
  {
    if n == 0 then [] else AddRow(GroupedUpTo(rows, n - 1), rows[n - 1])
  }

  /** The levels `loadRanks` builds from all the rows. */
  function Grouped(rows: seq<Row>): seq<Group>
    requires RanksInRange(rows)
  {
    GroupedUpTo(rows, |rows|)
  }

  /** A new group starts exactly at each change of scenario, and the last
      group is the last row's scenario. */
  lemma {:induction false} GroupCount(rows: seq<Row>, n: nat)
    requires n <= |rows| && RanksBelow(rows, n)
    ensures |GroupedUpTo(rows, n)| == ScenarioStarts(rows, n)
    ensures n > 0 ==> GroupedUpTo(rows, n)[|GroupedUpTo(rows, n)| - 1].scenario == rows[n - 1].scenario
  {
    if n > 0 {
      GroupCount(rows, n - 1);
      var g := GroupedUpTo(rows, n - 1);
      assert |AddRow(g, rows[n - 1])| == |g| + (if g != [] && g[|g| - 1].scenario == rows[n - 1].scenario then 0 else 1);
    }
  }

  /** Neighbouring groups have different scenarios. */
  predicate Alternating(g: seq<Group>)
  {
    forall i :: 0 <= i < |g| - 1 ==> g[i].scenario != g[i + 1].scenario
  }

  /** `loadRanks` never builds two neighbouring groups of one scenario. */
  lemma {:induction false} GroupsAlternate(rows: seq<Row>, n: nat)
    requires n <= |rows| && RanksBelow(rows, n)
    ensures Alternating(GroupedUpTo(rows, n))
  {
    if n > 0 {
      GroupsAlternate(rows, n - 1);
      AlternateStep(GroupedUpTo(rows, n - 1), rows[n - 1]);
    }
  }

  /** Applying a row keeps neighbouring groups apart. */
  lemma AlternateStep(g: seq<Group>, r: Row)
    requires 0 <= r.rank < RANKS && Wide(g)
    requires Alternating(g)
    ensures Alternating(AddRow(g, r))
  {
    var g' := AddRow(g, r);
    forall i | 0 <= i < |g'| - 1 ensures g'[i].scenario != g'[i + 1].scenario {
      if i + 1 < |g'| - 1 {
        assert g'[i] == g'[..|g'| - 1][i] && g'[i + 1] == g'[..|g'| - 1][i + 1];
      } else if |g'[..|g'| - 1]| == |g| {
        assert g'[i] == g[|g| - 1];
      } else {
        assert g'[i] == g[i] && g'[i + 1].scenario == r.scenario;
      }
    }
  }

  /** The levels arrays of a list of RankLevels. */
  function Arrays(list: seq<RankLevels>): set<array<int>>
  {
    set i | 0 <= i < |list| :: list[i].levels
  }

  lemma ArraysSnoc(list: seq<RankLevels>, r: RankLevels)
    ensures Arrays(list + [r]) == Arrays(list) + {r.levels}
  {
    var l' := list + [r];
    assert forall i :: 0 <= i < |list| ==> l'[i] == list[i];
    assert l'[|list|] == r;
  }

  /** The objects hold the groups' scenarios and levels, each in its own
      array; `fp` names the set of those arrays. */
  ghost predicate Holds(list: seq<RankLevels>, g: seq<Group>, fp: set<array<int>>)
    reads fp
  {
    fp == Arrays(list) && |list| == |g| &&
    (forall i :: 0 <= i < |list| ==> list[i].scenario == g[i].scenario && list[i].levels[..] == g[i].levels) &&
    (forall i, j :: 0 <= i < j < |list| ==> list[i].levels != list[j].levels)
  }

  /** A row with a new scenario: a fresh RankLevels joins the list, holding
      the row's level at its rank and zero elsewhere. */
  method StartLevels(list: seq<RankLevels>, row: Row, ghost g: seq<Group>, ghost fp: set<array<int>>)
    returns (list': seq<RankLevels>, ghost fp': set<array<int>>)
    requires 0 <= row.rank < RANKS && Wide(g) && Holds(list, g, fp)
    requires list == [] || list[|list| - 1].scenario != row.scenario
    ensures Holds(list', AddRow(g, row), fp') && fresh(fp' - fp)
    ensures |list'| == |list| + 1 && list'[..|list|] == list
  {
    ghost var g' := g + [Group(row.scenario, seq(RANKS, _ => 0)[row.rank := row.level])];
    assert AddRow(g, row) == g';
    var current := new RankLevels(row.scenario);
    current.levels[row.rank] := row.level;
    list' := list + [current];
    assert current.levels[..] == g'[|g|].levels;
    forall i | 0 <= i < |list|
      ensures list'[i].scenario == g'[i].scenario && list'[i].levels[..] == g'[i].levels
    {
      assert list'[i] == list[i] && g'[i] == g[i];
    }
    ArraysSnoc(list, current);
    fp' := fp + {current.levels};
  }

  /** A row of the current scenario: its level is stored in the last RankLevels. */
  method SetLevel(list: seq<RankLevels>, row: Row, ghost g: seq<Group>, ghost fp: set<array<int>>)
    requires 0 <= row.rank < RANKS && Wide(g) && Holds(list, g, fp)
    requires list != [] && list[|list| - 1].scenario == row.scenario
    modifies fp
    ensures Holds(list, AddRow(g, row), fp)
  {
    ghost var g' := g[..|g| - 1] + [Group(g[|g| - 1].scenario, g[|g| - 1].levels[row.rank := row.level])];
    assert AddRow(g, row) == g';
    var current := list[|list| - 1];
    current.levels[row.rank] := row.level;
    assert current.levels[..] == g'[|g| - 1].levels;
    forall i | 0 <= i < |list| - 1
      ensures list[i].scenario == g'[i].scenario && list[i].levels[..] == g'[i].levels
    {
      assert g'[i] == g[i];
    }
  }

  /** The objects built from the first `idx` rows hold their groups. */
  ghost predicate Loaded(rows: seq<Row>, idx: nat, list: seq<RankLevels>, fp: set<array<int>>)
    reads fp
  {
    idx <= |rows| && RanksBelow(rows, idx) && Holds(list, GroupedUpTo(rows, idx), fp)
  }

  /** One more row with a valid rank extends the groups by that row. */
  lemma GroupedNext(rows: seq<Row>, idx: nat)
    requires idx < |rows| && RanksBelow(rows, idx) && 0 <= rows[idx].rank < RANKS
    ensures RanksBelow(rows, idx + 1)
    ensures GroupedUpTo(rows, idx + 1) == AddRow(GroupedUpTo(rows, idx), rows[idx])
  {
  }

  /**
   * The body of the `loadRanks` loop for a row with a valid rank: a row with
   * a new scenario starts a fresh RankLevels, and the row's level is stored
   * in the current one, the last of the list.
   */
  method AddRowTo(rows: seq<Row>, idx: nat, list: seq<RankLevels>, ghost fp: set<array<int>>)
    returns (list': seq<RankLevels>, ghost fp': set<array<int>>)
    requires idx < |rows| && 0 <= rows[idx].rank < RANKS && Loaded(rows, idx, list, fp)
    modifies fp
    ensures Loaded(rows, idx + 1, list', fp') && fresh(fp' - fp)
    ensures |list| <= |list'| <= |list| + 1 && list'[..|list|] == list
  {
    GroupedNext(rows, idx);
    if list == [] || list[|list| - 1].scenario != rows[idx].scenario {
      list', fp' := StartLevels(list, rows[idx], GroupedUpTo(rows, idx), fp);
    } else {
      SetLevel(list, rows[idx], GroupedUpTo(rows, idx), fp);
      list', fp' := list, fp;
    }
  }

  /**
   * `loadRanks` over the rows of the query (ordered by scenario and rank):
   * one fresh RankLevels per group, in order, each with its own array. A
   * rank outside the levels array raises (not ok).
   */
  method LoadRanks(rows: seq<Row>) returns (ok: bool, levelList: seq<RankLevels>)
    ensures ok <==> RanksInRange(rows)
    ensures ok ==> Holds(levelList, Grouped(rows), Arrays(levelList))
    ensures fresh(Arrays(levelList))
  {
    levelList := [];
    var idx := 0;
    ghost var made: set<array<int>> := {};
    while idx < |rows| && 0 <= rows[idx].rank < RANKS
      invariant Loaded(rows, idx, levelList, made) && fresh(made)
    {
      levelList, made := AddRowTo(rows, idx, levelList, made);
      idx := idx + 1;
    }
    // the row that stopped the loop early has a rank outside the array
    ok := idx == |rows|;
  }
}
