/**
  Day, week and month buckets in a local zone. The zone is only known as the instant of each
  local midnight, which is strictly increasing but not evenly spaced: days that are 23 or 25
  hours long are covered.
 */
module Buckets {
  import opened Prelude
  import opened Grid
  import opened Calendar

  datatype Step = Day | Week | Month

  /** The local calendar day an instant falls on. */
  function LocalDay(midnight: int -> int, t: int): int
    requires StrictlyIncreasing(midnight)
  {
    Floor(midnight, t)
  }

  /** The start of the bucket containing an instant. */
  function BucketStart(midnight: int -> int, step: Step, t: int): int
    requires StrictlyIncreasing(midnight)
  {
    var day := LocalDay(midnight, t);
    match step
    case Day => midnight(day)
    case Week => midnight(day - (Weekday(day) + 6) % 7)
    case Month => midnight(MonthStart(MonthOf(day)))
  }

  /** The exclusive upper edge: step the calendar date, then take that day's midnight. */
  function NextBucketStart(midnight: int -> int, step: Step, start: int): int
    requires StrictlyIncreasing(midnight)
  {
    var day := LocalDay(midnight, start);
    match step
    case Day => midnight(day + 1)
    case Week => midnight(day + 7)
    case Month => midnight(MonthStart(MonthOf(day) + 1))
  }

  // ----- buckets as one increasing sequence -----

  /** The first day of bucket k. Day 0 is a Monday, so week k starts on day 7k. */
  function BucketDay(step: Step, k: int): int {
    match step
    case Day => k
    case Week => 7 * k
    case Month => MonthStart(k)
  }

  function Edges(midnight: int -> int, step: Step): int -> int {
    k => midnight(BucketDay(step, k))
  }

  lemma EdgesIncrease(midnight: int -> int, step: Step)
    requires StrictlyIncreasing(midnight)
    ensures StrictlyIncreasing(Edges(midnight, step))
  {
    hide MonthStart;
    MonthStartsIncrease();
    var edge := Edges(midnight, step);
    forall i, j | i < j ensures edge(i) < edge(j) {
      assert MonthStart(i) < MonthStart(j);
      assert midnight(BucketDay(step, i)) < midnight(BucketDay(step, j));
    }
  }

  /** Which bucket an instant belongs to. */
  function BucketOf(midnight: int -> int, step: Step, t: int): int
    requires StrictlyIncreasing(midnight)
  {
    EdgesIncrease(midnight, step);
    Floor(Edges(midnight, step), t)
  }

  /** The bucket a whole calendar day belongs to. */
  function BucketOfDay(step: Step, day: int): (k: int)
    ensures BucketDay(step, k) <= day < BucketDay(step, k + 1)
  {
    match step
    case Day => day
    case Week => day / 7
    case Month => MonthOf(day)
  }

  lemma BucketStartOfDay(midnight: int -> int, step: Step, t: int)
    requires StrictlyIncreasing(midnight)
    ensures BucketStart(midnight, step, t) == midnight(BucketDay(step, BucketOfDay(step, LocalDay(midnight, t))))
  {
    hide MonthStart, LocalDay;
    var day := LocalDay(midnight, t);
    assert day - (Weekday(day) + 6) % 7 == 7 * (day / 7);
  }

  /** The calendar arithmetic of bucketStart lands on the edge at or below the instant. */
  lemma BucketStartIsEdge(midnight: int -> int, step: Step, t: int)
    requires StrictlyIncreasing(midnight)
    ensures BucketStart(midnight, step, t) == Edges(midnight, step)(BucketOf(midnight, step, t))
  {
    hide MonthStart, BucketStart, BucketDay, BucketOfDay, StrictlyIncreasing;
    EdgesIncrease(midnight, step);
    var edge, day := Edges(midnight, step), LocalDay(midnight, t);
    var k := BucketOfDay(step, day);
    BucketStartOfDay(midnight, step, t);
    FloorAdjoint(midnight, t, BucketDay(step, k));
    FloorAdjoint(midnight, t, BucketDay(step, k + 1));
    FloorAdjoint(edge, t, k);
  }

  /** Stepping from an edge reaches the next edge: no bucket is skipped and none repeated. */
  lemma NextIsNextEdge(midnight: int -> int, step: Step, k: int)
    requires StrictlyIncreasing(midnight)
    ensures NextBucketStart(midnight, step, Edges(midnight, step)(k)) == Edges(midnight, step)(k + 1)
  {
    hide MonthStart, StrictlyIncreasing, Floor;
    var first := BucketDay(step, k);
    InOrder(midnight, first, first + 1);
    FloorAdjoint(midnight, midnight(first), first);
    var next := BucketDay(step, k + 1);
    assert Edges(midnight, step)(k) == midnight(first) && Edges(midnight, step)(k + 1) == midnight(next);
    assert LocalDay(midnight, midnight(first)) == first;
    assert step == Week ==> BucketDay(step, k + 1) == first + 7;
    if step == Month {
      MonthLengthBounds(k);
      MonthOfUnique(first, k);
    }
  }

  /**
    Buckets partition time: the half-open interval from an instant's bucketStart contains it, and
    is the only one that does.
   */
  lemma BucketsPartitionTime(midnight: int -> int, step: Step, t: int, s: int)
    requires StrictlyIncreasing(midnight)
    ensures var b := BucketStart(midnight, step, t);
            b <= t < NextBucketStart(midnight, step, b)
    ensures var b := BucketStart(midnight, step, s);
            b <= t < NextBucketStart(midnight, step, b) ==> b == BucketStart(midnight, step, t)
  {
    hide BucketStart, NextBucketStart, BucketDay, StrictlyIncreasing, Edges;
    EdgesIncrease(midnight, step);
    BucketStartIsEdge(midnight, step, t);
    BucketStartIsEdge(midnight, step, s);
    NextIsNextEdge(midnight, step, BucketOf(midnight, step, t));
    NextIsNextEdge(midnight, step, BucketOf(midnight, step, s));
    FloorAdjoint(Edges(midnight, step), t, BucketOf(midnight, step, s));
  }

  /** The edges of a run of buckets, both ends included. */
  function EdgeRange(midnight: int -> int, step: Step, first: int, last: int): (starts: seq<int>)
    ensures |starts| == Max(0, last - first + 1)
    ensures forall i :: 0 <= i < |starts| ==> starts[i] == Edges(midnight, step)(first + i)
  {
    seq(Max(0, last - first + 1), i => Edges(midnight, step)(first + i))
  }

  /** Iterating next from one bucket's start up to another's visits every edge between, once. */
  method BucketStarts(midnight: int -> int, step: Step, lo: int, hi: int, ghost first: int, ghost last: int)
    returns (starts: seq<int>)
    requires StrictlyIncreasing(midnight)
    requires lo == Edges(midnight, step)(first) && hi == Edges(midnight, step)(last)
    ensures starts == EdgeRange(midnight, step, first, last)
  {
    hide NextBucketStart, Edges, EdgeRange, StrictlyIncreasing;
    EdgesIncrease(midnight, step);
    ghost var edge := Edges(midnight, step);
    starts := [];
    var b := lo;
    while b <= hi
      invariant b == edge(first + |starts|)
      invariant |starts| <= Max(0, last - first + 1)
      invariant forall i :: 0 <= i < |starts| ==> starts[i] == edge(first + i)
      decreases hi - b
    {
      var k := first + |starts|;
      InOrder(edge, last, k);
      InOrder(edge, k, k + 1);
      NextIsNextEdge(midnight, step, k);
      starts := starts + [b];
      b := NextBucketStart(midnight, step, b);
    }
    InOrder(edge, first + |starts|, last);
  }

  /** A query bounded by two bucket edges selects exactly the instants of the buckets between. */
  lemma EdgeBoundsSelectBuckets(midnight: int -> int, step: Step, lo: int, hi: int, t: int)
    requires StrictlyIncreasing(midnight)
    ensures var edge := Edges(midnight, step);
            edge(lo) <= t < edge(hi + 1) <==> lo <= BucketOf(midnight, step, t) <= hi
  {
    EdgesIncrease(midnight, step);
    FloorAdjoint(Edges(midnight, step), t, lo);
    FloorAdjoint(Edges(midnight, step), t, hi + 1);
  }

  /** Later instants fall in the same or a later bucket, so a dated ledger is sorted by bucket. */
  lemma BucketOfMonotone(midnight: int -> int, step: Step, s: int, t: int)
    requires StrictlyIncreasing(midnight)
    requires s <= t
    ensures BucketOf(midnight, step, s) <= BucketOf(midnight, step, t)
  {
    EdgesIncrease(midnight, step);
    FloorMonotone(Edges(midnight, step), s, t);
  }
}
