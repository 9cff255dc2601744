/** A lost or doubled row as the caller sees it: on the points of the series, in any window. */
module LedgerErrorPoints {
  import opened Prelude
  import opened LedgerBuckets
  import opened LedgerSeries
  import opened LedgerSeriesTruth
  import opened LedgerSeriesWindows
  import opened LedgerSeriesRange
  import opened LedgerErrors

  // ----- levels of a fully covered ledger -----

  lemma {:induction false} SumThroughIsPrefix(rows: seq<Row>, key: int)
    requires Sorted(rows)
    ensures SumThrough(rows, key) == Sum(rows[..CountBelow(rows, key + 1)])
  {
    if rows != [] {
      var n := |rows| - 1;
      SumThroughIsPrefix(rows[..n], key);
      if rows[n].key <= key {
        CountBelowSplits(rows, key + 1);
        assert rows[n].key < key + 1;
        SumThroughAll(rows, key);
        assert rows[..|rows|] == rows;
      } else {
        assert rows[..n][..CountBelow(rows, key + 1)] == rows[..CountBelow(rows, key + 1)];
      }
    } else {
      assert rows[..0] == [];
    }
  }

  lemma {:induction false} LevelIsLastFigure(rows: seq<Row>, key: int)
    requires Sorted(rows) && AllCovered(rows) && 0 < CountBelow(rows, key + 1)
    ensures KnownLevel(rows, key) == rows[CountBelow(rows, key + 1) - 1].after
  {
    var n := |rows| - 1;
    CountBelowSplits(rows, key + 1);
    if rows[n].key > key {
      LevelIsLastFigure(rows[..n], key);
    }
  }

  lemma {:induction false} NoLevelBefore(rows: seq<Row>, key: int)
    requires CountBelow(rows, key + 1) == 0
    ensures KnownLevel(rows, key).None?
  {
    if rows != [] {
      NoLevelBefore(rows[..|rows| - 1], key);
    }
  }

  lemma {:induction false} FirstBucketOpens(rows: seq<Row>, key: int)
    requires rows != [] && rows[0].key == key && rows[0].after.Some?
    ensures FlowOf(rows, key).firstAfter == rows[0].after && FlowOf(rows, key).netThruFirst == rows[0].amount
  {
    var n := |rows| - 1;
    if n == 0 {
      assert rows[..0] == [];
      assert FlowOf(rows, key) == AddRow(EMPTY_FLOW, rows[0]);
    } else {
      FirstBucketOpens(rows[..n], key);
    }
  }

  // ----- a missing row -----

  lemma {:induction false} SumWithout(rows: seq<Row>, i: nat, n: nat)
    requires i < |rows| && n < |rows|
    ensures Sum(Removed(rows, i)[..n]) == if n <= i then Sum(rows[..n]) else Sum(rows[..n + 1]) - rows[i].amount
  {
    var left := Removed(rows, i);
    if n == 0 {
      assert left[..0] == rows[..0] == [];
    } else {
      SumWithout(rows, i, n - 1);
      SumNext(left, n - 1);
      SumNext(rows, n - 1);
      SumNext(rows, n);
      if n == i + 1 { SumNext(rows, i); }
    }
  }

  lemma RemovedStaysSorted(rows: seq<Row>, i: nat)
    requires Sorted(rows) && AllCovered(rows) && i < |rows|
    ensures Sorted(Removed(rows, i)) && AllCovered(Removed(rows, i))
  {
    var left := Removed(rows, i);
    assert forall k :: 0 <= k < |left| ==> left[k] == rows[if k < i then k else k + 1];
  }

  /** What the close of a bucket exceeds the rows still there by. */
  function Gap(rows: seq<Row>, i: nat, key: int): real
    requires i + 1 < |rows|
  {
    if rows[i + 1].key <= key then rows[i].amount else 0.0
  }

  /** The rows still there up to a bucket, and the last of them. */
  lemma LeftThrough(rows: seq<Row>, i: nat, key: int) returns (n: nat)
    requires Sorted(rows) && 0 < i < |rows| - 1 && rows[0].key <= key
    ensures var left := Removed(rows, i);
            && n == CountBelow(left, key + 1) && 0 < n <= |left| < |rows|
            && left[n - 1] == rows[if n <= i then n - 1 else n]
            && (i < n <==> rows[i + 1].key <= key)
  {
    var left := Removed(rows, i);
    assert forall k :: 0 <= k < |left| ==> left[k] == rows[if k < i then k else k + 1];
    n := CountBelow(left, key + 1);
    CountBelowSplits(left, key + 1);
    hide Sorted, CountBelow, Removed;
    assert left[0] == rows[0] && left[i] == rows[i + 1];
  }

  lemma MissingRowLevel(rows: seq<Row>, opening: real, i: nat, key: int)
    requires Sorted(rows) && Consistent(rows, opening) && AllCovered(rows) && 0 < i < |rows| - 1 && rows[0].key <= key
    ensures KnownLevel(Removed(rows, i), key) == Some(opening + SumThrough(Removed(rows, i), key) + Gap(rows, i, key))
  {
    hide Sorted, KnownLevel, SumThrough, Sum, CountBelow, Removed;
    var n := LeftThrough(rows, i, key);
    RemovedStaysSorted(rows, i);
    LevelIsLastFigure(Removed(rows, i), key);
    SumThroughIsPrefix(Removed(rows, i), key);
    SumWithout(rows, i, n);
  }

  lemma MissingRowImbalance(rows: seq<Row>, opening: real, i: nat, key: int)
    requires Sorted(rows) && Consistent(rows, opening) && AllCovered(rows) && 0 < i < |rows| - 1 && rows[0].key <= key
    ensures var left := Removed(rows, i);
            && KnownLevel(left, key).Some? && KnownOpen(left, key).Some?
            && KnownLevel(left, key).value - KnownOpen(left, key).value - FlowOf(left, key).net
               == if key == rows[i + 1].key then rows[i].amount else 0.0
  {
    hide Sorted, KnownLevel, FlowOf, SumThrough, Consistent;
    var left := Removed(rows, i);
    RemovedStaysSorted(rows, i);
    MissingRowLevel(rows, opening, i, key);
    NetIsStep(left, key);
    if rows[0].key <= key - 1 {
      MissingRowLevel(rows, opening, i, key - 1);
    } else {
      FirstRowOpens(rows, opening, i, key);
    }
  }

  lemma FirstRowOpens(rows: seq<Row>, opening: real, i: nat, key: int)
    requires Sorted(rows) && Consistent(rows, opening) && AllCovered(rows) && 0 < i < |rows| - 1 && rows[0].key == key
    ensures var left := Removed(rows, i);
            KnownOpen(left, key) == Some(opening) && SumThrough(left, key - 1) == 0.0 && key <= rows[i + 1].key
  {
    var left := Removed(rows, i);
    RemovedStaysSorted(rows, i);
    assert left[0] == rows[0];
    CountBelowSplits(left, key);
    assert CountBelow(left, key - 1 + 1) == 0;
    NoLevelBefore(left, key - 1);
    FirstBucketOpens(left, key);
    assert forall k :: 0 <= k < |left| ==> left[0].key <= left[k].key;
    SumThroughNone(left, key - 1);
    SumNext(rows, 0);
    assert rows[..0] == [];
  }

  /**
    In any window over a ledger that lost an interior row, the point of the following row's bucket
    carries the mismatch flag, if and only if the amount exceeds the tolerance, and no other point does.
   */
  lemma MissingRowShows(edge: int -> int, rows: seq<Row>, snaps: seq<Reading>, from: Option<int>, to: Option<int>,
                        opening: real, i: nat, n: nat)
    requires Sorted(rows) && Consistent(rows, opening) && AllCovered(rows) && 0 < i < |rows| - 1
    requires n < |SeriesOf(edge, Removed(rows, i), snaps, false, from, to).points|
    ensures var p := SeriesOf(edge, Removed(rows, i), snaps, false, from, to).points[n];
            p.flowMismatch <==> p.key == rows[i + 1].key && AbsReal(rows[i].amount) > FLOW_EPSILON
  {
    hide Sorted, Consistent, SeriesOf, WindowOf, KnownLevel, KnownOpen, FlowOf, LastReading, Flagged;
    var left := Removed(rows, i);
    RemovedStaysSorted(rows, i);
    SeriesIsSlice(edge, left, snaps, from, to);
    var w := WindowOf(left, Anchor(snaps), from, to);
    StartsAtFirstRow(left, Anchor(snaps), from, to);
    var key := w.lo + n;
    assert left[0] == rows[0];
    MissingRowImbalance(rows, opening, i, key);
    MissingRowFlagged(rows, opening, i, key);
  }

  lemma StartsAtFirstRow(rows: seq<Row>, anchor: Option<Reading>, from: Option<int>, to: Option<int>)
    requires rows != []
    ensures rows[0].key <= WindowOf(rows, anchor, from, to).lo
  {
  }

  /** And the point is there: a query over a covered ledger has one for each bucket it asks for. */
  lemma EveryBucketReported(edge: int -> int, rows: seq<Row>, snaps: seq<Reading>, from: Option<int>, to: Option<int>,
                            key: int)
      returns (n: nat)
    requires Sorted(rows) && AllCovered(rows) && Asked(rows, snaps, from, to, key)
    ensures var points := SeriesOf(edge, rows, snaps, false, from, to).points;
            n < |points| && points[n].key == key && points[n] == WindowFree(edge, rows, snaps, key)
  {
    hide Sorted, SeriesOf, WindowFree, Asked, Derivable, AllCovered;
    CoveredIsDerivable(rows, snaps, from, to, key);
    var lo := SliceOfAsked(edge, rows, snaps, from, to);
    n := key - lo;
    WindowFreeKey(edge, rows, snaps, key);
  }

  lemma CoveredIsDerivable(rows: seq<Row>, snaps: seq<Reading>, from: Option<int>, to: Option<int>, key: int)
    requires Sorted(rows) && AllCovered(rows) && Asked(rows, snaps, from, to, key)
    ensures Derivable(rows, snaps)
  {
  }

  // ----- a doubled row -----

  /** Where the copy sorts: among rows of its own bucket's order. */
  ghost predicate Fits(rows: seq<Row>, j: nat, d: Row)
    requires j <= |rows|
  {
    (j > 0 ==> rows[j - 1].key <= d.key) && (j < |rows| ==> d.key <= rows[j].key)
  }

  lemma InsertedStaysSorted(rows: seq<Row>, j: nat, d: Row)
    requires Sorted(rows) && AllCovered(rows) && j <= |rows| && Fits(rows, j, d) && d.after.Some?
    ensures Sorted(Inserted(rows, j, d)) && AllCovered(Inserted(rows, j, d))
  {
    var grown := Inserted(rows, j, d);
    assert forall k :: 0 <= k < |grown| ==> grown[k] == if k < j then rows[k] else if k == j then d else rows[k - 1];
  }

  /** Whatever the running-balance check flags, in any window that holds the bucket its point shows. */
  lemma FlagShows(edge: int -> int, rows: seq<Row>, snaps: seq<Reading>, from: Option<int>, to: Option<int>, key: int)
      returns (n: nat)
    requires Sorted(rows) && AllCovered(rows) && Flagged(rows, key) && Asked(rows, snaps, from, to, key)
    ensures var points := SeriesOf(edge, rows, snaps, false, from, to).points;
            n < |points| && points[n].key == key && points[n].flowMismatch
  {
    hide Sorted, SeriesOf, KnownLevel, FlowOf, LastReading, Flagged;
    n := EveryBucketReported(edge, rows, snaps, from, to, key);
    CoveredMakesLevel(rows, key, 0);
    OpensWhereLevelIs(rows, key);
  }

  lemma OpensWhereLevelIs(rows: seq<Row>, key: int)
    requires Sorted(rows) && KnownLevel(rows, key).Some?
    ensures KnownOpen(rows, key).Some?
  {
    FlowCarriesLevel(rows, key);
  }

  /** A row doubled short of the end, by more than twice the tolerance, shows at one of two buckets. */
  lemma DoubledRowShows(edge: int -> int, rows: seq<Row>, snaps: seq<Reading>, from: Option<int>, to: Option<int>,
                        opening: real, i: nat, j: nat, d: Row) returns (n: nat)
    requires Sorted(rows) && Consistent(rows, opening) && AllCovered(rows) && i < j < |rows| && Fits(rows, j, d)
    requires d.amount == rows[i].amount && d.after == rows[i].after && AbsReal(rows[i].amount) > 2.0 * FLOW_EPSILON
    requires Asked(Inserted(rows, j, d), snaps, from, to, d.key)
    requires Asked(Inserted(rows, j, d), snaps, from, to, rows[j].key)
    ensures var points := SeriesOf(edge, Inserted(rows, j, d), snaps, false, from, to).points;
            n < |points| && points[n].key in {d.key, rows[j].key} && points[n].flowMismatch
  {
    hide Sorted, Consistent, SeriesOf, Asked, Flagged;
    InsertedStaysSorted(rows, j, d);
    DoubleAlwaysCaught(rows, opening, i, j, d);
    if Flagged(Inserted(rows, j, d), d.key) {
      n := FlagShows(edge, Inserted(rows, j, d), snaps, from, to, d.key);
    } else {
      n := FlagShows(edge, Inserted(rows, j, d), snaps, from, to, rows[j].key);
    }
  }
}
