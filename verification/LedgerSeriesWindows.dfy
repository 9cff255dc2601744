/**
  The derivation does not depend on the window asked for. Whatever the ledger holds, consistent or
  not, a point any window reports for a bucket is the one a window-free definition gives it.
 */
module LedgerSeriesWindows {
  import opened Prelude
  import opened LedgerBuckets
  import opened LedgerSeries
  import opened LedgerSeriesTruth

  // ----- the window-free definition -----

  /** The newest running balance at or before a bucket's end, accumulated over the rows after it. */
  function KnownLevel(rows: seq<Row>, key: int): Option<real> {
    if rows == [] then None
    else
      var n := |rows| - 1;
      var earlier := KnownLevel(rows[..n], key);
      if rows[n].key > key then earlier
      else if rows[n].after.Some? then rows[n].after
      else if earlier.Some? then Some(earlier.value + rows[n].amount)
      else None
  }

  /** The level a bucket opens on: the previous close, or what its own first running balance implies. */
  function KnownOpen(rows: seq<Row>, key: int): Option<real> {
    var before, f := KnownLevel(rows, key - 1), FlowOf(rows, key);
    if before.Some? then before
    else if f.firstAfter.Some? then Some(f.firstAfter.value - f.netThruFirst)
    else None
  }

  /** The anchor's reading shifted by every row between it and a bucket's end. */
  function WalkedLevel(rows: seq<Row>, anchor: Reading, key: int): real {
    anchor.balance + SumThrough(rows, key) - SumThrough(rows, anchor.key)
  }

  function PointOf(edge: int -> int, snaps: seq<Reading>, key: int, flow: Flow, open: real, close: real,
                   flagged: bool): Point {
    var reading := LastReading(snaps, key);
    Point(key, edge(key), close, flow.txns == 0,
          if flow.txns == 0 then Carried
          else if flow.lastAfter.Some? && flow.lastCovered then BalanceAfter else Accumulated,
          open, flow,
          if reading.Some? then Some(close - reading.value) else None,
          AbsReal(close - open - flow.net) > FLOW_EPSILON || flagged)
  }

  /** A bucket's point: from the bank's figures where they reach it, walked from the anchor elsewhere. */
  function WindowFree(edge: int -> int, rows: seq<Row>, snaps: seq<Reading>, key: int): Point {
    var open, flow := KnownOpen(rows, key), FlowOf(rows, key);
    if open.Some? || snaps == [] then
      PointOf(edge, snaps, key, flow, open.GetOr(0.0), KnownLevel(rows, key).GetOr(0.0), Flagged(rows, key))
    else
      var anchor := snaps[|snaps| - 1];
      PointOf(edge, snaps, key, flow, WalkedLevel(rows, anchor, key - 1), WalkedLevel(rows, anchor, key), false)
  }

  // ----- the bank's figures -----

  /** A bucket's fold carries the known level across the bucket. */
  lemma {:induction false} FlowCarriesLevel(rows: seq<Row>, key: int)
    requires Sorted(rows)
    ensures var f, before := FlowOf(rows, key), KnownLevel(rows, key - 1);
            && KnownLevel(rows, key) ==
                 (if f.lastAfter.Some? then Some(f.lastAfter.value + f.netAfterLast)
                  else if before.Some? then Some(before.value + f.net) else None)
            && (f.lastAfter.Some? <==> f.firstAfter.Some?)
            && (f.lastAfter.Some? ==> f.txns > 0)
            && (f.txns == 0 ==> f.net == 0.0)
  {
    if rows != [] {
      var n := |rows| - 1;
      FlowCarriesLevel(rows[..n], key);
      if rows[n].key < key {
        FlowOfNone(rows, key);
      }
    }
  }

  ghost predicate BankBuckets(bs: seq<Bucket>, lo: int, rows: seq<Row>) {
    forall i :: 0 <= i < |bs| ==>
      bs[i].flow == FlowOf(rows, lo + i) && bs[i] == BankClosed(bs[i].(close := None, source := NoSource))
  }

  /** A derivation may start at lo: no level is known before it, or its own bucket gives one. */
  ghost predicate CleanStart(rows: seq<Row>, lo: int) {
    KnownLevel(rows, lo - 1).None? || FlowOf(rows, lo).lastAfter.Some?
  }

  /** From a clean start the emission loop's level is the known level of the whole ledger. */
  lemma {:induction false} BankLevels(bs: seq<Bucket>, lo: int, rows: seq<Row>, i: nat)
    requires Sorted(rows) && BankBuckets(bs, lo, rows) && CleanStart(rows, lo) && i < |bs|
    ensures CloseAt(bs, false, i) == KnownLevel(rows, lo + i)
    ensures i > 0 || KnownLevel(rows, lo - 1).None? ==> OpenAt(bs, false, i) == KnownOpen(rows, lo + i)
    ensures OpenAt(bs, false, i).Some? <==> CloseAt(bs, false, i).Some?
  {
    hide FlowOf, Sorted, KnownLevel;
    var b := bs[i];
    assert b == BankClosed(b.(close := None, source := NoSource));
    FlowCarriesLevel(rows, lo + i);
    if i > 0 {
      BankLevels(bs, lo, rows, i - 1);
      assert lo + (i - 1) == lo + i - 1;
      assert LevelInto(bs, false, i) == CloseAt(bs, false, i - 1);
    } else {
      assert LevelInto(bs, false, 0) == None;
    }
  }

  // ----- the derivation range reaches far enough -----

  /** LastCoveredBelow finds a covered row, and no covered row below the bound is newer. */
  lemma {:induction false} PriorIsNewest(rows: seq<Row>, key: int) returns (i: nat)
    requires LastCoveredBelow(rows, key).Some?
    ensures i < |rows| && rows[i].after.Some? && rows[i].key == LastCoveredBelow(rows, key).value && rows[i].key < key
    ensures forall j :: i < j < |rows| && rows[j].after.Some? ==> key <= rows[j].key
  {
    var n := |rows| - 1;
    if rows[n].key < key && rows[n].after.Some? {
      i := n;
    } else {
      i := PriorIsNewest(rows[..n], key);
    }
  }

  lemma {:induction false} NoPriorMeansNone(rows: seq<Row>, key: int, j: nat)
    requires LastCoveredBelow(rows, key).None? && j < |rows| && rows[j].after.Some?
    ensures key <= rows[j].key
  {
    if j < |rows| - 1 {
      NoPriorMeansNone(rows[..|rows| - 1], key, j);
    }
  }

  lemma {:induction false} LevelNeedsCovered(rows: seq<Row>, key: int) returns (j: nat)
    requires KnownLevel(rows, key).Some?
    ensures j < |rows| && rows[j].after.Some? && rows[j].key <= key
  {
    var n := |rows| - 1;
    if rows[n].key <= key && rows[n].after.Some? {
      j := n;
    } else {
      j := LevelNeedsCovered(rows[..n], key);
    }
  }

  lemma {:induction false} CoveredMakesLevel(rows: seq<Row>, key: int, j: nat)
    requires j < |rows| && rows[j].after.Some? && rows[j].key <= key
    ensures KnownLevel(rows, key).Some?
  {
    if j < |rows| - 1 {
      CoveredMakesLevel(rows[..|rows| - 1], key, j);
    }
  }

  lemma {:induction false} CoveredShowsInFlow(rows: seq<Row>, j: nat)
    requires j < |rows| && rows[j].after.Some?
    ensures FlowOf(rows, rows[j].key).lastAfter.Some?
  {
    if j < |rows| - 1 {
      CoveredShowsInFlow(rows[..|rows| - 1], j);
    }
  }

  /** Where the derivation starts: cleanly, and before the window whenever a level is known before it. */
  lemma DerivationStartsCleanly(rows: seq<Row>, anchor: Option<Reading>, from: Option<int>, to: Option<int>)
    requires Sorted(rows) && rows != []
    ensures var w := WindowOf(rows, anchor, from, to);
            && CleanStart(rows, w.derivLo)
            && (w.derivLo < w.lo || KnownLevel(rows, w.derivLo - 1).None?)
            && forall j :: 0 <= j < |rows| && rows[j].after.Some? && rows[j].key < w.derivLo ==>
                 exists i :: j < i < |rows| && rows[i].after.Some? && rows[i].key == w.derivLo < w.lo
                             && forall k :: i < k < |rows| && rows[k].after.Some? ==> w.derivLo < rows[k].key
  {
    hide LastCoveredBelow, KnownLevel, FlowOf;
    var w, first := WindowOf(rows, anchor, from, to), rows[0].key;
    var lo := if from.Some? then Max(first, from.value) else first;
    var dLo := if anchor.Some? then Min(lo, anchor.value.key) else lo;
    if LastCoveredBelow(rows, dLo).Some? {
      var i := PriorIsNewest(rows, dLo);
      assert first <= rows[i].key;
      assert w.derivLo == rows[i].key < w.lo;
      CoveredShowsInFlow(rows, i);
      assert forall j :: i <= j < |rows| ==> rows[i].key <= rows[j].key;
    } else {
      if KnownLevel(rows, w.derivLo - 1).Some? {
        var j := LevelNeedsCovered(rows, w.derivLo - 1);
        NoPriorMeansNone(rows, dLo, j);
      }
      forall j | 0 <= j < |rows| && rows[j].after.Some? ensures w.derivLo <= rows[j].key {
        NoPriorMeansNone(rows, dLo, j);
      }
    }
  }

  /** Where a row of the range sits among the loaded rows. */
  lemma LoadedAt(rows: seq<Row>, lo: int, hi: int, i: nat)
    requires Sorted(rows) && i < |rows| && lo <= rows[i].key <= hi
    ensures CountBelow(rows, lo) <= i < CountBelow(rows, lo) + |KeyRange(rows, lo, hi)|
    ensures KeyRange(rows, lo, hi)[i - CountBelow(rows, lo)] == rows[i]
  {
    CountBelowMonotone(rows, lo, hi + 1);
    CountBelowSplits(rows, lo);
    CountBelowSplits(rows, hi + 1);
  }

  /** The loaded rows flag a window's buckets exactly as the whole ledger does. */
  lemma LoadedFlagsAgree(rows: seq<Row>, anchor: Option<Reading>, from: Option<int>, to: Option<int>, key: int)
    requires Sorted(rows) && rows != []
    requires var w := WindowOf(rows, anchor, from, to); w.lo <= key <= w.hi
    ensures var w := WindowOf(rows, anchor, from, to);
            w.derivLo <= w.derivHi + 1 && Flagged(KeyRange(rows, w.derivLo, w.derivHi), key) == Flagged(rows, key)
  {
    hide WindowOf, CleanStart, KeyRange;
    var w := WindowOf(rows, anchor, from, to);
    RangesNest(rows, anchor, from, to);
    LoadedFlagsAreFlags(rows, w.derivLo, w.derivHi, key);
    DerivationStartsCleanly(rows, anchor, from, to);
    if Flagged(rows, key) {
      var j :| 0 < j < |rows| && rows[j].key == key && Breaks(rows[j - 1], rows[j]);
      assert forall i :: j <= i < |rows| ==> key <= rows[i].key;
      assert w.derivLo <= rows[j - 1].key <= key;
      hide Sorted;
      LoadedAt(rows, w.derivLo, w.derivHi, j - 1);
      LoadedAt(rows, w.derivLo, w.derivHi, j);
    }
  }

  // ----- each strategy, in any window -----

  lemma BankBucketsOf(rows: seq<Row>, anchor: Option<Reading>, lo: int, hi: int)
    requires Sorted(rows) && lo <= hi
    ensures BankBuckets(Closed(KeyRange(rows, lo, hi), lo, hi, true, anchor).value, lo, rows)
  {
    hide FlowOf, KeyRange, Flagged, Sorted;
    var bs := Closed(KeyRange(rows, lo, hi), lo, hi, true, anchor).value;
    forall k | 0 <= k < |bs|
      ensures bs[k].flow == FlowOf(rows, lo + k) && bs[k] == BankClosed(bs[k].(close := None, source := NoSource))
    {
      RangeFolds(rows, lo, hi, lo + k);
    }
  }

  lemma BankClosedFields(loaded: seq<Row>, lo: int, hi: int, anchor: Option<Reading>, i: nat)
    requires i <= hi - lo
    ensures var b := Closed(loaded, lo, hi, true, anchor).value[i];
            b.key == lo + i && b.rowMismatch == Flagged(loaded, lo + i)
  {
  }

  lemma BankPoint(edge: int -> int, snaps: seq<Reading>, b: Bucket, open: real)
    requires b == BankClosed(b.(close := None, source := NoSource))
    ensures PointFor(edge, snaps, b, open)
            == PointOf(edge, snaps, b.key, b.flow, open, CloseFrom(b, open), b.rowMismatch)
  {
  }

  /** Covered path: a bucket gives a point exactly when its level is known, and it is the window-free one. */
  lemma BankPointIsWindowFree(edge: int -> int, rows: seq<Row>, snaps: seq<Reading>, from: Option<int>, to: Option<int>,
                              k: int)
    requires Sorted(rows) && rows != []
    requires var w := WindowOf(rows, Anchor(snaps), from, to); w.lo <= k <= w.hi
    ensures var w := WindowOf(rows, Anchor(snaps), from, to);
            && w.derivLo <= w.lo && w.hi <= w.derivHi
            && var bs := Closed(KeyRange(rows, w.derivLo, w.derivHi), w.derivLo, w.derivHi, true, Anchor(snaps)).value;
            var open := OpenAt(bs, false, k - w.derivLo);
            && (open.Some? <==> KnownLevel(rows, k).Some?)
            && (open.Some? ==>
                  && KnownOpen(rows, k).Some?
                  && PointFor(edge, snaps, bs[k - w.derivLo], open.value) == WindowFree(edge, rows, snaps, k))
  {
    hide WindowOf, FlowOf, KeyRange, LastReading, Sorted, OpenAt, CloseAt, Flagged, BankClosed, KnownLevel, KnownOpen,
         CleanStart, PointFor, PointOf, Closed;
    var w := WindowOf(rows, Anchor(snaps), from, to);
    RangesNest(rows, Anchor(snaps), from, to);
    DerivationStartsCleanly(rows, Anchor(snaps), from, to);
    var loaded, i := KeyRange(rows, w.derivLo, w.derivHi), k - w.derivLo;
    ClosedWhen(loaded, w.derivLo, w.derivHi, true, Anchor(snaps));
    var bs := Closed(loaded, w.derivLo, w.derivHi, true, Anchor(snaps)).value;
    BankBucketsOf(rows, Anchor(snaps), w.derivLo, w.derivHi);
    BankClosedFields(loaded, w.derivLo, w.derivHi, Anchor(snaps), i);
    LoadedFlagsAgree(rows, Anchor(snaps), from, to, k);
    BankLevels(bs, w.derivLo, rows, i);
    if OpenAt(bs, false, i).Some? {
      CloseFollowsOpen(bs, false, i);
      assert bs[i].flow == FlowOf(rows, w.derivLo + i);
      BankPoint(edge, snaps, bs[i], OpenAt(bs, false, i).value);
    }
  }

  /** On the covered path a series starts unverified exactly when no level is known before its window. */
  lemma UnverifiedMeansUnknown(edge: int -> int, rows: seq<Row>, snaps: seq<Reading>, from: Option<int>,
                               to: Option<int>)
    requires Sorted(rows) && rows != []
    requires var w := WindowOf(rows, Anchor(snaps), from, to);
             w.lo <= w.hi && w.derivLo <= w.derivHi && AnyCovered(KeyRange(rows, w.derivLo, w.derivHi))
    ensures var w, v := WindowOf(rows, Anchor(snaps), from, to), SeriesOf(edge, rows, snaps, false, from, to);
            v.startUnverified <==> v.points != [] && KnownLevel(rows, w.lo - 1).None?
  {
    hide WindowOf, FlowOf, KeyRange, LastReading, Sorted, OpenAt, CloseAt, Flagged, BankClosed, KnownLevel, KnownOpen,
         CleanStart, PointFor, Closed, MaxDrift, Emitted, AnyCovered;
    var w := WindowOf(rows, Anchor(snaps), from, to);
    RangesNest(rows, Anchor(snaps), from, to);
    DerivationStartsCleanly(rows, Anchor(snaps), from, to);
    var loaded, start := KeyRange(rows, w.derivLo, w.derivHi), w.lo - w.derivLo;
    ClosedWhen(loaded, w.derivLo, w.derivHi, true, Anchor(snaps));
    var bs := Closed(loaded, w.derivLo, w.derivHi, true, Anchor(snaps)).value;
    BankBucketsOf(rows, Anchor(snaps), w.derivLo, w.derivHi);
    if start > 0 {
      BankLevels(bs, w.derivLo, rows, start - 1);
      assert LevelInto(bs, false, start) == CloseAt(bs, false, start - 1);
    }
  }

  lemma {:induction false} WalkedLevels(bs: seq<Bucket>, level: int -> real, lo: int, i: nat)
    requires i < |bs|
    requires forall k :: 0 <= k < |bs| ==> bs[k].close == Some(level(lo + k))
    requires forall k :: 0 <= k < |bs| ==> bs[k].flow.net == level(lo + k) - level(lo + k - 1)
    requires forall k :: 0 <= k < |bs| && bs[k].flow.txns == 0 ==> bs[k].flow.net == 0.0
    ensures OpenAt(bs, true, i) == Some(level(lo + i - 1))
    ensures CloseAt(bs, true, i) == Some(level(lo + i))
  {
    if i > 0 {
      WalkedLevels(bs, level, lo, i - 1);
      assert lo + (i - 1) == lo + i - 1;
      assert LevelInto(bs, true, i) == CloseAt(bs, true, i - 1);
    } else {
      assert LevelInto(bs, true, 0) == Some(bs[0].close.value - bs[0].flow.net);
    }
  }

  /** Walked buckets of any ledger carry the shifted running sum. */
  lemma WalkedBuckets(rows: seq<Row>, anchor: Reading, lo: int, hi: int, k: nat)
    requires Sorted(rows) && lo <= anchor.key <= hi && k <= hi - lo
    ensures var b := Closed(KeyRange(rows, lo, hi), lo, hi, false, Some(anchor)).value[k];
            && b.key == lo + k && b.flow == FlowOf(rows, lo + k) && !b.rowMismatch && b.source == Accumulated
            && b.close == Some(WalkedLevel(rows, anchor, lo + k))
            && b.flow.net == WalkedLevel(rows, anchor, lo + k) - WalkedLevel(rows, anchor, lo + k - 1)
            && (b.flow.txns == 0 ==> b.flow.net == 0.0)
  {
    hide FlowOf, KeyRange, SumThrough, Sorted;
    RangeFolds(rows, lo, hi, lo + k);
    NetIsStep(rows, lo + k);
    WalkIsShiftedSum(KeyRange(rows, lo, hi), lo, hi, anchor.key - lo, anchor.balance, k);
    RangeSums(rows, lo, hi, anchor.key, lo + k);
  }

  /** Walked path: opens and closes of every bucket, for any ledger. */
  lemma WalkedOpenClose(rows: seq<Row>, anchor: Reading, lo: int, hi: int, i: nat)
    requires Sorted(rows) && lo <= anchor.key <= hi && i <= hi - lo
    ensures var bs := Closed(KeyRange(rows, lo, hi), lo, hi, false, Some(anchor)).value;
            && OpenAt(bs, true, i) == Some(WalkedLevel(rows, anchor, lo + i - 1))
            && CloseFrom(bs[i], WalkedLevel(rows, anchor, lo + i - 1)) == WalkedLevel(rows, anchor, lo + i)
  {
    hide FlowOf, KeyRange, Sorted, WalkedLevel, OpenAt, CloseAt, LevelInto;
    var bs := Closed(KeyRange(rows, lo, hi), lo, hi, false, Some(anchor)).value;
    forall k | 0 <= k < |bs|
      ensures bs[k].close == Some(WalkedLevel(rows, anchor, lo + k))
      ensures bs[k].flow.net == WalkedLevel(rows, anchor, lo + k) - WalkedLevel(rows, anchor, lo + k - 1)
      ensures bs[k].flow.txns == 0 ==> bs[k].flow.net == 0.0
    {
      WalkedBuckets(rows, anchor, lo, hi, k);
    }
    WalkedLevels(bs, k => WalkedLevel(rows, anchor, k), lo, i);
    CloseFollowsOpen(bs, true, i);
  }

  /** A bucket with no covered row in it does not close on a bank figure. */
  lemma {:induction false} UncoveredFlow(rows: seq<Row>, key: int)
    requires forall i :: 0 <= i < |rows| ==> rows[i].after.None?
    ensures FlowOf(rows, key).lastAfter.None? && FlowOf(rows, key).firstAfter.None?
  {
    if rows != [] {
      UncoveredFlow(rows[..|rows| - 1], key);
    }
  }

  /** If a level is known at a bucket of the window, a covered row is loaded. */
  lemma KnownLevelIsLoaded(rows: seq<Row>, anchor: Option<Reading>, from: Option<int>, to: Option<int>, k: int)
    requires Sorted(rows) && rows != [] && KnownLevel(rows, k).Some?
    requires var w := WindowOf(rows, anchor, from, to); w.lo <= k <= w.hi && w.derivLo <= w.derivHi + 1
    ensures var w := WindowOf(rows, anchor, from, to); AnyCovered(KeyRange(rows, w.derivLo, w.derivHi))
  {
    hide WindowOf, KeyRange, KnownLevel, FlowOf, CleanStart;
    var w := WindowOf(rows, anchor, from, to);
    RangesNest(rows, anchor, from, to);
    DerivationStartsCleanly(rows, anchor, from, to);
    var j := LevelNeedsCovered(rows, k);
    if rows[j].key < w.derivLo {
      var i :| j < i < |rows| && rows[i].after.Some? && rows[i].key == w.derivLo < w.lo;
      j := i;
    }
    LoadedAt(rows, w.derivLo, w.derivHi, j);
    assert rows[j] in KeyRange(rows, w.derivLo, w.derivHi);
  }

  /** On the walked path no level is known at any bucket of the window. */
  lemma WalkedMeansUnknown(rows: seq<Row>, anchor: Option<Reading>, from: Option<int>, to: Option<int>, k: int)
    requires Sorted(rows) && rows != []
    requires var w := WindowOf(rows, anchor, from, to);
             w.lo <= k <= w.hi && w.derivLo <= w.derivHi + 1 && !AnyCovered(KeyRange(rows, w.derivLo, w.derivHi))
    ensures KnownLevel(rows, k).None? && KnownOpen(rows, k).None?
    ensures FlowOf(rows, k).lastAfter.None?
  {
    hide WindowOf, KeyRange, KnownLevel, FlowOf, CleanStart;
    var w := WindowOf(rows, anchor, from, to);
    RangesNest(rows, anchor, from, to);
    var loaded := KeyRange(rows, w.derivLo, w.derivHi);
    if KnownLevel(rows, k).Some? {
      KnownLevelIsLoaded(rows, anchor, from, to, k);
    }
    if KnownLevel(rows, k - 1).Some? {
      var j := LevelNeedsCovered(rows, k - 1);
      CoveredMakesLevel(rows, k, j);
    }
    RangeFolds(rows, w.derivLo, w.derivHi, k);
    assert forall i :: 0 <= i < |loaded| ==> loaded[i] in loaded;
    UncoveredFlow(loaded, k);
  }

  // ----- the theorems -----

  /** Every point of every window, on any ledger, is the window-free point of its bucket. */
  lemma PointIsWindowFree(edge: int -> int, rows: seq<Row>, snaps: seq<Reading>, investment: bool, from: Option<int>,
                          to: Option<int>, p: Point)
    requires Sorted(rows)
    requires p in SeriesOf(edge, rows, snaps, investment, from, to).points
    ensures p == WindowFree(edge, rows, snaps, p.key)
  {
    hide SeriesOf, WindowOf, KeyRange, KnownLevel, KnownOpen, FlowOf, CleanStart, LastReading, Flagged, AnyCovered,
         OpenAt, WindowFree;
    var bs, walked, i := SeriesOrigin(edge, rows, snaps, investment, from, to, p);
    var w := WindowOf(rows, Anchor(snaps), from, to);
    var k := w.derivLo + i;
    if walked {
      WalkedPointIsWindowFree(edge, rows, snaps, from, to, k);
    } else {
      BankPointIsWindowFree(edge, rows, snaps, from, to, k);
      BankClosedFields(KeyRange(rows, w.derivLo, w.derivHi), w.derivLo, w.derivHi, Anchor(snaps), i);
    }
  }

  lemma WalkedPointIsWindowFree(edge: int -> int, rows: seq<Row>, snaps: seq<Reading>, from: Option<int>,
                                to: Option<int>, k: int)
    requires Sorted(rows) && rows != [] && snaps != []
    requires var w := WindowOf(rows, Anchor(snaps), from, to);
             && w.lo <= k <= w.hi && w.derivLo <= w.lo && w.hi <= w.derivHi
             && w.derivLo <= Anchor(snaps).value.key <= w.derivHi
             && !AnyCovered(KeyRange(rows, w.derivLo, w.derivHi))
    ensures var w, anchor := WindowOf(rows, Anchor(snaps), from, to), Anchor(snaps).value;
            var bs := Closed(KeyRange(rows, w.derivLo, w.derivHi), w.derivLo, w.derivHi, false, Some(anchor)).value;
            var open := OpenAt(bs, true, k - w.derivLo);
            && open == Some(WalkedLevel(rows, anchor, k - 1))
            && bs[k - w.derivLo].key == k
            && PointFor(edge, snaps, bs[k - w.derivLo], open.value) == WindowFree(edge, rows, snaps, k)
            && WindowFree(edge, rows, snaps, k)
               == PointOf(edge, snaps, k, FlowOf(rows, k), WalkedLevel(rows, anchor, k - 1),
                          WalkedLevel(rows, anchor, k), false)
  {
    hide WindowOf, KeyRange, KnownLevel, KnownOpen, FlowOf, LastReading, Flagged, AnyCovered, OpenAt, WalkedLevel,
         Closed, Sorted;
    var w, anchor := WindowOf(rows, Anchor(snaps), from, to), Anchor(snaps).value;
    WalkedMeansUnknown(rows, Anchor(snaps), from, to, k);
    WalkedBuckets(rows, anchor, w.derivLo, w.derivHi, k - w.derivLo);
    WalkedOpenClose(rows, anchor, w.derivLo, w.derivHi, k - w.derivLo);
  }

  /** Window independence: two windows of one account agree on every bucket both report. */
  lemma WindowsAgree(edge: int -> int, rows: seq<Row>, snaps: seq<Reading>, investment: bool,
                     from: Option<int>, to: Option<int>, from': Option<int>, to': Option<int>, p: Point, p': Point)
    requires Sorted(rows)
    requires p in SeriesOf(edge, rows, snaps, investment, from, to).points
    requires p' in SeriesOf(edge, rows, snaps, investment, from', to').points
    requires p.key == p'.key
    ensures p == p'
  {
    hide SeriesOf, WindowFree;
    PointIsWindowFree(edge, rows, snaps, investment, from, to, p);
    PointIsWindowFree(edge, rows, snaps, investment, from', to', p');
  }

  ghost predicate AllCovered(rows: seq<Row>) {
    forall i :: 0 <= i < |rows| ==> rows[i].after.Some?
  }

  ghost predicate NoneCovered(rows: seq<Row>) {
    forall i :: 0 <= i < |rows| ==> rows[i].after.None?
  }

  /** Coverage all or nothing, and in the second case a reading inside the ledger's span. */
  ghost predicate Derivable(rows: seq<Row>, snaps: seq<Reading>) {
    && rows != [] && Sorted(rows)
    && (AllCovered(rows) || (NoneCovered(rows) && snaps != [] && rows[0].key <= Anchor(snaps).value.key))
  }

  ghost predicate WindowFreeAt(edge: int -> int, rows: seq<Row>, snaps: seq<Reading>, bs: seq<Bucket>, walked: bool,
                               lo: int, i: int) {
    && 0 <= i < |bs| && OpenAt(bs, walked, i).Some?
    && PointFor(edge, snaps, bs[i], OpenAt(bs, walked, i).value) == WindowFree(edge, rows, snaps, lo + i)
  }

  lemma {:induction false} EmittedSlice(edge: int -> int, rows: seq<Row>, snaps: seq<Reading>, bs: seq<Bucket>,
                                        walked: bool, lo: int, start: nat, end: nat)
    requires start <= end <= |bs|
    requires forall i :: start <= i < end ==> WindowFreeAt(edge, rows, snaps, bs, walked, lo, i)
    ensures |Emitted(edge, snaps, bs, walked, start, end)| == end - start
    ensures forall i :: 0 <= i < end - start ==>
      Emitted(edge, snaps, bs, walked, start, end)[i] == WindowFree(edge, rows, snaps, lo + start + i)
  {
    hide WindowFree, OpenAt, PointFor;
    if start < end {
      assert WindowFreeAt(edge, rows, snaps, bs, walked, lo, end - 1);
      EmittedSlice(edge, rows, snaps, bs, walked, lo, start, end - 1);
    }
  }

  /** What is loaded for a derivable account, and that it closes. */
  lemma DerivableLoads(rows: seq<Row>, snaps: seq<Reading>, from: Option<int>, to: Option<int>)
    requires Derivable(rows, snaps)
    requires var w := WindowOf(rows, Anchor(snaps), from, to); w.lo <= w.hi
    ensures var w := WindowOf(rows, Anchor(snaps), from, to);
            && w.derivLo <= w.lo && w.hi <= w.derivHi
            && (AnyCovered(KeyRange(rows, w.derivLo, w.derivHi)) <==> AllCovered(rows))
            && (!AllCovered(rows) ==> snaps != [] && w.derivLo <= Anchor(snaps).value.key <= w.derivHi)
  {
    var w := WindowOf(rows, Anchor(snaps), from, to);
    RangesNest(rows, Anchor(snaps), from, to);
    CountBelowMonotone(rows, w.derivLo, w.derivHi + 1);
    if AllCovered(rows) {
      DerivationStartsCleanly(rows, Anchor(snaps), from, to);
      assert rows[0].key < w.derivLo ==> rows[0].after.Some?;
      var j: nat := if rows[0].key < w.derivLo
                    then (var i :| 0 < i < |rows| && rows[i].after.Some? && rows[i].key == w.derivLo < w.lo; i) else 0;
      LoadedAt(rows, w.derivLo, w.derivHi, j);
      assert rows[j] in KeyRange(rows, w.derivLo, w.derivHi);
    } else {
      if LastCoveredBelow(rows, Min(w.lo, Anchor(snaps).value.key)).Some? {
        var i := PriorIsNewest(rows, Min(w.lo, Anchor(snaps).value.key));
      }
    }
  }

  lemma ClosedWhen(loaded: seq<Row>, lo: int, hi: int, covered: bool, anchor: Option<Reading>)
    ensures Closed(loaded, lo, hi, covered, anchor).Some? <==> covered || (anchor.Some? && lo <= anchor.value.key <= hi)
  {
  }

  /**
    Where coverage is all or nothing, a query answers with exactly one point per bucket of its own
    range, in order: the slice of the full series.
   */
  lemma SeriesIsSlice(edge: int -> int, rows: seq<Row>, snaps: seq<Reading>, from: Option<int>, to: Option<int>)
    requires Derivable(rows, snaps)
    ensures var points := SeriesOf(edge, rows, snaps, false, from, to).points;
            var w := WindowOf(rows, Anchor(snaps), from, to);
            && |points| == Max(0, w.hi - w.lo + 1)
            && forall i :: 0 <= i < |points| ==> points[i] == WindowFree(edge, rows, snaps, w.lo + i)
  {
    hide FlowOf, KeyRange, LastReading, OpenAt, CloseAt, LevelInto, Flagged, AnyCovered, Closed, Emitted, WindowFree,
         PointFor, WindowOf, MaxDrift, KnownLevel;
    var w := WindowOf(rows, Anchor(snaps), from, to);
    if w.lo <= w.hi {
      DerivableLoads(rows, snaps, from, to);
      var loaded := KeyRange(rows, w.derivLo, w.derivHi);
      var walked := !AnyCovered(loaded);
      ClosedWhen(loaded, w.derivLo, w.derivHi, !walked, Anchor(snaps));
      var bs := Closed(loaded, w.derivLo, w.derivHi, !walked, Anchor(snaps)).value;
      var start := w.lo - w.derivLo;
      forall i | start <= i < w.hi - w.derivLo + 1 ensures WindowFreeAt(edge, rows, snaps, bs, walked, w.derivLo, i) {
        if walked {
          WalkedPointIsWindowFree(edge, rows, snaps, from, to, w.derivLo + i);
        } else {
          BankPointIsWindowFree(edge, rows, snaps, from, to, w.derivLo + i);
          FirstBelowWindow(rows, Anchor(snaps), from, to);
          CoveredMakesLevel(rows, w.derivLo + i, 0);
        }
      }
      EmittedSlice(edge, rows, snaps, bs, walked, w.derivLo, start, w.hi - w.derivLo + 1);
    }
  }

  lemma FirstBelowWindow(rows: seq<Row>, anchor: Option<Reading>, from: Option<int>, to: Option<int>)
    requires rows != []
    ensures rows[0].key <= WindowOf(rows, anchor, from, to).lo
  {
  }

  /** The worst drift bounds every point's drift, and some point attains it unless there is none. */
  lemma {:induction false} MaxDriftIsWorst(points: seq<Point>)
    ensures MaxDrift(points) >= 0.0
    ensures forall p :: p in points && p.drift.Some? ==> AbsReal(p.drift.value) <= MaxDrift(points)
    ensures MaxDrift(points) > 0.0 ==>
            exists p :: p in points && p.drift.Some? && AbsReal(p.drift.value) == MaxDrift(points)
  {
    if points != [] {
      var n := |points| - 1;
      MaxDriftIsWorst(points[..n]);
      assert points == points[..n] + [points[n]];
    }
  }

  /**
    The walked path on any ledger at all: the reading is taken verbatim at its own bucket, closes step
    by exactly the bucket's net on both sides of it, and a quiet bucket changes nothing.
   */
  lemma WalkedPoints(edge: int -> int, rows: seq<Row>, snaps: seq<Reading>, from: Option<int>, to: Option<int>,
                     p: Point)
    requires Sorted(rows) && rows != []
    requires var w := WindowOf(rows, Anchor(snaps), from, to);
             w.derivLo <= w.derivHi + 1 && !AnyCovered(KeyRange(rows, w.derivLo, w.derivHi))
    requires p in SeriesOf(edge, rows, snaps, false, from, to).points
    ensures snaps != [] && p.open == WalkedLevel(rows, Anchor(snaps).value, p.key - 1)
            && p.close == WalkedLevel(rows, Anchor(snaps).value, p.key)
    ensures p.close - p.open == p.flow.net && !p.flowMismatch
    ensures p.carried ==> p.close == p.open
    ensures p.key == Anchor(snaps).value.key ==> p.close == Anchor(snaps).value.balance && p.drift == Some(0.0)
  {
    hide SeriesOf, WindowOf, KeyRange, FlowOf, KnownLevel, KnownOpen, AnyCovered, OpenAt, SumThrough, WindowFree;
    var bs, walked, i := SeriesOrigin(edge, rows, snaps, false, from, to, p);
    var w := WindowOf(rows, Anchor(snaps), from, to);
    WalkedPointIsWindowFree(edge, rows, snaps, from, to, w.derivLo + i);
    NetIsStep(rows, p.key);
  }

  /**
    A walked point is off by what the reading is off by: the reading is taken as its bucket's close even when
    rows were posted after it in the same bucket.
   */
  lemma WalkedErrorIsReadings(edge: int -> int, rows: seq<Row>, snaps: seq<Reading>, from: Option<int>, to: Option<int>,
                              opening: real, p: Point)
    requires Sorted(rows) && Walks(rows, snaps, from, to)
    requires p in SeriesOf(edge, rows, snaps, false, from, to).points
    ensures snaps != []
    ensures var error := Anchor(snaps).value.balance - Level(rows, opening, Anchor(snaps).value.key);
            p.close - Level(rows, opening, p.key) == error && p.open - Level(rows, opening, p.key - 1) == error
  {
    hide SeriesOf, WindowOf, KeyRange, FlowOf, AnyCovered, SumThrough;
    RangesNest(rows, Anchor(snaps), from, to);
    WalkedPoints(edge, rows, snaps, from, to, p);
  }

  /**
    Exactly when a consistent ledger's points are true: always where the query loads a running balance, and
    otherwise if and only if the newest reading is the true level at the end of its own bucket.
   */
  lemma TrueExactly(edge: int -> int, rows: seq<Row>, snaps: seq<Reading>, from: Option<int>, to: Option<int>,
                    opening: real, p: Point)
    requires Sorted(rows) && Consistent(rows, opening)
    requires p in SeriesOf(edge, rows, snaps, false, from, to).points
    ensures p.close == Level(rows, opening, p.key)
            <==> (Walks(rows, snaps, from, to) ==> AnchorTrue(rows, snaps, opening))
    ensures p.open == Level(rows, opening, p.key - 1)
            <==> (Walks(rows, snaps, from, to) ==> AnchorTrue(rows, snaps, opening))
  {
    hide SeriesOf, Walks, Sorted, Consistent, SumThrough, FlowOf;
    if Walks(rows, snaps, from, to) {
      WalkedErrorIsReadings(edge, rows, snaps, from, to, opening, p);
    }
    if Walks(rows, snaps, from, to) ==> AnchorTrue(rows, snaps, opening) {
      SeriesIsTrue(edge, rows, snaps, false, from, to, opening, p);
    }
  }

  /** The account stood at 100 when it was read, and five were paid later in the same bucket. */
  lemma LaterRowNotSeen(edge: int -> int)
    ensures var rows, snaps := [Row(1, 0, -5.0, None, false)], [Reading(1, 0, 100.0)];
            var points := SeriesOf(edge, rows, snaps, false, None, None).points;
            |points| == 1 && points[0].close == 100.0 && Level(rows, 100.0, 0) == 95.0
  {
    hide SeriesOf, FlowOf, KnownLevel, KnownOpen, LastReading, KeyRange, Flagged;
    var rows, snaps := [Row(1, 0, -5.0, None, false)], [Reading(1, 0, 100.0)];
    assert rows[..0] == [];
    SeriesIsSlice(edge, rows, snaps, None, None);
    var p := SeriesOf(edge, rows, snaps, false, None, None).points[0];
    var w := WindowOf(rows, Anchor(snaps), None, None);
    var loaded := KeyRange(rows, w.derivLo, w.derivHi);
    assert !AnyCovered(loaded) by { RangeIsPart(rows, w.derivLo, w.derivHi); }
    WalkedPoints(edge, rows, snaps, None, None, p);
    assert p.key == 0;
    assert SumThrough(rows, 0) == SumThrough([], 0) - 5.0;
  }

  lemma RangeIsPart(rows: seq<Row>, lo: int, hi: int)
    requires lo <= hi + 1
    ensures forall r :: r in KeyRange(rows, lo, hi) ==> r in rows
  {
  }

  /** Telescoping: over any walked series, last close minus first open is the net of all its buckets. */
  lemma WalkedSeriesTelescopes(edge: int -> int, rows: seq<Row>, snaps: seq<Reading>, from: Option<int>,
                               to: Option<int>, p: Point, q: Point)
    requires Sorted(rows) && rows != []
    requires var w := WindowOf(rows, Anchor(snaps), from, to);
             w.derivLo <= w.derivHi + 1 && !AnyCovered(KeyRange(rows, w.derivLo, w.derivHi))
    requires p in SeriesOf(edge, rows, snaps, false, from, to).points
             && q in SeriesOf(edge, rows, snaps, false, from, to).points
    requires p.key <= q.key
    ensures q.close - p.open == TotalNet(rows, p.key, q.key)
  {
    hide SeriesOf, WindowOf, KeyRange, FlowOf, AnyCovered, SumThrough;
    WalkedPoints(edge, rows, snaps, from, to, p);
    WalkedPoints(edge, rows, snaps, from, to, q);
    BucketsConserveRows(rows, p.key, q.key);
  }
}
