/**
  Which buckets a query reports, from the query and the tables alone: the range asked for, and in it the
  buckets whose level something gives.
 */
module LedgerSeriesRange {
  import opened Prelude
  import opened LedgerBuckets
  import opened LedgerSeries
  import opened LedgerSeriesTruth
  import opened LedgerSeriesWindows

  /**
    Not before the ledger's first row or the query's from; not after the query's to or, without one, the later
    of the ledger's last row and the newest reading.
   */
  predicate Asked(rows: seq<Row>, snaps: seq<Reading>, from: Option<int>, to: Option<int>, key: int) {
    && rows != [] && rows[0].key <= key
    && (from.Some? ==> from.value <= key)
    && (to.Some? ==> key <= to.value)
    && (to.None? ==> key <= rows[|rows| - 1].key || (snaps != [] && key <= snaps[|snaps| - 1].key))
  }

  lemma AskedIsWindow(rows: seq<Row>, snaps: seq<Reading>, from: Option<int>, to: Option<int>, key: int)
    requires rows != []
    ensures var w := WindowOf(rows, Anchor(snaps), from, to); Asked(rows, snaps, from, to, key) <==> w.lo <= key <= w.hi
  {
  }

  /** Some row up to a bucket carries the bank's running balance. */
  ghost predicate CoveredThrough(rows: seq<Row>, key: int) {
    exists j :: 0 <= j < |rows| && rows[j].after.Some? && rows[j].key <= key
  }

  /** The last bucket a query looks at: the last one asked for, or the newest reading's when that is later. */
  function Horizon(rows: seq<Row>, snaps: seq<Reading>, to: Option<int>): int
    requires rows != []
  {
    var hi := to.GetOr(rows[|rows| - 1].key);
    if snaps != [] then Max(hi, snaps[|snaps| - 1].key) else hi
  }

  /** A walk is possible: no running balance up to the horizon, and a newest reading within the ledger's span. */
  ghost predicate Walkable(rows: seq<Row>, snaps: seq<Reading>, to: Option<int>)
    requires rows != []
  {
    && !CoveredThrough(rows, Horizon(rows, snaps, to))
    && snaps != [] && rows[0].key <= snaps[|snaps| - 1].key
  }

  // ----- what is loaded -----

  /** The coverage probe sees every covered row up to the horizon, however far before the window. */
  lemma ProbeSeesCoverage(rows: seq<Row>, snaps: seq<Reading>, from: Option<int>, to: Option<int>)
    requires Sorted(rows) && rows != []
    requires var w := WindowOf(rows, Anchor(snaps), from, to); w.lo <= w.hi
    ensures var w := WindowOf(rows, Anchor(snaps), from, to);
            && w.derivLo <= w.lo && w.hi <= w.derivHi == Horizon(rows, snaps, to)
            && (AnyCovered(KeyRange(rows, w.derivLo, w.derivHi)) <==> CoveredThrough(rows, Horizon(rows, snaps, to)))
  {
    var w := WindowOf(rows, Anchor(snaps), from, to);
    RangesNest(rows, Anchor(snaps), from, to);
    assert w.derivHi == Horizon(rows, snaps, to);
    hide WindowOf, Horizon, CleanStart;
    var loaded := KeyRange(rows, w.derivLo, w.derivHi);
    if CoveredThrough(rows, w.derivHi) {
      var j :| 0 <= j < |rows| && rows[j].after.Some? && rows[j].key <= w.derivHi;
      DerivationStartsCleanly(rows, Anchor(snaps), from, to);
      if rows[j].key < w.derivLo {
        var i :| j < i < |rows| && rows[i].after.Some? && rows[i].key == w.derivLo < w.lo;
        j := i;
      }
      LoadedAt(rows, w.derivLo, w.derivHi, j);
      assert rows[j] in loaded;
    }
    if AnyCovered(loaded) {
      CoveredIsThrough(rows, w.derivLo, w.derivHi);
    }
  }

  lemma CoveredIsThrough(rows: seq<Row>, lo: int, hi: int)
    requires Sorted(rows) && lo <= hi + 1 && AnyCovered(KeyRange(rows, lo, hi))
    ensures CoveredThrough(rows, hi)
  {
    hide Sorted, CountBelow;
    CountBelowMonotone(rows, lo, hi + 1);
    CountBelowSplits(rows, hi + 1);
    var loaded := KeyRange(rows, lo, hi);
    var r :| r in loaded && r.after.Some?;
    var i :| 0 <= i < |loaded| && loaded[i] == r;
    var j := CountBelow(rows, lo) + i;
    assert rows[j] == r && rows[j].key < hi + 1;
  }

  lemma {:induction false} NoPriorBelow(rows: seq<Row>, key: int)
    requires forall j :: 0 <= j < |rows| && rows[j].after.Some? ==> key <= rows[j].key
    ensures LastCoveredBelow(rows, key).None?
  {
    if rows != [] {
      NoPriorBelow(rows[..|rows| - 1], key);
    }
  }

  /** The walk's reading lies in the range derived. */
  lemma WalkReachesReading(rows: seq<Row>, snaps: seq<Reading>, from: Option<int>, to: Option<int>)
    requires Sorted(rows) && rows != [] && Walkable(rows, snaps, to)
    requires var w := WindowOf(rows, Anchor(snaps), from, to); w.lo <= w.hi
    ensures var w := WindowOf(rows, Anchor(snaps), from, to); w.derivLo <= Anchor(snaps).value.key <= w.derivHi
  {
    var w, anchor := WindowOf(rows, Anchor(snaps), from, to), Anchor(snaps).value;
    var bound := Min(w.lo, anchor.key);
    forall j | 0 <= j < |rows| && rows[j].after.Some? ensures bound <= rows[j].key {
      assert !(rows[j].key <= Horizon(rows, snaps, to));
    }
    NoPriorBelow(rows, bound);
  }

  // ----- what is emitted -----

  lemma {:induction false} EmittedHas(edge: int -> int, snaps: seq<Reading>, bs: seq<Bucket>, walked: bool, start: nat,
                                      end: nat, i: nat)
    requires start <= i < end <= |bs| && OpenAt(bs, walked, i).Some?
    ensures PointFor(edge, snaps, bs[i], OpenAt(bs, walked, i).value) in Emitted(edge, snaps, bs, walked, start, end)
  {
    hide PointFor, OpenAt;
    if i < end - 1 {
      EmittedHas(edge, snaps, bs, walked, start, end - 1, i);
    }
  }

  ghost predicate Ascend(points: seq<Point>) {
    forall i, j :: 0 <= i < j < |points| ==> points[i].key < points[j].key
  }

  lemma {:induction false} EmittedAscends(edge: int -> int, snaps: seq<Reading>, bs: seq<Bucket>, walked: bool,
                                          start: nat, end: nat, lo: int)
    requires end <= |bs| && forall i :: 0 <= i < |bs| ==> bs[i].key == lo + i
    ensures var out := Emitted(edge, snaps, bs, walked, start, end);
            Ascend(out) && forall i :: 0 <= i < |out| ==> out[i].key < lo + end
  {
    hide OpenAt, LastReading, CloseFrom, SourceOf;
    if start < end {
      EmittedAscends(edge, snaps, bs, walked, start, end - 1, lo);
    }
  }

  lemma SeriesHas(edge: int -> int, rows: seq<Row>, snaps: seq<Reading>, from: Option<int>, to: Option<int>, i: nat)
    requires rows != []
    requires var w := WindowOf(rows, Anchor(snaps), from, to);
             && w.derivLo <= w.lo <= w.derivLo + i <= w.hi <= w.derivHi
             && var walked := !AnyCovered(KeyRange(rows, w.derivLo, w.derivHi));
                var closed := Closed(KeyRange(rows, w.derivLo, w.derivHi), w.derivLo, w.derivHi, !walked,
                                     Anchor(snaps));
             && closed.Some? && (walked ==> snaps != []) && OpenAt(closed.value, walked, i).Some?
    ensures var w := WindowOf(rows, Anchor(snaps), from, to);
            var walked := !AnyCovered(KeyRange(rows, w.derivLo, w.derivHi));
            var bs := Closed(KeyRange(rows, w.derivLo, w.derivHi), w.derivLo, w.derivHi, !walked, Anchor(snaps)).value;
            PointFor(edge, snaps, bs[i], OpenAt(bs, walked, i).value)
            in SeriesOf(edge, rows, snaps, false, from, to).points
  {
    hide WindowOf, KeyRange, AnyCovered, Closed, OpenAt, LevelInto, MaxDrift, PointFor, Emitted;
    var w := WindowOf(rows, Anchor(snaps), from, to);
    var walked := !AnyCovered(KeyRange(rows, w.derivLo, w.derivHi));
    var bs := Closed(KeyRange(rows, w.derivLo, w.derivHi), w.derivLo, w.derivHi, !walked, Anchor(snaps)).value;
    EmittedHas(edge, snaps, bs, walked, w.lo - w.derivLo, w.hi - w.derivLo + 1, i);
  }

  // ----- the buckets reported -----

  ghost predicate Reported(points: seq<Point>, key: int) {
    exists p :: p in points && p.key == key
  }

  lemma ReportedIsAsked(edge: int -> int, rows: seq<Row>, snaps: seq<Reading>, from: Option<int>, to: Option<int>,
                        key: int)
    requires Sorted(rows) && Reported(SeriesOf(edge, rows, snaps, false, from, to).points, key)
    ensures Asked(rows, snaps, from, to, key)
    ensures CoveredThrough(rows, key) || Walkable(rows, snaps, to)
  {
    hide SeriesOf, WindowOf, KeyRange, AnyCovered, OpenAt, KnownLevel, KnownOpen, FlowOf, LastReading, Sorted, Flagged,
         WindowFree, CoveredThrough;
    var p :| p in SeriesOf(edge, rows, snaps, false, from, to).points && p.key == key;
    var bs, walked, i := SeriesOrigin(edge, rows, snaps, false, from, to, p);
    var w := WindowOf(rows, Anchor(snaps), from, to);
    OriginKey(rows, snaps, from, to, bs, walked, i, p.key, edge, p);
    AskedIsWindow(rows, snaps, from, to, key);
    ProbeSeesCoverage(rows, snaps, from, to);
    if walked {
      assert snaps != [] && w.derivLo <= Anchor(snaps).value.key;
      StartsInLedger(rows, Anchor(snaps), from, to);
    } else {
      BankPointIsWindowFree(edge, rows, snaps, from, to, key);
      KnownIsCovered(rows, key);
    }
  }

  lemma OriginKey(rows: seq<Row>, snaps: seq<Reading>, from: Option<int>, to: Option<int>, bs: seq<Bucket>,
                  walked: bool, i: nat, key: int, edge: int -> int, p: Point)
    requires rows != [] && i < |bs| && OpenAt(bs, walked, i).Some?
    requires var w := WindowOf(rows, Anchor(snaps), from, to);
             && w.derivLo <= w.derivHi + 1
             && Closed(KeyRange(rows, w.derivLo, w.derivHi), w.derivLo, w.derivHi, !walked, Anchor(snaps)) == Some(bs)
    requires p == PointFor(edge, snaps, bs[i], OpenAt(bs, walked, i).value) && key == p.key
    ensures key == WindowOf(rows, Anchor(snaps), from, to).derivLo + i
  {
    hide WindowOf, KeyRange, FlowOf, Flagged, OpenAt, WalkClose, LastReading;
  }

  lemma StartsInLedger(rows: seq<Row>, anchor: Option<Reading>, from: Option<int>, to: Option<int>)
    requires rows != []
    ensures rows[0].key <= WindowOf(rows, anchor, from, to).derivLo
  {
  }

  lemma KnownIsCovered(rows: seq<Row>, key: int)
    requires KnownLevel(rows, key).Some?
    ensures CoveredThrough(rows, key)
  {
    var j := LevelNeedsCovered(rows, key);
  }

  lemma AskedIsReported(edge: int -> int, rows: seq<Row>, snaps: seq<Reading>, from: Option<int>, to: Option<int>,
                        key: int)
    requires Sorted(rows) && Asked(rows, snaps, from, to, key)
    requires CoveredThrough(rows, key) || Walkable(rows, snaps, to)
    ensures Reported(SeriesOf(edge, rows, snaps, false, from, to).points, key)
  {
    assert rows != [];
    hide SeriesOf, WindowOf, KeyRange, AnyCovered, OpenAt, KnownLevel, KnownOpen, FlowOf, LastReading, Sorted, Flagged,
         WindowFree, Closed, Asked;
    AskedIsWindow(rows, snaps, from, to, key);
    ProbeSeesCoverage(rows, snaps, from, to);
    var w := WindowOf(rows, Anchor(snaps), from, to);
    var loaded := KeyRange(rows, w.derivLo, w.derivHi);
    ClosedWhen(loaded, w.derivLo, w.derivHi, AnyCovered(loaded), Anchor(snaps));
    if CoveredThrough(rows, key) {
      var j :| 0 <= j < |rows| && rows[j].after.Some? && rows[j].key <= key;
      CoveredMakesLevel(rows, key, j);
      BankPointIsWindowFree(edge, rows, snaps, from, to, key);
    } else {
      WalkReachesReading(rows, snaps, from, to);
      WalkedPointIsWindowFree(edge, rows, snaps, from, to, key);
    }
    SeriesHas(edge, rows, snaps, from, to, key - w.derivLo);
    WindowFreeKey(edge, rows, snaps, key);
  }

  lemma WindowFreeKey(edge: int -> int, rows: seq<Row>, snaps: seq<Reading>, key: int)
    ensures WindowFree(edge, rows, snaps, key).key == key && WindowFree(edge, rows, snaps, key).asOf == edge(key)
  {
  }

  /**
    The answer's buckets, on any ledger and for any query: those asked for at or before which some row carries
    the bank's running balance, or all of them when the series is walked. In ascending order, once each.
   */
  lemma ReportedExactly(edge: int -> int, rows: seq<Row>, snaps: seq<Reading>, from: Option<int>, to: Option<int>,
                        key: int)
    requires Sorted(rows) && rows != []
    ensures Reported(SeriesOf(edge, rows, snaps, false, from, to).points, key) <==>
              && Asked(rows, snaps, from, to, key)
              && (CoveredThrough(rows, key) || Walkable(rows, snaps, to))
    ensures Ascend(SeriesOf(edge, rows, snaps, false, from, to).points)
  {
    hide SeriesOf, Sorted, Asked, Walkable, CoveredThrough, Reported;
    if Reported(SeriesOf(edge, rows, snaps, false, from, to).points, key) {
      ReportedIsAsked(edge, rows, snaps, from, to, key);
    }
    if Asked(rows, snaps, from, to, key) && (CoveredThrough(rows, key) || Walkable(rows, snaps, to)) {
      AskedIsReported(edge, rows, snaps, from, to, key);
    }
    PointsAscend(edge, rows, snaps, from, to);
  }

  lemma PointsAscend(edge: int -> int, rows: seq<Row>, snaps: seq<Reading>, from: Option<int>, to: Option<int>)
    requires rows != []
    ensures Ascend(SeriesOf(edge, rows, snaps, false, from, to).points)
  {
    hide WindowOf, KeyRange, AnyCovered, FlowOf, Flagged, WalkClose, LevelInto, MaxDrift, Emitted;
    var w := WindowOf(rows, Anchor(snaps), from, to);
    if w.lo <= w.hi {
      RangesNest(rows, Anchor(snaps), from, to);
      var loaded := KeyRange(rows, w.derivLo, w.derivHi);
      var closed := Closed(loaded, w.derivLo, w.derivHi, AnyCovered(loaded), Anchor(snaps));
      if closed.Some? {
        EmittedAscends(edge, snaps, closed.value, !AnyCovered(loaded), w.lo - w.derivLo, w.hi - w.derivLo + 1,
                       w.derivLo);
      }
    }
  }

  /** Where coverage is all or nothing every bucket asked for is reported, and no other. */
  lemma DerivableReportsAllAsked(edge: int -> int, rows: seq<Row>, snaps: seq<Reading>, from: Option<int>,
                                 to: Option<int>, key: int)
    requires Derivable(rows, snaps)
    ensures Reported(SeriesOf(edge, rows, snaps, false, from, to).points, key) <==> Asked(rows, snaps, from, to, key)
  {
    hide SeriesOf, Sorted, Horizon;
    ReportedExactly(edge, rows, snaps, from, to, key);
    if Asked(rows, snaps, from, to, key) && rows[0].after.Some? {
      assert CoveredThrough(rows, key);
    }
  }

  /**
    The slice of the full series: with coverage all or nothing, one point for every bucket asked for, in
    order, each the point defined without any window.
   */
  lemma SliceOfAsked(edge: int -> int, rows: seq<Row>, snaps: seq<Reading>, from: Option<int>, to: Option<int>)
      returns (lo: int)
    requires Derivable(rows, snaps)
    ensures var points := SeriesOf(edge, rows, snaps, false, from, to).points;
            && (forall key :: Asked(rows, snaps, from, to, key) <==> lo <= key < lo + |points|)
            && forall i :: 0 <= i < |points| ==> points[i] == WindowFree(edge, rows, snaps, lo + i)
  {
    hide SeriesOf, Sorted, Asked, WindowFree, WindowOf;
    SeriesIsSlice(edge, rows, snaps, from, to);
    lo := WindowOf(rows, Anchor(snaps), from, to).lo;
    forall key ensures Asked(rows, snaps, from, to, key) <==> lo <= key <= WindowOf(rows, Anchor(snaps), from, to).hi {
      AskedIsWindow(rows, snaps, from, to, key);
    }
  }

  // ----- where a series starts unverified -----

  /** The first bucket asked for. */
  function FirstAsked(rows: seq<Row>, from: Option<int>): int
    requires rows != []
  {
    if from.Some? && rows[0].key < from.value then from.value else rows[0].key
  }

  /**
    A series starts unverified exactly when it has a point and nothing before it gives its opening: no running
    balance before the first bucket asked for or, where it is walked, no reading before it.
   */
  lemma UnverifiedExactly(edge: int -> int, rows: seq<Row>, snaps: seq<Reading>, from: Option<int>, to: Option<int>)
    requires Sorted(rows) && rows != []
    ensures var v := SeriesOf(edge, rows, snaps, false, from, to);
            v.startUnverified <==>
              && v.points != []
              && (if CoveredThrough(rows, Horizon(rows, snaps, to))
                  then !CoveredThrough(rows, FirstAsked(rows, from) - 1)
                  else snaps != [] && FirstAsked(rows, from) <= snaps[|snaps| - 1].key)
  {
    hide Sorted, SeriesOf, KeyRange, AnyCovered, KnownLevel, LastCoveredBelow, CoveredThrough, Horizon;
    var w := WindowOf(rows, Anchor(snaps), from, to);
    assert w.lo == FirstAsked(rows, from);
    hide WindowOf, FirstAsked;
    if w.lo <= w.hi {
      ProbeSeesCoverage(rows, snaps, from, to);
      if CoveredThrough(rows, Horizon(rows, snaps, to)) {
        UnverifiedMeansUnknown(edge, rows, snaps, from, to);
        if KnownLevel(rows, w.lo - 1).Some? { KnownIsCovered(rows, w.lo - 1); }
        if CoveredThrough(rows, w.lo - 1) { ThroughIsKnown(rows, w.lo - 1); }
      } else {
        WalkedUnverified(edge, rows, snaps, from, to);
      }
    } else {
      NothingAsked(edge, rows, snaps, from, to);
    }
  }

  lemma NothingAsked(edge: int -> int, rows: seq<Row>, snaps: seq<Reading>, from: Option<int>, to: Option<int>)
    requires rows != []
    requires var w := WindowOf(rows, Anchor(snaps), from, to); w.hi < w.lo
    ensures var v := SeriesOf(edge, rows, snaps, false, from, to); v.points == [] && !v.startUnverified
  {
    hide WindowOf;
  }

  lemma ThroughIsKnown(rows: seq<Row>, key: int)
    requires CoveredThrough(rows, key)
    ensures KnownLevel(rows, key).Some?
  {
    var j :| 0 <= j < |rows| && rows[j].after.Some? && rows[j].key <= key;
    CoveredMakesLevel(rows, key, j);
  }

  lemma WalkedUnverified(edge: int -> int, rows: seq<Row>, snaps: seq<Reading>, from: Option<int>, to: Option<int>)
    requires Sorted(rows) && rows != [] && !CoveredThrough(rows, Horizon(rows, snaps, to))
    requires var w := WindowOf(rows, Anchor(snaps), from, to);
             && w.derivLo <= w.lo <= w.hi <= w.derivHi && !AnyCovered(KeyRange(rows, w.derivLo, w.derivHi))
    ensures var w, v := WindowOf(rows, Anchor(snaps), from, to), SeriesOf(edge, rows, snaps, false, from, to);
            v.startUnverified <==> v.points != [] && snaps != [] && w.lo <= Anchor(snaps).value.key
  {
    hide Sorted, WindowOf, KeyRange, AnyCovered, Closed, LevelInto, OpenAt, CloseAt, MaxDrift, Emitted, CoveredThrough,
         Horizon, WalkedLevel;
    var w := WindowOf(rows, Anchor(snaps), from, to);
    var loaded := KeyRange(rows, w.derivLo, w.derivHi);
    ClosedWhen(loaded, w.derivLo, w.derivHi, false, Anchor(snaps));
    if snaps != [] && w.derivLo <= Anchor(snaps).value.key <= w.derivHi {
      var anchor := Anchor(snaps).value;
      var bs := Closed(loaded, w.derivLo, w.derivHi, false, Some(anchor)).value;
      if w.derivLo < w.lo {
        var i := w.lo - w.derivLo - 1;
        WalkedOpenClose(rows, anchor, w.derivLo, w.derivHi, i);
        CloseFollowsOpen(bs, true, i);
        assert LevelInto(bs, true, i + 1) == CloseAt(bs, true, i) by { LevelIsClose(bs, true, i); }
      }
      StartsAtWindow(rows, snaps, from, to);
    }
  }

  lemma LevelIsClose(bs: seq<Bucket>, walked: bool, i: nat)
    requires i < |bs|
    ensures LevelInto(bs, walked, i + 1) == CloseAt(bs, walked, i)
  {
  }

  lemma StartsAtWindow(rows: seq<Row>, snaps: seq<Reading>, from: Option<int>, to: Option<int>)
    requires Sorted(rows) && rows != [] && !CoveredThrough(rows, Horizon(rows, snaps, to)) && snaps != []
    requires var w := WindowOf(rows, Anchor(snaps), from, to);
             w.lo <= w.hi && w.derivLo <= Anchor(snaps).value.key
    ensures var w := WindowOf(rows, Anchor(snaps), from, to); w.derivLo == w.lo <==> w.lo <= Anchor(snaps).value.key
  {
    var w, anchor := WindowOf(rows, Anchor(snaps), from, to), Anchor(snaps).value;
    var bound := Min(w.lo, anchor.key);
    forall j | 0 <= j < |rows| && rows[j].after.Some? ensures bound <= rows[j].key {
      assert !(rows[j].key <= Horizon(rows, snaps, to));
    }
    NoPriorBelow(rows, bound);
    hide LastCoveredBelow, Sorted;
  }

  // ----- the other fields of a point -----

  lemma {:induction false} LastCoverage(rows: seq<Row>, key: int, i: nat)
    requires Sorted(rows) && i < |rows| && IsLastAt(rows, key, i)
    ensures var f := FlowOf(rows, key); f.txns > 0 && (f.lastCovered <==> rows[i].after.Some?)
    ensures rows[i].after.Some? ==> FlowOf(rows, key).lastAfter.Some?
  {
    var n := |rows| - 1;
    if i < n {
      assert key < rows[n].key;
      LastCoverage(rows[..n], key, i);
    }
  }

  /** A point reads the account's last reading in its bucket, and drifts from it by its close. */
  lemma {:induction false} LastReadingIsLast(snaps: seq<Reading>, key: int, i: nat)
    requires i < |snaps| && snaps[i].key == key
    requires forall j :: i < j < |snaps| ==> snaps[j].key != key
    ensures LastReading(snaps, key) == Some(snaps[i].balance)
  {
    if i < |snaps| - 1 {
      LastReadingIsLast(snaps[..|snaps| - 1], key, i);
    }
  }

  lemma {:induction false} NoReadingNoDrift(snaps: seq<Reading>, key: int)
    requires forall j :: 0 <= j < |snaps| ==> snaps[j].key != key
    ensures LastReading(snaps, key) == None
  {
    if snaps != [] {
      NoReadingNoDrift(snaps[..|snaps| - 1], key);
    }
  }

  /**
    Where a point stands and what its close rests on: carried when no row falls in its bucket, the bank's own
    figure when its last row has one, accumulated otherwise.
   */
  lemma PointTellsSource(edge: int -> int, rows: seq<Row>, snaps: seq<Reading>, investment: bool, from: Option<int>,
                         to: Option<int>, p: Point)
    requires Sorted(rows) && p in SeriesOf(edge, rows, snaps, investment, from, to).points
    ensures p.asOf == edge(p.key) && !investment
    ensures p.carried <==> forall i :: 0 <= i < |rows| ==> rows[i].key != p.key
    ensures p.source == Carried <==> p.carried
    ensures p.source == BalanceAfter <==>
              exists i :: 0 <= i < |rows| && IsLastAt(rows, p.key, i) && rows[i].after.Some?
    ensures p.source != NoSource
  {
    hide SeriesOf, KnownLevel, KnownOpen, Flagged, LastReading, WalkedLevel;
    PointIsWindowFree(edge, rows, snaps, investment, from, to, p);
    assert !investment by { InvestmentsHaveNone(edge, rows, snaps, from, to); }
    if forall i :: 0 <= i < |rows| ==> rows[i].key != p.key {
      FlowOfNone(rows, p.key);
    } else {
      var i := LastAt(rows, p.key);
      LastCoverage(rows, p.key, i);
      forall j | 0 <= j < |rows| && IsLastAt(rows, p.key, j) ensures j == i {
        OneLast(rows, p.key, i, j);
      }
    }
  }

  lemma InvestmentsHaveNone(edge: int -> int, rows: seq<Row>, snaps: seq<Reading>, from: Option<int>, to: Option<int>)
    ensures SeriesOf(edge, rows, snaps, true, from, to).points == []
  {
  }

  predicate IsLastAt(rows: seq<Row>, key: int, i: nat)
    requires i < |rows|
  {
    rows[i].key == key && (i + 1 < |rows| ==> key < rows[i + 1].key)
  }

  lemma OneLast(rows: seq<Row>, key: int, i: nat, j: nat)
    requires Sorted(rows) && i < |rows| && j < |rows| && IsLastAt(rows, key, i) && IsLastAt(rows, key, j)
    ensures i == j
  {
  }

  lemma {:induction false} LastAt(rows: seq<Row>, key: int) returns (i: nat)
    requires Sorted(rows) && exists j :: 0 <= j < |rows| && rows[j].key == key
    ensures i < |rows| && IsLastAt(rows, key, i)
  {
    var n := |rows| - 1;
    if rows[n].key == key {
      i := n;
    } else {
      var j :| 0 <= j < |rows| && rows[j].key == key;
      assert rows[..n][j].key == key;
      i := LastAt(rows[..n], key);
      assert rows[i + 1].key >= rows[i].key;
    }
  }

  // ----- why a series is empty -----

  /** Each note, from the tables and the query alone. */
  lemma NotesExactly(edge: int -> int, rows: seq<Row>, snaps: seq<Reading>, investment: bool, from: Option<int>,
                     to: Option<int>)
    requires Sorted(rows)
    ensures var v := SeriesOf(edge, rows, snaps, investment, from, to);
            var asked := exists key :: Asked(rows, snaps, from, to, key);
            && (v.note == InvestmentNote <==> investment)
            && (v.note == NoLedgerNote <==> !investment && rows == [])
            && (v.note == NoAnchorNote <==>
                  !investment && rows != [] && asked && snaps == [] && !CoveredThrough(rows, Horizon(rows, snaps, to)))
            && (v.note == AnchorOutsideNote <==>
                  && !investment && rows != [] && asked && snaps != [] && snaps[|snaps| - 1].key < rows[0].key
                  && !CoveredThrough(rows, Horizon(rows, snaps, to)))
            && v.ledgerFrom == (if investment || rows == [] then None else Some(rows[0].key))
            && (v.note != NoNote ==> v.points == [])
  {
    hide Sorted, WindowOf, KeyRange, AnyCovered, Closed, LevelInto, MaxDrift, Emitted, CoveredThrough, Horizon;
    if rows != [] {
      var w := WindowOf(rows, Anchor(snaps), from, to);
      AskedIsWindow(rows, snaps, from, to, w.lo);
      forall key ensures Asked(rows, snaps, from, to, key) <==> w.lo <= key <= w.hi {
        AskedIsWindow(rows, snaps, from, to, key);
      }
      hide Asked;
      if w.lo <= w.hi {
        ProbeSeesCoverage(rows, snaps, from, to);
        var loaded := KeyRange(rows, w.derivLo, w.derivHi);
        ClosedWhen(loaded, w.derivLo, w.derivHi, AnyCovered(loaded), Anchor(snaps));
        if snaps != [] && !CoveredThrough(rows, Horizon(rows, snaps, to)) {
          ReadingOutside(rows, snaps, from, to);
        }
      }
    }
  }

  lemma ReadingOutside(rows: seq<Row>, snaps: seq<Reading>, from: Option<int>, to: Option<int>)
    requires Sorted(rows) && rows != []
    requires var w := WindowOf(rows, Anchor(snaps), from, to); w.lo <= w.hi
    requires !CoveredThrough(rows, Horizon(rows, snaps, to)) && snaps != []
    ensures var w := WindowOf(rows, Anchor(snaps), from, to);
            w.derivLo <= Anchor(snaps).value.key <= w.derivHi <==> rows[0].key <= Anchor(snaps).value.key
  {
    hide WindowOf, Sorted;
    StartsInLedger(rows, Anchor(snaps), from, to);
    if rows[0].key <= Anchor(snaps).value.key {
      WalkReachesReading(rows, snaps, from, to);
    }
  }
}
