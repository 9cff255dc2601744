/**
  On a ledger consistent with some opening balance, both strategies report the true running
  balance at every bucket's end.
 */
module LedgerSeriesTruth {
  import opened Prelude
  import opened LedgerBuckets
  import opened LedgerSeries

  /** Every running balance the bank sent is the true one, for a hidden opening balance. */
  ghost predicate Consistent(rows: seq<Row>, opening: real) {
    forall i :: 0 <= i < |rows| && rows[i].after.Some? ==> rows[i].after.value == opening + Sum(rows[..i + 1])
  }

  /** The true balance at the end of a bucket. */
  ghost function Level(rows: seq<Row>, opening: real, key: int): real {
    opening + SumThrough(rows, key)
  }

  ghost predicate AnchorTrue(rows: seq<Row>, snaps: seq<Reading>, opening: real) {
    Anchor(snaps).Some? ==> Anchor(snaps).value.balance == Level(rows, opening, Anchor(snaps).value.key)
  }

  /** Whether a query walks from the reading: no row it loads carries the bank's running balance. */
  predicate Walks(rows: seq<Row>, snaps: seq<Reading>, from: Option<int>, to: Option<int>) {
    && rows != []
    && var w := WindowOf(rows, Anchor(snaps), from, to);
    && w.lo <= w.hi
    && (RangesNest(rows, Anchor(snaps), from, to);
        !AnyCovered(KeyRange(rows, w.derivLo, w.derivHi)))
  }

  lemma FlowOfNone(rows: seq<Row>, key: int)
    requires forall i :: 0 <= i < |rows| ==> rows[i].key != key
    ensures FlowOf(rows, key) == EMPTY_FLOW
  {
    FlowIgnores(rows, [], [], key);
    assert rows + [] + [] == rows;
  }

  /** A bucket's fold recovers the true level at both of its edges from any covered row in it. */
  lemma {:induction false} FlowKnowsLevels(rows: seq<Row>, opening: real, key: int)
    requires Sorted(rows) && Consistent(rows, opening)
    ensures var f := FlowOf(rows, key);
            && (f.lastAfter.Some? <==> f.firstAfter.Some?)
            && (f.lastAfter.Some? ==>
                  && f.txns > 0
                  && f.lastAfter.value + f.netAfterLast == Level(rows, opening, key)
                  && f.firstAfter.value - f.netThruFirst == Level(rows, opening, key - 1))
            && (f.firstAfter.None? ==> f.netThruFirst == f.net)
  {
    if rows != [] {
      var n := |rows| - 1;
      var r, rest := rows[n], rows[..n];
      forall i | 0 <= i < n && rest[i].after.Some? ensures rest[i].after.value == opening + Sum(rest[..i + 1]) {
        assert rest[..i + 1] == rows[..i + 1];
      }
      FlowKnowsLevels(rest, opening, key);
      NetIsStep(rest, key);
      if r.key == key {
        SumThroughAll(rest, key);
        assert rows[..n + 1] == rows;
      } else if r.key < key {
        FlowOfNone(rows, key);
      }
    }
  }

  lemma {:induction false} SumNext(rows: seq<Row>, i: nat)
    requires i < |rows|
    ensures Sum(rows[..i + 1]) == Sum(rows[..i]) + rows[i].amount
  {
    assert rows[..i + 1][..i] == rows[..i];
  }

  /** A consistent ledger is never flagged, in any bucket. */
  lemma ConsistentNeverFlagged(rows: seq<Row>, opening: real, key: int)
    requires Consistent(rows, opening)
    ensures !Flagged(rows, key)
  {
    forall i | 0 < i < |rows| && rows[i].key == key ensures !Breaks(rows[i - 1], rows[i]) {
      SumNext(rows, i);
    }
  }

  /** What is flagged among the loaded rows is flagged in the ledger. */
  lemma LoadedFlagsAreFlags(rows: seq<Row>, lo: int, hi: int, key: int)
    requires lo <= hi + 1
    ensures Flagged(KeyRange(rows, lo, hi), key) ==> Flagged(rows, key)
  {
    CountBelowMonotone(rows, lo, hi + 1);
    var loaded, a := KeyRange(rows, lo, hi), CountBelow(rows, lo);
    if Flagged(loaded, key) {
      var i :| 0 < i < |loaded| && loaded[i].key == key && Breaks(loaded[i - 1], loaded[i]);
      assert loaded[i - 1] == rows[a + i - 1] && loaded[i] == rows[a + i];
    }
  }

  ghost predicate TrueBuckets(bs: seq<Bucket>, lo: int, rows: seq<Row>, opening: real, walked: bool) {
    && (forall i :: 0 <= i < |bs| ==> TrueBucket(bs[i], lo + i, rows, opening, walked))
    && (walked && bs != [] ==> bs[0].close.Some?)
  }

  ghost predicate TrueBucket(b: Bucket, key: int, rows: seq<Row>, opening: real, walked: bool) {
    && b.key == key && b.flow == FlowOf(rows, key) && !b.rowMismatch
    && (b.close.Some? ==> b.close.value == Level(rows, opening, key))
    && (b.close.Some? && !walked ==> Opening(b) == Level(rows, opening, key - 1))
  }

  /** The emission loop's level is the true one as soon as there is one. */
  lemma {:induction false} LevelsTrue(bs: seq<Bucket>, lo: int, rows: seq<Row>, opening: real, walked: bool, i: nat)
    requires TrueBuckets(bs, lo, rows, opening, walked) && i < |bs|
    ensures OpenAt(bs, walked, i).Some? ==> OpenAt(bs, walked, i).value == Level(rows, opening, lo + i - 1)
    ensures CloseAt(bs, walked, i).Some? ==> CloseAt(bs, walked, i).value == Level(rows, opening, lo + i)
    ensures walked ==> CloseAt(bs, walked, i).Some?
  {
    assert TrueBucket(bs[i], lo + i, rows, opening, walked);
    NetIsStep(rows, lo + i);
    if i > 0 {
      LevelsTrue(bs, lo, rows, opening, walked, i - 1);
      assert lo + (i - 1) == lo + i - 1;
      assert LevelInto(bs, walked, i) == CloseAt(bs, walked, i - 1);
    } else if walked {
      assert LevelInto(bs, walked, 0) == Some(bs[0].close.value - bs[0].flow.net);
    }
  }

  /** Walked closes are the anchor shifted by the running sum. */
  lemma {:induction false} WalkIsShiftedSum(rows: seq<Row>, lo: int, hi: int, anchorIdx: nat, balance: real, i: nat)
    requires anchorIdx <= hi - lo && i <= hi - lo
    ensures WalkClose(Seeded(rows, lo, hi), anchorIdx, balance, i)
            == balance + SumThrough(rows, lo + i) - SumThrough(rows, lo + anchorIdx)
    decreases AbsInt(anchorIdx - i)
  {
    if i < anchorIdx {
      WalkIsShiftedSum(rows, lo, hi, anchorIdx, balance, i + 1);
      NetIsStep(rows, lo + i + 1);
    } else if i > anchorIdx {
      WalkIsShiftedSum(rows, lo, hi, anchorIdx, balance, i - 1);
      NetIsStep(rows, lo + i);
      assert lo + (i - 1) == lo + i - 1;
    }
  }

  lemma SeededTrue(rows: seq<Row>, opening: real, lo: int, hi: int, i: nat)
    requires Sorted(rows) && Consistent(rows, opening) && lo <= hi && i <= hi - lo
    ensures var loaded := KeyRange(rows, lo, hi);
            var b := Seeded(loaded, lo, hi)[i];
            TrueBucket(BankClosed(b).(rowMismatch := Flagged(loaded, lo + i)), lo + i, rows, opening, false)
  {
    hide FlowOf, Flagged, KeyRange, Sorted, SumThrough;
    RangeFolds(rows, lo, hi, lo + i);
    FlowKnowsLevels(rows, opening, lo + i);
    LoadedFlagsAreFlags(rows, lo, hi, lo + i);
    ConsistentNeverFlagged(rows, opening, lo + i);
  }

  lemma WalkedTrue(rows: seq<Row>, opening: real, lo: int, hi: int, anchor: Reading, i: nat)
    requires Sorted(rows) && i <= hi - lo && lo <= anchor.key <= hi
    requires anchor.balance == Level(rows, opening, anchor.key)
    ensures var bs := Seeded(KeyRange(rows, lo, hi), lo, hi);
            TrueBucket(Walked(bs, anchor.key - lo, anchor.balance)[i], lo + i, rows, opening, true)
  {
    hide FlowOf, KeyRange, Sorted, WalkClose, SumThrough;
    RangeFolds(rows, lo, hi, lo + i);
    WalkIsShiftedSum(KeyRange(rows, lo, hi), lo, hi, anchor.key - lo, anchor.balance, i);
    RangeSums(rows, lo, hi, anchor.key, lo + i);
  }

  lemma ClosedBucketsTrue(rows: seq<Row>, snaps: seq<Reading>, opening: real, lo: int, hi: int)
    requires Sorted(rows) && Consistent(rows, opening) && lo <= hi
    requires !AnyCovered(KeyRange(rows, lo, hi)) ==> AnchorTrue(rows, snaps, opening)
    ensures var loaded := KeyRange(rows, lo, hi);
            var covered := AnyCovered(loaded);
            var closed := Closed(loaded, lo, hi, covered, Anchor(snaps));
            closed.Some? ==> TrueBuckets(closed.value, lo, rows, opening, !covered)
  {
    hide FlowOf, Flagged, KeyRange, Sorted, WalkClose, SumThrough, TrueBucket, AnyCovered, BankClosed;
    var loaded := KeyRange(rows, lo, hi);
    var covered, anchor := AnyCovered(loaded), Anchor(snaps);
    var closed := Closed(loaded, lo, hi, covered, anchor);
    if closed.Some? {
      forall i | 0 <= i <= hi - lo ensures TrueBucket(closed.value[i], lo + i, rows, opening, !covered) {
        if covered {
          SeededTrue(rows, opening, lo, hi, i);
        } else {
          WalkedTrue(rows, opening, lo, hi, anchor.value, i);
        }
      }
    }
  }

  /** Each emitted point is the point of some derivation bucket with a known opening. */
  lemma {:induction false} PointOrigin(edge: int -> int, snaps: seq<Reading>, bs: seq<Bucket>, walked: bool, start: nat,
                                       end: nat, p: Point)
    returns (i: nat)
    requires end <= |bs| && p in Emitted(edge, snaps, bs, walked, start, end)
    ensures start <= i < end && OpenAt(bs, walked, i).Some?
    ensures p == PointFor(edge, snaps, bs[i], OpenAt(bs, walked, i).value)
  {
    if p in Emitted(edge, snaps, bs, walked, start, end - 1) {
      i := PointOrigin(edge, snaps, bs, walked, start, end - 1, p);
    } else {
      i := end - 1;
    }
  }

  /**
    Correctness of both strategies, mixed coverage included: every close is the true balance at its
    bucket's end, every open the true balance at the previous bucket's end, and no flow mismatch is
    ever reported. Only a query that walks from the newest reading needs that reading to be true.
   */
  lemma SeriesIsTrue(edge: int -> int, rows: seq<Row>, snaps: seq<Reading>, investment: bool, from: Option<int>,
                     to: Option<int>, opening: real, p: Point)
    requires Sorted(rows) && Consistent(rows, opening)
    requires Walks(rows, snaps, from, to) ==> AnchorTrue(rows, snaps, opening)
    requires p in SeriesOf(edge, rows, snaps, investment, from, to).points
    ensures p.close == Level(rows, opening, p.key)
    ensures p.open == Level(rows, opening, p.key - 1)
    ensures !p.flowMismatch
    ensures p.flow == FlowOf(rows, p.key)
    ensures p.drift == (var reading := LastReading(snaps, p.key);
                        if reading.Some? then Some(Level(rows, opening, p.key) - reading.value) else None)
  {
    hide LevelInto, OpenAt, CloseAt, LastReading, Closed, KeyRange, AnyCovered, FlowOf, WindowOf, SumThrough;
    var bs, walked, i := SeriesOrigin(edge, rows, snaps, investment, from, to, p);
    var w := WindowOf(rows, Anchor(snaps), from, to);
    ClosedBucketsTrue(rows, snaps, opening, w.derivLo, w.derivHi);
    LevelsTrue(bs, w.derivLo, rows, opening, walked, i);
    assert TrueBucket(bs[i], w.derivLo + i, rows, opening, walked);
    NetIsStep(rows, p.key);
    assert CloseAt(bs, walked, i) == Some(p.close) by { CloseFollowsOpen(bs, walked, i); }
  }

  /** A point of a series traced to its derivation bucket. */
  lemma SeriesOrigin(edge: int -> int, rows: seq<Row>, snaps: seq<Reading>, investment: bool, from: Option<int>,
                     to: Option<int>, p: Point)
    returns (bs: seq<Bucket>, walked: bool, i: nat)
    requires p in SeriesOf(edge, rows, snaps, investment, from, to).points
    ensures rows != []
    ensures var w := WindowOf(rows, Anchor(snaps), from, to);
            && w.derivLo <= w.lo <= w.hi <= w.derivHi
            && walked == !AnyCovered(KeyRange(rows, w.derivLo, w.derivHi))
            && Closed(KeyRange(rows, w.derivLo, w.derivHi), w.derivLo, w.derivHi, !walked, Anchor(snaps)) == Some(bs)
            && w.lo <= w.derivLo + i <= w.hi
            && |bs| == w.derivHi - w.derivLo + 1
    ensures OpenAt(bs, walked, i).Some? && p == PointFor(edge, snaps, bs[i], OpenAt(bs, walked, i).value)
  {
    hide LevelInto, OpenAt, CloseAt, LastReading, Closed, KeyRange, AnyCovered, FlowOf, LastCoveredBelow, Emitted,
         PointFor;
    var w := WindowOf(rows, Anchor(snaps), from, to);
    walked := !AnyCovered(KeyRange(rows, w.derivLo, w.derivHi));
    bs := Closed(KeyRange(rows, w.derivLo, w.derivHi), w.derivLo, w.derivHi, !walked, Anchor(snaps)).value;
    i := PointOrigin(edge, snaps, bs, walked, w.lo - w.derivLo, w.hi - w.derivLo + 1, p);
  }

  lemma CloseFollowsOpen(bs: seq<Bucket>, walked: bool, i: nat)
    requires i < |bs| && OpenAt(bs, walked, i).Some?
    ensures CloseAt(bs, walked, i) == Some(CloseFrom(bs[i], OpenAt(bs, walked, i).value))
  {
  }
}
