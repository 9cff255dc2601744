/** The series as it is computed: buckets in an array, filled, closed, checked and read in place. */
module LedgerSeriesDerivation {
  import opened Prelude
  import opened LedgerBuckets
  import opened LedgerSeries

  /** Pre-seed every bucket of the range, then fold each row into its own. */
  method FoldRows(rows: seq<Row>, lo: int, hi: int) returns (order: array<Bucket>)
    requires lo <= hi + 1
    ensures fresh(order)
    ensures order[..] == Seeded(rows, lo, hi)
  {
    order := new Bucket[hi - lo + 1](i => Bucket(lo + i, EMPTY_FLOW, None, NoSource, false));
    for n := 0 to |rows|
      invariant forall i :: 0 <= i < order.Length ==>
                order[i] == Bucket(lo + i, FlowOf(rows[..n], lo + i), None, NoSource, false)
    {
      var r := rows[n];
      assert rows[..n + 1][..n] == rows[..n];
      if lo <= r.key <= hi {
        var lb := order[r.key - lo];
        order[r.key - lo] := lb.(flow := AddRow(lb.flow, r));
      }
    }
    assert rows[..|rows|] == rows;
  }

  method CloseOnBankFigures(order: array<Bucket>)
    modifies order
    ensures forall i :: 0 <= i < order.Length ==> order[i] == BankClosed(old(order[i]))
  {
    for n := 0 to order.Length
      invariant forall i :: 0 <= i < n ==> order[i] == BankClosed(old(order[i]))
      invariant forall i :: n <= i < order.Length ==> order[i] == old(order[i])
    {
      order[n] := BankClosed(order[n]);
    }
  }

  /** Walk the rows once; a break between two consecutive covered rows flags the later one's bucket. */
  method CheckRunningBalance(rows: seq<Row>, order: array<Bucket>, lo: int)
    requires forall i :: 0 <= i < order.Length ==> !order[i].rowMismatch
    modifies order
    ensures forall i :: 0 <= i < order.Length ==> order[i] == old(order[i]).(rowMismatch := Flagged(rows, lo + i))
  {
    var prevAfter := None;
    for n := 0 to |rows|
      invariant prevAfter == if n == 0 then None else rows[n - 1].after
      invariant forall i :: 0 <= i < order.Length ==>
                order[i] == old(order[i]).(rowMismatch := Flagged(rows[..n], lo + i))
    {
      var t := rows[n];
      FlaggedNext(rows[..n], t);
      assert rows[..n + 1] == rows[..n] + [t];
      if t.after.Some? && prevAfter.Some? && AbsReal(t.after.value - prevAfter.value - t.amount) > FLOW_EPSILON {
        if 0 <= t.key - lo < order.Length {
          order[t.key - lo] := order[t.key - lo].(rowMismatch := true);
        }
      }
      prevAfter := t.after;
    }
    assert rows[..|rows|] == rows;
  }

  lemma FlaggedNext(rows: seq<Row>, t: Row)
    ensures forall key :: Flagged(rows + [t], key) <==>
              Flagged(rows, key) || (key == t.key && rows != [] && Breaks(rows[|rows| - 1], t))
  {
    var grown := rows + [t];
    forall key
      ensures Flagged(grown, key) <==> Flagged(rows, key) || (key == t.key && rows != [] && Breaks(rows[|rows| - 1], t))
    {
      if Flagged(grown, key) {
        var i :| 0 < i < |grown| && grown[i].key == key && Breaks(grown[i - 1], grown[i]);
        assert i < |rows| ==> grown[i - 1] == rows[i - 1] && grown[i] == rows[i];
      }
      if Flagged(rows, key) {
        var i :| 0 < i < |rows| && rows[i].key == key && Breaks(rows[i - 1], rows[i]);
        assert grown[i - 1] == rows[i - 1] && grown[i] == rows[i];
      }
      if key == t.key && rows != [] && Breaks(rows[|rows| - 1], t) {
        assert grown[|rows| - 1] == rows[|rows| - 1] && grown[|rows|] == t;
      }
    }
  }

  /** Fill every close outward from the anchor's bucket, which takes the reading verbatim. */
  method WalkFromAnchor(order: array<Bucket>, anchor: Reading, lo: int) returns (ok: bool)
    requires forall i :: 0 <= i < order.Length ==> order[i].key == lo + i
    modifies order
    ensures ok == (lo <= anchor.key < lo + order.Length)
    ensures !ok ==> order[..] == old(order[..])
    ensures ok ==> order[..] == Walked(old(order[..]), anchor.key - lo, anchor.balance)
  {
    if !(lo <= anchor.key < lo + order.Length) {
      return false;
    }
    hide WalkClose, WalkedAt;
    ok := true;
    ghost var was := order[..];
    var anchorIdx := 0;
    while order[anchorIdx].key != anchor.key
      invariant 0 <= anchorIdx <= anchor.key - lo
      decreases order.Length - anchorIdx
    {
      anchorIdx := anchorIdx + 1;
    }
    WalkAtAnchor(was, anchorIdx, anchor.balance);
    order[anchorIdx] := order[anchorIdx].(close := Some(anchor.balance), source := Accumulated);
    var i := anchorIdx - 1;
    while i >= 0
      invariant -1 <= i < anchorIdx
      invariant forall k :: 0 <= k <= i || anchorIdx < k < order.Length ==> order[k] == was[k]
      invariant forall k :: i < k <= anchorIdx ==> order[k] == WalkedAt(was, anchorIdx, anchor.balance, k)
    {
      WalkDown(was, anchorIdx, anchor.balance, i);
      order[i] := order[i].(close := Some(order[i + 1].close.value - order[i + 1].flow.net), source := Accumulated);
      i := i - 1;
    }
    i := anchorIdx + 1;
    while i < order.Length
      invariant anchorIdx < i <= order.Length
      invariant forall k :: i <= k < order.Length ==> order[k] == was[k]
      invariant forall k :: 0 <= k < i ==> order[k] == WalkedAt(was, anchorIdx, anchor.balance, k)
    {
      WalkUp(was, anchorIdx, anchor.balance, i);
      order[i] := order[i].(close := Some(order[i - 1].close.value + order[i].flow.net), source := Accumulated);
      i := i + 1;
    }
    WalkEverywhere(was, anchorIdx, anchor.balance);
  }

  lemma WalkAtAnchor(bs: seq<Bucket>, anchorIdx: nat, balance: real)
    requires anchorIdx < |bs|
    ensures WalkedAt(bs, anchorIdx, balance, anchorIdx) == bs[anchorIdx].(close := Some(balance), source := Accumulated)
  {
  }

  lemma WalkDown(bs: seq<Bucket>, anchorIdx: nat, balance: real, i: nat)
    requires i < anchorIdx < |bs|
    ensures var next := WalkedAt(bs, anchorIdx, balance, i + 1);
            && next.close.Some? && next.flow == bs[i + 1].flow
            && WalkedAt(bs, anchorIdx, balance, i)
               == bs[i].(close := Some(next.close.value - next.flow.net), source := Accumulated)
  {
  }

  lemma WalkUp(bs: seq<Bucket>, anchorIdx: nat, balance: real, i: nat)
    requires anchorIdx < i < |bs|
    ensures var prev := WalkedAt(bs, anchorIdx, balance, i - 1);
            && prev.close.Some?
            && WalkedAt(bs, anchorIdx, balance, i)
               == bs[i].(close := Some(prev.close.value + bs[i].flow.net), source := Accumulated)
  {
  }

  lemma WalkEverywhere(bs: seq<Bucket>, anchorIdx: nat, balance: real)
    requires anchorIdx < |bs|
    ensures forall k :: 0 <= k < |bs| ==> Walked(bs, anchorIdx, balance)[k] == WalkedAt(bs, anchorIdx, balance, k)
  {
  }

  function WalkedAt(bs: seq<Bucket>, anchorIdx: nat, balance: real, i: nat): Bucket
    requires anchorIdx < |bs| && i < |bs|
  {
    bs[i].(close := Some(WalkClose(bs, anchorIdx, balance, i)), source := Accumulated)
  }

  /** Close-of-period readings of the emitted buckets, each overwritten by the next. */
  method ReadingCloses(snaps: seq<Reading>, lo: int, hi: int) returns (closes: map<int, real>)
    ensures forall key :: lo <= key <= hi ==>
      LastReading(snaps, key) == if key in closes then Some(closes[key]) else None
  {
    closes := map[];
    for n := 0 to |snaps|
      invariant forall key :: lo <= key <= hi ==>
        LastReading(snaps[..n], key) == if key in closes then Some(closes[key]) else None
    {
      assert snaps[..n + 1][..n] == snaps[..n];
      if lo <= snaps[n].key <= hi {
        closes := closes[snaps[n].key := snaps[n].balance];
      }
    }
    assert snaps[..|snaps|] == snaps;
  }

  /** Locate the emitted slice of the derivation buckets. */
  method EmittedRange(order: array<Bucket>, lo: int, hi: int) returns (start: int, end: int)
    requires order.Length > 0
    requires forall i :: 0 <= i < order.Length ==> order[i].key == order[0].key + i
    requires order[0].key <= lo <= hi < order[0].key + order.Length
    ensures start == lo - order[0].key && end == hi - order[0].key
  {
    start, end := -1, -1;
    for i := 0 to order.Length
      invariant start == if order[0].key + i <= lo then -1 else lo - order[0].key
      invariant end == if order[0].key + i <= lo then -1 else Min(i - 1, hi - order[0].key)
    {
      if order[i].key < lo || order[i].key > hi {
        continue;
      }
      if start < 0 {
        start := i;
      }
      end := i;
    }
  }

  /** The level carried into bucket i and the bucket it was found at, -1 while there is none. */
  ghost predicate Carrying(bs: seq<Bucket>, walked: bool, i: nat, prev: real, haveLevel: bool, levelIdx: int)
    requires i <= |bs|
  {
    && LevelInto(bs, walked, i) == (if haveLevel then Some(prev) else None)
    && (if haveLevel then 0 <= levelIdx else levelIdx == -1)
    && (walked ==> haveLevel && levelIdx == 0)
    && (forall k :: 0 <= k <= i ==> (LevelInto(bs, walked, k).Some? <==> haveLevel && (walked || levelIdx < k)))
  }

  /**
    The emission loop. One running level carries through every derivation bucket; only those from
    start on become points.
   */
  method Emit(edge: int -> int, snaps: seq<Reading>, order: array<Bucket>, walked: bool, start: nat, end: nat, lo: int,
              hi: int)
    returns (points: seq<Point>, driftMax: real, startUnverified: bool)
    requires start <= end < order.Length
    requires forall i :: start <= i <= end ==> lo <= order[i].key <= hi
    ensures points == Emitted(edge, snaps, order[..], walked, start, end + 1)
    ensures driftMax == MaxDrift(points)
    ensures startUnverified == (points != [] && (start == 0 || LevelInto(order[..], walked, start).None?))
  {
    hide LastReading, LevelInto, OpenAt, CloseAt, Emitted, Carrying, Opening, MaxDrift;
    var snapCloses := ReadingCloses(snaps, lo, hi);
    ghost var bs := order[..];
    points, driftMax := [], 0.0;
    var prev, haveLevel, levelIdx := 0.0, false, -1;
    if walked {
      prev := order[0].close.GetOr(0.0) - order[0].flow.net;
      haveLevel, levelIdx := true, 0;
    }
    CarryNone(bs, walked);
    NothingEmitted(edge, snaps, bs, walked, start);
    for i := 0 to end + 1
      invariant Carrying(bs, walked, i, prev, haveLevel, levelIdx)
      invariant points == Emitted(edge, snaps, bs, walked, start, i)
      invariant driftMax == MaxDrift(points)
    {
      var lb := order[i];
      CarryNext(bs, walked, i, prev, haveLevel, levelIdx);
      EmitNext(edge, snaps, bs, walked, start, i);
      if !haveLevel {
        if lb.close.None? {
          continue;
        }
        haveLevel, levelIdx, prev := true, i, Opening(lb);
      }
      var open := prev;
      var close, source, carried := lb.close.GetOr(0.0), lb.source, false;
      if lb.flow.txns == 0 {
        close, carried, source := open, true, Carried;
      } else if lb.close.None? {
        close, source := open + lb.flow.net, Accumulated;
      }
      assert close == CloseFrom(lb, open) && source == SourceOf(lb);
      prev := close;
      if i < start {
        continue;
      }
      var drift := None;
      if lb.key in snapCloses {
        drift := Some(close - snapCloses[lb.key]);
      }
      var mismatch := AbsReal(close - open - lb.flow.net) > FLOW_EPSILON || lb.rowMismatch;
      var p := Point(lb.key, edge(lb.key), close, carried, source, open, lb.flow, drift, mismatch);
      assert p == PointFor(edge, snaps, lb, open);
      MaxDriftNext(points, p);
      if drift.Some? && AbsReal(drift.value) > driftMax {
        driftMax := AbsReal(drift.value);
      }
      points := points + [p];
    }
    startUnverified := points != [] && levelIdx >= start;
    UnverifiedStart(edge, snaps, bs, walked, start, end + 1, prev, haveLevel, levelIdx);
  }

  lemma CarryNone(bs: seq<Bucket>, walked: bool)
    requires bs != []
    ensures Carrying(bs, walked, 0, if walked then bs[0].close.GetOr(0.0) - bs[0].flow.net else 0.0, walked,
                     if walked then 0 else -1)
  {
  }

  lemma CarryNext(bs: seq<Bucket>, walked: bool, i: nat, prev: real, haveLevel: bool, levelIdx: int)
    requires i < |bs| && Carrying(bs, walked, i, prev, haveLevel, levelIdx)
    ensures !haveLevel && bs[i].close.None? ==>
              OpenAt(bs, walked, i).None? && Carrying(bs, walked, i + 1, prev, haveLevel, levelIdx)
    ensures haveLevel || bs[i].close.Some? ==>
              var open := if haveLevel then prev else Opening(bs[i]);
              && OpenAt(bs, walked, i) == Some(open)
              && Carrying(bs, walked, i + 1, CloseFrom(bs[i], open), true, if haveLevel then levelIdx else i)
  {
    NextLevel(bs, walked, i);
    hide LevelInto, OpenAt, CloseAt, Opening, CloseFrom;
  }

  lemma NothingEmitted(edge: int -> int, snaps: seq<Reading>, bs: seq<Bucket>, walked: bool, start: nat)
    ensures Emitted(edge, snaps, bs, walked, start, 0) == [] && MaxDrift([]) == 0.0
  {
  }

  lemma EmitNext(edge: int -> int, snaps: seq<Reading>, bs: seq<Bucket>, walked: bool, start: nat, i: nat)
    requires i < |bs|
    ensures Emitted(edge, snaps, bs, walked, start, i + 1)
            == Emitted(edge, snaps, bs, walked, start, i)
               + if start <= i && OpenAt(bs, walked, i).Some?
                 then [PointFor(edge, snaps, bs[i], OpenAt(bs, walked, i).value)] else []
  {
    hide OpenAt, PointFor;
  }

  lemma MaxDriftNext(points: seq<Point>, p: Point)
    ensures MaxDrift(points + [p])
            == if p.drift.Some? && AbsReal(p.drift.value) > MaxDrift(points)
               then AbsReal(p.drift.value) else MaxDrift(points)
  {
    assert (points + [p])[..|points|] == points;
  }

  /** The level was found at or after start exactly when none comes into it. */
  lemma UnverifiedStart(edge: int -> int, snaps: seq<Reading>, bs: seq<Bucket>, walked: bool, start: nat, end: nat,
                        prev: real, haveLevel: bool, levelIdx: int)
    requires start < end <= |bs| && Carrying(bs, walked, end, prev, haveLevel, levelIdx)
    ensures Emitted(edge, snaps, bs, walked, start, end) != [] ==>
              (levelIdx >= start <==> start == 0 || LevelInto(bs, walked, start).None?)
  {
    hide LevelInto, Emitted;
    EmptyWithoutLevel(edge, snaps, bs, walked, start, end);
  }

  lemma NextLevel(bs: seq<Bucket>, walked: bool, i: nat)
    requires i < |bs|
    ensures OpenAt(bs, walked, i) ==
            if LevelInto(bs, walked, i).Some? then LevelInto(bs, walked, i)
            else if bs[i].close.Some? then Some(Opening(bs[i])) else None
    ensures LevelInto(bs, walked, i + 1) ==
            if OpenAt(bs, walked, i).None? then None else Some(CloseFrom(bs[i], OpenAt(bs, walked, i).value))
  {
    assert LevelInto(bs, walked, i + 1) == CloseAt(bs, walked, i);
  }

  lemma {:induction false} EmptyWithoutLevel(edge: int -> int, snaps: seq<Reading>, bs: seq<Bucket>, walked: bool,
                                             start: nat, end: nat)
    requires start <= end <= |bs|
    ensures Emitted(edge, snaps, bs, walked, start, end) != [] ==> LevelInto(bs, walked, end).Some?
  {
    if start < end {
      EmptyWithoutLevel(edge, snaps, bs, walked, start, end - 1);
    }
  }

  /** Either strategy, on the loaded rows of the derivation range. */
  method CloseBuckets(rows: seq<Row>, lo: int, hi: int, covered: bool, anchor: Option<Reading>)
    returns (order: array<Bucket>, ok: bool)
    requires lo <= hi + 1
    requires covered || anchor.Some?
    ensures ok == Closed(rows, lo, hi, covered, anchor).Some?
    ensures ok ==> order[..] == Closed(rows, lo, hi, covered, anchor).value
  {
    hide FlowOf, Flagged, WalkClose;
    ok := true;
    order := FoldRows(rows, lo, hi);
    ghost var seeded := Seeded(rows, lo, hi);
    assert forall i :: 0 <= i < order.Length ==> order[i] == order[..][i] == seeded[i];
    if covered {
      CloseOnBankFigures(order);
      CheckRunningBalance(rows, order, lo);
    } else {
      ok := WalkFromAnchor(order, anchor.value, lo);
    }
  }

  lemma KeysConsecutive(rows: seq<Row>, lo: int, hi: int, covered: bool, anchor: Option<Reading>)
    ensures var closed := Closed(rows, lo, hi, covered, anchor);
            closed.Some? ==> forall i :: 0 <= i < |closed.value| ==> closed.value[i].key == lo + i
  {
  }

  /** The derivation end to end. */
  method DeriveSeries(edge: int -> int, rows: seq<Row>, snaps: seq<Reading>, investment: bool, from: Option<int>,
                      to: Option<int>)
    returns (v: View)
    ensures v == SeriesOf(edge, rows, snaps, investment, from, to)
  {
    hide LevelInto, KeyRange, MaxDrift, Emitted, FlowOf, Closed, AnyCovered, WindowOf;
    if investment {
      return View([], InvestmentNote, None, false, 0.0);
    }
    if rows == [] {
      return View([], NoLedgerNote, None, false, 0.0);
    }
    var ledgerFrom, anchor := Some(rows[0].key), Anchor(snaps);
    var w := WindowOf(rows, anchor, from, to);
    if w.hi < w.lo {
      return View([], NoNote, ledgerFrom, false, 0.0);
    }
    assert w.derivLo <= w.lo && w.hi <= w.derivHi by { RangesNest(rows, anchor, from, to); }
    var loaded := KeyRange(rows, w.derivLo, w.derivHi);
    var covered := AnyCovered(loaded);
    if !covered && anchor.None? {
      return View([], NoAnchorNote, ledgerFrom, false, 0.0);
    }
    var order, ok := CloseBuckets(loaded, w.derivLo, w.derivHi, covered, anchor);
    if !ok {
      return View([], AnchorOutsideNote, ledgerFrom, false, 0.0);
    }
    KeysConsecutive(loaded, w.derivLo, w.derivHi, covered, anchor);
    assert forall i :: 0 <= i < order.Length ==> order[i] == order[..][i];
    var start, end := EmittedRange(order, w.lo, w.hi);
    var points, driftMax, startUnverified := Emit(edge, snaps, order, !covered, start, end, w.lo, w.hi);
    v := View(points, NoNote, ledgerFrom, startUnverified, driftMax);
  }
}
