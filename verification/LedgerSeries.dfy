/**
  The ledger-derived balance series of one account: bucket closes taken from the bank's own
  running balance where rows carry one, or walked from the newest reading where none does, and one
  emission loop that turns either into open/close/flow points.
 */
module LedgerSeries {
  import opened Prelude
  import opened LedgerBuckets

  /** A balance reading, in (as_of, id) order; key is the bucket its instant falls in. */
  datatype Reading = Reading(id: int, key: int, balance: real)

  datatype Point = Point(key: int, asOf: int, close: real, carried: bool, source: Source, open: real, flow: Flow,
                         drift: Option<real>, flowMismatch: bool)

  datatype Note = NoNote | InvestmentNote | NoLedgerNote | NoAnchorNote | AnchorOutsideNote

  datatype View = View(points: seq<Point>, note: Note, ledgerFrom: Option<int>, startUnverified: bool, driftMax: real)

  /** The emitted buckets lo..hi, and the wider range derived to reach a level. */
  datatype Window = Window(lo: int, hi: int, derivLo: int, derivHi: int)

  // ----- ranges -----

  function Anchor(snaps: seq<Reading>): Option<Reading> {
    if snaps == [] then None else Some(snaps[|snaps| - 1])
  }

  /** The bucket of the newest row below a bucket that carries the bank's running balance. */
  function LastCoveredBelow(rows: seq<Row>, key: int): Option<int> {
    if rows == [] then None
    else
      var n := |rows| - 1;
      if rows[n].key < key && rows[n].after.Some? then Some(rows[n].key) else LastCoveredBelow(rows[..n], key)
  }

  function WindowOf(rows: seq<Row>, anchor: Option<Reading>, from: Option<int>, to: Option<int>): Window
    requires rows != []
  {
    var first, last := rows[0].key, rows[|rows| - 1].key;
    var lo := if from.Some? then Max(first, from.value) else first;
    var hi := if to.Some? then to.value else if anchor.Some? then Max(last, anchor.value.key) else last;
    var dLo := if anchor.Some? then Min(lo, anchor.value.key) else lo;
    var dHi := if anchor.Some? then Max(hi, anchor.value.key) else hi;
    var prior := LastCoveredBelow(rows, dLo);
    var dLo := if prior.Some? then Min(dLo, prior.value) else dLo;
    Window(lo, hi, Max(dLo, first), dHi)
  }

  /** The derivation range always contains the emitted one. */
  lemma RangesNest(rows: seq<Row>, anchor: Option<Reading>, from: Option<int>, to: Option<int>)
    requires rows != []
    ensures var w := WindowOf(rows, anchor, from, to); w.derivLo <= w.lo && w.hi <= w.derivHi
  {
  }

  predicate AnyCovered(rows: seq<Row>) {
    exists r :: r in rows && r.after.Some?
  }

  // ----- closes -----

  /** Two consecutive rows whose running balances do not differ by the later row's amount. */
  predicate Breaks(earlier: Row, later: Row) {
    && earlier.after.Some? && later.after.Some?
    && AbsReal(later.after.value - earlier.after.value - later.amount) > FLOW_EPSILON
  }

  predicate Flagged(rows: seq<Row>, key: int) {
    exists i :: 0 < i < |rows| && rows[i].key == key && Breaks(rows[i - 1], rows[i])
  }

  function Seeded(rows: seq<Row>, lo: int, hi: int): seq<Bucket> {
    seq(Max(0, hi - lo + 1), i => Bucket(lo + i, FlowOf(rows, lo + i), None, NoSource, false))
  }

  /** A bucket closes on the bank's figure, accumulated past its last covered row if need be. */
  function BankClosed(b: Bucket): Bucket {
    if b.flow.lastAfter.None? then b
    else b.(close := Some(b.flow.lastAfter.value + b.flow.netAfterLast),
            source := if b.flow.lastCovered then BalanceAfter else Accumulated)
  }

  function WalkClose(bs: seq<Bucket>, anchorIdx: nat, balance: real, i: nat): real
    requires anchorIdx < |bs| && i < |bs|
    decreases AbsInt(anchorIdx - i)
  {
    if i == anchorIdx then balance
    else if i < anchorIdx then WalkClose(bs, anchorIdx, balance, i + 1) - bs[i + 1].flow.net
    else WalkClose(bs, anchorIdx, balance, i - 1) + bs[i].flow.net
  }

  function Walked(bs: seq<Bucket>, anchorIdx: nat, balance: real): (out: seq<Bucket>)
    requires anchorIdx < |bs|
    ensures |out| == |bs|
  {
    seq(|bs|, i requires 0 <= i < |bs| =>
      bs[i].(close := Some(WalkClose(bs, anchorIdx, balance, i)), source := Accumulated))
  }

  /** The derivation buckets with their closes; None when the anchor lies outside them. */
  function Closed(rows: seq<Row>, lo: int, hi: int, covered: bool, anchor: Option<Reading>): (out: Option<seq<Bucket>>)
    ensures out.Some? ==> |out.value| == Max(0, hi - lo + 1)
  {
    var bs := Seeded(rows, lo, hi);
    if covered then
      Some(seq(|bs|, i requires 0 <= i < |bs| => BankClosed(bs[i]).(rowMismatch := Flagged(rows, lo + i))))
    else if anchor.Some? && lo <= anchor.value.key <= hi then
      Some(Walked(bs, anchor.value.key - lo, anchor.value.balance))
    else None
  }

  // ----- emission -----

  function Opening(b: Bucket): real {
    if b.flow.firstAfter.Some? then b.flow.firstAfter.value - b.flow.netThruFirst
    else b.close.GetOr(0.0) - b.flow.net
  }

  /** The level carried into bucket i, if any bucket before it established one. */
  function LevelInto(bs: seq<Bucket>, walked: bool, i: nat): Option<real>
    requires i <= |bs|
    decreases i, 0
  {
    if i > 0 then CloseAt(bs, walked, i - 1)
    else if walked && bs != [] then Some(bs[0].close.GetOr(0.0) - bs[0].flow.net)
    else None
  }

  function OpenAt(bs: seq<Bucket>, walked: bool, i: nat): Option<real>
    requires i < |bs|
    decreases i, 1
  {
    var level := LevelInto(bs, walked, i);
    if level.Some? then level
    else if bs[i].close.Some? then Some(Opening(bs[i]))
    else None
  }

  function CloseAt(bs: seq<Bucket>, walked: bool, i: nat): Option<real>
    requires i < |bs|
    decreases i, 2
  {
    var open := OpenAt(bs, walked, i);
    if open.None? then None else Some(CloseFrom(bs[i], open.value))
  }

  /** Quiet buckets repeat the level first of all; then the bucket's own close; then arithmetic. */
  function CloseFrom(b: Bucket, open: real): real {
    if b.flow.txns == 0 then open
    else if b.close.Some? then b.close.value
    else open + b.flow.net
  }

  function SourceOf(b: Bucket): Source {
    if b.flow.txns == 0 then Carried else if b.close.Some? then b.source else Accumulated
  }

  /** The last reading of a bucket. */
  function LastReading(snaps: seq<Reading>, key: int): Option<real> {
    if snaps == [] then None
    else
      var n := |snaps| - 1;
      if snaps[n].key == key then Some(snaps[n].balance) else LastReading(snaps[..n], key)
  }

  function PointFor(edge: int -> int, snaps: seq<Reading>, b: Bucket, open: real): Point {
    var close := CloseFrom(b, open);
    var reading := LastReading(snaps, b.key);
    Point(b.key, edge(b.key), close, b.flow.txns == 0, SourceOf(b), open, b.flow,
          if reading.Some? then Some(close - reading.value) else None,
          AbsReal(close - open - b.flow.net) > FLOW_EPSILON || b.rowMismatch)
  }

  /** The points of buckets start..end-1; a bucket before the first known level gives none. */
  function Emitted(edge: int -> int, snaps: seq<Reading>, bs: seq<Bucket>, walked: bool, start: nat,
                   end: nat): seq<Point>
    requires end <= |bs|
  {
    if end <= start then []
    else
      var open := OpenAt(bs, walked, end - 1);
      Emitted(edge, snaps, bs, walked, start, end - 1)
      + if open.Some? then [PointFor(edge, snaps, bs[end - 1], open.value)] else []
  }

  function MaxDrift(points: seq<Point>): real {
    if points == [] then 0.0
    else
      var rest, p := MaxDrift(points[..|points| - 1]), points[|points| - 1];
      if p.drift.Some? && AbsReal(p.drift.value) > rest then AbsReal(p.drift.value) else rest
  }

  /** The whole derivation as a function of the account's tables and the query. */
  function SeriesOf(edge: int -> int, rows: seq<Row>, snaps: seq<Reading>, investment: bool,
                    from: Option<int>, to: Option<int>): View {
    var anchor := Anchor(snaps);
    if investment then View([], InvestmentNote, None, false, 0.0)
    else if rows == [] then View([], NoLedgerNote, None, false, 0.0)
    else
      var w := WindowOf(rows, anchor, from, to);
      var ledgerFrom := Some(rows[0].key);
      if w.hi < w.lo then View([], NoNote, ledgerFrom, false, 0.0)
      else
        var loaded := KeyRange(rows, w.derivLo, w.derivHi);
        var covered := AnyCovered(loaded);
        if !covered && anchor.None? then View([], NoAnchorNote, ledgerFrom, false, 0.0)
        else
          var closed := Closed(loaded, w.derivLo, w.derivHi, covered, anchor);
          if closed.None? then View([], AnchorOutsideNote, ledgerFrom, false, 0.0)
          else
            var start := w.lo - w.derivLo;
            var points := Emitted(edge, snaps, closed.value, !covered, start, w.hi - w.derivLo + 1);
            var unverified := points != [] && (start == 0 || LevelInto(closed.value, !covered, start).None?);
            View(points, NoNote, ledgerFrom, unverified, MaxDrift(points))
  }
}
