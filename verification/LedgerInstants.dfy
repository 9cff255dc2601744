/**
  The balance series over instants. Rows, readings and the query carry instants, a zone turns them into
  buckets, and the results about buckets become statements about moments in time.
 */
module LedgerInstants {
  import opened Prelude
  import opened Grid
  import opened Buckets
  import opened LedgerBuckets
  import opened LedgerSeries
  import opened LedgerSeriesTruth
  import opened LedgerSeriesWindows
  import opened LedgerSeriesRange

  /** A posted row and a balance reading as they are stored. */
  datatype Entry = Entry(id: int, postedAt: int, amount: real, after: Option<real>, internal: bool)

  datatype Observation = Observation(id: int, asOf: int, balance: real)

  /** The table and its ORDER BY: posted_date, then id. */
  ghost predicate Ordered(entries: seq<Entry>) {
    forall i, j :: 0 <= i < j < |entries| ==>
      entries[i].postedAt < entries[j].postedAt
      || (entries[i].postedAt == entries[j].postedAt && entries[i].id < entries[j].id)
  }

  function RowAt(midnight: int -> int, step: Step, e: Entry): Row
    requires StrictlyIncreasing(midnight)
  {
    Row(e.id, BucketOf(midnight, step, e.postedAt), e.amount, e.after, e.internal)
  }

  function Keyed(midnight: int -> int, step: Step, entries: seq<Entry>): (rows: seq<Row>)
    requires StrictlyIncreasing(midnight)
    ensures |rows| == |entries|
  {
    seq(|entries|, i requires 0 <= i < |entries| => RowAt(midnight, step, entries[i]))
  }

  function KeyedReadings(midnight: int -> int, step: Step, readings: seq<Observation>): (snaps: seq<Reading>)
    requires StrictlyIncreasing(midnight)
    ensures |snaps| == |readings|
  {
    seq(|readings|, i requires 0 <= i < |readings| =>
      Reading(readings[i].id, BucketOf(midnight, step, readings[i].asOf), readings[i].balance))
  }

  function KeyedBound(midnight: int -> int, step: Step, t: Option<int>): Option<int>
    requires StrictlyIncreasing(midnight)
  {
    if t.Some? then Some(BucketOf(midnight, step, t.value)) else None
  }

  /** The series of an account in a zone, over the query's from and to instants. */
  function SeriesAt(midnight: int -> int, step: Step, entries: seq<Entry>, readings: seq<Observation>, investment: bool,
                    from: Option<int>, to: Option<int>): View
    requires StrictlyIncreasing(midnight)
  {
    SeriesOf(Edges(midnight, step), Keyed(midnight, step, entries), KeyedReadings(midnight, step, readings), investment,
             KeyedBound(midnight, step, from), KeyedBound(midnight, step, to))
  }

  predicate WalksAt(midnight: int -> int, step: Step, entries: seq<Entry>, readings: seq<Observation>,
                    from: Option<int>, to: Option<int>)
    requires StrictlyIncreasing(midnight)
  {
    Walks(Keyed(midnight, step, entries), KeyedReadings(midnight, step, readings), KeyedBound(midnight, step, from),
          KeyedBound(midnight, step, to))
  }

  // ----- buckets of instants -----

  /** Rows in order of time fall into buckets in order. */
  lemma KeyedIsSorted(midnight: int -> int, step: Step, entries: seq<Entry>)
    requires StrictlyIncreasing(midnight) && Ordered(entries)
    ensures Sorted(Keyed(midnight, step, entries))
  {
    hide BucketOf, StrictlyIncreasing;
    var rows := Keyed(midnight, step, entries);
    forall i, j | 0 <= i <= j < |rows| ensures rows[i].key <= rows[j].key {
      assert i < j ==> entries[i].postedAt <= entries[j].postedAt;
      BucketOfMonotone(midnight, step, entries[i].postedAt, entries[j].postedAt);
    }
  }

  /** The entries a query bounded by two instants returns. */
  function Between(entries: seq<Entry>, start: int, end: int): seq<Entry> {
    if entries == [] then []
    else
      var n := |entries| - 1;
      Between(entries[..n], start, end) + if start <= entries[n].postedAt < end then [entries[n]] else []
  }

  lemma KeyedAppend(midnight: int -> int, step: Step, entries: seq<Entry>, e: Entry)
    requires StrictlyIncreasing(midnight)
    ensures Keyed(midnight, step, entries + [e]) == Keyed(midnight, step, entries) + [RowAt(midnight, step, e)]
  {
    hide BucketOf, StrictlyIncreasing;
  }

  /** One more row at the end of the order. */
  lemma CountAppend(rows: seq<Row>, r: Row, key: int)
    requires Sorted(rows + [r])
    ensures CountBelow(rows + [r], key) == if r.key < key then |rows| + 1 else CountBelow(rows, key)
    ensures r.key < key ==> CountBelow(rows, key) == |rows|
  {
    var grown := rows + [r];
    assert grown[..|rows|] == rows;
    assert Sorted(rows) by { assert forall i :: 0 <= i < |rows| ==> rows[i] == grown[i]; }
    CountBelowSplits(rows, key);
    if r.key < key {
      assert forall i :: 0 <= i < |rows| ==> grown[i].key <= grown[|rows|].key && grown[i] == rows[i];
    }
  }

  lemma RangeAppend(rows: seq<Row>, r: Row, lo: int, hi: int)
    requires Sorted(rows + [r]) && lo <= hi + 1
    ensures KeyRange(rows + [r], lo, hi) == KeyRange(rows, lo, hi) + if lo <= r.key <= hi then [r] else []
  {
    hide Sorted, CountBelow;
    CountAppend(rows, r, lo);
    CountAppend(rows, r, hi + 1);
    CountBelowMonotone(rows, lo, hi + 1);
  }

  /** A load bounded by the instants of two bucket edges is the range of the buckets between. */
  lemma {:induction false} LoadedByInstant(midnight: int -> int, step: Step, entries: seq<Entry>, lo: int, hi: int)
    requires StrictlyIncreasing(midnight) && Ordered(entries) && lo <= hi + 1
    ensures var edge := Edges(midnight, step);
            Keyed(midnight, step, Between(entries, edge(lo), edge(hi + 1)))
              == KeyRange(Keyed(midnight, step, entries), lo, hi)
  {
    hide BucketOf, StrictlyIncreasing, Edges, Keyed, KeyRange;
    KeyedIsSorted(midnight, step, entries);
    if entries == [] {
      KeyedNothing(midnight, step, lo, hi);
    } else {
      var n := |entries| - 1;
      var rest, e := entries[..n], entries[n];
      assert entries == rest + [e];
      LoadedByInstant(midnight, step, rest, lo, hi);
      KeyedAppend(midnight, step, rest, e);
      RangeAppend(Keyed(midnight, step, rest), RowAt(midnight, step, e), lo, hi);
      EdgeBoundsSelectBuckets(midnight, step, lo, hi, e.postedAt);
      var start, end := Edges(midnight, step)(lo), Edges(midnight, step)(hi + 1);
      var before := Between(rest, start, end);
      KeyedAppend(midnight, step, before, e);
      assert before + [] == before;
      assert Between(entries, start, end) == if start <= e.postedAt < end then before + [e] else before;
    }
  }

  lemma KeyedNothing(midnight: int -> int, step: Step, lo: int, hi: int)
    requires StrictlyIncreasing(midnight) && lo <= hi + 1
    ensures Keyed(midnight, step, []) == [] && KeyRange(Keyed(midnight, step, []), lo, hi) == []
  {
  }

  // ----- amounts up to an instant -----

  function TotalOf(entries: seq<Entry>): real {
    if entries == [] then 0.0 else TotalOf(entries[..|entries| - 1]) + entries[|entries| - 1].amount
  }

  /** Everything posted before an instant. */
  function TotalBefore(entries: seq<Entry>, t: int): real {
    if entries == [] then 0.0
    else
      var n := |entries| - 1;
      TotalBefore(entries[..n], t) + if entries[n].postedAt < t then entries[n].amount else 0.0
  }

  lemma {:induction false} TotalsAgree(midnight: int -> int, step: Step, entries: seq<Entry>, key: int)
    requires StrictlyIncreasing(midnight)
    ensures SumThrough(Keyed(midnight, step, entries), key) == TotalBefore(entries, Edges(midnight, step)(key + 1))
    ensures Sum(Keyed(midnight, step, entries)) == TotalOf(entries)
  {
    hide BucketOf, StrictlyIncreasing, Edges, Keyed, SumThrough, Sum;
    if entries == [] {
      NoTotals(midnight, step, key);
    } else {
      var n := |entries| - 1;
      var rest, e := entries[..n], entries[n];
      assert entries == rest + [e];
      TotalsAgree(midnight, step, rest, key);
      KeyedAppend(midnight, step, rest, e);
      EdgeIsBound(midnight, step, e.postedAt, key);
      SumsOneMore(Keyed(midnight, step, rest), RowAt(midnight, step, e), key);
    }
  }

  lemma NoTotals(midnight: int -> int, step: Step, key: int)
    requires StrictlyIncreasing(midnight)
    ensures SumThrough(Keyed(midnight, step, []), key) == 0.0 && Sum(Keyed(midnight, step, [])) == 0.0
  {
    assert Keyed(midnight, step, []) == [];
  }

  lemma SumsOneMore(rows: seq<Row>, r: Row, key: int)
    ensures SumThrough(rows + [r], key) == SumThrough(rows, key) + if r.key <= key then r.amount else 0.0
    ensures Sum(rows + [r]) == Sum(rows) + r.amount
  {
    assert (rows + [r])[..|rows|] == rows;
  }

  lemma EdgeIsBound(midnight: int -> int, step: Step, t: int, key: int)
    requires StrictlyIncreasing(midnight)
    ensures BucketOf(midnight, step, t) <= key <==> t < Edges(midnight, step)(key + 1)
  {
    EdgesIncrease(midnight, step);
    FloorAdjoint(Edges(midnight, step), t, key + 1);
  }

  // ----- the results, over instants -----

  /** Every running balance the bank sent is the true one, for a hidden opening balance. */
  ghost predicate TrueFigures(entries: seq<Entry>, opening: real) {
    forall i :: 0 <= i < |entries| && entries[i].after.Some? ==>
      entries[i].after.value == opening + TotalOf(entries[..i + 1])
  }

  /** The newest reading is the true level at the end of the bucket it was taken in. */
  ghost predicate TrueReading(midnight: int -> int, step: Step, entries: seq<Entry>, readings: seq<Observation>,
                              opening: real)
    requires StrictlyIncreasing(midnight)
  {
    readings != [] ==>
      var last := readings[|readings| - 1];
      last.balance
      == opening + TotalBefore(entries, NextBucketStart(midnight, step, BucketStart(midnight, step, last.asOf)))
  }

  lemma NextOfBucket(midnight: int -> int, step: Step, t: int)
    requires StrictlyIncreasing(midnight)
    ensures NextBucketStart(midnight, step, BucketStart(midnight, step, t))
            == Edges(midnight, step)(BucketOf(midnight, step, t) + 1)
  {
    hide BucketStart, NextBucketStart, BucketOf, Edges, StrictlyIncreasing;
    BucketStartIsEdge(midnight, step, t);
    NextIsNextEdge(midnight, step, BucketOf(midnight, step, t));
  }

  lemma TruthIsKeyed(midnight: int -> int, step: Step, entries: seq<Entry>, readings: seq<Observation>, opening: real)
    requires StrictlyIncreasing(midnight)
    requires TrueFigures(entries, opening)
    ensures Consistent(Keyed(midnight, step, entries), opening)
    ensures TrueReading(midnight, step, entries, readings, opening) <==>
            AnchorTrue(Keyed(midnight, step, entries), KeyedReadings(midnight, step, readings), opening)
  {
    hide BucketStart, NextBucketStart, BucketOf, Edges, StrictlyIncreasing, SumThrough, Sum;
    var rows := Keyed(midnight, step, entries);
    forall i | 0 <= i < |rows| && rows[i].after.Some? ensures rows[i].after.value == opening + Sum(rows[..i + 1]) {
      TotalsAgree(midnight, step, entries[..i + 1], 0);
      assert rows[..i + 1] == Keyed(midnight, step, entries[..i + 1]);
    }
    if readings != [] {
      var last := readings[|readings| - 1];
      NextOfBucket(midnight, step, last.asOf);
      TotalsAgree(midnight, step, entries, BucketOf(midnight, step, last.asOf));
    }
  }

  /**
    Correctness over instants. Every point stands at a bucket's start; it closes on the true balance of
    everything posted before the next bucket's start, opens on that of everything posted before its own,
    and carries no mismatch flag. A query that walks needs the newest reading to be true at its bucket's end.
   */
  lemma SeriesIsTrueAt(midnight: int -> int, step: Step, entries: seq<Entry>, readings: seq<Observation>,
                       investment: bool, from: Option<int>, to: Option<int>, opening: real, p: Point)
    requires StrictlyIncreasing(midnight) && Ordered(entries)
    requires TrueFigures(entries, opening)
    requires WalksAt(midnight, step, entries, readings, from, to) ==>
               TrueReading(midnight, step, entries, readings, opening)
    requires p in SeriesAt(midnight, step, entries, readings, investment, from, to).points
    ensures p.asOf == Edges(midnight, step)(p.key)
    ensures p.close == opening + TotalBefore(entries, NextBucketStart(midnight, step, p.asOf))
    ensures p.open == opening + TotalBefore(entries, p.asOf)
    ensures !p.flowMismatch
  {
    hide SeriesOf, Walks, BucketStart, NextBucketStart, BucketOf, Edges, Keyed, KeyedReadings, StrictlyIncreasing,
         TrueFigures, TrueReading, SumThrough, KnownLevel, KnownOpen, FlowOf, Flagged;
    var rows, snaps := Keyed(midnight, step, entries), KeyedReadings(midnight, step, readings);
    var lo, hi := KeyedBound(midnight, step, from), KeyedBound(midnight, step, to);
    KeyedIsSorted(midnight, step, entries);
    TruthIsKeyed(midnight, step, entries, readings, opening);
    SeriesIsTrue(Edges(midnight, step), rows, snaps, investment, lo, hi, opening, p);
    PointIsWindowFree(Edges(midnight, step), rows, snaps, investment, lo, hi, p);
    TotalsAgree(midnight, step, entries, p.key);
    TotalsAgree(midnight, step, entries, p.key - 1);
    NextIsNextEdge(midnight, step, p.key);
    assert p.key - 1 + 1 == p.key;
  }

  /**
    What a walked series gets wrong. If the newest reading was true at instant t, every point is off by the
    amounts posted between t and the end of the reading's bucket, on either side of the reading.
   */
  lemma WalkedErrorAt(midnight: int -> int, step: Step, entries: seq<Entry>, readings: seq<Observation>,
                      from: Option<int>, to: Option<int>, opening: real, t: int, p: Point)
    requires StrictlyIncreasing(midnight) && Ordered(entries) && readings != []
    requires readings[|readings| - 1].balance == opening + TotalBefore(entries, t)
    requires WalksAt(midnight, step, entries, readings, from, to)
    requires p in SeriesAt(midnight, step, entries, readings, false, from, to).points
    ensures var end := NextBucketStart(midnight, step, BucketStart(midnight, step, readings[|readings| - 1].asOf));
            p.close - (opening + TotalBefore(entries, NextBucketStart(midnight, step, p.asOf)))
            == TotalBefore(entries, t) - TotalBefore(entries, end)
  {
    hide SeriesOf, Walks, BucketStart, NextBucketStart, BucketOf, Edges, Keyed, StrictlyIncreasing, SumThrough,
         KnownLevel, KnownOpen, FlowOf, Flagged;
    var rows, snaps := Keyed(midnight, step, entries), KeyedReadings(midnight, step, readings);
    var lo, hi := KeyedBound(midnight, step, from), KeyedBound(midnight, step, to);
    var last := readings[|readings| - 1];
    KeyedIsSorted(midnight, step, entries);
    WalkedErrorIsReadings(Edges(midnight, step), rows, snaps, lo, hi, opening, p);
    PointIsWindowFree(Edges(midnight, step), rows, snaps, false, lo, hi, p);
    TotalsAgree(midnight, step, entries, p.key);
    TotalsAgree(midnight, step, entries, BucketOf(midnight, step, last.asOf));
    NextIsNextEdge(midnight, step, p.key);
    NextOfBucket(midnight, step, last.asOf);
  }

  // ----- the buckets reported, over instants -----

  /**
    The bucket from one instant up to another is asked for: it ends after the first row and after the query's
    from; it starts by the query's to or, without one, by the last row or the newest reading.
   */
  predicate AskedAt(entries: seq<Entry>, readings: seq<Observation>, from: Option<int>, to: Option<int>,
                    start: int, end: int) {
    && entries != [] && entries[0].postedAt < end
    && (from.Some? ==> from.value < end)
    && (to.Some? ==> start <= to.value)
    && (to.None? ==> || start <= entries[|entries| - 1].postedAt
                     || (readings != [] && start <= readings[|readings| - 1].asOf))
  }

  ghost predicate StandsAt(points: seq<Point>, start: int) {
    exists p :: p in points && p.asOf == start
  }

  /** Running balances on every row, or on none and a newest reading no earlier than the first row's bucket. */
  ghost predicate UniformAt(midnight: int -> int, step: Step, entries: seq<Entry>, readings: seq<Observation>)
    requires StrictlyIncreasing(midnight)
  {
    && entries != []
    && (|| (forall i :: 0 <= i < |entries| ==> entries[i].after.Some?)
        || ((forall i :: 0 <= i < |entries| ==> entries[i].after.None?)
            && readings != [] && BucketStart(midnight, step, entries[0].postedAt) <= readings[|readings| - 1].asOf))
  }

  lemma AskedIsKeyed(midnight: int -> int, step: Step, entries: seq<Entry>, readings: seq<Observation>,
                     from: Option<int>, to: Option<int>, key: int)
    requires StrictlyIncreasing(midnight)
    ensures var edge := Edges(midnight, step);
            Asked(Keyed(midnight, step, entries), KeyedReadings(midnight, step, readings),
                  KeyedBound(midnight, step, from), KeyedBound(midnight, step, to), key)
            <==> AskedAt(entries, readings, from, to, edge(key), edge(key + 1))
  {
    hide BucketOf, Edges, StrictlyIncreasing;
    forall t: int ensures BucketOf(midnight, step, t) <= key <==> t < Edges(midnight, step)(key + 1) {
      EdgeIsBound(midnight, step, t, key);
    }
    forall t: int ensures key <= BucketOf(midnight, step, t) <==> Edges(midnight, step)(key) <= t {
      EdgeIsBound(midnight, step, t, key - 1);
      assert key - 1 + 1 == key;
    }
  }

  lemma UniformIsDerivable(midnight: int -> int, step: Step, entries: seq<Entry>, readings: seq<Observation>)
    requires StrictlyIncreasing(midnight) && Ordered(entries) && UniformAt(midnight, step, entries, readings)
    ensures Derivable(Keyed(midnight, step, entries), KeyedReadings(midnight, step, readings))
  {
    hide BucketOf, BucketStart, Edges, StrictlyIncreasing, Sorted, Ordered;
    KeyedIsSorted(midnight, step, entries);
    BucketStartIsEdge(midnight, step, entries[0].postedAt);
    if readings != [] {
      var first, asOf := BucketOf(midnight, step, entries[0].postedAt), readings[|readings| - 1].asOf;
      EdgeIsBound(midnight, step, asOf, first - 1);
      assert first - 1 + 1 == first;
    }
  }

  /**
    Exactly the buckets asked for are reported, each once and in order: with coverage all or nothing there is a
    point at a bucket's start if and only if the bucket reaches into the range the query asks for.
   */
  lemma ReportedExactlyAt(midnight: int -> int, step: Step, entries: seq<Entry>, readings: seq<Observation>,
                          from: Option<int>, to: Option<int>, key: int)
    requires StrictlyIncreasing(midnight) && Ordered(entries) && UniformAt(midnight, step, entries, readings)
    ensures var edge := Edges(midnight, step);
            StandsAt(SeriesAt(midnight, step, entries, readings, false, from, to).points, edge(key))
            <==> AskedAt(entries, readings, from, to, edge(key), edge(key + 1))
  {
    hide SeriesOf, BucketOf, BucketStart, Edges, StrictlyIncreasing, Derivable, UniformAt, Asked, AskedAt, Keyed,
         KeyedReadings, Sorted, WindowFree;
    var edge := Edges(midnight, step);
    var rows, snaps := Keyed(midnight, step, entries), KeyedReadings(midnight, step, readings);
    var lo, hi := KeyedBound(midnight, step, from), KeyedBound(midnight, step, to);
    UniformIsDerivable(midnight, step, entries, readings);
    KeyedIsSorted(midnight, step, entries);
    AskedIsKeyed(midnight, step, entries, readings, from, to, key);
    DerivableReportsAllAsked(edge, rows, snaps, lo, hi, key);
    forall p | p in SeriesOf(edge, rows, snaps, false, lo, hi).points ensures p.asOf == edge(key) <==> p.key == key {
      PointIsWindowFree(edge, rows, snaps, false, lo, hi, p);
      WindowFreeKey(edge, rows, snaps, p.key);
      EdgesIncrease(midnight, step);
      InOrder(edge, p.key, key);
    }
  }

  /** Window independence over instants: queries of one account agree wherever they report the same instant. */
  lemma WindowsAgreeAt(midnight: int -> int, step: Step, entries: seq<Entry>, readings: seq<Observation>,
                       investment: bool, from: Option<int>, to: Option<int>, from': Option<int>, to': Option<int>,
                       p: Point, p': Point)
    requires StrictlyIncreasing(midnight) && Ordered(entries)
    requires p in SeriesAt(midnight, step, entries, readings, investment, from, to).points
    requires p' in SeriesAt(midnight, step, entries, readings, investment, from', to').points
    requires p.asOf == p'.asOf
    ensures p == p'
  {
    hide SeriesOf, BucketOf, Edges, Keyed, KeyedReadings, StrictlyIncreasing, KnownLevel, KnownOpen, FlowOf, Flagged;
    var edge := Edges(midnight, step);
    var rows, snaps := Keyed(midnight, step, entries), KeyedReadings(midnight, step, readings);
    KeyedIsSorted(midnight, step, entries);
    PointIsWindowFree(edge, rows, snaps, investment, KeyedBound(midnight, step, from), KeyedBound(midnight, step, to),
                      p);
    PointIsWindowFree(edge, rows, snaps, investment, KeyedBound(midnight, step, from'), KeyedBound(midnight, step, to'),
                      p');
    EdgesIncrease(midnight, step);
    InOrder(edge, p.key, p'.key);
  }
}
