/** The snapshot-basis series: readings bucketed as a stock, held forward and never back-filled. */
module SnapshotSeries {
  import opened Prelude
  import opened LedgerSeries

  datatype SnapPoint = SnapPoint(key: int, asOf: int, balance: real, carried: bool)

  ghost predicate ReadingsSorted(snaps: seq<Reading>) {
    forall i, j :: 0 <= i <= j < |snaps| ==> snaps[i].key <= snaps[j].key
  }

  predicate Within(key: int, from: Option<int>, to: Option<int>) {
    (from.Some? ==> from.value <= key) && (to.Some? ==> key <= to.value)
  }

  /** The readings a query selects, in order. */
  function Selected(snaps: seq<Reading>, from: Option<int>, to: Option<int>): seq<Reading> {
    if snaps == [] then []
    else
      var n := |snaps| - 1;
      Selected(snaps[..n], from, to) + if Within(snaps[n].key, from, to) then [snaps[n]] else []
  }

  /** The last reading before a bucket's end. */
  function Held(snaps: seq<Reading>, key: int): Option<real> {
    if snaps == [] then None
    else
      var n := |snaps| - 1;
      if snaps[n].key <= key then Some(snaps[n].balance) else Held(snaps[..n], key)
  }

  predicate HasReading(snaps: seq<Reading>, key: int) {
    exists i :: 0 <= i < |snaps| && snaps[i].key == key
  }

  /** Sample and hold: the definition a bucket's point has to meet. */
  function SampleAndHold(edge: int -> int, snaps: seq<Reading>, key: int): SnapPoint {
    SnapPoint(key, edge(key), Held(snaps, key).GetOr(0.0), !HasReading(snaps, key))
  }

  /** The first and last bucket emitted, if any is. */
  function EmittedBuckets(snaps: seq<Reading>, from: Option<int>, to: Option<int>): Option<(int, int)> {
    var window := Selected(snaps, from, to);
    var prime := if from.Some? then Held(snaps, from.value - 1) else None;
    if window == [] && prime.None? then None
    else
      var lo := if prime.Some? then from.GetOr(0)
                else if from.Some? then Max(from.value, window[0].key) else window[0].key;
      var hi := if to.Some? then to.value else if window != [] then window[|window| - 1].key else lo;
      Some((lo, hi))
  }

  // ----- holding -----

  lemma {:induction false} HeldStep(snaps: seq<Reading>, key: int)
    requires ReadingsSorted(snaps)
    ensures Held(snaps, key) == if LastReading(snaps, key).Some? then LastReading(snaps, key) else Held(snaps, key - 1)
    ensures LastReading(snaps, key).Some? <==> HasReading(snaps, key)
  {
    if snaps != [] {
      var n := |snaps| - 1;
      HeldStep(snaps[..n], key);
      if snaps[n].key == key {
        assert HasReading(snaps, key);
      } else if HasReading(snaps, key) {
        var i :| 0 <= i < |snaps| && snaps[i].key == key;
        assert snaps[..n][i].key == key;
      }
    }
  }

  /** Inside its bounds, a selection has the same close for each bucket as the whole table. */
  lemma {:induction false} SelectionReads(snaps: seq<Reading>, from: Option<int>, to: Option<int>, key: int)
    requires Within(key, from, to)
    ensures LastReading(Selected(snaps, from, to), key) == LastReading(snaps, key)
  {
    if snaps != [] {
      var n := |snaps| - 1;
      SelectionReads(snaps[..n], from, to, key);
      var earlier := Selected(snaps[..n], from, to);
      assert (earlier + [snaps[n]])[..|earlier|] == earlier;
      assert earlier + [] == earlier;
    }
  }

  lemma SelectedStep(snaps: seq<Reading>, from: Option<int>, to: Option<int>)
    requires snaps != []
    ensures var n := |snaps| - 1;
            Selected(snaps, from, to)
            == if Within(snaps[n].key, from, to) then Selected(snaps[..n], from, to) + [snaps[n]]
              else Selected(snaps[..n], from, to)
  {
  }

  /** A selection holds exactly the readings within the bounds. */
  lemma {:induction false} SelectedMembers(snaps: seq<Reading>, from: Option<int>, to: Option<int>, r: Reading)
    ensures r in Selected(snaps, from, to) <==> r in snaps && Within(r.key, from, to)
  {
    if snaps != [] {
      hide Selected, Within;
      SelectedMembers(snaps[..|snaps| - 1], from, to, r);
      SelectedStep(snaps, from, to);
      LastOrEarlier(snaps, r);
    }
  }

  lemma {:induction false} SelectedSorted(snaps: seq<Reading>, from: Option<int>, to: Option<int>)
    requires ReadingsSorted(snaps)
    ensures ReadingsSorted(Selected(snaps, from, to))
  {
    if snaps != [] {
      hide Selected, Within;
      var n := |snaps| - 1;
      SelectedSorted(snaps[..n], from, to);
      SelectedStep(snaps, from, to);
      var earlier := Selected(snaps[..n], from, to);
      forall i | 0 <= i < |earlier| ensures earlier[i].key <= snaps[n].key {
        SelectedMembers(snaps[..n], from, to, earlier[i]);
        LastIsLatest(snaps, earlier[i]);
      }
    }
  }

  lemma LastIsLatest(snaps: seq<Reading>, r: Reading)
    requires ReadingsSorted(snaps) && r in snaps
    ensures r.key <= snaps[|snaps| - 1].key
  {
    var i :| 0 <= i < |snaps| && snaps[i] == r;
  }

  lemma SelectionSpan(snaps: seq<Reading>, from: Option<int>, to: Option<int>)
    requires ReadingsSorted(snaps)
    ensures var window := Selected(snaps, from, to);
            && ReadingsSorted(window)
            && (forall r :: r in window <==> r in snaps && Within(r.key, from, to))
  {
    hide Selected, Within, ReadingsSorted;
    SelectedSorted(snaps, from, to);
    forall r ensures r in Selected(snaps, from, to) <==> r in snaps && Within(r.key, from, to) {
      SelectedMembers(snaps, from, to, r);
    }
  }

  lemma {:induction false} NothingHeldBefore(snaps: seq<Reading>, key: int)
    ensures Held(snaps, key).None? <==> forall i :: 0 <= i < |snaps| ==> key < snaps[i].key
  {
    if snaps != [] {
      NothingHeldBefore(snaps[..|snaps| - 1], key);
    }
  }

  /**
    The buckets shown: from the first reading on and from the query's from, to its to or, without one, to the
    newest reading's bucket or from's own, whichever is later.
   */
  predicate Shown(snaps: seq<Reading>, from: Option<int>, to: Option<int>, key: int) {
    && snaps != [] && snaps[0].key <= key
    && (from.Some? ==> from.value <= key)
    && (to.Some? ==> key <= to.value)
    && (to.None? ==> key <= snaps[|snaps| - 1].key || from == Some(key))
  }

  /** Where a selection starts and, with no upper bound, ends. */
  lemma SelectedEnds(snaps: seq<Reading>, from: Option<int>, to: Option<int>)
    requires ReadingsSorted(snaps)
    ensures var window := Selected(snaps, from, to);
            && (window == [] <==> forall r :: r in snaps ==> !Within(r.key, from, to))
            && (window != [] ==>
                  && window[0] in snaps && Within(window[0].key, from, to)
                  && (forall r :: r in snaps && Within(r.key, from, to) ==> window[0].key <= r.key)
                  && (to.None? ==> window[|window| - 1].key == snaps[|snaps| - 1].key))
  {
    hide Selected;
    SelectionSpan(snaps, from, to);
    var window := Selected(snaps, from, to);
    if window != [] {
      assert window[0] in window;
      forall r | r in snaps && Within(r.key, from, to) ensures window[0].key <= r.key <= window[|window| - 1].key {
        assert r in window;
        var i :| 0 <= i < |window| && window[i] == r;
      }
      if to.None? {
        var last := snaps[|snaps| - 1];
        assert window[|window| - 1] in window;
        LastIsLatest(snaps, window[0]);
        LastIsLatest(snaps, window[|window| - 1]);
        assert last in snaps && Within(last.key, from, to);
      }
    }
  }

  lemma ShownExactly(snaps: seq<Reading>, from: Option<int>, to: Option<int>, key: int)
    requires ReadingsSorted(snaps)
    ensures var emitted := EmittedBuckets(snaps, from, to);
            Shown(snaps, from, to, key) <==> emitted.Some? && emitted.value.0 <= key <= emitted.value.1
  {
    hide Selected, Held;
    SelectedEnds(snaps, from, to);
    assert forall i :: 0 <= i < |snaps| ==> snaps[i] in snaps;
    if from.Some? {
      NothingHeldBefore(snaps, from.value - 1);
    }
  }

  // ----- the derivation -----

  method CloseReadings(readings: seq<Reading>) returns (closes: map<int, real>)
    ensures forall key :: LastReading(readings, key) == if key in closes then Some(closes[key]) else None
  {
    closes := map[];
    for n := 0 to |readings|
      invariant forall key :: LastReading(readings[..n], key) == if key in closes then Some(closes[key]) else None
    {
      assert readings[..n + 1][..n] == readings[..n];
      closes := closes[readings[n].key := readings[n].balance];
    }
    assert readings[..|readings|] == readings;
  }

  /** Bucket the readings, open at the last level known before the window, and carry forward. */
  method DeriveSnapshots(edge: int -> int, snaps: seq<Reading>, from: Option<int>, to: Option<int>)
    returns (points: seq<SnapPoint>)
    requires ReadingsSorted(snaps)
    ensures forall key :: (exists i :: 0 <= i < |points| && points[i].key == key) <==> Shown(snaps, from, to, key)
    ensures EmittedBuckets(snaps, from, to).None? ==> points == []
    ensures EmittedBuckets(snaps, from, to).Some? ==>
              var (lo, hi) := EmittedBuckets(snaps, from, to).value;
              && |points| == Max(0, hi - lo + 1)
              && forall i :: 0 <= i < |points| ==> points[i] == SampleAndHold(edge, snaps, lo + i)
  {
    hide Held, LastReading, Selected, ReadingsSorted;
    points := [];
    var readings := Selected(snaps, from, to);
    var prime := None;
    if from.Some? {
      prime := Held(snaps, from.value - 1);
    }
    if readings == [] && prime.None? {
      PointsAreShown(edge, snaps, from, to, points);
      return;
    }
    var closes := CloseReadings(readings);
    var lo := from.GetOr(0);
    if prime.None? {
      var first := readings[0].key;
      if from.None? || first > lo {
        lo := first;
      }
    }
    var hi := if to.Some? then to.value else if readings != [] then readings[|readings| - 1].key else lo;
    var prev, havePrev := prime.GetOr(0.0), prime.Some?;
    LevelAtStart(snaps, from, to, lo);
    var b := lo;
    while b <= hi
      invariant lo <= b
      invariant |points| == b - lo && (b <= hi + 1 || b == lo)
      invariant forall i :: 0 <= i < |points| ==> points[i] == SampleAndHold(edge, snaps, lo + i)
      invariant if havePrev then Held(snaps, b - 1) == Some(prev) else b == lo && LastReading(snaps, lo).Some?
      decreases hi - b
    {
      HeldStep(snaps, b);
      assert Within(b, from, to) by { BucketsWithin(snaps, from, to, b); }
      SelectionReads(snaps, from, to, b);
      if b in closes {
        points := points + [SnapPoint(b, edge(b), closes[b], false)];
        prev, havePrev := closes[b], true;
      } else if havePrev {
        points := points + [SnapPoint(b, edge(b), prev, true)];
      }
      b := b + 1;
    }
    PointsAreShown(edge, snaps, from, to, points);
  }

  lemma PointsAreShown(edge: int -> int, snaps: seq<Reading>, from: Option<int>, to: Option<int>,
                       points: seq<SnapPoint>)
    requires ReadingsSorted(snaps)
    requires EmittedBuckets(snaps, from, to).None? ==> points == []
    requires EmittedBuckets(snaps, from, to).Some? ==>
               var (lo, hi) := EmittedBuckets(snaps, from, to).value;
               && |points| == Max(0, hi - lo + 1)
               && forall i :: 0 <= i < |points| ==> points[i] == SampleAndHold(edge, snaps, lo + i)
    ensures forall key :: (exists i :: 0 <= i < |points| && points[i].key == key) <==> Shown(snaps, from, to, key)
  {
    hide ReadingsSorted, EmittedBuckets, Shown;
    forall key ensures (exists i :: 0 <= i < |points| && points[i].key == key) <==> Shown(snaps, from, to, key) {
      ShownExactly(snaps, from, to, key);
      if Shown(snaps, from, to, key) {
        var lo := EmittedBuckets(snaps, from, to).value.0;
        assert points[key - lo].key == key;
      }
    }
  }

  /** With no level known before the window, the first reading selected is the account's first. */
  lemma FirstSelected(snaps: seq<Reading>, from: Option<int>, to: Option<int>, k: nat)
    requires ReadingsSorted(snaps) && Selected(snaps, from, to) != [] && k < |snaps|
    requires from.Some? ==> Held(snaps, from.value - 1).None?
    ensures var first := Selected(snaps, from, to)[0];
            first in snaps && Within(first.key, from, to) && first.key <= snaps[k].key
  {
    hide Selected, Held;
    SelectionSpan(snaps, from, to);
    var window := Selected(snaps, from, to);
    assert window[0] in window && snaps[k] in snaps;
    if from.Some? {
      NothingHeldBefore(snaps, from.value - 1);
    }
    if Within(snaps[k].key, from, to) {
      var i :| 0 <= i < |window| && window[i] == snaps[k];
    }
  }

  /** Either a reading before the window gives the first bucket its level, or it holds a reading. */
  lemma LevelAtStart(snaps: seq<Reading>, from: Option<int>, to: Option<int>, lo: int)
    requires ReadingsSorted(snaps)
    requires EmittedBuckets(snaps, from, to).Some? && lo == EmittedBuckets(snaps, from, to).value.0
    ensures if from.Some? && Held(snaps, from.value - 1).Some? then lo == from.value
            else LastReading(snaps, lo).Some? && Held(snaps, lo - 1).None?
  {
    hide Selected, Held, LastReading, ReadingsSorted;
    if !(from.Some? && Held(snaps, from.value - 1).Some?) {
      var window := Selected(snaps, from, to);
      forall k | 0 <= k < |snaps| ensures window[0].key <= snaps[k].key {
        FirstSelected(snaps, from, to, k);
      }
      NothingHeldBefore(snaps, window[0].key - 1);
      var k := SelectedFrom(snaps, from, to);
      FirstSelected(snaps, from, to, k);
      assert HasReading(snaps, lo);
      HeldStep(snaps, lo);
    }
  }

  lemma SelectedFrom(snaps: seq<Reading>, from: Option<int>, to: Option<int>) returns (k: nat)
    requires Selected(snaps, from, to) != []
    ensures k < |snaps| && snaps[k] == Selected(snaps, from, to)[0]
  {
    hide Selected;
    var first := Selected(snaps, from, to)[0];
    assert first in Selected(snaps, from, to);
    SelectedMembers(snaps, from, to, first);
    k :| 0 <= k < |snaps| && snaps[k] == first;
  }

  lemma BucketsWithin(snaps: seq<Reading>, from: Option<int>, to: Option<int>, b: int)
    requires ReadingsSorted(snaps) && EmittedBuckets(snaps, from, to).Some?
    requires EmittedBuckets(snaps, from, to).value.0 <= b <= EmittedBuckets(snaps, from, to).value.1
    ensures Within(b, from, to)
  {
    SelectionSpan(snaps, from, to);
  }

  // ----- what the series promises -----

  /** Nothing precedes the account's first reading, and every emitted bucket has a level. */
  lemma NothingBackFilled(snaps: seq<Reading>, from: Option<int>, to: Option<int>, key: int)
    requires ReadingsSorted(snaps) && EmittedBuckets(snaps, from, to).Some?
    requires EmittedBuckets(snaps, from, to).value.0 <= key
    ensures snaps != [] && snaps[0].key <= key && Held(snaps, key).Some?
  {
    var lo := EmittedBuckets(snaps, from, to).value.0;
    LevelAtStart(snaps, from, to, lo);
    NothingHeldBefore(snaps, lo);
    NothingHeldBefore(snaps, lo - 1);
    NothingHeldBefore(snaps, key);
    HeldStep(snaps, lo);
    assert exists i :: 0 <= i < |snaps| && snaps[i].key <= lo;
  }

  /** The held balance is the latest of the readings before the bucket's end, by (as_of, id). */
  lemma {:induction false} HeldIsLatest(snaps: seq<Reading>, key: int) returns (i: nat)
    requires Held(snaps, key).Some?
    ensures i < |snaps| && snaps[i].key <= key && Held(snaps, key) == Some(snaps[i].balance)
    ensures forall j :: i < j < |snaps| ==> key < snaps[j].key
  {
    var n := |snaps| - 1;
    if snaps[n].key <= key {
      i := n;
    } else {
      i := HeldIsLatest(snaps[..n], key);
    }
  }
}
