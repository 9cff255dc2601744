/** What the running-balance check detects when a row of a covered, consistent ledger is lost or doubled. */
module LedgerErrors {
  import opened Prelude
  import opened LedgerBuckets
  import opened LedgerSeries
  import opened LedgerSeriesTruth
  import opened LedgerSeriesWindows

  function Removed(rows: seq<Row>, i: nat): seq<Row>
    requires i < |rows|
  {
    rows[..i] + rows[i + 1..]
  }

  function Inserted(rows: seq<Row>, j: nat, d: Row): seq<Row>
    requires j <= |rows|
  {
    rows[..j] + [d] + rows[j..]
  }

  lemma ConsecutiveTie(rows: seq<Row>, opening: real, i: nat)
    requires Consistent(rows, opening) && AllCovered(rows) && 0 < i < |rows|
    ensures rows[i].after.value - rows[i - 1].after.value == rows[i].amount
    ensures !Breaks(rows[i - 1], rows[i])
  {
    SumNext(rows, i);
  }

  /**
    A missing row shows at the row after it, exactly when its amount exceeds the tolerance, and
    nowhere else.
   */
  lemma MissingRowFlagged(rows: seq<Row>, opening: real, i: nat, key: int)
    requires Consistent(rows, opening) && AllCovered(rows) && 0 < i < |rows| - 1
    ensures Flagged(Removed(rows, i), key) <==> key == rows[i + 1].key && AbsReal(rows[i].amount) > FLOW_EPSILON
  {
    var left := Removed(rows, i);
    ConsecutiveTie(rows, opening, i);
    ConsecutiveTie(rows, opening, i + 1);
    assert left[i - 1] == rows[i - 1] && left[i] == rows[i + 1];
    assert Breaks(left[i - 1], left[i]) <==> AbsReal(rows[i].amount) > FLOW_EPSILON;
    forall m | 0 < m < |left| && m != i ensures !Breaks(left[m - 1], left[m]) {
      ConsecutiveTie(rows, opening, if m < i then m else m + 1);
    }
  }

  /** The first and the last row are out of the check's reach: losing either flags nothing. */
  lemma MissingEndUnseen(rows: seq<Row>, opening: real, i: nat, key: int)
    requires Consistent(rows, opening) && AllCovered(rows) && i < |rows| && (i == 0 || i == |rows| - 1)
    ensures !Flagged(Removed(rows, i), key)
  {
    var left := Removed(rows, i);
    forall m | 0 < m < |left| ensures !Breaks(left[m - 1], left[m]) {
      ConsecutiveTie(rows, opening, if i == 0 then m + 1 else m);
    }
  }

  /**
    A doubled row, sorted anywhere after the original: the check sees the amounts between the two,
    once at the copy and once at the row after it.
   */
  lemma DoubledRowFlagged(rows: seq<Row>, opening: real, i: nat, j: nat, d: Row, key: int)
    requires Consistent(rows, opening) && AllCovered(rows) && i < j <= |rows|
    requires d.amount == rows[i].amount && d.after == rows[i].after
    ensures Flagged(Inserted(rows, j, d), key) <==>
              || (key == d.key && AbsReal(Sum(rows[..j]) - Sum(rows[..i])) > FLOW_EPSILON)
              || (j < |rows| && key == rows[j].key && AbsReal(Sum(rows[..j]) - Sum(rows[..i + 1])) > FLOW_EPSILON)
  {
    var grown := Inserted(rows, j, d);
    SumNext(rows, i);
    assert grown[j - 1] == rows[j - 1] && grown[j] == d;
    assert rows[j - 1].after.value == opening + Sum(rows[..j - 1 + 1]);
    assert Breaks(grown[j - 1], grown[j]) <==> AbsReal(Sum(rows[..j]) - Sum(rows[..i])) > FLOW_EPSILON;
    if j < |rows| {
      SumNext(rows, j);
      assert grown[j + 1] == rows[j];
      assert Breaks(grown[j], grown[j + 1]) <==> AbsReal(Sum(rows[..j]) - Sum(rows[..i + 1])) > FLOW_EPSILON;
    }
    forall m | 0 < m < |grown| && m != j && m != j + 1 ensures !Breaks(grown[m - 1], grown[m]) {
      ConsecutiveTie(rows, opening, if m < j then m else m - 1);
    }
  }

  /** A copy right after its original is flagged at its own bucket exactly beyond the tolerance. */
  lemma AdjacentDoubleFlagged(rows: seq<Row>, opening: real, i: nat, d: Row)
    requires Consistent(rows, opening) && AllCovered(rows) && i < |rows|
    requires d.amount == rows[i].amount && d.after == rows[i].after
    ensures Flagged(Inserted(rows, i + 1, d), d.key) <==> AbsReal(rows[i].amount) > FLOW_EPSILON
  {
    DoubledRowFlagged(rows, opening, i, i + 1, d, d.key);
    SumNext(rows, i);
  }

  /** Wherever the copy sorts, short of the end, twice the tolerance is enough to be caught. */
  lemma DoubleAlwaysCaught(rows: seq<Row>, opening: real, i: nat, j: nat, d: Row)
    requires Consistent(rows, opening) && AllCovered(rows) && i < j < |rows|
    requires d.amount == rows[i].amount && d.after == rows[i].after
    requires AbsReal(rows[i].amount) > 2.0 * FLOW_EPSILON
    ensures Flagged(Inserted(rows, j, d), d.key) || Flagged(Inserted(rows, j, d), rows[j].key)
  {
    DoubledRowFlagged(rows, opening, i, j, d, d.key);
    DoubledRowFlagged(rows, opening, i, j, d, rows[j].key);
    SumNext(rows, i);
  }
}
