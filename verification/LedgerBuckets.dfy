/**
  One account's posted rows folded into buckets. A row's key is the index of the bucket its
  posted date falls in, so range queries bounded by bucket edges are ranges of keys.
 */
module LedgerBuckets {
  import opened Prelude

  /** after is the bank's running balance, when it sent one; internal is the transfer classifier's verdict. */
  datatype Row = Row(id: int, key: int, amount: real, after: Option<real>, internal: bool)

  datatype Tally = Tally(income: real, spend: real, transfers: real, count: nat)

  /** What the rows of one bucket add up to. */
  datatype Flow = Flow(txns: nat, inflow: real, outflow: real, net: real, tally: Tally,
                       lastAfter: Option<real>, netAfterLast: real, lastCovered: bool,
                       firstAfter: Option<real>, netThruFirst: real)

  datatype Source = NoSource | BalanceAfter | Accumulated | Carried

  /** A bucket while a series is derived; close is None until something gives it one. */
  datatype Bucket = Bucket(key: int, flow: Flow, close: Option<real>, source: Source, rowMismatch: bool)

  const FLOW_EPSILON: real := 0.005

  const EMPTY_FLOW := Flow(0, 0.0, 0.0, 0.0, Tally(0.0, 0.0, 0.0, 0), None, 0.0, false, None, 0.0)

  /** Rows in (posted_date, id) order have nondecreasing keys. */
  ghost predicate Sorted(rows: seq<Row>) {
    forall i, j :: 0 <= i <= j < |rows| ==> rows[i].key <= rows[j].key
  }

  /** The one classifier: an internal leg counts once, outbound, and never as income or spend. */
  function TallyRow(t: Tally, r: Row): Tally {
    var t := t.(count := t.count + 1);
    if r.internal then
      if r.amount < 0.0 then t.(transfers := t.transfers - r.amount) else t
    else if r.amount >= 0.0 then t.(income := t.income + r.amount)
    else t.(spend := t.spend - r.amount)
  }

  function AddRow(f: Flow, r: Row): Flow {
    Flow(f.txns + 1,
         if r.amount >= 0.0 then f.inflow + r.amount else f.inflow,
         if r.amount >= 0.0 then f.outflow else f.outflow - r.amount,
         f.net + r.amount,
         TallyRow(f.tally, r),
         if r.after.Some? then r.after else f.lastAfter,
         if r.after.Some? then 0.0 else f.netAfterLast + r.amount,
         r.after.Some?,
         if f.firstAfter.None? then r.after else f.firstAfter,
         if f.firstAfter.None? then f.netThruFirst + r.amount else f.netThruFirst)
  }

  function FlowOf(rows: seq<Row>, key: int): Flow {
    if rows == [] then EMPTY_FLOW
    else
      var n := |rows| - 1;
      if rows[n].key == key then AddRow(FlowOf(rows[..n], key), rows[n]) else FlowOf(rows[..n], key)
  }

  // ----- sums over the ledger, independent of the fold -----

  function Sum(rows: seq<Row>): real {
    if rows == [] then 0.0 else Sum(rows[..|rows| - 1]) + rows[|rows| - 1].amount
  }

  /** The amounts of every row up to and including one bucket. */
  function SumThrough(rows: seq<Row>, key: int): real {
    if rows == [] then 0.0
    else
      var n := |rows| - 1;
      SumThrough(rows[..n], key) + if rows[n].key <= key then rows[n].amount else 0.0
  }

  lemma {:induction false} SumThroughAll(rows: seq<Row>, key: int)
    requires forall i :: 0 <= i < |rows| ==> rows[i].key <= key
    ensures SumThrough(rows, key) == Sum(rows)
  {
    if rows != [] {
      SumThroughAll(rows[..|rows| - 1], key);
    }
  }

  lemma {:induction false} SumThroughNone(rows: seq<Row>, key: int)
    requires forall i :: 0 <= i < |rows| ==> key < rows[i].key
    ensures SumThrough(rows, key) == 0.0
  {
    if rows != [] {
      SumThroughNone(rows[..|rows| - 1], key);
    }
  }

  /** A bucket's net is the step of the running sum over it, and its gross flows make up its net. */
  lemma {:induction false} NetIsStep(rows: seq<Row>, key: int)
    ensures var f := FlowOf(rows, key);
            && f.net == SumThrough(rows, key) - SumThrough(rows, key - 1)
            && f.inflow - f.outflow == f.net
            && 0.0 <= f.inflow && 0.0 <= f.outflow
            && (f.txns == 0 ==> f.net == 0.0)
            && f.tally.count == f.txns
  {
    if rows != [] {
      NetIsStep(rows[..|rows| - 1], key);
    }
  }

  /** Internal transfers aside, external income and spend make up the net too. */
  function InternalNet(rows: seq<Row>, key: int): real {
    if rows == [] then 0.0
    else
      var n := |rows| - 1;
      InternalNet(rows[..n], key) + if rows[n].key == key && rows[n].internal then rows[n].amount else 0.0
  }

  lemma {:induction false} ExternalFlowsTieOut(rows: seq<Row>, key: int)
    ensures var f := FlowOf(rows, key); f.tally.income - f.tally.spend == f.net - InternalNet(rows, key)
  {
    if rows != [] {
      ExternalFlowsTieOut(rows[..|rows| - 1], key);
    }
  }

  // ----- each part of a flow, as a sum of its own -----

  datatype Part = Inflow | Outflow | Income | Spend | Transfers

  /** What one row adds to a part: magnitudes, outbound ones where money leaves. */
  function Share(part: Part, r: Row): real {
    match part
    case Inflow => if r.amount > 0.0 then r.amount else 0.0
    case Outflow => if r.amount < 0.0 then -r.amount else 0.0
    case Income => if !r.internal && r.amount > 0.0 then r.amount else 0.0
    case Spend => if !r.internal && r.amount < 0.0 then -r.amount else 0.0
    case Transfers => if r.internal && r.amount < 0.0 then -r.amount else 0.0
  }

  function SumOf(part: Part, rows: seq<Row>, key: int): real {
    if rows == [] then 0.0
    else
      var n := |rows| - 1;
      SumOf(part, rows[..n], key) + if rows[n].key == key then Share(part, rows[n]) else 0.0
  }

  function CountAt(rows: seq<Row>, key: int): nat {
    if rows == [] then 0
    else CountAt(rows[..|rows| - 1], key) + if rows[|rows| - 1].key == key then 1 else 0
  }

  /**
    Every part of a bucket's flow is the sum of its own rows' magnitudes: income of external credits, spend of
    external debits, transfers of internal debits alone.
   */
  lemma {:induction false} FlowParts(rows: seq<Row>, key: int)
    ensures var f := FlowOf(rows, key);
            && f.inflow == SumOf(Inflow, rows, key) && f.outflow == SumOf(Outflow, rows, key)
            && f.tally.income == SumOf(Income, rows, key) && f.tally.spend == SumOf(Spend, rows, key)
            && f.tally.transfers == SumOf(Transfers, rows, key)
            && f.txns == f.tally.count == CountAt(rows, key)
  {
    if rows != [] {
      FlowParts(rows[..|rows| - 1], key);
    }
  }

  /** The nets of a run of buckets. */
  function TotalNet(rows: seq<Row>, lo: int, hi: int): real
    decreases hi - lo
  {
    if hi < lo then 0.0 else TotalNet(rows, lo, hi - 1) + FlowOf(rows, hi).net
  }

  /** Conservation: the buckets of a run account for exactly the rows in it. */
  lemma {:induction false} BucketsConserveRows(rows: seq<Row>, lo: int, hi: int)
    requires lo <= hi + 1
    ensures TotalNet(rows, lo, hi) == SumThrough(rows, hi) - SumThrough(rows, lo - 1)
    ensures (forall i :: 0 <= i < |rows| ==> lo <= rows[i].key <= hi) ==> TotalNet(rows, lo, hi) == Sum(rows)
    decreases hi - lo
  {
    if lo <= hi {
      BucketsConserveRows(rows, lo, hi - 1);
      NetIsStep(rows, hi);
    }
    if forall i :: 0 <= i < |rows| ==> lo <= rows[i].key <= hi {
      SumThroughAll(rows, hi);
      SumThroughNone(rows, lo - 1);
    }
  }

  // ----- range queries -----

  function CountBelow(rows: seq<Row>, key: int): (n: nat)
    ensures n <= |rows|
  {
    if rows == [] then 0
    else CountBelow(rows[..|rows| - 1], key) + if rows[|rows| - 1].key < key then 1 else 0
  }

  lemma {:induction false} CountBelowSplits(rows: seq<Row>, key: int)
    requires Sorted(rows)
    ensures forall i :: 0 <= i < |rows| ==> (i < CountBelow(rows, key) <==> rows[i].key < key)
  {
    if rows != [] {
      var n := |rows| - 1;
      CountBelowSplits(rows[..n], key);
      if rows[n].key < key {
        assert forall i :: 0 <= i < n ==> rows[i].key < key;
        assert 0 < n ==> rows[..n][n - 1].key < key;
      }
    }
  }

  lemma {:induction false} CountBelowMonotone(rows: seq<Row>, j: int, k: int)
    requires j <= k
    ensures CountBelow(rows, j) <= CountBelow(rows, k)
  {
    if rows != [] {
      CountBelowMonotone(rows[..|rows| - 1], j, k);
    }
  }

  /** The rows a query bounded by two bucket edges returns. */
  function KeyRange(rows: seq<Row>, lo: int, hi: int): (out: seq<Row>)
    requires lo <= hi + 1
  {
    CountBelowMonotone(rows, lo, hi + 1);
    rows[CountBelow(rows, lo)..CountBelow(rows, hi + 1)]
  }

  /** Split a sorted ledger at a range: what comes before it, the range, what comes after. */
  lemma KeyRangeSplits(rows: seq<Row>, lo: int, hi: int) returns (before: seq<Row>, after: seq<Row>)
    requires Sorted(rows) && lo <= hi + 1
    ensures rows == before + KeyRange(rows, lo, hi) + after
    ensures forall i :: 0 <= i < |before| ==> before[i].key < lo
    ensures forall i :: 0 <= i < |after| ==> hi < after[i].key
    ensures forall i :: 0 <= i < |KeyRange(rows, lo, hi)| ==> lo <= KeyRange(rows, lo, hi)[i].key <= hi
  {
    CountBelowSplits(rows, lo);
    CountBelowSplits(rows, hi + 1);
    CountBelowMonotone(rows, lo, hi + 1);
    var a, b := CountBelow(rows, lo), CountBelow(rows, hi + 1);
    before, after := rows[..a], rows[b..];
    assert rows == rows[..a] + rows[a..b] + rows[b..];
  }

  lemma {:induction false} FlowIgnores(before: seq<Row>, rows: seq<Row>, after: seq<Row>, key: int)
    requires forall i :: 0 <= i < |before| ==> before[i].key != key
    requires forall i :: 0 <= i < |after| ==> after[i].key != key
    ensures FlowOf(before + rows + after, key) == FlowOf(rows, key)
    decreases |before| + |rows| + |after|
  {
    var all := before + rows + after;
    if after != [] {
      var n := |after| - 1;
      assert all[..|all| - 1] == before + rows + after[..n];
      FlowIgnores(before, rows, after[..n], key);
    } else if rows != [] {
      var n := |rows| - 1;
      assert all[..|all| - 1] == before + rows[..n] + [];
      FlowIgnores(before, rows[..n], [], key);
    } else if before != [] {
      var n := |before| - 1;
      assert all[..|all| - 1] == before[..n] + [] + [];
      FlowIgnores(before[..n], [], [], key);
    }
  }

  lemma {:induction false} SumIgnores(before: seq<Row>, rows: seq<Row>, after: seq<Row>, key: int)
    requires forall i :: 0 <= i < |before| ==> before[i].key <= key
    requires forall i :: 0 <= i < |after| ==> key < after[i].key
    ensures SumThrough(before + rows + after, key) == Sum(before) + SumThrough(rows, key)
    decreases |before| + |rows| + |after|
  {
    var all := before + rows + after;
    if after != [] {
      var n := |after| - 1;
      assert all[..|all| - 1] == before + rows + after[..n];
      SumIgnores(before, rows, after[..n], key);
    } else if rows != [] {
      var n := |rows| - 1;
      assert all[..|all| - 1] == before + rows[..n] + [];
      SumIgnores(before, rows[..n], [], key);
    } else {
      assert all == before;
      SumThroughAll(before, key);
    }
  }

  /** Inside the loaded range, buckets fold as they would over the whole ledger. */
  lemma RangeFolds(rows: seq<Row>, lo: int, hi: int, key: int)
    requires Sorted(rows) && lo <= key <= hi
    ensures FlowOf(KeyRange(rows, lo, hi), key) == FlowOf(rows, key)
  {
    var before, after := KeyRangeSplits(rows, lo, hi);
    FlowIgnores(before, KeyRange(rows, lo, hi), after, key);
  }

  /** Differences of running sums are the same in the loaded range as in the whole ledger. */
  lemma RangeSums(rows: seq<Row>, lo: int, hi: int, j: int, k: int)
    requires Sorted(rows) && lo - 1 <= j <= hi && lo - 1 <= k <= hi
    ensures SumThrough(KeyRange(rows, lo, hi), k) - SumThrough(KeyRange(rows, lo, hi), j)
            == SumThrough(rows, k) - SumThrough(rows, j)
  {
    var before, after := KeyRangeSplits(rows, lo, hi);
    SumIgnores(before, KeyRange(rows, lo, hi), after, j);
    SumIgnores(before, KeyRange(rows, lo, hi), after, k);
  }
}
