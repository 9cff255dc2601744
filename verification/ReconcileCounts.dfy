/** What the matching pass reports of itself, and when a bill shows as overdue, from the tables alone. */
module ReconcileCounts {
  import opened Prelude
  import opened Occurrences
  import opened BillMatching
  import opened Reconcile
  import opened ReconcileProperties

  ghost predicate Distinct(occs: seq<int>) {
    forall i, j :: 0 <= i < j < |occs| ==> occs[i] != occs[j]
  }

  /** The cycles of a list no payment settles yet. */
  ghost function Unsettled(b: Bill, occs: seq<int>, payments: seq<Payment>): set<int> {
    set occ | occ in occs && occ !in SettledBy(payments, b.id)
  }

  /** Settling some cycles leaves every other as it was. */
  lemma OthersStaySettled(b: Bill, occs: seq<int>, ledger: seq<Row>, payments: seq<Payment>, occ: int)
    requires occ !in occs
    ensures occ in SettledBy(SettleCycles(b, occs, ledger, payments), b.id) <==> occ in SettledBy(payments, b.id)
  {
    hide Matches;
    var after := SettleCycles(b, occs, ledger, payments);
    if occ in SettledBy(after, b.id) {
      var p :| p in after && p.bill == b.id && p.occurrence == occ;
      if p !in payments {
        CycleLinksJustified(b, occs, ledger, payments, p);
      }
    }
    if occ in SettledBy(payments, b.id) {
      var p :| p in payments && p.bill == b.id && p.occurrence == occ;
      assert p in after;
    }
  }

  /** The cycles a bill has checked are those that were unsettled before it was turned to. */
  lemma {:induction false} CheckedExactly(b: Bill, occs: seq<int>, ledger: seq<Row>, payments: seq<Payment>)
    requires Distinct(occs)
    ensures BillWork(b, occs, ledger, payments).cycles == |Unsettled(b, occs, payments)|
  {
    if occs == [] {
      assert Unsettled(b, occs, payments) == {};
    } else {
      hide SettleCycles, SettledBy, UnusedWithin;
      var n := |occs| - 1;
      CheckedExactly(b, occs[..n], ledger, payments);
      assert occs[n] !in occs[..n];
      OthersStaySettled(b, occs[..n], ledger, payments, occs[n]);
      var fewer := Unsettled(b, occs[..n], payments);
      forall occ ensures occ in occs <==> occ in occs[..n] || occ == occs[n] {
        LastOrEarlier(occs, occ);
      }
      assert Unsettled(b, occs, payments) == if occs[n] in SettledBy(payments, b.id) then fewer else fewer + {occs[n]};
    }
  }

  /** A listing has no date twice. */
  lemma ListingIsDistinct(anchor: int, c: Cadence, from: int, to: int)
    ensures Distinct(OccurrencesBetween(anchor, c, from, to))
  {
    var occs := OccurrencesBetween(anchor, c, from, to);
    hide OccurrencesBetween;
    forall i, j | 0 <= i < j < |occs| ensures occs[i] != occs[j] {
      ListedInOrder(anchor, c, from, to, i, j);
    }
  }

  // ----- over a whole pass -----

  ghost predicate OwnIds(bills: seq<Bill>) {
    forall i, j :: 0 <= i < j < |bills| ==> bills[i].id != bills[j].id
  }

  /** How many cycles are there to settle, bill by bill, as the payments stood before the pass. */
  ghost function ToSettle(bills: seq<Bill>, ledger: seq<Row>, bounds: Bounds, today: int, payments: seq<Payment>): nat {
    if bills == [] then 0
    else
      var b := bills[|bills| - 1];
      ToSettle(bills[..|bills| - 1], ledger, bounds, today, payments)
      + |Unsettled(b, CyclesOf(b, ledger, bounds, today), payments)|
  }

  /** How many bills have a cycle to try. */
  ghost function WithCycles(bills: seq<Bill>, ledger: seq<Row>, bounds: Bounds, today: int): nat {
    if bills == [] then 0
    else
      WithCycles(bills[..|bills| - 1], ledger, bounds, today)
      + if CyclesOf(bills[|bills| - 1], ledger, bounds, today) != [] then 1 else 0
  }

  /** Passing over other bills settles none of this one's cycles. */
  lemma {:induction false} OtherBillsSettleNothing(bills: seq<Bill>, ledger: seq<Row>, bounds: Bounds, today: int,
                                                   payments: seq<Payment>, b: Bill)
    requires forall i :: 0 <= i < |bills| ==> bills[i].id != b.id
    ensures SettledBy(Pass(bills, ledger, bounds, today, payments), b.id) == SettledBy(payments, b.id)
  {
    if bills != [] {
      hide CyclesOf, SettleCycles;
      var n := |bills| - 1;
      OtherBillsSettleNothing(bills[..n], ledger, bounds, today, payments, b);
      var rest := Pass(bills[..n], ledger, bounds, today, payments);
      OneBillSettlesItsOwn(bills[n], CyclesOf(bills[n], ledger, bounds, today), ledger, rest, b);
    }
  }

  lemma OneBillSettlesItsOwn(other: Bill, occs: seq<int>, ledger: seq<Row>, payments: seq<Payment>, b: Bill)
    requires other.id != b.id
    ensures SettledBy(SettleCycles(other, occs, ledger, payments), b.id) == SettledBy(payments, b.id)
  {
    hide Matches;
    var after := SettleCycles(other, occs, ledger, payments);
    forall p | p in after && p.bill == b.id ensures p in payments {
      if p !in payments {
        CycleLinksJustified(other, occs, ledger, payments, p);
      }
    }
    assert forall p :: p in payments ==> p in after;
  }

  /**
    The report: bills with a cycle to try; cycles no payment settled before the pass; and every link made is of a
    checked cycle and a compared row.
   */
  lemma {:induction false} ReportExactly(bills: seq<Bill>, ledger: seq<Row>, bounds: Bounds, today: int,
                                         payments: seq<Payment>)
    requires OwnIds(bills)
    ensures var w := PassWork(bills, ledger, bounds, today, payments);
            && w.bills == WithCycles(bills, ledger, bounds, today)
            && w.cycles == ToSettle(bills, ledger, bounds, today, payments)
            && |Pass(bills, ledger, bounds, today, payments)| - |payments| <= Min(w.cycles, w.rows)
  {
    if bills != [] {
      hide CyclesOf, SettledBy, Unsettled, SettleCycles, BillWork;
      var n := |bills| - 1;
      var b := bills[n];
      ReportExactly(bills[..n], ledger, bounds, today, payments);
      var rest, occs := Pass(bills[..n], ledger, bounds, today, payments), CyclesOf(b, ledger, bounds, today);
      CyclesAreDistinct(b, ledger, bounds, today);
      CheckedExactly(b, occs, ledger, rest);
      OtherBillsSettleNothing(bills[..n], ledger, bounds, today, payments, b);
      SameUnsettled(b, occs, rest, payments);
      LinksAreCompared(b, occs, ledger, rest);
    }
  }

  lemma CyclesAreDistinct(b: Bill, ledger: seq<Row>, bounds: Bounds, today: int)
    ensures Distinct(CyclesOf(b, ledger, bounds, today))
  {
    hide OccurrencesBetween;
    ListingIsDistinct(b.anchor, b.cadence, CycleFrom(b, Coverage(ledger), bounds), CycleTo(b, bounds, today));
  }

  lemma SameUnsettled(b: Bill, occs: seq<int>, payments: seq<Payment>, payments': seq<Payment>)
    requires SettledBy(payments, b.id) == SettledBy(payments', b.id)
    ensures Unsettled(b, occs, payments) == Unsettled(b, occs, payments')
  {
  }

  lemma {:induction false} LinksAreCompared(b: Bill, occs: seq<int>, ledger: seq<Row>, payments: seq<Payment>)
    ensures var w := BillWork(b, occs, ledger, payments);
            && |SettleCycles(b, occs, ledger, payments)| - |payments| <= w.cycles
            && |SettleCycles(b, occs, ledger, payments)| - |payments| <= w.rows
  {
    if occs != [] {
      hide Matches, UnusedWithin, SettledBy, UsedBy;
      var n := |occs| - 1;
      LinksAreCompared(b, occs[..n], ledger, payments);
      var before := SettleCycles(b, occs[..n], ledger, payments);
      var best := BestRow(b, occs[n], UsedBy(before, b.id), ledger);
      if best.Some? {
        MatchIsCompared(b, occs[n], UsedBy(before, b.id), ledger, best.value);
      }
    }
  }

  lemma MatchIsCompared(b: Bill, occ: int, used: set<int>, ledger: seq<Row>, r: Row)
    requires r in ledger && Eligible(b, occ, used, r)
    ensures UnusedWithin(ledger, used, occ - b.window, occ + b.window) > 0
  {
    UnusedIsCounted(ledger, used, occ - b.window, occ + b.window, r);
  }

  lemma {:induction false} UnusedIsCounted(rows: seq<Row>, used: set<int>, lo: int, hi: int, r: Row)
    requires r in rows && r.id !in used && lo <= r.day <= hi
    ensures UnusedWithin(rows, used, lo, hi) > 0
  {
    LastOrEarlier(rows, r);
    if r in rows[..|rows| - 1] {
      UnusedIsCounted(rows[..|rows| - 1], used, lo, hi, r);
    }
  }

  ghost function UnusedSet(rows: seq<Row>, used: set<int>, lo: int, hi: int): set<Row> {
    set r | r in rows && r.id !in used && lo <= r.day <= hi
  }

  ghost predicate RowIds(rows: seq<Row>) {
    forall i, j :: 0 <= i < j < |rows| ==> rows[i].id != rows[j].id
  }

  lemma UnusedSetLast(rows: seq<Row>, used: set<int>, lo: int, hi: int)
    requires rows != [] && RowIds(rows)
    ensures var n := |rows| - 1;
            var fewer := UnusedSet(rows[..n], used, lo, hi);
            && RowIds(rows[..n]) && rows[n] !in fewer
            && UnusedSet(rows, used, lo, hi)
               == if rows[n].id !in used && lo <= rows[n].day <= hi then fewer + {rows[n]} else fewer
  {
    var n := |rows| - 1;
    forall r ensures r in rows <==> r in rows[..n] || r == rows[n] {
      LastOrEarlier(rows, r);
    }
  }

  /** The unused rows of a span of days, counted. */
  lemma {:induction false} UnusedExactly(rows: seq<Row>, used: set<int>, lo: int, hi: int)
    requires RowIds(rows)
    ensures UnusedWithin(rows, used, lo, hi) == |UnusedSet(rows, used, lo, hi)|
  {
    if rows == [] {
      assert UnusedSet(rows, used, lo, hi) == {};
    } else {
      hide UnusedSet, RowIds;
      UnusedSetLast(rows, used, lo, hi);
      UnusedExactly(rows[..|rows| - 1], used, lo, hi);
    }
  }

  // ----- overdue, from the dates alone -----

  /**
    A bill is overdue exactly when it is active and has a text to match, its latest due date before today lies
    more than its window back, is one of its own cycles and within the ledger's reach, and no payment settles it.
   */
  lemma OverdueExactly(b: Bill, coverage: Option<int>, today: int, payments: seq<Payment>)
    ensures IsOverdue(b, coverage, today, payments) <==>
              && b.status == Active && b.needle != ""
              && exists n :: LatelyMissed(b, coverage, today, payments, n)
  {
    hide OccurrenceAt, DueOrdinal;
    var m := DueOrdinal(b.anchor, b.cadence, today) - 1;
    LinkedAndUsed(payments, b, PrevDue(b.anchor, b.cadence, today), Row(0, 0, 0.0, "", "", 0));
    if IsOverdue(b, coverage, today, payments) {
      assert OccurrenceAt(b.anchor, b.cadence, m + 1) >= today;
      assert LatelyMissed(b, coverage, today, payments, m);
    }
    forall n | LatelyMissed(b, coverage, today, payments, n) ensures n == m {
      DueOrdinalIsLeast(b.anchor, b.cadence, today, n);
      DueOrdinalIsLeast(b.anchor, b.cadence, today, n + 1);
    }
  }

  ghost predicate LatelyMissed(b: Bill, coverage: Option<int>, today: int, payments: seq<Payment>, n: int) {
    var due := OccurrenceAt(b.anchor, b.cadence, n);
    && due + b.window < today <= OccurrenceAt(b.anchor, b.cadence, n + 1)
    && b.anchor <= due && (b.endedOn.Some? ==> due <= b.endedOn.value)
    && coverage.Some? && coverage.value <= due + b.window
    && !Links(payments, b, due)
  }
}
