/**
  Bounding a pass costs no link. The pass run after an ingest looks only at the cycles the ingested dates
  can settle, and every pass only at the cycles the ledger covers; neither leaves out a link.
 */
module BoundedPass {
  import opened Prelude
  import opened Occurrences
  import opened BillMatching
  import opened Reconcile
  import opened ReconcileProperties

  const UNBOUNDED := Bounds(None, None)

  // ----- the coverage bound, over a whole pass -----

  /** The pass without the coverage bound: every cycle from each bill's anchor. */
  function NaivePass(bills: seq<Bill>, ledger: seq<Row>, bounds: Bounds, today: int,
                     payments: seq<Payment>): seq<Payment> {
    if bills == [] then payments
    else
      var b := bills[|bills| - 1];
      var rest := NaivePass(bills[..|bills| - 1], ledger, bounds, today, payments);
      if AutoMatched(b) then SettleCycles(b, UnclippedCycles(b, bounds, today), ledger, rest) else rest
  }

  lemma {:induction false} EmptyLedgerMatchesNothing(b: Bill, occs: seq<int>, payments: seq<Payment>)
    ensures SettleCycles(b, occs, [], payments) == payments
  {
    if occs != [] {
      EmptyLedgerMatchesNothing(b, occs[..|occs| - 1], payments);
    }
  }

  /** Whatever the bills, clipping their cycles at the ledger's first day changes no pass, below the listing cap. */
  lemma {:induction false} CoverageCostsNothing(bills: seq<Bill>, ledger: seq<Row>, bounds: Bounds, today: int,
                                                payments: seq<Payment>)
    requires Ordered(ledger)
    requires forall b :: b in bills ==> |UnclippedCycles(b, bounds, today)| < MAX_OCCURRENCES
    ensures Pass(bills, ledger, bounds, today, payments) == NaivePass(bills, ledger, bounds, today, payments)
  {
    hide SettleCycles, UnclippedCycles, CycleWindow, Ordered;
    if bills != [] {
      var n := |bills| - 1;
      var b, rest := bills[n], Pass(bills[..n], ledger, bounds, today, payments);
      assert bills == bills[..n] + [b];
      CoverageCostsNothing(bills[..n], ledger, bounds, today, payments);
      NoCycles(b, ledger, rest);
      if AutoMatched(b) {
        if ledger == [] {
          EmptyLedgerMatchesNothing(b, UnclippedCycles(b, bounds, today), rest);
        } else {
          CoverageBoundLosesNothing(b, ledger, bounds, today, rest);
        }
      }
    }
  }

  // ----- parts of a listing -----

  lemma LoweringToCutsSuffix(anchor: int, c: Cadence, from: int, earlier: int, to: int) returns (cut: seq<int>)
    requires earlier <= to
    requires |OccurrencesBetween(anchor, c, from, to)| < MAX_OCCURRENCES
    ensures OccurrencesBetween(anchor, c, from, to) == OccurrencesBetween(anchor, c, from, earlier) + cut
    ensures forall occ :: occ in cut ==> earlier < occ <= to
  {
    hide OccurrenceAt, DueOrdinal;
    var all := OccurrencesBetween(anchor, c, from, to);
    var start, mid, end := DueOrdinal(anchor, c, from), DueOrdinal(anchor, c, earlier + 1),
      DueOrdinal(anchor, c, to + 1);
    if to < from {
      return [];
    }
    if earlier < from {
      cut := all;
      forall occ | occ in cut ensures earlier < occ <= to {
        ListedAreOccurrences(anchor, c, from, to, occ);
      }
      return;
    }
    DueOrdinalIsLeast(anchor, c, from, mid);
    DueOrdinalIsLeast(anchor, c, earlier + 1, end);
    cut := all[mid - start..];
    var early := OccurrencesBetween(anchor, c, from, earlier);
    assert |early| == mid - start;
    assert forall i :: 0 <= i < |early| ==> early[i] == OccurrenceAt(anchor, c, start + i) == all[i];
    assert all[..mid - start] == early;
    forall i | 0 <= i < |cut| ensures earlier < cut[i] <= to {
      DueOrdinalIsLeast(anchor, c, earlier + 1, mid + i);
      DueOrdinalIsLeast(anchor, c, to + 1, mid + i);
    }
  }

  /** A narrower window lists a contiguous part of what a wider one lists. */
  lemma NarrowerIsPart(anchor: int, c: Cadence, from: int, to: int, later: int, earlier: int)
      returns (before: seq<int>, after: seq<int>)
    requires from <= later && earlier <= to
    requires |OccurrencesBetween(anchor, c, from, to)| < MAX_OCCURRENCES
    ensures OccurrencesBetween(anchor, c, from, to) == before + OccurrencesBetween(anchor, c, later, earlier) + after
    ensures forall occ :: occ in before ==> from <= occ < later
    ensures forall occ :: occ in after ==> earlier < occ <= to
  {
    hide OccurrencesBetween;
    before := RaisingFromCutsPrefix(anchor, c, from, later, to);
    after := LoweringToCutsSuffix(anchor, c, later, earlier, to);
    assert before + (OccurrencesBetween(anchor, c, later, earlier) + after)
           == before + OccurrencesBetween(anchor, c, later, earlier) + after;
  }

  lemma {:induction false} SettleInTurn(b: Bill, first: seq<int>, rest: seq<int>, ledger: seq<Row>,
                                        payments: seq<Payment>)
    ensures SettleCycles(b, first + rest, ledger, payments)
            == SettleCycles(b, rest, ledger, SettleCycles(b, first, ledger, payments))
  {
    hide SettleCycle;
    if rest == [] {
      assert first + rest == first;
    } else {
      var n := |rest| - 1;
      SettleInTurn(b, first, rest[..n], ledger, payments);
      assert (first + rest)[..|first| + n] == first + rest[..n];
    }
  }

  /** Cycles with nothing left to do, before and after others, can be left out. */
  lemma DoneCyclesCanBeSkipped(b: Bill, before: seq<int>, occs: seq<int>, after: seq<int>, ledger: seq<Row>,
                               payments: seq<Payment>)
    requires forall occ :: occ in before || occ in after ==> Done(b, occ, ledger, payments)
    ensures SettleCycles(b, before + occs + after, ledger, payments) == SettleCycles(b, occs, ledger, payments)
  {
    hide SettleCycles, Done;
    SettleInTurn(b, before + occs, after, ledger, payments);
    SettleInTurn(b, before, occs, ledger, payments);
    DoneCyclesChangeNothing(b, before, ledger, payments);
    var settled := SettleCycles(b, occs, ledger, payments);
    forall occ | occ in after ensures Done(b, occ, ledger, settled) {
      DoneStays(b, occ, ledger, payments, settled);
    }
    DoneCyclesChangeNothing(b, after, ledger, settled);
  }

  // ----- the bound of a post-ingest pass -----

  /** The ledger after an ingest: the old rows are all still there, and every other row is dated in the range. */
  ghost predicate Ingested(known: seq<Row>, ledger: seq<Row>, from: int, to: int) {
    && Ordered(known) && Ordered(ledger)
    && (forall r :: r in known ==> r in ledger)
    && (forall r :: r in ledger ==> r in known || from <= r.day <= to)
  }

  /** The old ledger had been reconciled: nothing was left to do for any cycle it covers. */
  ghost predicate Reconciled(bills: seq<Bill>, ledger: seq<Row>, today: int, payments: seq<Payment>) {
    forall b, occ :: b in bills && occ in CyclesOf(b, ledger, UNBOUNDED, today) ==> Done(b, occ, ledger, payments)
  }

  /** No bill lists as many cycles as the cap cuts a listing at. */
  predicate Uncapped(bills: seq<Bill>, ledger: seq<Row>, today: int) {
    forall b :: b in bills ==> |CycleWindow(b, Coverage(ledger), UNBOUNDED, today)| < MAX_OCCURRENCES
  }

  lemma EarlierCoverage(known: seq<Row>, ledger: seq<Row>, from: int, to: int)
    requires Ingested(known, ledger, from, to) && known != []
    ensures ledger != [] && ledger[0].day <= known[0].day
  {
    assert known[0] in ledger;
    var i :| 0 <= i < |ledger| && ledger[i] == known[0];
    assert 0 < i ==> Before(ledger[0], ledger[i]);
  }

  /**
    The last pass over the old ledger ran on `day`, the new one runs on `today`: the same day, or a later one
    and then the ingested dates take in every old row dated past `day`.
   */
  ghost predicate Follows(known: seq<Row>, from: int, to: int, day: int, today: int) {
    day == today || (day < today && forall r :: r in known ==> r.day <= day || from <= r.day <= to)
  }

  /** A cycle that has come due since the last pass lies past the reach of every row that pass knew. */
  lemma NewlyDueMatchesNothing(b: Bill, occ: int, known: seq<Row>, from: int, to: int, day: int, today: int, r: Row)
    requires Follows(known, from, to, day, today) && r in known
    requires CycleTo(b, UNBOUNDED, day) < occ <= CycleTo(b, UNBOUNDED, today)
    requires occ < from - b.window || to + b.window < occ
    ensures !Matches(b, r, occ)
  {
  }

  /** Out of the ingested dates' reach no old row settles a cycle, tried by the last pass or not. */
  lemma OldRowsSettleNothing(b: Bill, occ: int, known: seq<Row>, ledger: seq<Row>, from: int, to: int, day: int,
                             today: int, payments: seq<Payment>, r: Row)
    requires Ingested(known, ledger, from, to) && Follows(known, from, to, day, today) && r in known && AutoMatched(b)
    requires occ in CycleWindow(b, Coverage(ledger), UNBOUNDED, today)
    requires |CycleWindow(b, Coverage(ledger), UNBOUNDED, today)| < MAX_OCCURRENCES
    requires forall o :: o in CyclesOf(b, known, UNBOUNDED, day) ==> Done(b, o, known, payments)
    requires occ !in SettledBy(payments, b.id)
    requires occ < from - b.window || to + b.window < occ
    ensures !Eligible(b, occ, UsedBy(payments, b.id), r)
  {
    hide OccurrencesBetween, BestRow, Matches, SettledBy, UsedBy, Ingested, Ordered;
    assert known != [] && Ordered(known) by { HasRow(known, ledger, from, to, r); }
    EarlierCoverage(known, ledger, from, to);
    assert CycleTo(b, UNBOUNDED, day) <= CycleTo(b, UNBOUNDED, today);
    var before, after := NarrowerIsPart(b.anchor, b.cadence, CycleFrom(b, Coverage(ledger), UNBOUNDED),
                                        CycleTo(b, UNBOUNDED, today), CycleFrom(b, Coverage(known), UNBOUNDED),
                                        CycleTo(b, UNBOUNDED, day));
    hide Follows;
    if occ in before {
      CutCyclesMatchNothing(b, occ, known, r);
    } else if occ in after {
      NewlyDueMatchesNothing(b, occ, known, from, to, day, today, r);
    } else {
      assert occ in CyclesOf(b, known, UNBOUNDED, day);
      if Eligible(b, occ, UsedBy(payments, b.id), r) {
        BestRowIsBest(b, occ, UsedBy(payments, b.id), known, r);
      }
    }
  }

  lemma HasRow(known: seq<Row>, ledger: seq<Row>, from: int, to: int, r: Row)
    requires Ingested(known, ledger, from, to) && r in known
    ensures known != [] && Ordered(known)
  {
  }

  /** A cycle out of the reach of the ingested dates has nothing left to do. */
  lemma OutOfReachIsDone(b: Bill, occ: int, known: seq<Row>, ledger: seq<Row>, from: int, to: int, day: int,
                         today: int, payments: seq<Payment>)
    requires Ingested(known, ledger, from, to) && Follows(known, from, to, day, today) && AutoMatched(b)
    requires occ in CycleWindow(b, Coverage(ledger), UNBOUNDED, today)
    requires |CycleWindow(b, Coverage(ledger), UNBOUNDED, today)| < MAX_OCCURRENCES
    requires forall o :: o in CyclesOf(b, known, UNBOUNDED, day) ==> Done(b, o, known, payments)
    requires occ < from - b.window || to + b.window < occ
    ensures Done(b, occ, ledger, payments)
  {
    hide CycleWindow, BestRow, SettledBy, UsedBy, Ordered, CyclesOf, Follows;
    if occ !in SettledBy(payments, b.id) {
      forall r | r in ledger ensures !Eligible(b, occ, UsedBy(payments, b.id), r) {
        if r in known {
          OldRowsSettleNothing(b, occ, known, ledger, from, to, day, today, payments, r);
        }
      }
      BestRowNone(b, occ, UsedBy(payments, b.id), ledger);
    }
  }

  lemma BoundedCycles(b: Bill, known: seq<Row>, ledger: seq<Row>, from: int, to: int, day: int, today: int,
                      earlier: seq<Payment>, payments: seq<Payment>)
    requires Ingested(known, ledger, from, to) && Follows(known, from, to, day, today)
    requires AutoMatched(b) && ledger != [] && earlier <= payments
    requires |CycleWindow(b, Coverage(ledger), UNBOUNDED, today)| < MAX_OCCURRENCES
    requires forall o :: o in CyclesOf(b, known, UNBOUNDED, day) ==> Done(b, o, known, earlier)
    ensures SettleCycles(b, CycleWindow(b, Coverage(ledger), Bounds(Some(from), Some(to)), today), ledger, payments)
            == SettleCycles(b, CycleWindow(b, Coverage(ledger), UNBOUNDED, today), ledger, payments)
  {
    hide OccurrencesBetween, SettleCycles, Done, CyclesOf, Ingested, Follows;
    var bounds, cov := Bounds(Some(from), Some(to)), Coverage(ledger);
    var before, after := NarrowerIsPart(b.anchor, b.cadence, CycleFrom(b, cov, UNBOUNDED), CycleTo(b, UNBOUNDED, today),
                                        CycleFrom(b, cov, bounds), CycleTo(b, bounds, today));
    var all, kept := CycleWindow(b, cov, UNBOUNDED, today), CycleWindow(b, cov, bounds, today);
    assert all == before + kept + after;
    forall occ | occ in before || occ in after ensures Done(b, occ, ledger, payments) {
      OutOfReachIsDone(b, occ, known, ledger, from, to, day, today, earlier);
      DoneStays(b, occ, ledger, earlier, payments);
    }
    DoneCyclesCanBeSkipped(b, before, kept, after, ledger, payments);
  }

  /**
    After an ingest into a ledger that had been reconciled, that day or on an earlier one, the pass bounded
    by the ingested dates leaves the same payments as the pass over every cycle, below the listing cap.
   */
  lemma {:induction false} BoundedPassSuffices(bills: seq<Bill>, known: seq<Row>, ledger: seq<Row>, from: int, to: int,
                                               day: int, today: int, payments: seq<Payment>)
    requires Ingested(known, ledger, from, to) && Follows(known, from, to, day, today)
    requires Reconciled(bills, known, day, payments) && Uncapped(bills, ledger, today)
    ensures Pass(bills, ledger, Bounds(Some(from), Some(to)), today, payments)
            == Pass(bills, ledger, UNBOUNDED, today, payments)
  {
    hide SettleCycles, Done, CycleWindow, Ingested, Follows;
    if bills != [] {
      var n := |bills| - 1;
      var b := bills[n];
      assert bills == bills[..n] + [b];
      BoundedPassSuffices(bills[..n], known, ledger, from, to, day, today, payments);
      if AutoMatched(b) && ledger != [] {
        BoundedCycles(b, known, ledger, from, to, day, today, payments,
                      Pass(bills[..n], ledger, UNBOUNDED, today, payments));
      }
    }
  }

  /** So a pass after each ingest keeps the ledger reconciled from one day to the next, bounded as it is. */
  lemma StaysReconciled(bills: seq<Bill>, known: seq<Row>, ledger: seq<Row>, from: int, to: int, day: int, today: int,
                        payments: seq<Payment>)
    requires Ingested(known, ledger, from, to) && Follows(known, from, to, day, today)
    requires Reconciled(bills, known, day, payments) && Uncapped(bills, ledger, today)
    ensures Reconciled(bills, ledger, today, Pass(bills, ledger, Bounds(Some(from), Some(to)), today, payments))
  {
    hide Pass, Done, CyclesOf, CycleWindow, Ingested, Follows, Uncapped;
    BoundedPassSuffices(bills, known, ledger, from, to, day, today, payments);
    forall b, occ | b in bills && occ in CyclesOf(b, ledger, UNBOUNDED, today)
      ensures Done(b, occ, ledger, Pass(bills, ledger, UNBOUNDED, today, payments))
    {
      PassGetsDone(bills, ledger, UNBOUNDED, today, payments, b, occ);
    }
  }

  // ----- any number of ingests, over any number of days -----

  /** One ingest and the pass after it: the ledger it left, the dates it brought, the day it ran. */
  datatype Sync = Sync(ledger: seq<Row>, from: int, to: int, today: int)

  function BoundedRun(bills: seq<Bill>, syncs: seq<Sync>, payments: seq<Payment>): seq<Payment> {
    if syncs == [] then payments
    else
      var y := syncs[|syncs| - 1];
      Pass(bills, y.ledger, Bounds(Some(y.from), Some(y.to)), y.today,
           BoundedRun(bills, syncs[..|syncs| - 1], payments))
  }

  function UnboundedRun(bills: seq<Bill>, syncs: seq<Sync>, payments: seq<Payment>): seq<Payment> {
    if syncs == [] then payments
    else
      var y := syncs[|syncs| - 1];
      Pass(bills, y.ledger, UNBOUNDED, y.today, UnboundedRun(bills, syncs[..|syncs| - 1], payments))
  }

  /** What the next sync finds: the ledger and the day of the one before. */
  ghost predicate InTurn(known: seq<Row>, day: int, y: Sync) {
    Ingested(known, y.ledger, y.from, y.to) && Follows(known, y.from, y.to, day, y.today)
  }

  ghost predicate Chained(bills: seq<Bill>, syncs: seq<Sync>) {
    && (forall k :: 0 < k < |syncs| ==> InTurn(syncs[k - 1].ledger, syncs[k - 1].today, syncs[k]))
    && (syncs != [] ==> InTurn([], syncs[0].today, syncs[0]))
    && (forall k :: 0 <= k < |syncs| ==> Uncapped(bills, syncs[k].ledger, syncs[k].today))
  }

  /**
    From an empty ledger on, over any run of syncs on any days, bounded passes leave the payments of
    unbounded ones, and every cycle the ledger covers is settled or matches no unused row.
   */
  lemma {:induction false} BoundedRunSuffices(bills: seq<Bill>, syncs: seq<Sync>, payments: seq<Payment>)
    requires Chained(bills, syncs)
    ensures BoundedRun(bills, syncs, payments) == UnboundedRun(bills, syncs, payments)
    ensures syncs != [] ==>
              var y := syncs[|syncs| - 1]; Reconciled(bills, y.ledger, y.today, BoundedRun(bills, syncs, payments))
  {
    hide Pass, Reconciled, Ingested, Follows, Uncapped;
    if syncs != [] {
      var n := |syncs| - 1;
      var y, before := syncs[n], BoundedRun(bills, syncs[..n], payments);
      BoundedRunSuffices(bills, syncs[..n], payments);
      var known, day := if n == 0 then [] else syncs[n - 1].ledger, if n == 0 then y.today else syncs[n - 1].today;
      assert Reconciled(bills, known, day, before) by {
        if n == 0 { NothingToReconcile(bills, day, before); }
      }
      assert InTurn(known, day, y);
      BoundedPassSuffices(bills, known, y.ledger, y.from, y.to, day, y.today, before);
      StaysReconciled(bills, known, y.ledger, y.from, y.to, day, y.today, before);
    }
  }

  lemma NothingToReconcile(bills: seq<Bill>, day: int, payments: seq<Payment>)
    ensures Reconciled(bills, [], day, payments)
  {
  }

  // ----- a row dated ahead -----

  const STREAMING: Bill := Bill(1, "tv", 0, 0.0, 0.0, true, 0, 20, Weekly, Active, None)

  const AHEAD: Row := Row(1, 20, -9.0, "tv", "", 0)

  const RECENT: Row := Row(2, 15, -3.0, "cafe", "", 0)

  /**
    The condition on dates cannot be dropped: a row dated 20 was there on day 10, when its cycle was not due.
    On day 20 the pass bounded by a row dated 15 leaves the bill unpaid, the unbounded one pays it.
   */
  lemma RowDatedAheadIsMissed()
    ensures Ingested([AHEAD], [RECENT, AHEAD], 15, 15) && Reconciled([STREAMING], [AHEAD], 10, [])
    ensures Pass([STREAMING], [RECENT, AHEAD], Bounds(Some(15), Some(15)), 20, []) == []
    ensures Pass([STREAMING], [RECENT, AHEAD], UNBOUNDED, 20, []) != []
  {
    hide Pass, OccurrencesBetween, BestRow, Eligible;
    var b, ledger := STREAMING, [RECENT, AHEAD];
    NotYetDue();
    OneBillPass(b, ledger, Bounds(Some(15), Some(15)), 20);
    PassGetsDone([b], ledger, UNBOUNDED, 20, [], b, 20);
    AheadPays();
    assert SettledBy([], b.id) == UsedBy([], b.id) == {};
    BestRowIsBest(b, 20, {}, ledger, AHEAD);
  }

  lemma NotYetDue()
    ensures CyclesOf(STREAMING, [AHEAD], UNBOUNDED, 10) == []
    ensures CyclesOf(STREAMING, [RECENT, AHEAD], Bounds(Some(15), Some(15)), 20) == []
    ensures 20 in CyclesOf(STREAMING, [RECENT, AHEAD], UNBOUNDED, 20)
  {
    hide DueOrdinal, AddMonthsClamped;
    assert CyclesOf(STREAMING, [RECENT, AHEAD], UNBOUNDED, 20) == OccurrencesBetween(20, Weekly, 20, 20);
    assert OccurrenceAt(20, Weekly, 0) == 20 && OccurrenceAt(20, Weekly, -1) == 13;
    DueOrdinalUnique(20, Weekly, 20, 0);
    hide OccurrencesBetween;
    ListedExactly(20, Weekly, 20, 20, 0);
  }

  lemma AheadPays()
    ensures Eligible(STREAMING, 20, {}, AHEAD)
  {
    assert AHEAD.desc[0..] == "tv";
  }

  lemma OneBillPass(b: Bill, ledger: seq<Row>, bounds: Bounds, today: int)
    requires CyclesOf(b, ledger, bounds, today) == []
    ensures Pass([b], ledger, bounds, today, []) == []
  {
    assert [b][..0] == [];
  }
}
