/** What the matching pass promises, over every ledger, every set of bills and every history of links. */
module ReconcileProperties {
  import opened Prelude
  import opened Occurrences
  import opened BillMatching
  import opened Reconcile

  // ----- uniqueness and provenance of links -----

  lemma {:induction false} CyclesKeepUnique(b: Bill, occs: seq<int>, ledger: seq<Row>, payments: seq<Payment>)
    requires Unique(payments)
    ensures Unique(SettleCycles(b, occs, ledger, payments))
  {
    if occs != [] {
      var n := |occs| - 1;
      CyclesKeepUnique(b, occs[..n], ledger, payments);
      var rest := SettleCycles(b, occs[..n], ledger, payments);
      var best := BestRow(b, occs[n], UsedBy(rest, b.id), ledger);
      if best.Some? {
        UniqueInsert(rest, Payment(b.id, best.value.id, occs[n], Auto));
      }
    }
  }

  /** One payment per (bill, cycle) and per (bill, transaction), whatever was linked before. */
  lemma {:induction false} PassKeepsUnique(bills: seq<Bill>, ledger: seq<Row>, bounds: Bounds, today: int,
                                           payments: seq<Payment>)
    requires Unique(payments)
    ensures Unique(Pass(bills, ledger, bounds, today, payments))
  {
    if bills != [] {
      var n := |bills| - 1;
      PassKeepsUnique(bills[..n], ledger, bounds, today, payments);
      CyclesKeepUnique(bills[n], CyclesOf(bills[n], ledger, bounds, today), ledger,
                       Pass(bills[..n], ledger, bounds, today, payments));
    }
  }

  /** An auto link is justified when all four clauses of the rule hold of a ledger row and a real cycle. */
  ghost predicate Justified(p: Payment, b: Bill, r: Row) {
    && p == Payment(b.id, r.id, p.occurrence, Auto)
    && Pays(b, r, p.occurrence)
    && (exists n :: p.occurrence == OccurrenceAt(b.anchor, b.cadence, n))
    && b.anchor <= p.occurrence
    && (b.endedOn.Some? ==> p.occurrence <= b.endedOn.value)
    && b.status != Paused
  }

  lemma {:induction false} CycleLinksJustified(b: Bill, occs: seq<int>, ledger: seq<Row>, payments: seq<Payment>,
                                               p: Payment)
    requires p in SettleCycles(b, occs, ledger, payments) && p !in payments
    ensures p.occurrence in occs
    ensures exists r :: r in ledger && p == Payment(b.id, r.id, p.occurrence, Auto) && Matches(b, r, p.occurrence)
  {
    if occs != [] {
      var n := |occs| - 1;
      var rest := SettleCycles(b, occs[..n], ledger, payments);
      if p in rest {
        CycleLinksJustified(b, occs[..n], ledger, payments, p);
      } else {
        var best := BestRow(b, occs[n], UsedBy(rest, b.id), ledger);
        assert best.Some? && p == Payment(b.id, best.value.id, occs[n], Auto);
      }
    }
  }

  /** Existing links are a prefix of the result, and every link after them is a justified auto link. */
  lemma {:induction false} PassLinksOnlyMatches(bills: seq<Bill>, ledger: seq<Row>, bounds: Bounds, today: int,
                                                payments: seq<Payment>, p: Payment)
    requires p in Pass(bills, ledger, bounds, today, payments) && p !in payments
    ensures payments <= Pass(bills, ledger, bounds, today, payments)
    ensures exists b, r :: b in bills && r in ledger && Justified(p, b, r)
  {
    hide OccurrenceAt, OccurrencesBetween, BestRow, Matches, Pays, IsOccurrence, SettleCycles, Coverage;
    if bills != [] {
      var n := |bills| - 1;
      var b, rest := bills[n], Pass(bills[..n], ledger, bounds, today, payments);
      if p in rest {
        PassLinksOnlyMatches(bills[..n], ledger, bounds, today, payments, p);
      } else {
        var occs := CyclesOf(b, ledger, bounds, today);
        CycleLinksJustified(b, occs, ledger, rest, p);
        var r :| r in ledger && p == Payment(b.id, r.id, p.occurrence, Auto) && Matches(b, r, p.occurrence);
        MatchesExactly(b, r, p.occurrence);
        IsOccurrenceDecides(b.anchor, b.cadence, p.occurrence);
        ListedAreOccurrences(b.anchor, b.cadence, CycleFrom(b, Coverage(ledger), bounds), CycleTo(b, bounds, today),
                             p.occurrence);
        assert Justified(p, b, r);
      }
    }
  }

  // ----- idempotence -----

  /** Nothing is left to do for a cycle: it is settled, or no unused ledger row matches it. */
  ghost predicate Done(b: Bill, occ: int, ledger: seq<Row>, payments: seq<Payment>) {
    occ in SettledBy(payments, b.id) || BestRow(b, occ, UsedBy(payments, b.id), ledger) == None
  }

  lemma DoneStays(b: Bill, occ: int, ledger: seq<Row>, payments: seq<Payment>, later: seq<Payment>)
    requires payments <= later
    requires Done(b, occ, ledger, payments)
    ensures Done(b, occ, ledger, later)
  {
    assert forall p :: p in payments ==> p in later;
    assert SettledBy(payments, b.id) <= SettledBy(later, b.id);
    assert UsedBy(payments, b.id) <= UsedBy(later, b.id);
    if occ !in SettledBy(payments, b.id) {
      UsedOnlyShrinksChoice(b, occ, UsedBy(payments, b.id), UsedBy(later, b.id), ledger);
    }
  }

  lemma {:induction false} CyclesGetDone(b: Bill, occs: seq<int>, ledger: seq<Row>, payments: seq<Payment>, occ: int)
    requires occ in occs
    ensures Done(b, occ, ledger, SettleCycles(b, occs, ledger, payments))
  {
    var n := |occs| - 1;
    var rest := SettleCycles(b, occs[..n], ledger, payments);
    if occ == occs[n] {
      var best := BestRow(b, occ, UsedBy(rest, b.id), ledger);
      if best.Some? && occ !in SettledBy(rest, b.id) {
        LinkGrows(rest, Payment(b.id, best.value.id, occ, Auto));
      }
    } else {
      assert occs == occs[..n] + [occs[n]];
      CyclesGetDone(b, occs[..n], ledger, payments, occ);
      DoneStays(b, occ, ledger, rest, SettleCycles(b, occs, ledger, payments));
    }
  }

  lemma {:induction false} PassGetsDone(bills: seq<Bill>, ledger: seq<Row>, bounds: Bounds, today: int,
                                        payments: seq<Payment>, b: Bill, occ: int)
    requires b in bills && occ in CyclesOf(b, ledger, bounds, today)
    ensures Done(b, occ, ledger, Pass(bills, ledger, bounds, today, payments))
  {
    hide CyclesOf, Done, SettleCycles;
    var n := |bills| - 1;
    var rest := Pass(bills[..n], ledger, bounds, today, payments);
    if b == bills[n] {
      CyclesGetDone(b, CyclesOf(b, ledger, bounds, today), ledger, rest, occ);
    } else {
      assert bills == bills[..n] + [bills[n]];
      PassGetsDone(bills[..n], ledger, bounds, today, payments, b, occ);
      DoneStays(b, occ, ledger, rest, Pass(bills, ledger, bounds, today, payments));
    }
  }

  lemma {:induction false} DoneCyclesChangeNothing(b: Bill, occs: seq<int>, ledger: seq<Row>, payments: seq<Payment>)
    requires forall occ :: occ in occs ==> Done(b, occ, ledger, payments)
    ensures SettleCycles(b, occs, ledger, payments) == payments
  {
    if occs != [] {
      var n := |occs| - 1;
      assert occs == occs[..n] + [occs[n]];
      DoneCyclesChangeNothing(b, occs[..n], ledger, payments);
      assert Done(b, occs[n], ledger, payments);
    }
  }

  lemma {:induction false} DonePassChangesNothing(bills: seq<Bill>, ledger: seq<Row>, bounds: Bounds, today: int,
                                                  payments: seq<Payment>)
    requires forall b, occ :: b in bills && occ in CyclesOf(b, ledger, bounds, today) ==> Done(b, occ, ledger, payments)
    ensures Pass(bills, ledger, bounds, today, payments) == payments
  {
    hide CyclesOf, Done, SettleCycles;
    if bills != [] {
      var n := |bills| - 1;
      assert bills == bills[..n] + [bills[n]];
      DonePassChangesNothing(bills[..n], ledger, bounds, today, payments);
      DoneCyclesChangeNothing(bills[n], CyclesOf(bills[n], ledger, bounds, today), ledger, payments);
    }
  }

  /** A second pass over the same ledger, bills and day links nothing. */
  lemma PassIsIdempotent(bills: seq<Bill>, ledger: seq<Row>, bounds: Bounds, today: int, payments: seq<Payment>)
    ensures var once := Pass(bills, ledger, bounds, today, payments);
            Pass(bills, ledger, bounds, today, once) == once
  {
    hide CyclesOf, Done, Pass;
    var once := Pass(bills, ledger, bounds, today, payments);
    forall b, occ | b in bills && occ in CyclesOf(b, ledger, bounds, today) ensures Done(b, occ, ledger, once) {
      PassGetsDone(bills, ledger, bounds, today, payments, b, occ);
    }
    DonePassChangesNothing(bills, ledger, bounds, today, once);
  }

  // ----- the coverage bound -----

  /** The cycles a pass with no coverage bound would try. */
  function UnclippedCycles(b: Bill, bounds: Bounds, today: int): seq<int> {
    CycleWindow(b, None, bounds, today)
  }

  /** A cycle whose whole match window precedes the ledger matches no row of it. */
  lemma CutCyclesMatchNothing(b: Bill, occ: int, ledger: seq<Row>, r: Row)
    requires Ordered(ledger) && r in ledger
    requires occ < ledger[0].day - b.window
    ensures !Matches(b, r, occ)
  {
    var i :| 0 <= i < |ledger| && ledger[i] == r;
    assert 0 < i ==> Before(ledger[0], ledger[i]);
  }

  /** Cycles that can match nothing may precede a bill's cycles without changing the result. */
  lemma {:induction false} SkipUnmatchable(b: Bill, cut: seq<int>, occs: seq<int>, ledger: seq<Row>,
                                           payments: seq<Payment>)
    requires forall occ, used :: occ in cut ==> BestRow(b, occ, used, ledger) == None
    ensures SettleCycles(b, cut + occs, ledger, payments) == SettleCycles(b, occs, ledger, payments)
  {
    if occs == [] {
      assert cut + occs == cut;
      if cut != [] {
        var n := |cut| - 1;
        assert cut[..n] + [] == cut[..n];
        assert cut[n] in cut;
        assert forall occ :: occ in cut[..n] ==> occ in cut;
        SkipUnmatchable(b, cut[..n], [], ledger, payments);
      }
    } else {
      var n := |occs| - 1;
      assert (cut + occs)[..|cut + occs| - 1] == cut + occs[..n];
      SkipUnmatchable(b, cut, occs[..n], ledger, payments);
    }
  }

  /**
    Clipping cycles at the ledger's first day loses no link: the pass over every cycle from the
    anchor settles exactly what the clipped one does, provided the listing is not capped.
   */
  lemma CoverageBoundLosesNothing(b: Bill, ledger: seq<Row>, bounds: Bounds, today: int, payments: seq<Payment>)
    requires Ordered(ledger) && ledger != []
    requires |UnclippedCycles(b, bounds, today)| < MAX_OCCURRENCES
    ensures SettleCycles(b, CycleWindow(b, Coverage(ledger), bounds, today), ledger, payments)
            == SettleCycles(b, UnclippedCycles(b, bounds, today), ledger, payments)
  {
    var all, kept := UnclippedCycles(b, bounds, today), CycleWindow(b, Coverage(ledger), bounds, today);
    var from, later, to := CycleFrom(b, None, bounds), CycleFrom(b, Coverage(ledger), bounds),
      CycleTo(b, bounds, today);
    assert from <= later;
    var cut := RaisingFromCutsPrefix(b.anchor, b.cadence, from, later, to);
    forall occ, used | occ in cut ensures BestRow(b, occ, used, ledger) == None {
      forall r | r in ledger ensures !Eligible(b, occ, used, r) {
        CutCyclesMatchNothing(b, occ, ledger, r);
      }
      BestRowNone(b, occ, used, ledger);
    }
    SkipUnmatchable(b, cut, kept, ledger, payments);
  }

  lemma RaisingFromCutsPrefix(anchor: int, c: Cadence, from: int, later: int, to: int) returns (cut: seq<int>)
    requires from <= later
    requires |OccurrencesBetween(anchor, c, from, to)| < MAX_OCCURRENCES
    ensures OccurrencesBetween(anchor, c, from, to) == cut + OccurrencesBetween(anchor, c, later, to)
    ensures forall occ :: occ in cut ==> from <= occ < later
  {
    hide OccurrenceAt, DueOrdinal;
    var all := OccurrencesBetween(anchor, c, from, to);
    var start, next, end := DueOrdinal(anchor, c, from), DueOrdinal(anchor, c, later), DueOrdinal(anchor, c, to + 1);
    if to < from {
      return [];
    }
    DueOrdinalIsLeast(anchor, c, from, next);
    DueOrdinalIsLeast(anchor, c, from, end);
    if to < later {
      cut := all;
      forall occ | occ in cut ensures from <= occ < later {
        ListedAreOccurrences(anchor, c, from, to, occ);
      }
      return;
    }
    DueOrdinalIsLeast(anchor, c, later, end);
    cut := all[..next - start];
    assert all == cut + OccurrencesBetween(anchor, c, later, to);
    forall i | 0 <= i < |cut| ensures from <= cut[i] < later {
      DueOrdinalIsLeast(anchor, c, from, start + i);
      DueOrdinalIsLeast(anchor, c, later, start + i);
    }
  }

  // ----- what a pass tries, and what it leaves -----

  /**
    The cycles a pass tries of a bill: due dates from the anchor to the bill's end, by today plus the window,
    within the window of the covered days and of the days asked for.
   */
  ghost predicate Tried(b: Bill, ledger: seq<Row>, bounds: Bounds, today: int, occ: int) {
    && b.status != Paused && b.needle != ""
    && (exists n :: occ == OccurrenceAt(b.anchor, b.cadence, n))
    && b.anchor <= occ && (b.endedOn.Some? ==> occ <= b.endedOn.value)
    && ledger != [] && ledger[0].day <= occ + b.window
    && occ <= today + b.window
    && (bounds.from.Some? ==> bounds.from.value <= occ + b.window)
    && (bounds.to.Some? ==> occ <= bounds.to.value + b.window)
  }

  lemma TriedExactly(b: Bill, ledger: seq<Row>, bounds: Bounds, today: int, occ: int)
    requires |CyclesOf(b, ledger, bounds, today)| < MAX_OCCURRENCES
    ensures occ in CyclesOf(b, ledger, bounds, today) <==> Tried(b, ledger, bounds, today, occ)
  {
    hide OccurrenceAt, OccurrencesBetween;
    if AutoMatched(b) && ledger != [] {
      var from, to := CycleFrom(b, Coverage(ledger), bounds), CycleTo(b, bounds, today);
      if occ in CyclesOf(b, ledger, bounds, today) {
        ListedAreOccurrences(b.anchor, b.cadence, from, to, occ);
        IsOccurrenceDecides(b.anchor, b.cadence, occ);
      }
      if from <= occ <= to && exists n :: occ == OccurrenceAt(b.anchor, b.cadence, n) {
        var n :| occ == OccurrenceAt(b.anchor, b.cadence, n);
        BelowCapIsListed(b.anchor, b.cadence, from, to, n);
      }
    }
  }

  lemma BelowCapIsListed(anchor: int, c: Cadence, from: int, to: int, n: int)
    requires |OccurrencesBetween(anchor, c, from, to)| < MAX_OCCURRENCES
    requires from <= OccurrenceAt(anchor, c, n) <= to
    ensures OccurrenceAt(anchor, c, n) in OccurrencesBetween(anchor, c, from, to)
  {
    hide OccurrenceAt, DueOrdinal;
    ListedExactly(anchor, c, from, to, n);
    DueOrdinalIsLeast(anchor, c, to + 1, n);
  }

  ghost predicate Links(payments: seq<Payment>, b: Bill, occ: int) {
    exists p :: p in payments && p.bill == b.id && p.occurrence == occ
  }

  ghost predicate Uses(payments: seq<Payment>, b: Bill, r: Row) {
    exists p :: p in payments && p.bill == b.id && p.txn == r.id
  }

  /** After a pass every cycle it tried is linked, or every ledger row that would pay it is used for another. */
  lemma PassPaysWhatItCan(bills: seq<Bill>, ledger: seq<Row>, bounds: Bounds, today: int, payments: seq<Payment>,
                          b: Bill, occ: int, r: Row)
    requires b in bills && |CyclesOf(b, ledger, bounds, today)| < MAX_OCCURRENCES
    requires Tried(b, ledger, bounds, today, occ) && r in ledger && Pays(b, r, occ)
    ensures var after := Pass(bills, ledger, bounds, today, payments); Links(after, b, occ) || Uses(after, b, r)
  {
    hide Pass, CyclesOf, Tried, Pays, Matches, BestRow;
    var after := Pass(bills, ledger, bounds, today, payments);
    TriedExactly(b, ledger, bounds, today, occ);
    PassGetsDone(bills, ledger, bounds, today, payments, b, occ);
    MatchesExactly(b, r, occ);
    LinkedAndUsed(after, b, occ, r);
    if !Uses(after, b, r) && !Links(after, b, occ) {
      BestRowIsBest(b, occ, UsedBy(after, b.id), ledger, r);
    }
  }

  lemma LinkedAndUsed(payments: seq<Payment>, b: Bill, occ: int, r: Row)
    ensures occ in SettledBy(payments, b.id) <==> Links(payments, b, occ)
    ensures r.id in UsedBy(payments, b.id) <==> Uses(payments, b, r)
  {
  }

  // ----- overdue -----

  /** The missed-bill inference drawn on read. */
  predicate IsOverdue(b: Bill, coverage: Option<int>, today: int, payments: seq<Payment>) {
    var prev := PrevDue(b.anchor, b.cadence, today);
    && b.status == Active
    && b.needle != ""
    && b.anchor <= prev
    && (b.endedOn.Some? ==> prev <= b.endedOn.value)
    && coverage.Some? && coverage.value <= prev + b.window
    && today > prev + b.window
    && prev !in SettledBy(payments, b.id)
  }

  /**
    Overdue is inferred from an absence, and the absence is real: once an unbounded pass has run,
    a bill still overdue has no unused ledger row that matches its missed cycle.
   */
  lemma OverdueIsGenuine(bills: seq<Bill>, ledger: seq<Row>, today: int, payments: seq<Payment>, b: Bill, r: Row)
    requires Ordered(ledger) && b in bills && r in ledger
    requires |CycleWindow(b, Coverage(ledger), Bounds(None, None), today)| < MAX_OCCURRENCES
    requires var after := Pass(bills, ledger, Bounds(None, None), today, payments);
             IsOverdue(b, Coverage(ledger), today, after) && r.id !in UsedBy(after, b.id)
    ensures !Matches(b, r, PrevDue(b.anchor, b.cadence, today))
  {
    hide OccurrenceAt, DueOrdinal, Pass;
    var bounds := Bounds(None, None);
    var after := Pass(bills, ledger, bounds, today, payments);
    var prev := PrevDue(b.anchor, b.cadence, today);
    var from, to := CycleFrom(b, Coverage(ledger), bounds), CycleTo(b, bounds, today);
    var n := DueOrdinal(b.anchor, b.cadence, today) - 1;
    ListedExactly(b.anchor, b.cadence, from, to, n);
    DueOrdinalIsLeast(b.anchor, b.cadence, from, n);
    DueOrdinalIsLeast(b.anchor, b.cadence, to + 1, n);
    assert prev in CyclesOf(b, ledger, bounds, today);
    PassGetsDone(bills, ledger, bounds, today, payments, b, prev);
    if Matches(b, r, prev) {
      BestRowIsBest(b, prev, UsedBy(after, b.id), ledger, r);
    }
  }
}
