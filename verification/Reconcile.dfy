/** The store's side of recurring bills: the matching pass over all bills and hand-made links. */
module Reconcile {
  import opened Prelude
  import opened Occurrences
  import opened BillMatching

  // ----- cycles a pass may settle -----

  function CycleFrom(b: Bill, coverage: Option<int>, bounds: Bounds): int {
    var from := b.anchor;
    var from := if coverage.Some? then Max(from, coverage.value - b.window) else from;
    if bounds.from.Some? then Max(from, bounds.from.value - b.window) else from
  }

  function CycleTo(b: Bill, bounds: Bounds, today: int): int {
    var to := today + b.window;
    var to := if bounds.to.Some? then Min(to, bounds.to.value + b.window) else to;
    if b.endedOn.Some? then Min(to, b.endedOn.value) else to
  }

  function CycleWindow(b: Bill, coverage: Option<int>, bounds: Bounds, today: int): seq<int> {
    OccurrencesBetween(b.anchor, b.cadence, CycleFrom(b, coverage, bounds), CycleTo(b, bounds, today))
  }

  predicate AutoMatched(b: Bill) {
    b.status != Paused && b.needle != ""
  }

  function Coverage(ledger: seq<Row>): Option<int> {
    if ledger == [] then None else Some(ledger[0].day)
  }

  // ----- the pass, as a scan of every cycle against the whole ledger -----

  function SettledBy(payments: seq<Payment>, bill: int): set<int> {
    set p | p in payments && p.bill == bill :: p.occurrence
  }

  function UsedBy(payments: seq<Payment>, bill: int): set<int> {
    set p | p in payments && p.bill == bill :: p.txn
  }

  function SettleCycle(b: Bill, occ: int, ledger: seq<Row>, payments: seq<Payment>): (out: seq<Payment>)
    ensures payments <= out
  {
    var best := BestRow(b, occ, UsedBy(payments, b.id), ledger);
    if occ in SettledBy(payments, b.id) || best.None? then payments
    else payments + [Payment(b.id, best.value.id, occ, Auto)]
  }

  function SettleCycles(b: Bill, occs: seq<int>, ledger: seq<Row>, payments: seq<Payment>): (out: seq<Payment>)
    ensures payments <= out
  {
    if occs == [] then payments
    else SettleCycle(b, occs[|occs| - 1], ledger, SettleCycles(b, occs[..|occs| - 1], ledger, payments))
  }

  function CyclesOf(b: Bill, ledger: seq<Row>, bounds: Bounds, today: int): seq<int> {
    if AutoMatched(b) && ledger != [] then CycleWindow(b, Coverage(ledger), bounds, today) else []
  }

  /** Payments after one pass. Every bill in turn, oldest cycle first, closest unused row. */
  function Pass(bills: seq<Bill>, ledger: seq<Row>, bounds: Bounds, today: int,
                payments: seq<Payment>): (out: seq<Payment>)
    ensures payments <= out
  {
    if bills == [] then payments
    else
      var b := bills[|bills| - 1];
      var rest := Pass(bills[..|bills| - 1], ledger, bounds, today, payments);
      SettleCycles(b, CyclesOf(b, ledger, bounds, today), ledger, rest)
  }

  /** Bills with a cycle to try, cycles found unsettled, and unused rows near enough to compare them with. */
  datatype Work = Work(bills: nat, cycles: nat, rows: nat)

  function BillWork(b: Bill, occs: seq<int>, ledger: seq<Row>, payments: seq<Payment>): (w: Work)
    ensures w.bills == if occs == [] then 0 else 1
  {
    if occs == [] then Work(0, 0, 0)
    else
      var before, occ := SettleCycles(b, occs[..|occs| - 1], ledger, payments), occs[|occs| - 1];
      var w := BillWork(b, occs[..|occs| - 1], ledger, payments);
      if occ in SettledBy(before, b.id) then w.(bills := 1)
      else Work(1, w.cycles + 1, w.rows + UnusedWithin(ledger, UsedBy(before, b.id), occ - b.window, occ + b.window))
  }

  function PassWork(bills: seq<Bill>, ledger: seq<Row>, bounds: Bounds, today: int, payments: seq<Payment>): Work {
    if bills == [] then Work(0, 0, 0)
    else
      var rest, b := bills[..|bills| - 1], bills[|bills| - 1];
      var w := PassWork(rest, ledger, bounds, today, payments);
      var more := BillWork(b, CyclesOf(b, ledger, bounds, today), ledger, Pass(rest, ledger, bounds, today, payments));
      Work(w.bills + more.bills, w.cycles + more.cycles, w.rows + more.rows)
  }

  /** The two unique indexes of the payment table. */
  ghost predicate Unique(payments: seq<Payment>) {
    forall i, j :: 0 <= i < j < |payments| && payments[i].bill == payments[j].bill ==>
      payments[i].occurrence != payments[j].occurrence && payments[i].txn != payments[j].txn
  }

  predicate Conflicts(payments: seq<Payment>, p: Payment) {
    p.occurrence in SettledBy(payments, p.bill) || p.txn in UsedBy(payments, p.bill)
  }

  lemma UniqueInsert(payments: seq<Payment>, p: Payment)
    requires Unique(payments)
    ensures Unique(payments + [p]) <==> !Conflicts(payments, p)
  {
    var grown := payments + [p];
    forall i | 0 <= i < |payments| && payments[i].bill == p.bill
      ensures payments[i].occurrence in SettledBy(payments, p.bill) && payments[i].txn in UsedBy(payments, p.bill)
    {
      assert payments[i] in payments;
    }
    if Unique(grown) {
      forall q | q in payments && q.bill == p.bill ensures q.occurrence != p.occurrence && q.txn != p.txn {
        var i :| 0 <= i < |payments| && payments[i] == q;
        assert grown[i] == q && grown[|payments|] == p;
      }
    }
  }

  class BillStore {
    var ledger: seq<Row>
    var bills: seq<Bill>
    var payments: seq<Payment>

    ghost predicate Valid()
      reads this
    {
      Ordered(ledger) && Unique(payments)
    }

    /** Insert guarded by both unique indexes: a conflict inserts nothing. */
    method Create(p: Payment) returns (inserted: bool)
      requires Unique(payments)
      modifies this`payments
      ensures inserted == !Conflicts(old(payments), p)
      ensures payments == if inserted then old(payments) + [p] else old(payments)
      ensures Unique(payments)
    {
      UniqueInsert(payments, p);
      inserted := !Conflicts(payments, p);
      if inserted {
        payments := payments + [p];
      }
    }

    /** Settle one bill's cycles, oldest first, from the per-day index. */
    method SettleBill(b: Bill, occs: seq<int>, byDay: map<int, seq<Row>>, ghost rows: seq<Row>, ghost from: int,
                      ghost to: int)
      returns (checked: nat, compared: nat, linked: nat)
      requires Valid()
      requires rows == Loaded(ledger, from, to) && Indexes(byDay, rows)
      requires Covered(b, occs, from, to)
      modifies this`payments
      ensures Valid()
      ensures payments == SettleCycles(b, occs, ledger, old(payments))
      ensures linked == |payments| - |old(payments)|
      ensures var w := BillWork(b, occs, ledger, old(payments)); checked == w.cycles && compared == w.rows
    {
      hide BestRow, SettledBy, UsedBy, Loaded, UnusedWithin, SettleCycles, BillWork, SettleCycle;
      checked, compared, linked := 0, 0, 0;
      var settled, used := SettledBy(payments, b.id), UsedBy(payments, b.id);
      LoadedOrdered(ledger, from, to);
      assert occs[..0] == [];
      NoCycles(b, ledger, payments);
      for k := 0 to |occs|
        invariant Unique(payments)
        invariant payments == SettleCycles(b, occs[..k], ledger, old(payments))
        invariant settled == SettledBy(payments, b.id) && used == UsedBy(payments, b.id)
        invariant linked == |payments| - |old(payments)|
        invariant var w := BillWork(b, occs[..k], ledger, old(payments)); checked == w.cycles && compared == w.rows
      {
        hide Unique, Indexes, Ordered;
        var occ := occs[k];
        OneMoreCycle(b, occs, k, ledger, old(payments), from, to);
        if occ !in settled {
          checked := checked + 1;
          var best, work := BestMatch(b, byDay, occ, used, rows);
          compared := compared + work;
          if best.Some? {
            var p := Payment(b.id, best.value.id, occ, Auto);
            LinkGrows(payments, p);
            var inserted := Create(p);
            settled, used := settled + {occ}, used + {best.value.id};
            if inserted {
              linked := linked + 1;
            }
          }
        }
      }
      assert occs[..|occs|] == occs;
    }

    /** One matching pass. It loads one window for all bills and probes it by day. */
    method ReconcileBills(bounds: Bounds, today: int) returns (sum: ReconcileSummary)
      requires Valid()
      modifies this`payments
      ensures Valid()
      ensures payments == Pass(bills, ledger, bounds, today, old(payments))
      ensures var w := PassWork(bills, ledger, bounds, today, old(payments));
              sum == ReconcileSummary(w.bills, w.cycles, w.rows, |payments| - |old(payments)|)
    {
      hide SettleCycles, CyclesOf, Unique, Ordered, Loaded, BillWork;
      sum := ReconcileSummary(0, 0, 0, 0);
      if ledger == [] {
        EmptyLedgerSettlesNothing(bills, bounds, today, payments);
        return;
      }
      var cycles, from, to := PlanCycles(bills, ledger, bounds, today);
      var rows := Loaded(ledger, from, to);
      var byDay := IndexByDay(rows);
      for i := 0 to |bills|
        invariant Valid()
        invariant payments == Pass(bills[..i], ledger, bounds, today, old(payments))
        invariant var w := PassWork(bills[..i], ledger, bounds, today, old(payments));
                  sum == ReconcileSummary(w.bills, w.cycles, w.rows, |payments| - |old(payments)|)
      {
        assert bills[..i + 1][..i] == bills[..i];
        if cycles[i] != [] {
          var checked, compared, linked := SettleBill(bills[i], cycles[i], byDay, rows, from, to);
          sum := ReconcileSummary(sum.billsScanned + 1, sum.cyclesChecked + checked, sum.compared + compared,
                                  sum.linked + linked);
        } else {
          NoCycles(bills[i], ledger, payments);
        }
      }
      assert bills[..|bills|] == bills;
    }

    /**
      A hand-made link. Naming no cycle picks the nearest; an auto link of the cycle gives way,
      a manual one does not; any failure rolls back the delete as well.
     */
    method LinkBillPayment(b: Bill, row: Row, occurrence: Option<int>) returns (out: Result<Payment, LinkError>)
      requires Valid()
      modifies this`payments
      ensures Valid()
      ensures var occ := if occurrence.Some? then occurrence.value else NearestOccurrence(b.anchor, b.cadence, row.day);
              var p, kept := Payment(b.id, row.id, occ, Manual), WithoutCycle(old(payments), b.id, occ);
              && (out == Err(NotAnOccurrence) <==> !IsOccurrence(b.anchor, b.cadence, occ))
              && (out == Err(CycleAlreadyLinked) <==>
                  && IsOccurrence(b.anchor, b.cadence, occ)
                  && exists q :: q in old(payments) && q.bill == b.id && q.occurrence == occ && q.how == Manual)
              && (out.Ok? ==> out.value == p && payments == kept + [p])
              && (out == Err(UniqueViolation) <==>
                  && IsOccurrence(b.anchor, b.cadence, occ)
                  && (forall q :: q in old(payments) && q.bill == b.id && q.occurrence == occ ==> q.how == Auto)
                  && exists q :: q in old(payments) && q.bill == b.id && q.occurrence != occ && q.txn == row.id)
      ensures out.Err? ==> payments == old(payments)
    {
      var occ := NearestOccurrence(b.anchor, b.cadence, row.day);
      NearestIsNearest(b.anchor, b.cadence, row.day, 0);
      if occurrence.Some? {
        occ := occurrence.value;
        if !IsOccurrence(b.anchor, b.cadence, occ) {
          return Err(NotAnOccurrence);
        }
      }
      if HandLinked(payments, b.id, occ) {
        return Err(CycleAlreadyLinked);
      }
      var saved := payments;
      WithoutCycleUnique(payments, b.id, occ);
      payments := WithoutCycle(payments, b.id, occ);
      var p := Payment(b.id, row.id, occ, Manual);
      var inserted := Create(p);
      if !inserted {
        payments := saved;
        return Err(UniqueViolation);
      }
      return Ok(p);
    }
  }

  datatype LinkError = NotAnOccurrence | CycleAlreadyLinked | UniqueViolation

  /** The payments with the (at most one) link of that cycle taken out. */
  function WithoutCycle(payments: seq<Payment>, bill: int, occ: int): (out: seq<Payment>)
    ensures forall p :: p in out <==> p in payments && !(p.bill == bill && p.occurrence == occ)
  {
    if payments == [] then []
    else
      var n := |payments| - 1;
      assert payments == payments[..n] + [payments[n]];
      var rest := WithoutCycle(payments[..n], bill, occ);
      if payments[n].bill == bill && payments[n].occurrence == occ then rest else rest + [payments[n]]
  }

  lemma {:induction false} WithoutCycleUnique(payments: seq<Payment>, bill: int, occ: int)
    requires Unique(payments)
    ensures Unique(WithoutCycle(payments, bill, occ))
  {
    if payments != [] {
      var n := |payments| - 1;
      WithoutCycleUnique(payments[..n], bill, occ);
      assert payments == payments[..n] + [payments[n]];
      UniqueInsert(payments[..n], payments[n]);
      UniqueInsert(WithoutCycle(payments[..n], bill, occ), payments[n]);
    }
  }

  /** Is the cycle settled by a link the owner made by hand. */
  predicate HandLinked(payments: seq<Payment>, bill: int, occ: int) {
    exists p :: p in payments && p.bill == bill && p.occurrence == occ && p.how == Manual
  }

  /** One cycle further: the window loaded for the pass stands in for the ledger. */
  lemma OneMoreCycle(b: Bill, occs: seq<int>, k: nat, ledger: seq<Row>, payments: seq<Payment>, from: int, to: int)
    requires Ordered(ledger) && k < |occs| && Covered(b, occs, from, to)
    ensures var occ, before, rows := occs[k], SettleCycles(b, occs[..k], ledger, payments), Loaded(ledger, from, to);
            var used, w := UsedBy(before, b.id), BillWork(b, occs[..k], ledger, payments);
            var best, next := BestRow(b, occ, used, rows), BillWork(b, occs[..k + 1], ledger, payments);
            if occ in SettledBy(before, b.id) then
              SettleCycles(b, occs[..k + 1], ledger, payments) == before && next.cycles == w.cycles
                && next.rows == w.rows
            else
              && SettleCycles(b, occs[..k + 1], ledger, payments)
                 == (if best.Some? then before + [Payment(b.id, best.value.id, occ, Auto)] else before)
              && next.cycles == w.cycles + 1
              && next.rows == w.rows + UnusedWithin(rows, used, occ - b.window, occ + b.window)
  {
    hide BestRow, SettledBy, UsedBy, Loaded, UnusedWithin, Ordered;
    assert occs[..k + 1][..k] == occs[..k];
    assert occs[k] in occs;
    var used := UsedBy(SettleCycles(b, occs[..k], ledger, payments), b.id);
    WindowSuffices(b, occs[k], used, ledger, from, to);
    UnusedAreLoaded(ledger, used, from, to, occs[k] - b.window, occs[k] + b.window);
  }

  lemma NoCycles(b: Bill, ledger: seq<Row>, payments: seq<Payment>)
    ensures SettleCycles(b, [], ledger, payments) == payments && BillWork(b, [], ledger, payments) == Work(0, 0, 0)
  {
  }

  /** Each bill's cycles, and the union of their candidate windows, so posted rows load once. */
  method PlanCycles(bills: seq<Bill>, ledger: seq<Row>, bounds: Bounds, today: int)
    returns (cycles: seq<seq<int>>, from: int, to: int)
    requires ledger != []
    ensures |cycles| == |bills|
    ensures forall k :: 0 <= k < |bills| ==> cycles[k] == CyclesOf(bills[k], ledger, bounds, today)
    ensures forall k :: 0 <= k < |bills| ==> Covered(bills[k], cycles[k], from, to)
  {
    hide OccurrencesBetween, CycleFrom, CycleTo;
    cycles, from, to := [], 0, -1;
    var unset := true;
    for i := 0 to |bills|
      invariant |cycles| == i
      invariant forall k :: 0 <= k < i ==> cycles[k] == CyclesOf(bills[k], ledger, bounds, today)
      invariant forall k :: 0 <= k < i ==> if unset then cycles[k] == [] else Covered(bills[k], cycles[k], from, to)
    {
      var b := bills[i];
      var occs := [];
      if AutoMatched(b) {
        var lo, hi := CycleFrom(b, Some(ledger[0].day), bounds), CycleTo(b, bounds, today);
        occs := ListOccurrences(b.anchor, b.cadence, lo, hi);
        EndsEnclose(b, lo, hi);
      }
      cycles := cycles + [occs];
      if occs != [] {
        var lo, hi := occs[0] - b.window, occs[|occs| - 1] + b.window;
        from := if unset then lo else Min(from, lo);
        to := if unset then hi else Max(to, hi);
        unset := false;
      }
    }
  }

  ghost predicate Covered(b: Bill, occs: seq<int>, from: int, to: int) {
    forall occ :: occ in occs ==> from <= occ - b.window && occ + b.window <= to
  }

  lemma EndsEnclose(b: Bill, lo: int, hi: int)
    ensures var occs := OccurrencesBetween(b.anchor, b.cadence, lo, hi);
            forall occ :: occ in occs ==> occs[0] <= occ <= occs[|occs| - 1]
  {
    var occs := OccurrencesBetween(b.anchor, b.cadence, lo, hi);
    hide OccurrencesBetween;
    forall occ | occ in occs ensures occs[0] <= occ <= occs[|occs| - 1] {
      var i :| 0 <= i < |occs| && occs[i] == occ;
      ListedInOrder(b.anchor, b.cadence, lo, hi, 0, i);
      ListedInOrder(b.anchor, b.cadence, lo, hi, i, |occs| - 1);
    }
  }

  lemma LinkGrows(payments: seq<Payment>, p: Payment)
    ensures SettledBy(payments + [p], p.bill) == SettledBy(payments, p.bill) + {p.occurrence}
    ensures UsedBy(payments + [p], p.bill) == UsedBy(payments, p.bill) + {p.txn}
  {
    var grown := payments + [p];
    assert p in grown;
    assert forall q :: q in grown <==> q in payments || q == p;
  }

  lemma {:induction false} EmptyLedgerSettlesNothing(bills: seq<Bill>, bounds: Bounds, today: int,
                                                     payments: seq<Payment>)
    ensures Pass(bills, [], bounds, today, payments) == payments
    ensures PassWork(bills, [], bounds, today, payments) == Work(0, 0, 0)
  {
    if bills != [] {
      EmptyLedgerSettlesNothing(bills[..|bills| - 1], bounds, today, payments);
    }
  }
}
