/**
  The bill occurrence generator: every due date is derived from (cadence, anchor), forward and
  backward, and located by an estimate that is then walked the last step.
 */
module Occurrences {
  import opened Prelude
  import opened Grid
  import opened Calendar

  datatype Cadence = Weekly | Fortnightly | Monthly | Quarterly | Annual

  /** Bounds one listing so that a malformed window cannot spin. */
  const MAX_OCCURRENCES: nat := 10000

  /** A step is a number of days or a number of months; exactly one is not zero. */
  function CadenceStep(c: Cadence): (int, int) {
    match c
    case Weekly => (7, 0)
    case Fortnightly => (14, 0)
    case Monthly => (0, 1)
    case Quarterly => (0, 3)
    case Annual => (0, 12)
  }

  /** Step n months keeping the day of the month, clamped to the target month's last day. */
  function AddMonthsClamped(day: int, n: int): int {
    var target := MonthOf(day) + n;
    MonthStart(target) + Min(DayOfMonth(day), DaysInMonth(target)) - 1
  }

  function OccurrenceAt(anchor: int, c: Cadence, n: int): int {
    var (days, months) := CadenceStep(c);
    if days > 0 then anchor + n * days else AddMonthsClamped(anchor, n * months)
  }

  function CeilDiv(a: int, b: int): (q: int)
    requires b > 0
    ensures b * (q - 1) < a <= b * q
  {
    var q := TruncDiv(a, b);
    CeilDivRounds(a, b);
    if TruncMod(a, b) > 0 then q + 1 else q
  }

  lemma CeilDivRounds(a: int, b: int)
    requires b > 0
    ensures var q := TruncDiv(a, b) + (if TruncMod(a, b) > 0 then 1 else 0); b * (q - 1) < a <= b * q
  {
    var q := TruncDiv(a, b);
    if a >= 0 {
      assert a == b * (a / b) + a % b;
      assert b * (q + 1) == b * q + b;
      assert b * (q - 1) == b * q - b;
    } else {
      assert -a == b * ((-a) / b) + (-a) % b;
      assert b * q == -(b * ((-a) / b));
      assert b * (q - 1) == b * q - b;
    }
  }

  // ----- the sequence of due dates -----

  /** Month-end clamping never leaves the month stepped to, and keeps the day when it exists there. */
  lemma ClampStaysInMonth(day: int, n: int)
    ensures MonthOf(AddMonthsClamped(day, n)) == MonthOf(day) + n
    ensures DayOfMonth(AddMonthsClamped(day, n)) == Min(DayOfMonth(day), DaysInMonth(MonthOf(day) + n))
  {
    hide MonthStart;
    MonthLengthBounds(MonthOf(day) + n);
    MonthOfUnique(AddMonthsClamped(day, n), MonthOf(day) + n);
  }

  /**
    Stepping m months and then n more reaches the date that stepping m + n at once does exactly when the
    month in between has the anchor's day, or the last month is no longer than that one.
   */
  lemma StepsComposeExactly(day: int, m: int, n: int)
    ensures AddMonthsClamped(AddMonthsClamped(day, m), n) == AddMonthsClamped(day, m + n)
            <==> || DayOfMonth(day) <= DaysInMonth(MonthOf(day) + m)
                 || DaysInMonth(MonthOf(day) + m + n) <= DaysInMonth(MonthOf(day) + m)
  {
    hide MonthStart, DaysInMonth;
    ClampStaysInMonth(day, m);
    ClampStaysInMonth(AddMonthsClamped(day, m), n);
    ClampStaysInMonth(day, m + n);
    SameMonthSameDay(AddMonthsClamped(AddMonthsClamped(day, m), n), AddMonthsClamped(day, m + n));
  }

  lemma SameMonthSameDay(d: int, e: int)
    requires MonthOf(d) == MonthOf(e)
    ensures d == e <==> DayOfMonth(d) == DayOfMonth(e)
  {
  }

  /** From 31 January 2025 by way of 28 February one reaches 28 March; at once, 31 March. */
  lemma ClampDoesNotCompose()
    ensures var anchor := MonthStart(12 * 2025) + 30;
            && DayOfMonth(anchor) == 31 && MonthOf(anchor) == 12 * 2025
            && DayOfMonth(AddMonthsClamped(AddMonthsClamped(anchor, 1), 1)) == 28
            && DayOfMonth(AddMonthsClamped(anchor, 2)) == 31
  {
    hide MonthStart, AddMonthsClamped;
    var jan := 12 * 2025;
    var day := MonthStart(jan) + 30;
    EarlyIn2025();
    assert MonthStart(jan) <= day < MonthStart(jan + 1);
    MonthOfUnique(day, jan);
    assert DayOfMonth(day) == 31;
    hide DaysInMonth, DayOfMonth, MonthOf;
    ClampStaysInMonth(day, 1);
    ClampStaysInMonth(day, 2);
    ClampStaysInMonth(AddMonthsClamped(day, 1), 1);
  }

  lemma OccurrenceMonth(anchor: int, c: Cadence, n: int)
    requires CadenceStep(c).1 > 0
    ensures MonthOf(OccurrenceAt(anchor, c, n)) == MonthOf(anchor) + n * CadenceStep(c).1
  {
    ClampStaysInMonth(anchor, n * CadenceStep(c).1);
  }

  lemma OccurrencesStep(anchor: int, c: Cadence, n: int)
    ensures OccurrenceAt(anchor, c, n) < OccurrenceAt(anchor, c, n + 1)
  {
    hide MonthStart, AddMonthsClamped, MonthOf;
    var (days, months) := CadenceStep(c);
    if days > 0 {
      assert (n + 1) * days == n * days + days;
    } else {
      OccurrenceMonth(anchor, c, n);
      OccurrenceMonth(anchor, c, n + 1);
      assert (n + 1) * months == n * months + months;
      hide OccurrenceAt;
      EarlierMonthEarlierDay(OccurrenceAt(anchor, c, n), OccurrenceAt(anchor, c, n + 1));
    }
  }

  lemma EarlierMonthEarlierDay(d: int, e: int)
    requires MonthOf(d) < MonthOf(e)
    ensures d < e
  {
    if e <= d {
      MonthOfMonotone(e, d);
    }
  }

  /** All due dates of one bill, as a sequence indexed by signed ordinals. */
  function DueDates(anchor: int, c: Cadence): (f: int -> int)
    ensures forall n :: f(n) == OccurrenceAt(anchor, c, n)
  {
    n => OccurrenceAt(anchor, c, n)
  }

  /** Clamping notwithstanding, due dates are strictly increasing. */
  lemma OccurrencesIncrease(anchor: int, c: Cadence)
    ensures StrictlyIncreasing(DueDates(anchor, c))
  {
    var f := DueDates(anchor, c);
    forall n ensures f(n) < f(n + 1) {
      OccurrencesStep(anchor, c, n);
    }
    FromSteps(f);
  }

  lemma OrdinalsInOrder(anchor: int, c: Cadence, i: int, j: int)
    ensures i < j <==> OccurrenceAt(anchor, c, i) < OccurrenceAt(anchor, c, j)
  {
    hide OccurrenceAt, StrictlyIncreasing;
    OccurrencesIncrease(anchor, c);
    InOrder(DueDates(anchor, c), i, j);
  }

  // ----- locating a date among the due dates -----

  /** The ordinal next_due is defined by: the least n whose occurrence is on or after today. */
  function DueOrdinal(anchor: int, c: Cadence, today: int): (n: int)
    ensures OccurrenceAt(anchor, c, n - 1) < today <= OccurrenceAt(anchor, c, n)
  {
    hide OccurrenceAt;
    OccurrencesIncrease(anchor, c);
    Floor(DueDates(anchor, c), today - 1) + 1
  }

  lemma DueOrdinalIsLeast(anchor: int, c: Cadence, today: int, n: int)
    ensures OccurrenceAt(anchor, c, n) >= today <==> n >= DueOrdinal(anchor, c, today)
  {
    hide OccurrenceAt;
    OccurrencesIncrease(anchor, c);
    FloorAdjoint(DueDates(anchor, c), today - 1, n);
  }

  lemma DueOrdinalUnique(anchor: int, c: Cadence, today: int, n: int)
    requires OccurrenceAt(anchor, c, n - 1) < today <= OccurrenceAt(anchor, c, n)
    ensures n == DueOrdinal(anchor, c, today)
  {
    hide OccurrenceAt;
    DueOrdinalIsLeast(anchor, c, today, n);
    DueOrdinalIsLeast(anchor, c, today, n - 1);
  }

  /**
    The search: exact arithmetic for day steps; for month steps an estimate from the month
    difference, then at most one step back and exactly one step forward.
   */
  method FindDueOrdinal(anchor: int, c: Cadence, today: int) returns (n: int, ghost back: nat, ghost forward: nat)
    ensures n == DueOrdinal(anchor, c, today)
    ensures CadenceStep(c).1 > 0 ==> back <= 1 && forward == 1
  {
    hide OccurrenceAt, DueOrdinal, MonthOf, MonthStart, TruncDiv, CeilDiv;
    back, forward := 0, 0;
    var (days, months) := CadenceStep(c);
    if days > 0 {
      n := CeilDiv(today - anchor, days);
      DayStepsAreExact(anchor, c, today);
      return;
    }
    var monthsDiff := MonthOf(today) - MonthOf(anchor);
    n := TruncDiv(monthsDiff, months);
    ghost var estimate := n;
    EstimateIsClose(anchor, c, today);
    while OccurrenceAt(anchor, c, n) >= today
      invariant n == estimate - back
      invariant back == 0 || (back == 1 && OccurrenceAt(anchor, c, n) < today <= OccurrenceAt(anchor, c, estimate))
      decreases 1 - back
    {
      n := n - 1;
      back := back + 1;
    }
    ghost var base := n;
    while OccurrenceAt(anchor, c, n) < today
      invariant n == base + forward
      invariant forward == 0 || (forward == 1 && OccurrenceAt(anchor, c, base) < today <= OccurrenceAt(anchor, c, n))
      decreases 1 - forward
    {
      n := n + 1;
      forward := forward + 1;
    }
    DueOrdinalUnique(anchor, c, today, n);
  }

  lemma DayStepsAreExact(anchor: int, c: Cadence, today: int)
    requires CadenceStep(c).0 > 0
    ensures CeilDiv(today - anchor, CadenceStep(c).0) == DueOrdinal(anchor, c, today)
  {
    hide DueOrdinal, AddMonthsClamped;
    var days := CadenceStep(c).0;
    var n := CeilDiv(today - anchor, days);
    assert (n - 1) * days == days * (n - 1) && n * days == days * n;
    DueOrdinalUnique(anchor, c, today, n);
  }

  lemma TruncatedQuotientIsClose(diff: int, months: int)
    requires months == 1 || months == 3 || months == 12
    ensures (TruncDiv(diff, months) - 1) * months < diff < (TruncDiv(diff, months) + 1) * months
  {
    if months == 1 {
    } else if months == 3 {
    } else {
    }
  }

  /** The truncated month estimate is off by at most one, on either side of the anchor. */
  lemma EstimateIsClose(anchor: int, c: Cadence, today: int)
    requires CadenceStep(c).1 > 0
    ensures var e := TruncDiv(MonthOf(today) - MonthOf(anchor), CadenceStep(c).1);
            && OccurrenceAt(anchor, c, e - 1) < today
            && today <= OccurrenceAt(anchor, c, e + 1)
  {
    hide OccurrenceAt, MonthStart, TruncDiv, MonthOf;
    var months := CadenceStep(c).1;
    var diff := MonthOf(today) - MonthOf(anchor);
    var e := TruncDiv(diff, months);
    OccurrenceMonth(anchor, c, e - 1);
    OccurrenceMonth(anchor, c, e + 1);
    TruncatedQuotientIsClose(diff, months);
    EarlierMonthEarlierDay(OccurrenceAt(anchor, c, e - 1), today);
    EarlierMonthEarlierDay(today, OccurrenceAt(anchor, c, e + 1));
  }

  function NextDue(anchor: int, c: Cadence, today: int): int {
    OccurrenceAt(anchor, c, DueOrdinal(anchor, c, today))
  }

  function PrevDue(anchor: int, c: Cadence, today: int): int {
    OccurrenceAt(anchor, c, DueOrdinal(anchor, c, today) - 1)
  }

  function LastOccurrenceOnOrBefore(anchor: int, c: Cadence, d: int): int {
    var n := DueOrdinal(anchor, c, d);
    var occ := OccurrenceAt(anchor, c, n);
    if occ <= d then occ else OccurrenceAt(anchor, c, n - 1)
  }

  predicate IsOccurrence(anchor: int, c: Cadence, d: int) {
    OccurrenceAt(anchor, c, DueOrdinal(anchor, c, d)) == d
  }

  function NearestOccurrence(anchor: int, c: Cadence, d: int): int {
    var next := NextDue(anchor, c, d);
    var prev := PrevDue(anchor, c, d);
    if d - prev <= next - d then prev else next
  }

  /** The one-probe membership test decides membership in the whole infinite sequence. */
  lemma IsOccurrenceDecides(anchor: int, c: Cadence, d: int)
    ensures IsOccurrence(anchor, c, d) <==> exists n :: OccurrenceAt(anchor, c, n) == d
  {
    hide OccurrenceAt, DueOrdinal;
    forall n | OccurrenceAt(anchor, c, n) == d ensures IsOccurrence(anchor, c, d) {
      DueOrdinalIsLeast(anchor, c, d, n);
      var m := DueOrdinal(anchor, c, d);
      OccurrencesIncrease(anchor, c);
      assert m < n ==> DueDates(anchor, c)(m) < DueDates(anchor, c)(n);
    }
  }

  /** No due date lies strictly between prev_due and next_due, and the two enclose the date. */
  lemma PrevAndNextAreAdjacent(anchor: int, c: Cadence, d: int, n: int)
    ensures PrevDue(anchor, c, d) < d <= NextDue(anchor, c, d)
    ensures !(PrevDue(anchor, c, d) < OccurrenceAt(anchor, c, n) < NextDue(anchor, c, d))
  {
    hide OccurrenceAt, DueOrdinal;
    OccurrencesIncrease(anchor, c);
    var f, m := DueDates(anchor, c), DueOrdinal(anchor, c, d);
    assert n < m - 1 ==> f(n) < f(m - 1);
    assert m < n ==> f(m) < f(n);
  }

  /** The cap ended_on puts on a bill: no due date lies after it and on or before d. */
  lemma LastOccurrenceIsLast(anchor: int, c: Cadence, d: int, n: int)
    ensures LastOccurrenceOnOrBefore(anchor, c, d) <= d
    ensures IsOccurrence(anchor, c, LastOccurrenceOnOrBefore(anchor, c, d))
    ensures OccurrenceAt(anchor, c, n) <= d ==> OccurrenceAt(anchor, c, n) <= LastOccurrenceOnOrBefore(anchor, c, d)
  {
    hide OccurrenceAt;
    PrevAndNextAreAdjacent(anchor, c, d, n);
    IsOccurrenceDecides(anchor, c, LastOccurrenceOnOrBefore(anchor, c, d));
  }

  /** nearestOccurrence minimises the day distance over every ordinal; a tie goes to the earlier. */
  lemma NearestIsNearest(anchor: int, c: Cadence, d: int, n: int)
    ensures var near := NearestOccurrence(anchor, c, d);
            && IsOccurrence(anchor, c, near)
            && AbsInt(near - d) <= AbsInt(OccurrenceAt(anchor, c, n) - d)
            && (AbsInt(near - d) == AbsInt(OccurrenceAt(anchor, c, n) - d) ==> near <= OccurrenceAt(anchor, c, n))
  {
    hide OccurrenceAt;
    PrevAndNextAreAdjacent(anchor, c, d, n);
    IsOccurrenceDecides(anchor, c, NearestOccurrence(anchor, c, d));
  }

  // ----- listing a window -----

  /** How many due dates lie in the inclusive window. */
  function CountBetween(anchor: int, c: Cadence, from: int, to: int): (count: nat)
    requires from <= to
  {
    DueOrdinalIsLeast(anchor, c, from, DueOrdinal(anchor, c, to + 1));
    DueOrdinal(anchor, c, to + 1) - DueOrdinal(anchor, c, from)
  }

  function OccurrencesBetween(anchor: int, c: Cadence, from: int, to: int): (out: seq<int>) {
    if to < from then []
    else
      var start := DueOrdinal(anchor, c, from);
      seq(Min(MAX_OCCURRENCES, CountBetween(anchor, c, from, to)), i => OccurrenceAt(anchor, c, start + i))
  }

  /** The listing loop, which only knows it is done by seeing an occurrence after the window. */
  method ListOccurrences(anchor: int, c: Cadence, from: int, to: int) returns (out: seq<int>)
    ensures out == OccurrencesBetween(anchor, c, from, to)
  {
    hide OccurrenceAt, DueOrdinal;
    if to < from {
      return [];
    }
    var start, _, _ := FindDueOrdinal(anchor, c, from);
    out := [];
    var i := 0;
    ghost var count := CountBetween(anchor, c, from, to);
    while i < MAX_OCCURRENCES
      invariant 0 <= i <= Min(MAX_OCCURRENCES, count)
      invariant out == seq(i, k => OccurrenceAt(anchor, c, start + k))
    {
      var occ := OccurrenceAt(anchor, c, start + i);
      DueOrdinalIsLeast(anchor, c, to + 1, start + i);
      if occ > to {
        break;
      }
      out := out + [occ];
      i := i + 1;
    }
  }

  lemma ListedInOrder(anchor: int, c: Cadence, from: int, to: int, i: int, j: int)
    ensures var out := OccurrencesBetween(anchor, c, from, to);
            0 <= i < j < |out| ==> from <= out[i] < out[j] <= to
  {
    hide OccurrenceAt, DueOrdinal;
    var out := OccurrencesBetween(anchor, c, from, to);
    if 0 <= i < j < |out| {
      var start := DueOrdinal(anchor, c, from);
      DueOrdinalIsLeast(anchor, c, from, start + i);
      DueOrdinalIsLeast(anchor, c, to + 1, start + j);
      OrdinalsInOrder(anchor, c, start + i, start + j);
    }
  }

  /** Everything listed is a due date in the window. */
  lemma ListedAreOccurrences(anchor: int, c: Cadence, from: int, to: int, d: int)
    requires d in OccurrencesBetween(anchor, c, from, to)
    ensures from <= d <= to && IsOccurrence(anchor, c, d)
  {
    hide OccurrenceAt, DueOrdinal;
    var out := OccurrencesBetween(anchor, c, from, to);
    var start := DueOrdinal(anchor, c, from);
    var i :| 0 <= i < |out| && out[i] == d;
    assert d == OccurrenceAt(anchor, c, start + i);
    DueOrdinalIsLeast(anchor, c, from, start + i);
    DueOrdinalIsLeast(anchor, c, to + 1, start + i);
    IsOccurrenceDecides(anchor, c, d);
  }

  /** A due date of the window is listed if and only if it is among its first MAX_OCCURRENCES. */
  lemma ListedExactly(anchor: int, c: Cadence, from: int, to: int, n: int)
    requires from <= OccurrenceAt(anchor, c, n) <= to
    ensures OccurrenceAt(anchor, c, n) in OccurrencesBetween(anchor, c, from, to)
            <==> n < DueOrdinal(anchor, c, from) + 10000
  {
    hide OccurrenceAt, DueOrdinal;
    var out := OccurrencesBetween(anchor, c, from, to);
    var start := DueOrdinal(anchor, c, from);
    DueOrdinalIsLeast(anchor, c, from, n);
    DueOrdinalIsLeast(anchor, c, to + 1, n);
    if n < start + MAX_OCCURRENCES {
      assert out[n - start] == OccurrenceAt(anchor, c, n);
    }
    forall i | 0 <= i < |out| && out[i] == OccurrenceAt(anchor, c, n) ensures n < start + MAX_OCCURRENCES {
      OrdinalsInOrder(anchor, c, start + i, n);
    }
  }
}
