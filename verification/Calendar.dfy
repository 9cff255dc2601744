/**
  The proleptic Gregorian calendar over day numbers: day 0 is 1 January of year 1, a Monday.
  Every stored finance date is a UTC midnight, so a date is its day number.
 */
module Calendar {
  import opened Grid

  predicate IsLeap(year: int) {
    year % 4 == 0 && (year % 100 != 0 || year % 400 == 0)
  }

  function DaysBeforeYear(year: int): int {
    365 * (year - 1) + (year - 1) / 4 - (year - 1) / 100 + (year - 1) / 400
  }

  /** Days of the year before the first of month m (0 is January; 12 is the year's end). */
  function DaysBeforeMonth(m: nat, leap: bool): int
    requires m <= 12
  {
    var common := [0, 31, 59, 90, 120, 151, 181, 212, 243, 273, 304, 334, 365];
    common[m] + if leap && m >= 2 then 1 else 0
  }

  /** A month is counted from January of year 0, so stepping months is addition. */
  function MonthStart(month: int): int {
    DaysBeforeYear(month / 12) + DaysBeforeMonth(month % 12, IsLeap(month / 12))
  }

  /** Day 0 of the following month is the last day of this one. */
  function DaysInMonth(month: int): int {
    MonthStart(month + 1) - MonthStart(month)
  }

  lemma YearLength(year: int)
    ensures DaysBeforeYear(year + 1) == DaysBeforeYear(year) + 365 + (if IsLeap(year) then 1 else 0)
  {
    Multiples(year, 4);
    Multiples(year, 100);
    Multiples(year, 400);
    Centuries(year);
  }

  lemma Centuries(year: int)
    ensures year % 400 == 0 ==> year % 100 == 0
    ensures year % 100 == 0 ==> year % 4 == 0
  {
    if year % 100 == 0 {
      var century := year / 100;
      assert year == 4 * (25 * century);
    }
    if year % 400 == 0 {
      var cycle := year / 400;
      assert year == 100 * (4 * cycle);
    }
  }

  /** Passing from n - 1 to n passes a multiple of k exactly when n is one. */
  lemma Multiples(n: int, k: int)
    requires k == 4 || k == 100 || k == 400
    ensures n / k == (n - 1) / k + (if n % k == 0 then 1 else 0)
  {
    if k == 4 {
    } else if k == 100 {
    } else {
    }
  }

  /** The lengths that fall out of day numbers are the calendar's month lengths. */
  lemma MonthLengths(month: int)
    ensures DaysInMonth(month) ==
            match month % 12
            case 1 => if IsLeap(month / 12) then 29 else 28
            case 3 => 30
            case 5 => 30
            case 8 => 30
            case 10 => 30
            case _ => 31
  {
    var y, m := month / 12, month % 12;
    if m == 11 {
      assert (month + 1) / 12 == y + 1 && (month + 1) % 12 == 0;
      YearLength(y);
    } else {
      assert (month + 1) / 12 == y && (month + 1) % 12 == m + 1;
    }
  }

  /** Where the day numbers sit in history: 1 January 1970 is day 719162, a Thursday. */
  lemma EpochIsAThursday()
    ensures MonthStart(12 * 1970) == 719162 && Weekday(719162) == 4
  {
    var month := 12 * 1970;
    assert month / 12 == 1970 && month % 12 == 0;
    assert DaysBeforeYear(1970) == 719162 && DaysBeforeMonth(0, IsLeap(1970)) == 0;
    hide DaysBeforeYear, DaysBeforeMonth, IsLeap;
  }

  /** Three months around a common February. */
  lemma EarlyIn2025()
    ensures DaysInMonth(12 * 2025) == 31 && DaysInMonth(12 * 2025 + 1) == 28 && DaysInMonth(12 * 2025 + 2) == 31
  {
    var jan := 12 * 2025;
    assert jan / 12 == (jan + 1) / 12 == (jan + 2) / 12 == 2025;
    MonthLengths(jan);
    MonthLengths(jan + 1);
    MonthLengths(jan + 2);
    hide DaysInMonth;
  }

  lemma MonthLengthBounds(month: int)
    ensures 28 <= DaysInMonth(month) <= 31
    ensures MonthStart(month) < MonthStart(month + 1)
  {
    MonthLengths(month);
  }

  lemma MonthStartsIncrease()
    ensures StrictlyIncreasing(MonthStart)
  {
    forall i ensures MonthStart(i) < MonthStart(i + 1) {
      MonthLengthBounds(i);
    }
    FromSteps(MonthStart);
  }

  /** The month containing a day. */
  function MonthOf(day: int): (month: int)
    ensures MonthStart(month) <= day < MonthStart(month + 1)
  {
    MonthStartsIncrease();
    Floor(MonthStart, day)
  }

  /** Day of the month, from 1. */
  function DayOfMonth(day: int): (d: int)
    ensures 1 <= d <= DaysInMonth(MonthOf(day)) <= 31
  {
    MonthLengthBounds(MonthOf(day));
    day - MonthStart(MonthOf(day)) + 1
  }

  /** Go's Weekday: Sunday is 0. */
  function Weekday(day: int): int {
    (day + 1) % 7
  }

  lemma MonthOfUnique(day: int, month: int)
    requires MonthStart(month) <= day < MonthStart(month + 1)
    ensures MonthOf(day) == month
  {
    MonthStartsIncrease();
    FloorAdjoint(MonthStart, day, month);
  }

  lemma MonthOfMonotone(d: int, e: int)
    requires d <= e
    ensures MonthOf(d) <= MonthOf(e)
  {
    MonthStartsIncrease();
    FloorMonotone(MonthStart, d, e);
  }
}
