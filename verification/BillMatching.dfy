/**
  The bill matching pass: each unsettled cycle is linked to the posted row that paid it. The
  pass reads the ledger through a per-day index over one loaded window; the specification
  beside it scans the whole ledger for every cycle.
 */
module BillMatching {
  import opened Prelude
  import opened Occurrences

  /** A posted row prepared for matching: its text already lowered, its date a day. */
  datatype Row = Row(id: int, day: int, amount: real, desc: string, merch: string, account: int)

  datatype BillStatus = Active | Paused | Ended

  /** needle is the lowered, trimmed match_pattern; scope 0 is a bill with no account. */
  datatype Bill = Bill(id: int, needle: string, scope: int, expected: real, tolerancePct: real, variable: bool,
                       window: nat, anchor: int, cadence: Cadence, status: BillStatus, endedOn: Option<int>)

  datatype Method = Auto | Manual

  datatype Payment = Payment(bill: int, txn: int, occurrence: int, how: Method)

  /** Bounds one pass to a posted-date range; None leaves a side open. */
  datatype Bounds = Bounds(from: Option<int>, to: Option<int>)

  datatype ReconcileSummary = ReconcileSummary(billsScanned: nat, cyclesChecked: nat, compared: nat, linked: nat)

  /** The ledger in (posted_date, id) order, with ids unique: the table and its ORDER BY. */
  ghost predicate Ordered(ledger: seq<Row>) {
    && (forall i, j :: 0 <= i < j < |ledger| ==> Before(ledger[i], ledger[j]))
    && (forall i, j :: 0 <= i < j < |ledger| ==> ledger[i].id != ledger[j].id)
  }

  predicate Before(r: Row, s: Row) {
    r.day < s.day || (r.day == s.day && r.id < s.id)
  }

  // ----- the match rule -----

  predicate Contains(text: string, needle: string) {
    exists i :: 0 <= i <= |text| && needle <= text[i..]
  }

  predicate AmountFits(b: Bill, amount: real) {
    b.variable || AbsReal(AbsReal(amount) - b.expected) <= b.expected * b.tolerancePct / 100.0
  }

  predicate Matches(b: Bill, r: Row, occ: int) {
    && b.needle != ""
    && (Contains(r.desc, b.needle) || Contains(r.merch, b.needle))
    && (b.scope != 0 ==> r.account == b.scope)
    && AmountFits(b, r.amount)
    && AbsInt(r.day - occ) <= b.window
  }

  /** Part of a text. */
  ghost predicate PartOf(needle: string, text: string) {
    exists before, after :: text == before + needle + after
  }

  lemma ContainsIsPart(text: string, needle: string)
    ensures Contains(text, needle) <==> PartOf(needle, text)
  {
    if Contains(text, needle) {
      var i :| 0 <= i <= |text| && needle <= text[i..];
      assert text == text[..i] + needle + text[i + |needle|..];
    }
    if PartOf(needle, text) {
      var before, after :| text == before + needle + after;
      assert text[|before|..] == needle + after;
      assert needle <= text[|before|..];
    }
  }

  function Magnitude(amount: real): real {
    if amount < 0.0 then -amount else amount
  }

  /**
    The rule, clause by clause. A row pays a cycle when its description or merchant contains the bill's text,
    it is of the bill's account if the bill names one, its magnitude lies within the bill's percentage of the
    expected amount unless that varies, and its day is within the bill's window of the due date, either side.
   */
  ghost predicate Pays(b: Bill, r: Row, occ: int) {
    && b.needle != "" && (PartOf(b.needle, r.desc) || PartOf(b.needle, r.merch))
    && (b.scope == 0 || b.scope == r.account)
    && (!b.variable ==>
          b.expected * (1.0 - b.tolerancePct / 100.0) <= Magnitude(r.amount)
          <= b.expected * (1.0 + b.tolerancePct / 100.0))
    && occ - b.window <= r.day <= occ + b.window
  }

  lemma AmountFitsExactly(b: Bill, amount: real)
    ensures AmountFits(b, amount) <==>
              (!b.variable ==>
                 b.expected * (1.0 - b.tolerancePct / 100.0) <= Magnitude(amount)
                 <= b.expected * (1.0 + b.tolerancePct / 100.0))
  {
    var slack := b.expected * b.tolerancePct / 100.0;
    assert b.expected * (1.0 - b.tolerancePct / 100.0) == b.expected - slack;
    assert b.expected * (1.0 + b.tolerancePct / 100.0) == b.expected + slack;
  }

  lemma MatchesExactly(b: Bill, r: Row, occ: int)
    ensures Matches(b, r, occ) <==> Pays(b, r, occ)
  {
    hide AmountFits, Contains, PartOf;
    AmountFitsExactly(b, r.amount);
    ContainsIsPart(r.desc, b.needle);
    ContainsIsPart(r.merch, b.needle);
  }

  /** A debit pays a bill as the credit of the same size would. */
  lemma SignDoesNotMatter(b: Bill, r: Row, occ: int)
    ensures Matches(b, r, occ) <==> Matches(b, r.(amount := -r.amount), occ)
  {
    hide PartOf;
    MatchesExactly(b, r, occ);
    MatchesExactly(b, r.(amount := -r.amount), occ);
  }

  // ----- the naive scan -----

  predicate Eligible(b: Bill, occ: int, used: set<int>, r: Row) {
    r.id !in used && Matches(b, r, occ)
  }

  /** The order a cycle prefers rows in: smallest gap, then earlier day, then lower id. */
  predicate Closer(occ: int, r: Row, s: Row) {
    var g, h := AbsInt(r.day - occ), AbsInt(s.day - occ);
    g < h || (g == h && Before(r, s))
  }

  /** The preferred eligible row of a whole ledger. */
  function BestRow(b: Bill, occ: int, used: set<int>, ledger: seq<Row>): (best: Option<Row>)
    ensures best.Some? ==> best.value in ledger && Eligible(b, occ, used, best.value)
  {
    if ledger == [] then None
    else
      var last := ledger[|ledger| - 1];
      var best := BestRow(b, occ, used, ledger[..|ledger| - 1]);
      if Eligible(b, occ, used, last) && (best.None? || Closer(occ, last, best.value)) then Some(last) else best
  }

  lemma {:induction false} BestRowIsBest(b: Bill, occ: int, used: set<int>, ledger: seq<Row>, r: Row)
    requires r in ledger && Eligible(b, occ, used, r)
    ensures var best := BestRow(b, occ, used, ledger);
            best.Some? && (best.value == r || !Closer(occ, r, best.value))
  {
    var n := |ledger| - 1;
    if r in ledger[..n] {
      BestRowIsBest(b, occ, used, ledger[..n], r);
    } else {
      assert ledger == ledger[..n] + [ledger[n]];
    }
  }

  /** A row that no eligible row is preferred to is the preferred row. */
  lemma BestRowUnique(b: Bill, occ: int, used: set<int>, ledger: seq<Row>, r: Row)
    requires Ordered(ledger)
    requires r in ledger && Eligible(b, occ, used, r)
    requires forall s :: s in ledger && Eligible(b, occ, used, s) ==> s == r || !Closer(occ, s, r)
    ensures BestRow(b, occ, used, ledger) == Some(r)
  {
    BestRowIsBest(b, occ, used, ledger, r);
    var best := BestRow(b, occ, used, ledger).value;
    var i :| 0 <= i < |ledger| && ledger[i] == r;
    var j :| 0 <= j < |ledger| && ledger[j] == best;
    assert i < j ==> Before(ledger[i], ledger[j]);
    assert j < i ==> Before(ledger[j], ledger[i]);
  }

  lemma BestRowNone(b: Bill, occ: int, used: set<int>, ledger: seq<Row>)
    requires forall r :: r in ledger ==> !Eligible(b, occ, used, r)
    ensures BestRow(b, occ, used, ledger) == None
  {
  }

  /** Using up more rows never gives a cycle that had none a row. */
  lemma UsedOnlyShrinksChoice(b: Bill, occ: int, used: set<int>, more: set<int>, ledger: seq<Row>)
    requires used <= more
    requires BestRow(b, occ, used, ledger) == None
    ensures BestRow(b, occ, more, ledger) == None
  {
    forall r | r in ledger ensures !Eligible(b, occ, more, r) {
      if Eligible(b, occ, used, r) {
        BestRowIsBest(b, occ, used, ledger, r);
      }
    }
    BestRowNone(b, occ, more, ledger);
  }

  // ----- the by-day index -----

  function Loaded(ledger: seq<Row>, from: int, to: int): (rows: seq<Row>)
    ensures forall r :: r in rows <==> r in ledger && from <= r.day <= to
  {
    if ledger == [] then []
    else
      var n := |ledger| - 1;
      assert ledger == ledger[..n] + [ledger[n]];
      Loaded(ledger[..n], from, to) + if from <= ledger[n].day <= to then [ledger[n]] else []
  }

  function DayRows(rows: seq<Row>, day: int): (out: seq<Row>)
    ensures forall r :: r in out <==> r in rows && r.day == day
  {
    if rows == [] then []
    else
      var n := |rows| - 1;
      assert rows == rows[..n] + [rows[n]];
      DayRows(rows[..n], day) + if rows[n].day == day then [rows[n]] else []
  }

  lemma OrderedAppend(rows: seq<Row>, r: Row)
    requires Ordered(rows)
    requires forall s :: s in rows ==> Before(s, r) && s.id != r.id
    ensures Ordered(rows + [r])
  {
  }

  /** In an ordered ledger every earlier row comes before the last. */
  lemma OrderedInit(rows: seq<Row>)
    requires Ordered(rows) && rows != []
    ensures var n := |rows| - 1;
            Ordered(rows[..n]) && forall r :: r in rows[..n] ==> Before(r, rows[n]) && r.id != rows[n].id
  {
    var n := |rows| - 1;
    forall r | r in rows[..n] ensures Before(r, rows[n]) && r.id != rows[n].id {
      var i :| 0 <= i < n && rows[i] == r;
    }
  }

  lemma LoadedStep(ledger: seq<Row>, from: int, to: int)
    requires ledger != []
    ensures var n := |ledger| - 1;
            Loaded(ledger, from, to)
            == if from <= ledger[n].day <= to then Loaded(ledger[..n], from, to) + [ledger[n]]
              else Loaded(ledger[..n], from, to)
  {
  }

  lemma DayRowsStep(rows: seq<Row>, day: int)
    requires rows != []
    ensures var n := |rows| - 1;
            DayRows(rows, day)
            == if rows[n].day == day then DayRows(rows[..n], day) + [rows[n]] else DayRows(rows[..n], day)
  {
  }

  lemma {:induction false} LoadedOrdered(ledger: seq<Row>, from: int, to: int)
    requires Ordered(ledger)
    ensures Ordered(Loaded(ledger, from, to))
  {
    if ledger != [] {
      hide Loaded, Ordered, Before;
      var n := |ledger| - 1;
      OrderedInit(ledger);
      LoadedOrdered(ledger[..n], from, to);
      LoadedStep(ledger, from, to);
      OrderedAppend(Loaded(ledger[..n], from, to), ledger[n]);
    }
  }

  lemma {:induction false} DayRowsOrdered(rows: seq<Row>, day: int)
    requires Ordered(rows)
    ensures Ordered(DayRows(rows, day))
  {
    if rows != [] {
      hide DayRows, Ordered, Before;
      var n := |rows| - 1;
      OrderedInit(rows);
      DayRowsOrdered(rows[..n], day);
      DayRowsStep(rows, day);
      OrderedAppend(DayRows(rows[..n], day), rows[n]);
    }
  }

  function OnDay(byDay: map<int, seq<Row>>, day: int): seq<Row> {
    if day in byDay then byDay[day] else []
  }

  ghost predicate Indexes(byDay: map<int, seq<Row>>, rows: seq<Row>) {
    forall day :: OnDay(byDay, day) == DayRows(rows, day)
  }

  method IndexByDay(rows: seq<Row>) returns (byDay: map<int, seq<Row>>)
    ensures Indexes(byDay, rows)
  {
    byDay := map[];
    for i := 0 to |rows|
      invariant Indexes(byDay, rows[..i])
    {
      ghost var before := byDay;
      var day := rows[i].day;
      byDay := byDay[day := OnDay(byDay, day) + [rows[i]]];
      assert rows[..i + 1][..i] == rows[..i];
      forall d ensures OnDay(byDay, d) == DayRows(rows[..i + 1], d) {
        assert OnDay(before, d) == DayRows(rows[..i], d);
      }
    }
    assert rows[..|rows|] == rows;
  }

  /** The unused rows within a day range: what one cycle's search evaluates the rule against. */
  function UnusedWithin(rows: seq<Row>, used: set<int>, lo: int, hi: int): nat {
    if rows == [] then 0
    else
      var n := |rows| - 1;
      UnusedWithin(rows[..n], used, lo, hi) + if lo <= rows[n].day <= hi && rows[n].id !in used then 1 else 0
  }

  lemma {:induction false} UnusedSplits(rows: seq<Row>, used: set<int>, lo: int, mid: int, hi: int)
    requires lo <= mid + 1 <= hi + 1
    ensures UnusedWithin(rows, used, lo, hi)
            == UnusedWithin(rows, used, lo, mid) + UnusedWithin(rows, used, mid + 1, hi)
  {
    if rows != [] {
      UnusedSplits(rows[..|rows| - 1], used, lo, mid, hi);
    }
  }

  lemma UnusedInAppend(rows: seq<Row>, r: Row, used: set<int>)
    ensures UnusedIn(rows + [r], used) == UnusedIn(rows, used) + if r.id !in used then 1 else 0
  {
    assert (rows + [r])[..|rows|] == rows;
  }

  lemma {:induction false} UnusedOnOneDay(rows: seq<Row>, used: set<int>, day: int)
    ensures UnusedWithin(rows, used, day, day) == UnusedIn(DayRows(rows, day), used)
  {
    if rows != [] {
      hide DayRows, UnusedIn;
      var n := |rows| - 1;
      UnusedOnOneDay(rows[..n], used, day);
      DayRowsStep(rows, day);
      UnusedInAppend(DayRows(rows[..n], day), rows[n], used);
    } else {
      assert DayRows(rows, day) == [];
    }
  }

  lemma UnusedNextDay(rows: seq<Row>, used: set<int>, lo: int, day: int)
    requires lo <= day
    ensures UnusedWithin(rows, used, lo, day)
            == UnusedWithin(rows, used, lo, day - 1) + UnusedIn(DayRows(rows, day), used)
  {
    UnusedSplits(rows, used, lo, day - 1, day);
    UnusedOnOneDay(rows, used, day);
  }

  /** The rows a cycle is compared with are the same in the loaded window as in the ledger. */
  lemma {:induction false} UnusedAreLoaded(ledger: seq<Row>, used: set<int>, from: int, to: int, lo: int, hi: int)
    requires from <= lo && hi <= to
    ensures UnusedWithin(Loaded(ledger, from, to), used, lo, hi) == UnusedWithin(ledger, used, lo, hi)
  {
    if ledger != [] {
      hide Loaded;
      var n := |ledger| - 1;
      UnusedAreLoaded(ledger[..n], used, from, to, lo, hi);
      LoadedStep(ledger, from, to);
      UnusedOneMore(Loaded(ledger[..n], from, to), ledger[n], used, lo, hi);
    } else {
      assert Loaded(ledger, from, to) == [];
    }
  }

  lemma UnusedOneMore(rows: seq<Row>, r: Row, used: set<int>, lo: int, hi: int)
    ensures UnusedWithin(rows + [r], used, lo, hi)
            == UnusedWithin(rows, used, lo, hi) + if lo <= r.day <= hi && r.id !in used then 1 else 0
  {
    assert (rows + [r])[..|rows|] == rows;
  }

  function UnusedIn(rows: seq<Row>, used: set<int>): nat {
    if rows == [] then 0
    else UnusedIn(rows[..|rows| - 1], used) + if rows[|rows| - 1].id !in used then 1 else 0
  }

  lemma {:induction false} UnusedInNoDays(rows: seq<Row>, used: set<int>, lo: int, hi: int)
    requires hi < lo
    ensures UnusedWithin(rows, used, lo, hi) == 0
  {
    if rows != [] {
      UnusedInNoDays(rows[..|rows| - 1], used, lo, hi);
    }
  }

  /** What best means halfway through the search: nothing seen so far is preferred to it. */
  ghost predicate BestSoFar(b: Bill, occ: int, used: set<int>, rows: seq<Row>, best: Option<Row>, day: int,
                            seen: seq<Row>) {
    && (best.Some? ==> best.value in rows && Eligible(b, occ, used, best.value)
                       && (best.value.day < day || best.value in seen))
    && (forall r :: r in rows && Eligible(b, occ, used, r) && (r.day < day || r in seen)
         ==> best.Some? && (r == best.value || !Closer(occ, r, best.value)))
  }

  /** One candidate of day occ + d: an equal gap never displaces, since what came first is preferred. */
  lemma ConsiderRow(b: Bill, occ: int, used: set<int>, rows: seq<Row>, best: Option<Row>, d: int, day: seq<Row>, k: nat)
    requires Ordered(rows) && day == DayRows(rows, occ + d) && Ordered(day) && k < |day|
    requires BestSoFar(b, occ, used, rows, best, occ + d, day[..k])
    ensures var c := day[k];
            var takes := Eligible(b, occ, used, c) && (best.None? || AbsInt(d) < AbsInt(best.value.day - occ));
            BestSoFar(b, occ, used, rows, if takes then Some(c) else best, occ + d, day[..k + 1])
  {
    hide Matches, DayRows;
    var c := day[k];
    assert day[..k + 1] == day[..k] + [c];
    assert c in DayRows(rows, occ + d);
    if best.Some? && best.value in day[..k] {
      var i :| 0 <= i < k && day[i] == best.value;
      assert Before(day[i], day[k]);
    }
  }

  lemma IndexedDay(byDay: map<int, seq<Row>>, rows: seq<Row>, day: int)
    requires Ordered(rows) && Indexes(byDay, rows)
    ensures OnDay(byDay, day) == DayRows(rows, day) && Ordered(DayRows(rows, day))
    ensures forall k :: 0 <= k < |OnDay(byDay, day)| ==> OnDay(byDay, day)[k].day == day
  {
    hide Before;
    DayRowsOrdered(rows, day);
    assert forall k :: 0 <= k < |DayRows(rows, day)| ==> DayRows(rows, day)[k] in DayRows(rows, day);
  }

  lemma NextDay(b: Bill, occ: int, used: set<int>, rows: seq<Row>, best: Option<Row>, day: int)
    requires BestSoFar(b, occ, used, rows, best, day, DayRows(rows, day))
    ensures BestSoFar(b, occ, used, rows, best, day + 1, [])
  {
    hide Matches;
  }

  lemma NothingEarlier(b: Bill, occ: int, used: set<int>, rows: seq<Row>)
    ensures BestSoFar(b, occ, used, rows, None, occ - b.window, [])
  {
  }

  lemma NothingLater(b: Bill, occ: int, used: set<int>, rows: seq<Row>, best: Option<Row>)
    requires Ordered(rows)
    requires BestSoFar(b, occ, used, rows, best, occ + b.window + 1, [])
    ensures best == BestRow(b, occ, used, rows)
  {
    if best.Some? {
      BestRowUnique(b, occ, used, rows, best.value);
    } else {
      BestRowNone(b, occ, used, rows);
    }
  }

  /** The search before day occ + d's remaining rows: its best row so far, that row's gap, and the work done. */
  ghost predicate Searching(b: Bill, occ: int, used: set<int>, rows: seq<Row>, d: int, seen: seq<Row>,
                            best: Option<Row>, bestGap: int, compared: nat)
  {
    && BestSoFar(b, occ, used, rows, best, occ + d, seen)
    && (best.Some? ==> bestGap == AbsInt(best.value.day - occ))
    && compared == UnusedWithin(rows, used, occ - b.window, occ + d - 1) + UnusedIn(seen, used)
  }

  lemma SearchStarts(b: Bill, occ: int, used: set<int>, rows: seq<Row>)
    ensures Searching(b, occ, used, rows, 0 - b.window, [], None, 0, 0)
  {
    hide BestSoFar, UnusedWithin;
    NothingEarlier(b, occ, used, rows);
    UnusedInNoDays(rows, used, occ - b.window, occ - b.window - 1);
  }

  lemma SearchRow(b: Bill, occ: int, used: set<int>, rows: seq<Row>, d: int, day: seq<Row>, k: nat,
                  best: Option<Row>, bestGap: int, compared: nat)
    requires Ordered(rows) && day == DayRows(rows, occ + d) && Ordered(day) && k < |day| && day[k].day == occ + d
    requires Searching(b, occ, used, rows, d, day[..k], best, bestGap, compared)
    ensures var c, seen := day[k], day[..k + 1];
            var takes := Matches(b, c, occ) && (best.None? || AbsInt(d) < bestGap);
            if c.id in used then Searching(b, occ, used, rows, d, seen, best, bestGap, compared)
            else Searching(b, occ, used, rows, d, seen, if takes then Some(c) else best,
                           if takes then AbsInt(d) else bestGap, compared + 1)
  {
    hide Matches, DayRows, UnusedWithin, UnusedIn, BestSoFar, Before, Ordered;
    ConsiderRow(b, occ, used, rows, best, d, day, k);
    UnusedInAppend(day[..k], day[k], used);
    assert day[..k + 1] == day[..k] + [day[k]];
  }

  lemma SearchNextDay(b: Bill, occ: int, used: set<int>, rows: seq<Row>, d: int, best: Option<Row>, bestGap: int,
                      compared: nat)
    requires 0 - b.window <= d
    requires Searching(b, occ, used, rows, d, DayRows(rows, occ + d), best, bestGap, compared)
    ensures Searching(b, occ, used, rows, d + 1, [], best, bestGap, compared)
  {
    hide DayRows, UnusedWithin, BestSoFar;
    NextDay(b, occ, used, rows, best, occ + d);
    UnusedNextDay(rows, used, occ - b.window, occ + d);
  }

  lemma SearchEnds(b: Bill, occ: int, used: set<int>, rows: seq<Row>, best: Option<Row>, bestGap: int, compared: nat)
    requires Ordered(rows) && Searching(b, occ, used, rows, b.window + 1, [], best, bestGap, compared)
    ensures best == BestRow(b, occ, used, rows)
    ensures compared == UnusedWithin(rows, used, occ - b.window, occ + b.window)
  {
    hide UnusedWithin, BestRow, BestSoFar, Ordered;
    NothingLater(b, occ, used, rows, best);
  }

  /**
    The indexed search: only the 2 * window + 1 days a cycle can draw from are examined, yet the
    row found is the one the scan of every loaded row would prefer.
   */
  method BestMatch(b: Bill, byDay: map<int, seq<Row>>, occ: int, used: set<int>, ghost rows: seq<Row>)
    returns (best: Option<Row>, compared: nat)
    requires Ordered(rows) && Indexes(byDay, rows)
    ensures best == BestRow(b, occ, used, rows)
    ensures compared == UnusedWithin(rows, used, occ - b.window, occ + b.window)
  {
    hide Matches, DayRows, UnusedWithin, UnusedIn, BestRow, Searching, Ordered, Indexes, OnDay;
    best, compared := None, 0;
    var bestGap := 0;
    var w := b.window;
    SearchStarts(b, occ, used, rows);
    var d: int := -w;
    while d <= w
      invariant -w <= d <= w + 1
      invariant Searching(b, occ, used, rows, d, [], best, bestGap, compared)
    {
      var day := OnDay(byDay, occ + d);
      IndexedDay(byDay, rows, occ + d);
      assert day[..0] == [];
      for k := 0 to |day|
        invariant Searching(b, occ, used, rows, d, day[..k], best, bestGap, compared)
      {
        var c := day[k];
        SearchRow(b, occ, used, rows, d, day, k, best, bestGap, compared);
        if c.id !in used {
          compared := compared + 1;
          if Matches(b, c, occ) {
            var gap := AbsInt(d);
            if best.None? || gap < bestGap {
              best, bestGap := Some(c), gap;
            }
          }
        }
      }
      assert day[..|day|] == day;
      SearchNextDay(b, occ, used, rows, d, best, bestGap, compared);
      d := d + 1;
    }
    SearchEnds(b, occ, used, rows, best, bestGap, compared);
  }

  /** Loading only a window that covers the cycle's own days loses nothing. */
  lemma WindowSuffices(b: Bill, occ: int, used: set<int>, ledger: seq<Row>, from: int, to: int)
    requires Ordered(ledger)
    requires from <= occ - b.window && occ + b.window <= to
    ensures BestRow(b, occ, used, Loaded(ledger, from, to)) == BestRow(b, occ, used, ledger)
  {
    var rows := Loaded(ledger, from, to);
    var best := BestRow(b, occ, used, ledger);
    LoadedOrdered(ledger, from, to);
    if best.None? {
      forall r | r in rows ensures !Eligible(b, occ, used, r) {
        if Eligible(b, occ, used, r) {
          BestRowIsBest(b, occ, used, ledger, r);
        }
      }
      BestRowNone(b, occ, used, rows);
    } else {
      forall r | r in rows && Eligible(b, occ, used, r) ensures r == best.value || !Closer(occ, r, best.value) {
        BestRowIsBest(b, occ, used, ledger, r);
      }
      BestRowUnique(b, occ, used, rows, best.value);
    }
  }
}
