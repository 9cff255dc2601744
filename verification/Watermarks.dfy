/** The posted watermark over runs of claims and ingests, and the scrape windows it drives. */
module Watermarks {
  import opened Prelude
  import opened Ingest
  import opened IngestProperties

  datatype SyncWindow = SyncWindow(from: int, to: int, backfill: bool)

  /** A full backfill without a watermark; otherwise from the overlap before it. */
  function ComputeWindow(watermark: Option<int>, earliest: int, today: int, overlapDays: int): SyncWindow {
    if watermark.None? then SyncWindow(earliest, today, true)
    else SyncWindow(watermark.value - overlapDays, today, false)
  }

  /** The planning loop of a claim: one window per account of the source, in order. */
  method PlanWindows(accounts: seq<(string, Option<int>)>, earliest: int, today: int, overlapDays: int)
    returns (windows: seq<(string, SyncWindow)>)
    ensures |windows| == |accounts|
    ensures forall i :: 0 <= i < |accounts| ==>
      && windows[i].0 == accounts[i].0 && windows[i].1.to == today
      && (accounts[i].1.None? <==> windows[i].1.backfill)
      && (accounts[i].1.None? ==> windows[i].1.from == earliest)
      && (accounts[i].1.Some? ==> windows[i].1.from + overlapDays == accounts[i].1.value)
  {
    windows := [];
    for i := 0 to |accounts|
      invariant |windows| == i
      invariant forall k :: 0 <= k < i ==>
                windows[k] == (accounts[k].0, ComputeWindow(accounts[k].1, earliest, today, overlapDays))
    {
      windows := windows + [(accounts[i].0, ComputeWindow(accounts[i].1, earliest, today, overlapDays))];
    }
  }

  function WatermarkOf(db: Db, k: AccountKey): Option<int> {
    if k in db.accounts then db.accounts[k].watermark else None
  }

  /** The account is one a landed payload advances. */
  predicate Targets(p: Payload, k: AccountKey) {
    && p.window.Some? && p.window.value.to.Some?
    && k.0 == p.source
    && (if p.window.value.account != "" then k.1 == p.window.value.account else k.1 in Scanned(p))
  }

  /** The day a landed payload claims completeness through. */
  function Through(p: Payload, today: int): int
    requires Commits(p) && p.window.Some? && p.window.value.to.Some?
  {
    Min(p.window.value.to.value.value, today)
  }

  /** One ingest moves a watermark exactly when it lands and targets the account, and only forward. */
  lemma WatermarkStep(db: Db, p: Payload, today: int, k: AccountKey)
    ensures var before, after := WatermarkOf(db, k), WatermarkOf(AfterIngest(db, p, today), k);
            after == if Commits(p) && Targets(p, k)
                     then Some(if before.Some? then Max(before.value, Through(p, today)) else Through(p, today))
                     else before
  {
    if Commits(p) {
      hide AccountsTouched, AdvanceWatermarks, Targets, DatesParse, InsertPosted, ReplacePending, AddSnapshots;
      var touched := AccountsTouched(db.accounts, p);
      TouchedKeeps(db.accounts, p, k);
      AdvanceStep(touched, p, today, k);
    }
  }

  lemma AdvanceStep(touched: map<AccountKey, Account>, p: Payload, today: int, k: AccountKey)
    requires Commits(p)
    requires k.0 == p.source && k.1 in Scanned(p) ==> k in touched
    ensures var out := AdvanceWatermarks(touched, p, today);
            var before := if k in touched then touched[k].watermark else None;
            (if k in out then out[k].watermark else None) ==
              if Targets(p, k) then Some(if before.Some? then Max(before.value, Through(p, today))
                                         else Through(p, today))
              else before
  {
    hide Scanned, DatesParse;
  }

  /** Over any run a watermark never decreases, and a day it moved to is not past the day it moved on. */
  lemma {:induction false} WatermarkMonotone(db: Db, attempts: seq<Attempt>, k: AccountKey, latest: int)
    requires forall i :: 0 <= i < |attempts| ==> attempts[i].today <= latest
    ensures var before, after := WatermarkOf(db, k), WatermarkOf(Run(db, attempts), k);
            && (before.Some? ==> after.Some? && before.value <= after.value)
            && (after.Some? ==> after == before || after.value <= latest)
  {
    hide AfterIngest, Commits, Targets;
    if attempts != [] {
      var n := |attempts| - 1;
      WatermarkMonotone(db, attempts[..n], k, latest);
      assert attempts[n].today <= latest;
      WatermarkStep(Run(db, attempts[..n]), attempts[n].p, attempts[n].today, k);
    }
  }

  // ----- every day is scraped -----

  /** Claims hand out windows; ingests land what some claim, not necessarily the last, planned. */
  datatype Event = Claim(earliest: int, today: int) | Land(p: Payload, from: int, today: int)

  /** One account's view: the database, the windows planned for it, the ranges landed for it. */
  datatype SyncState = SyncState(db: Db, planned: set<SyncWindow>, landed: seq<(int, int)>)

  function Step(s: SyncState, k: AccountKey, overlapDays: int, e: Event): SyncState {
    match e
    case Claim(earliest, today) =>
      s.(planned := s.planned + {ComputeWindow(WatermarkOf(s.db, k), earliest, today, overlapDays)})
    case Land(p, from, today) =>
      SyncState(AfterIngest(s.db, p, today), s.planned,
                if Commits(p) && Targets(p, k) then s.landed + [(from, Through(p, today))] else s.landed)
  }

  function Sync(k: AccountKey, overlapDays: int, events: seq<Event>): SyncState {
    if events == [] then SyncState(EMPTY_DB, {}, [])
    else Step(Sync(k, overlapDays, events[..|events| - 1]), k, overlapDays, events[|events| - 1])
  }

  /**
    A payload for the account covers a planned window, and a backfill claim reaches back at least to
    the day the run began on.
   */
  predicate Honest(s: SyncState, k: AccountKey, e: Event, began: int) {
    && began <= e.today
    && (e.Claim? && WatermarkOf(s.db, k).None? ==> e.earliest <= began)
    && (e.Land? && Commits(e.p) && Targets(e.p, k) ==>
          exists w :: w in s.planned && e.from <= w.from && w.to <= e.p.window.value.to.value.value)
  }

  predicate AllHonest(k: AccountKey, overlapDays: int, events: seq<Event>, began: int) {
    forall i :: 0 <= i < |events| ==> Honest(Sync(k, overlapDays, events[..i]), k, events[i], began)
  }

  predicate CoveredDay(landed: seq<(int, int)>, day: int) {
    exists i :: 0 <= i < |landed| && landed[i].0 <= day <= landed[i].1
  }

  ghost predicate NoGaps(s: SyncState, k: AccountKey, began: int) {
    var watermark := WatermarkOf(s.db, k);
    && (watermark.None? <==> s.landed == [])
    && (watermark.Some? ==> began <= watermark.value)
    && (watermark.Some? ==> forall day :: s.landed[0].0 <= day <= watermark.value ==> CoveredDay(s.landed, day))
    && (forall w :: w in s.planned ==>
        began <= w.to && (w.from <= began || (watermark.Some? && w.from <= watermark.value)))
  }

  lemma NoGapsStep(s: SyncState, k: AccountKey, overlapDays: int, e: Event, began: int)
    requires 0 <= overlapDays && NoGaps(s, k, began) && Honest(s, k, e, began)
    ensures NoGaps(Step(s, k, overlapDays, e), k, began)
  {
    hide AfterIngest, Scanned, DatesParse;
    var after := Step(s, k, overlapDays, e);
    if e.Land? {
      WatermarkStep(s.db, e.p, e.today, k);
      if Commits(e.p) && Targets(e.p, k) {
        var w :| w in s.planned && e.from <= w.from && w.to <= e.p.window.value.to.value.value;
        var through := Through(e.p, e.today);
        forall day | after.landed[0].0 <= day <= WatermarkOf(after.db, k).value ensures CoveredDay(after.landed, day) {
          if s.landed != [] && day <= WatermarkOf(s.db, k).value {
            assert after.landed[0] == s.landed[0];
            assert CoveredDay(s.landed, day);
            var i :| 0 <= i < |s.landed| && s.landed[i].0 <= day <= s.landed[i].1;
            assert after.landed[i] == s.landed[i];
          } else {
            assert after.landed[|s.landed|] == (e.from, through);
          }
        }
      }
    }
  }

  /**
    Every day from the first landed backfill's start through the watermark lies in some landed
    window, whatever the interleaving of claims and ingests.
   */
  lemma {:induction false} EveryDayScraped(k: AccountKey, overlapDays: int, events: seq<Event>, began: int)
    requires 0 <= overlapDays && AllHonest(k, overlapDays, events, began)
    ensures NoGaps(Sync(k, overlapDays, events), k, began)
  {
    if events != [] {
      var n := |events| - 1;
      assert events[..|events|] == events;
      forall i | 0 <= i < n ensures Honest(Sync(k, overlapDays, events[..n][..i]), k, events[..n][i], began) {
        assert events[..n][..i] == events[..i];
      }
      EveryDayScraped(k, overlapDays, events[..n], began);
      NoGapsStep(Sync(k, overlapDays, events[..n]), k, overlapDays, events[n], began);
    }
  }

  // ----- two syncs of one account -----

  const SAVINGS: AccountKey := ("s", "a")

  /** Account a of source s, declared, with nothing else, complete to a day. */
  function Clean(end: int): Payload {
    Payload("s", [AccountIn("a", BankDetails("", "", "", "", "", false), None)], [], None, [],
            Some(SyncedWindow("", Some(Some(end)))), false)
  }

  lemma CleanLands(db: Db, end: int)
    ensures Commits(Clean(end)) && Targets(Clean(end), SAVINGS)
    ensures WatermarkOf(db, SAVINGS).None? || WatermarkOf(db, SAVINGS).value < end ==>
              WatermarkOf(AfterIngest(db, Clean(end), end), SAVINGS) == Some(end)
  {
    var p := Clean(end);
    assert DatesParse(p);
    assert p.accounts[0].name in Scanned(p);
    WatermarkStep(db, p, end, SAVINGS);
    hide AfterIngest;
  }

  function FirstSync(): SyncState {
    Step(Step(SyncState(EMPTY_DB, {}, []), SAVINGS, 3, Claim(0, 10)), SAVINGS, 3, Land(Clean(10), 0, 10))
  }

  lemma FirstSyncLands()
    ensures WatermarkOf(FirstSync().db, SAVINGS) == Some(10)
    ensures FirstSync().landed == [(0, 10)] && FirstSync().planned == {SyncWindow(0, 10, true)}
    ensures var claimed := Step(SyncState(EMPTY_DB, {}, []), SAVINGS, 3, Claim(0, 10));
            && Honest(SyncState(EMPTY_DB, {}, []), SAVINGS, Claim(0, 10), 5)
            && Honest(claimed, SAVINGS, Land(Clean(10), 0, 10), 5)
  {
    hide AfterIngest, Commits, Targets;
    CleanLands(EMPTY_DB, 10);
    var claimed := Step(SyncState(EMPTY_DB, {}, []), SAVINGS, 3, Claim(0, 10));
    assert SyncWindow(0, 10, true) in claimed.planned;
  }

  /**
    What the theorem is about does occur: a backfill claimed and landed on day 10, and the window from the
    overlap of three days before it claimed and landed on day 20, take the watermark to 10 and then to 20.
   */
  lemma TwoSyncsCover()
    ensures var claimed := Step(FirstSync(), SAVINGS, 3, Claim(0, 20));
            var landed := Step(claimed, SAVINGS, 3, Land(Clean(20), 7, 20));
            && Honest(FirstSync(), SAVINGS, Claim(0, 20), 5) && Honest(claimed, SAVINGS, Land(Clean(20), 7, 20), 5)
            && claimed.planned == {SyncWindow(0, 10, true), SyncWindow(7, 20, false)}
            && WatermarkOf(landed.db, SAVINGS) == Some(20) && landed.landed == [(0, 10), (7, 20)]
  {
    hide AfterIngest, Commits, Targets, FirstSync;
    FirstSyncLands();
    CleanLands(FirstSync().db, 20);
    var claimed := Step(FirstSync(), SAVINGS, 3, Claim(0, 20));
    assert SyncWindow(7, 20, false) in claimed.planned;
  }
}
