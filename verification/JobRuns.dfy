/**
  Rows of job_runs and the maintenance sweeps that look after them: re-sending queued runs whose
  message was lost, failing runs past their lease, expiring refreshes nobody approved. Times are seconds.
 */
module JobRuns {
  import opened Prelude
  import Artifacts

  const QUEUED_REDRIVE_AFTER: int := 5 * 60
  const RUNNING_LEASE: int := 30 * 60
  const ACK_GATED_RUNNING_LEASE: int := 4 * 3600
  const AWAITING_ACK_TTL: int := 12 * 3600

  datatype Status = Queued | AwaitingAck | Running | Succeeded | Failed | Cancelled

  datatype Trigger = Schedule | Manual

  /** gated marks a run of an ack-gated job (the finance sync): an outside runner does its work. */
  datatype Run = Run(job: nat, gated: bool, trigger: Trigger, scheduledFor: int, createdAt: int,
                     status: Status, startedAt: Option<int>, claimableAt: Option<int>, finishedAt: Option<int>,
                     error: string, runner: Option<string>)

  /** 0: waiting to be taken; 1: taken; 2: over. */
  function Phase(status: Status): nat {
    match status
    case Queued => 0
    case AwaitingAck => 0
    case Running => 1
    case _ => 2
  }

  predicate Terminal(status: Status) {
    Phase(status) == 2
  }

  function Started(r: Run, now: int): Run {
    r.(status := Running, startedAt := Some(now))
  }

  /** A closing write. Without a reason the error column is left alone. */
  function Closed(r: Run, to: Status, reason: Option<string>, now: int): Run {
    r.(status := to, finishedAt := Some(now), error := if reason.None? then r.error else reason.value)
  }

  /** A run taken or closed by an outside runner carries its name. */
  function By(r: Run, runner: string): Run {
    r.(runner := Some(runner))
  }

  function Verdict(ok: bool): (st: Status)
    ensures Terminal(st)
  {
    if ok then Succeeded else Failed
  }

  /** A row as it is inserted: an ack-gated run waits for approval, any other for the worker. */
  function NewRun(job: nat, gated: bool, trigger: Trigger, tick: int, now: int): Run {
    Run(job, gated, trigger, tick, now, if gated then AwaitingAck else Queued, None, None, None, "", None)
  }

  predicate IsFor(r: Run, job: nat, tick: int) {
    r.job == job && r.scheduledFor == tick
  }

  /** The unique index on (scheduled_for, job) already has this pair. */
  predicate Taken(runs: seq<Run>, job: nat, tick: int) {
    exists k :: 0 <= k < |runs| && IsFor(runs[k], job, tick)
  }

  ghost predicate OneRunPerTick(runs: seq<Run>) {
    forall i, j :: 0 <= i < j < |runs| && runs[i].job == runs[j].job ==> runs[i].scheduledFor != runs[j].scheduledFor
  }

  predicate Claimable(r: Run) {
    r.gated && r.status == AwaitingAck && r.claimableAt.Some?
  }

  /** Oldest approval first, then lowest id. */
  predicate Sooner(runs: seq<Run>, k: nat, j: nat)
    requires k < |runs| && j < |runs| && Claimable(runs[k]) && Claimable(runs[j])
  {
    var a, b := runs[k].claimableAt.value, runs[j].claimableAt.value;
    a < b || (a == b && k < j)
  }

  predicate OldestClaimable(runs: seq<Run>, k: nat) {
    && k < |runs| && Claimable(runs[k])
    && forall j: nat :: j < |runs| && Claimable(runs[j]) && j != k ==> Sooner(runs, k, j)
  }

  predicate OldestUpTo(runs: seq<Run>, n: nat, k: nat) {
    && k < n <= |runs| && Claimable(runs[k])
    && forall j: nat :: j < n && Claimable(runs[j]) && j != k ==> Sooner(runs, k, j)
  }

  datatype RunError = Unauthorized | Unprocessable | Missing | Foreign | Conflict

  // ----- what each sweep is after -----

  predicate Before(t: Option<int>, cutoff: int) {
    t.Some? && t.value < cutoff
  }

  /** Queued so long that its message must have been lost. */
  predicate Stranded(r: Run, now: int) {
    r.status == Queued && r.trigger == Schedule && r.createdAt < now - QUEUED_REDRIVE_AFTER
  }

  predicate LeaseLapsed(r: Run, now: int) {
    r.status == Running && !r.gated && r.trigger == Schedule && Before(r.startedAt, now - RUNNING_LEASE)
  }

  predicate GatedLeaseLapsed(r: Run, now: int) {
    r.status == Running && r.gated && Before(r.startedAt, now - ACK_GATED_RUNNING_LEASE)
  }

  predicate Unapproved(r: Run, now: int) {
    r.status == AwaitingAck && r.gated && r.createdAt < now - AWAITING_ACK_TTL
  }

  /** Several actors write the status column; these two sweeps re-check it row by row. */
  datatype Sweep = ReapGated | ExpireUnapproved

  function FromOf(sweep: Sweep): Status { if sweep == ReapGated then Running else AwaitingAck }

  function ToOf(sweep: Sweep): Status { if sweep == ReapGated then Failed else Cancelled }

  function ReasonOf(sweep: Sweep): Option<string> {
    if sweep == ReapGated then Some("reaped: ack-gated run exceeded extended running lease")
    else Some("expired: awaiting approval past TTL")
  }

  predicate Caught(sweep: Sweep, r: Run, now: int) {
    if sweep == ReapGated then GatedLeaseLapsed(r, now) else Unapproved(r, now)
  }

  const REAPED: Option<string> := Some("reaped: exceeded running lease")

  /** The ids, in id order, of the rows a query matches. */
  function Select(runs: seq<Run>, wanted: Run -> bool): (ids: seq<nat>)
    ensures forall k: nat :: k in ids <==> k < |runs| && wanted(runs[k])
    ensures forall i, j :: 0 <= i < j < |ids| ==> ids[i] < ids[j]
  {
    if runs == [] then []
    else
      var n := |runs| - 1;
      var ids := Select(runs[..n], wanted);
      assert forall i :: 0 <= i < |ids| ==> ids[i] in ids;
      if wanted(runs[n]) then ids + [n] else ids
  }

  // ----- a whole maintenance pass on one row -----

  function SweptRow(r: Run, now: int): Run {
    if LeaseLapsed(r, now) then Closed(r, Failed, REAPED, now)
    else if GatedLeaseLapsed(r, now) then Closed(r, Failed, ReasonOf(ReapGated), now)
    else if Unapproved(r, now) then Closed(r, Cancelled, ReasonOf(ExpireUnapproved), now)
    else r
  }

  /** The one bulk update: ordinary scheduled runs past their lease. */
  function BulkReaped(runs: seq<Run>, now: int): (out: seq<Run>)
    ensures |out| == |runs|
  {
    seq(|runs|, k requires 0 <= k < |runs| =>
      if LeaseLapsed(runs[k], now) then Closed(runs[k], Failed, REAPED, now) else runs[k])
  }

  function StrandedIds(runs: seq<Run>, now: int): seq<nat> {
    Select(runs, r => Stranded(r, now))
  }

  /** The ids to send again, without those the queue refuses. */
  function Resent(ids: seq<nat>, refused: set<nat>): (out: seq<nat>)
    ensures forall k :: k in out <==> k in ids && k !in refused
  {
    if ids == [] then []
    else
      var out := Resent(ids[..|ids| - 1], refused);
      if ids[|ids| - 1] in refused then out else out + [ids[|ids| - 1]]
  }

  /** What is sent again: scheduled runs queued for over five minutes, in id order, but those refused. */
  lemma RedrivenExactly(runs: seq<Run>, now: int, refused: set<nat>)
    ensures var sent := Resent(StrandedIds(runs, now), refused);
            && (forall k: nat :: k in sent <==>
                  && k < |runs| && k !in refused
                  && runs[k].status == Queued && runs[k].trigger == Schedule && runs[k].createdAt + 300 < now)
            && InOrder(sent)
  {
    ResentInOrder(StrandedIds(runs, now), refused);
  }

  lemma SentNothing(ids: seq<nat>, refused: set<nat>)
    ensures Resent(ids[..0], refused) == []
  {
  }

  lemma SentNext(ids: seq<nat>, i: nat, refused: set<nat>)
    requires i < |ids|
    ensures Resent(ids[..i + 1], refused) == Resent(ids[..i], refused) + if ids[i] in refused then [] else [ids[i]]
  {
    assert ids[..i + 1][..i] == ids[..i];
  }

  ghost predicate InOrder(ids: seq<nat>) {
    forall i, j :: 0 <= i < j < |ids| ==> ids[i] < ids[j]
  }

  lemma {:induction false} ResentInOrder(ids: seq<nat>, refused: set<nat>)
    requires InOrder(ids)
    ensures InOrder(Resent(ids, refused))
  {
    if ids != [] {
      var n := |ids| - 1;
      var out := Resent(ids[..n], refused);
      ResentInOrder(ids[..n], refused);
      forall i | 0 <= i < |out| ensures out[i] < ids[n] {
        assert out[i] in out;
        var a :| 0 <= a < n && ids[a] == out[i];
      }
      assert InOrder(out + [ids[n]]);
    }
  }

  /**
    The pass by the clock, in seconds. Half an hour fails a scheduled ordinary run, four hours an ack-gated
    one; twelve hours cancel a run nobody approved. Nothing else is touched, and of a closed row only how it ended.
   */
  ghost predicate SweptByClock(r: Run, now: int) {
    var out := SweptRow(r, now);
    var failed := && r.status == Running && r.startedAt.Some?
                  && if r.gated then r.startedAt.value + 14400 < now
                     else r.trigger == Schedule && r.startedAt.value + 1800 < now;
    var cancelled := r.status == AwaitingAck && r.gated && r.createdAt + 43200 < now;
    && (failed ==> out.status == Failed)
    && (cancelled ==> out.status == Cancelled)
    && (failed || cancelled ==>
          && out == r.(status := out.status, finishedAt := Some(now), error := out.error)
          && out.error == (if cancelled then "expired: awaiting approval past TTL"
                           else if r.gated then "reaped: ack-gated run exceeded extended running lease"
                           else "reaped: exceeded running lease"))
    && (!failed && !cancelled ==> out == r)
  }

  lemma SweptExactly(r: Run, now: int)
    ensures SweptByClock(r, now)
  {
  }

  /** Any number of passes over one row. */
  function Passes(r: Run, times: seq<int>): Run {
    if times == [] then r else SweptRow(Passes(r, times[..|times| - 1]), times[|times| - 1])
  }

  /** However often the sweeps run, an ack-gated run taken at t is left alone through t + 4 h. */
  lemma {:induction false} GatedRunHasFourHours(r: Run, times: seq<int>)
    requires r.gated && r.status == Running && r.startedAt.Some?
    requires forall i :: 0 <= i < |times| ==> times[i] <= r.startedAt.value + 4 * 60 * 60
    ensures Passes(r, times) == r
  {
    if times != [] {
      GatedRunHasFourHours(r, times[..|times| - 1]);
      SweptExactly(r, times[|times| - 1]);
    }
  }

  /** And the first pass after that fails it for good, whatever passes come before and after. */
  lemma {:induction false} GatedRunIsFailedAfter(r: Run, times: seq<int>, i: nat)
    requires r.gated && r.status == Running && r.startedAt.Some?
    requires i < |times| && r.startedAt.value + 4 * 60 * 60 < times[i]
    ensures Passes(r, times).status == Failed
  {
    var n := |times| - 1;
    RunningOrFailed(r, times[..n]);
    if i < n {
      GatedRunIsFailedAfter(r, times[..n], i);
    }
    SweptExactly(Passes(r, times[..n]), times[n]);
  }

  lemma {:induction false} RunningOrFailed(r: Run, times: seq<int>)
    requires r.gated && r.status == Running && r.startedAt.Some?
    ensures Passes(r, times) == r || Passes(r, times).status == Failed
  {
    if times != [] {
      RunningOrFailed(r, times[..|times| - 1]);
      SweptExactly(Passes(r, times[..|times| - 1]), times[|times| - 1]);
    }
  }

  predicate InRange(ids: seq<nat>, n: nat) {
    forall k :: k in ids ==> k < n
  }

  predicate Distinct(ids: seq<nat>) {
    forall i, j :: 0 <= i < j < |ids| ==> ids[i] != ids[j]
  }

  /** The rows after a sweep has visited these ids. */
  function CloseEach(runs: seq<Run>, ids: seq<nat>, sweep: Sweep, now: int): (out: seq<Run>)
    ensures |out| == |runs|
    ensures forall k :: 0 <= k < |runs| ==>
      out[k] == if k in ids && runs[k].status == FromOf(sweep)
                then Closed(runs[k], ToOf(sweep), ReasonOf(sweep), now) else runs[k]
  {
    seq(|runs|, k requires 0 <= k < |runs| =>
      if k in ids && runs[k].status == FromOf(sweep) then Closed(runs[k], ToOf(sweep), ReasonOf(sweep), now)
      else runs[k])
  }

  /** How many of the ids name a row with the status. */
  function Having(runs: seq<Run>, ids: seq<nat>, status: Status): (n: nat)
    ensures n <= |ids|
  {
    if ids == [] then 0
    else
      var last := ids[|ids| - 1];
      Having(runs, ids[..|ids| - 1], status) + if last < |runs| && runs[last].status == status then 1 else 0
  }

  lemma OneMoreClosed(runs: seq<Run>, ids: seq<nat>, i: nat, sweep: Sweep, now: int)
    requires i < |ids| && InRange(ids, |runs|) && Distinct(ids)
    ensures var k, before := ids[i], CloseEach(runs, ids[..i], sweep, now);
            && k < |runs| && before[k] == runs[k]
            && CloseEach(runs, ids[..i + 1], sweep, now)
               == if runs[k].status == FromOf(sweep)
                 then before[k := Closed(runs[k], ToOf(sweep), ReasonOf(sweep), now)] else before
  {
    hide Closed, ToOf, ReasonOf, FromOf;
    assert ids[i] in ids;
    assert ids[..i + 1] == ids[..i] + [ids[i]] && ids[i] !in ids[..i];
  }

  lemma OneMoreHaving(runs: seq<Run>, ids: seq<nat>, i: nat, status: Status)
    requires i < |ids|
    ensures Having(runs, ids[..i + 1], status)
            == Having(runs, ids[..i], status) + if ids[i] < |runs| && runs[ids[i]].status == status then 1 else 0
  {
    assert ids[..i + 1][..i] == ids[..i];
  }

  lemma NothingClosedYet(runs: seq<Run>, sweep: Sweep, now: int)
    ensures CloseEach(runs, [], sweep, now) == runs && Having(runs, [], FromOf(sweep)) == 0
  {
  }

  class RunStore {
    var runs: seq<Run>
    var queue: seq<nat>
    var artifacts: Artifacts.Table

    constructor ()
      ensures runs == [] && queue == [] && artifacts == map[]
    {
      runs, queue, artifacts := [], [], map[];
    }

    /** A message the queue refuses is passed over; the others still go out. */
    method RedriveQueued(now: int, refused: set<nat>)
      modifies this`queue
      ensures queue == old(queue) + Resent(StrandedIds(runs, now), refused)
      ensures forall k: nat :: k in queue[|old(queue)|..] <==>
                && k < |runs| && k !in refused
                && runs[k].status == Queued && runs[k].trigger == Schedule && runs[k].createdAt + 300 < now
    {
      hide Resent, StrandedIds;
      var ids := StrandedIds(runs, now);
      SentNothing(ids, refused);
      for i := 0 to |ids|
        invariant queue == old(queue) + Resent(ids[..i], refused)
      {
        SentNext(ids, i, refused);
        if ids[i] !in refused {
          queue := queue + [ids[i]];
        }
      }
      assert ids[..|ids|] == ids;
      RedrivenExactly(runs, now, refused);
    }

    /** One row at a time, each write re-asserting the status the query saw. */
    method CloseStuck(ids: seq<nat>, sweep: Sweep, now: int) returns (closed: nat)
      requires InRange(ids, |runs|) && Distinct(ids)
      modifies this`runs
      ensures runs == CloseEach(old(runs), ids, sweep, now)
      ensures closed == Having(old(runs), ids, FromOf(sweep))
    {
      hide Closed, ToOf, ReasonOf, FromOf, CloseEach, Having, InRange, Distinct;
      NothingClosedYet(runs, sweep, now);
      assert ids[..0] == [];
      closed := 0;
      for i := 0 to |ids|
        invariant runs == CloseEach(old(runs), ids[..i], sweep, now)
        invariant closed == Having(old(runs), ids[..i], FromOf(sweep))
      {
        var k := ids[i];
        OneMoreClosed(old(runs), ids, i, sweep, now);
        OneMoreHaving(old(runs), ids, i, FromOf(sweep));
        if runs[k].status == FromOf(sweep) {
          runs := runs[k := Closed(runs[k], ToOf(sweep), ReasonOf(sweep), now)];
          closed := closed + 1;
        }
      }
      assert ids[..|ids|] == ids;
    }

    /** Two buckets: a bulk update for ordinary runs, a row-wise one for ack-gated runs. */
    method ReapRunning(now: int)
      modifies this`runs
      ensures |runs| == |old(runs)|
      ensures forall k :: 0 <= k < |runs| ==>
        runs[k] == if old(runs)[k].status == Running then SweptRow(old(runs)[k], now) else old(runs)[k]
      ensures forall k :: 0 <= k < |runs| ==>
        (runs[k] != old(runs)[k] <==>
          && old(runs)[k].status == Running && old(runs)[k].startedAt.Some?
          && if old(runs)[k].gated then old(runs)[k].startedAt.value + 14400 < now
             else old(runs)[k].trigger == Schedule && old(runs)[k].startedAt.value + 1800 < now)
      ensures forall k :: 0 <= k < |runs| && runs[k] != old(runs)[k] ==>
        runs[k].status == Failed && runs[k].finishedAt == Some(now)
    {
      runs := BulkReaped(runs, now);
      var stuck := Select(runs, r => GatedLeaseLapsed(r, now));
      var n := CloseStuck(stuck, ReapGated, now);
      forall k | 0 <= k < |runs| ensures SweptByClock(old(runs)[k], now) {
        SweptExactly(old(runs)[k], now);
      }
    }

    method ExpireAwaitingAck(now: int)
      modifies this`runs
      ensures |runs| == |old(runs)|
      ensures forall k :: 0 <= k < |runs| ==>
        runs[k] == if old(runs)[k].status == AwaitingAck then SweptRow(old(runs)[k], now) else old(runs)[k]
      ensures forall k :: 0 <= k < |runs| ==>
        (runs[k] != old(runs)[k] <==>
          old(runs)[k].status == AwaitingAck && old(runs)[k].gated && old(runs)[k].createdAt + 43200 < now)
      ensures forall k :: 0 <= k < |runs| && runs[k] != old(runs)[k] ==>
        runs[k].status == Cancelled && runs[k].finishedAt == Some(now)
    {
      var expired := Select(runs, r => Unapproved(r, now));
      var n := CloseStuck(expired, ExpireUnapproved, now);
      forall k | 0 <= k < |runs| ensures SweptByClock(old(runs)[k], now) {
        SweptExactly(old(runs)[k], now);
      }
    }

    method SweepArtifacts(now: int)
      modifies this`artifacts
      ensures artifacts == Artifacts.Swept(old(artifacts), now)
      ensures artifacts.Keys == old(artifacts).Keys
      ensures forall i :: i in artifacts ==>
                var a := old(artifacts)[i];
                if a.status == Artifacts.Pending && a.expiresAt.Some? && a.expiresAt.value < now
                then artifacts[i] == old(artifacts)[i].(status := Artifacts.Expired)
                else artifacts[i] == old(artifacts)[i]
    {
      artifacts := Artifacts.Swept(artifacts, now);
    }

    /**
      The worker's handling of one message, uninterrupted: claim the run if it is queued, run the
      handler, record the outcome (saved is whether that write got through). Anything else is a
      duplicate. Only a claim the database refuses leaves the message for redelivery.
     */
    method ProcessScheduled(id: nat, claimFails: bool, ok: bool, saved: bool, error: Option<string>, started: int,
                            finished: int)
      returns (executed: bool, acked: bool)
      modifies this`runs
      ensures acked <==> !claimFails
      ensures executed <==> acked && id < |old(runs)| && old(runs)[id].status == Queued
      ensures !executed ==> runs == old(runs)
      ensures executed ==> var r := old(runs)[id].(status := Running, startedAt := Some(started));
                           runs == old(runs)[id := if saved then Closed(r, Verdict(ok), error, finished) else r]
      ensures executed && saved ==> && runs[id].status == (if ok then Succeeded else Failed)
                                    && runs[id].finishedAt == Some(finished)
    {
      executed, acked := false, false;
      if claimFails {
        return;
      }
      if id < |runs| && runs[id].status == Queued {
        runs := runs[id := Started(runs[id], started)];
        executed := true;
        if saved {
          runs := runs[id := Closed(runs[id], Verdict(ok), error, finished)];
        }
      }
      acked := true;
    }

    /** The shared token gates it, and an unset one lets nobody in. */
    method AckFinanceSync(configured: string, token: string, id: nat, now: int)
      returns (r: Result<bool, RunError>)
      modifies this`runs
      ensures r == if configured == "" || configured != token then Err(Unauthorized)
                   else if id < |old(runs)| && old(runs)[id].gated then Ok(true) else Err(Missing)
      ensures r.Ok? && old(runs)[id].status == AwaitingAck ==> runs == Approved(old(runs), id, now)
      ensures !(r.Ok? && old(runs)[id].status == AwaitingAck) ==> runs == old(runs)
    {
      if configured == "" || configured != token {
        return Err(Unauthorized);
      }
      if id >= |runs| || !runs[id].gated {
        return Err(Missing);
      }
      if runs[id].status == AwaitingAck {
        runs := runs[id := runs[id].(claimableAt := Some(now))];
      }
      return Ok(true);
    }

    /** Leases the oldest approved run; the query scans the rows. */
    method ClaimFinanceSync(runner: string, now: int) returns (leased: Option<nat>)
      modifies this`runs
      ensures leased.None? ==> runs == old(runs) && forall k :: 0 <= k < |runs| ==> !Claimable(runs[k])
      ensures leased.Some? ==> && OldestClaimable(old(runs), leased.value)
                               && var r := old(runs)[leased.value];
                                  runs == old(runs)[leased.value := r.(status := Running, startedAt := Some(now),
                                                                       runner := Some(runner))]
    {
      leased := None;
      for i := 0 to |runs|
        invariant leased.None? ==> forall k :: 0 <= k < i ==> !Claimable(runs[k])
        invariant leased.Some? ==> OldestUpTo(runs, i, leased.value)
      {
        if Claimable(runs[i]) && (leased.None? || Sooner(runs, i, leased.value)) {
          leased := Some(i);
        }
      }
      if leased.Some? {
        runs := runs[leased.value := By(Started(runs[leased.value], now), runner)];
      }
    }

    /**
      Only a running run is closed; repeating the same outcome is a success that changes nothing. A
      missing run id and an outcome that is neither word are None.
     */
    method CompleteFinanceSync(run: Option<nat>, outcome: Option<bool>, error: Option<string>, runner: string, now: int)
      returns (r: Result<bool, RunError>)
      modifies this`runs
      ensures run.None? || outcome.None? <==> r == Err(Unprocessable)
      ensures run.Some? && outcome.Some? ==>
        r == if run.value >= |old(runs)| then Err(Missing)
             else if !old(runs)[run.value].gated then Err(Foreign)
             else if old(runs)[run.value].status in {Running, Verdict(outcome.value)} then Ok(true) else Err(Conflict)
      ensures r.Ok? && old(runs)[run.value].status == Running ==>
        var reason := if outcome.value then None else error;
        var r := old(runs)[run.value];
        runs == old(runs)[run.value := r.(status := if outcome.value then Succeeded else Failed,
                                          finishedAt := Some(now), runner := Some(runner),
                                          error := reason.GetOr(r.error))]
      ensures !(r.Ok? && old(runs)[run.value].status == Running) ==> runs == old(runs)
    {
      if run.None? || outcome.None? {
        return Err(Unprocessable);
      }
      var id, ok := run.value, outcome.value;
      if id >= |runs| {
        return Err(Missing);
      }
      if !runs[id].gated {
        return Err(Foreign);
      }
      if runs[id].status != Running {
        return if runs[id].status == Verdict(ok) then Ok(true) else Err(Conflict);
      }
      var reason := if ok then None else error;
      runs := runs[id := By(Closed(runs[id], Verdict(ok), reason, now), runner)];
      return Ok(true);
    }

    /** The pass every tick and every worker start makes. */
    method Maintenance(now: int, refused: set<nat>)
      modifies this
      ensures |runs| == |old(runs)|
      ensures forall k :: 0 <= k < |runs| ==> runs[k] == SweptRow(old(runs)[k], now)
      ensures queue == old(queue) + Resent(StrandedIds(old(runs), now), refused)
      ensures forall k :: 0 <= k < |runs| ==> SweptByClock(old(runs)[k], now)
      ensures artifacts == Artifacts.Swept(old(artifacts), now)
    {
      RedriveQueued(now, refused);
      ReapRunning(now);
      ExpireAwaitingAck(now);
      SweepArtifacts(now);
      forall k | 0 <= k < |runs| ensures SweptByClock(old(runs)[k], now) {
        SweptExactly(old(runs)[k], now);
      }
    }
  }

  // ----- what a second approval amounts to -----

  function Approved(runs: seq<Run>, k: nat, now: int): seq<Run>
    requires k < |runs|
  {
    runs[k := runs[k].(claimableAt := Some(now))]
  }

  /**
    Approving the next run in line once more replaces its approval time. It stays next exactly when no
    other run was approved before now; otherwise another run is leased first.
   */
  lemma ReapprovalKeepsPlaceExactly(runs: seq<Run>, k: nat, now: int)
    requires OldestClaimable(runs, k)
    ensures OldestClaimable(Approved(runs, k, now), k) <==>
              forall j: nat :: j < |runs| && j != k && Claimable(runs[j]) ==>
                now < runs[j].claimableAt.value || (now == runs[j].claimableAt.value && k < j)
  {
    var out := Approved(runs, k, now);
    assert Claimable(out[k]) && forall j: nat :: j < |runs| && j != k ==> out[j] == runs[j];
    forall j: nat | j < |runs| && j != k && Claimable(runs[j])
      ensures Sooner(out, k, j) <==>
                now < runs[j].claimableAt.value || (now == runs[j].claimableAt.value && k < j)
    {
    }
  }

  // ----- what the sweeps amount to -----

  /** Sweeping at one time and again later closes the same runs, the same way, as sweeping later only. */
  lemma SweepsAccumulate(r: Run, now: int, later: int)
    requires now <= later
    ensures var once, twice := SweptRow(r, later), SweptRow(SweptRow(r, now), later);
            twice.status == once.status && twice == once.(finishedAt := twice.finishedAt)
  {
    hide ReasonOf;
    if SweptRow(r, now) != r {
      assert SweptRow(SweptRow(r, now), later) == SweptRow(r, now);
    }
  }

  /** A run that no sweep will ever close, however long it stays as it is. */
  ghost predicate NeverSwept(r: Run) {
    forall now :: SweptRow(r, now) == r
  }

  /**
    What the reaper misses for ever: besides rows that need no closing, a force-started run of an
    ordinary job whose worker died while running it.
   */
  lemma NeverSweptExactly(r: Run)
    requires r.status == Running ==> r.startedAt.Some?
    requires r.status == AwaitingAck ==> r.gated
    ensures NeverSwept(r) <==>
            Terminal(r.status) || r.status == Queued || (r.status == Running && r.trigger == Manual && !r.gated)
  {
    if r.status == Running && (r.trigger == Schedule || r.gated) {
      var late := r.startedAt.value + ACK_GATED_RUNNING_LEASE + 1;
      assert SweptRow(r, late).status == Failed;
    } else if r.status == AwaitingAck {
      var late := r.createdAt + AWAITING_ACK_TTL + 1;
      assert SweptRow(r, late).status == Cancelled;
    }
  }
}
