/** What holds of a run however its writers interleave, and exactly when its final status is final. */
module RunLifecycleProperties {
  import opened Prelude
  import opened JobRuns
  import opened RunLifecycle
  import Artifacts

  // ----- a run only moves forward -----

  lemma SweepAdvances(r: Run, sweep: Sweep, now: int)
    requires r.gated && r.status == FromOf(sweep)
    ensures Advances(r, Closed(r, ToOf(sweep), ReasonOf(sweep), now))
  {
    hide ReasonOf;
  }

  lemma CloseAdvances(gatedJobs: set<nat>, r: Run, target: Status, error: Option<string>, now: int)
    requires RunOk(gatedJobs, r) && Phase(r.status) > 0 && r.status != Cancelled && Terminal(target)
             && target != Cancelled
    ensures Advances(r, Closed(r, target, error, now))
  {
  }

  lemma DeliveryAdvances(gatedJobs: set<nat>, r: Run, target: Status, error: Option<string>, runner: string, now: int)
    requires RunOk(gatedJobs, r) && Phase(r.status) > 0 && r.status != Cancelled && Terminal(target)
             && target != Cancelled
    ensures Advances(r, Delivered(r, target, error, runner, now))
  {
    CloseAdvances(gatedJobs, r, target, error, now);
    hide Closed;
  }

  lemma TickerAdvances(s: State, t: TickerEvent, k: nat)
    requires Inv(s) && TickerReady(s, t) && k < |s.runs|
    ensures k < |TickerStep(s, t).runs| && Advances(s.runs[k], TickerStep(s, t).runs[k])
  {
    hide Inv, Taken, NewRun;
    if t.Abort? {
      RunOkIn(s, k);
      ActorOkIn(s, t.id);
    }
  }

  lemma RecordAdvances(s: State, w: WorkerEvent, k: nat)
    requires Inv(s) && w.Record? && WorkerReady(s, w) && k < |s.runs|
    ensures k < |WorkerStep(s, w).runs| && Advances(s.runs[k], WorkerStep(s, w).runs[k])
  {
    hide Inv, Closed;
    var Executed(run, outcome) := s.actors[w.id];
    RunOkIn(s, run);
    ActorOkIn(s, w.id);
    ExecutedIn(s, run);
    CloseAdvances(s.gatedJobs, s.runs[run], outcome, w.error, w.now);
    hide RunOk, ActorOk;
  }

  lemma ClaimAdvances(s: State, w: WorkerEvent, k: nat)
    requires Inv(s) && w.Claim? && WorkerReady(s, w) && k < |s.runs|
    ensures k < |WorkerStep(s, w).runs| && Advances(s.runs[k], WorkerStep(s, w).runs[k])
  {
    hide Inv;
    RunOkIn(s, k);
  }

  lemma WorkerAdvances(s: State, w: WorkerEvent, k: nat)
    requires Inv(s) && WorkerReady(s, w) && k < |s.runs|
    ensures k < |WorkerStep(s, w).runs| && Advances(s.runs[k], WorkerStep(s, w).runs[k])
  {
    hide Inv, NewestPending, PendingOf, Closed, Started, Write, Artifacts.Stored, Artifacts.Consumed;
    if w.Claim? {
      ClaimAdvances(s, w, k);
    } else if w.Record? {
      RecordAdvances(s, w, k);
    } else {
      assert WorkerStep(s, w).runs == s.runs;
    }
  }

  lemma ReapAdvancesOne(runs: seq<Run>, now: int, k: nat)
    requires k < |runs|
    ensures Advances(runs[k], BulkReaped(runs, now)[k])
  {
  }

  lemma SweeperAdvances(s: State, m: SweeperEvent, k: nat)
    requires Inv(s) && SweeperReady(s, m) && k < |s.runs|
    ensures k < |SweeperStep(s, m).runs| && Advances(s.runs[k], SweeperStep(s, m).runs[k])
  {
    hide Inv, Select, BulkReaped, ReasonOf, Closed;
    if m.BulkReap? {
      ReapAdvancesOne(s.runs, m.now, k);
    } else if m.CloseNext? {
      var Sweeping(sweep, ids) := s.actors[m.id];
      ActorOkIn(s, m.id);
      if ids[0] == k && s.runs[k].status == FromOf(sweep) { SweepAdvances(s.runs[k], sweep, m.now); }
    }
  }

  lemma FinanceAdvances(s: State, f: FinanceEvent, k: nat)
    requires Inv(s) && FinanceReady(s, f) && k < |s.runs|
    ensures k < |FinanceStep(s, f).runs| && Advances(s.runs[k], FinanceStep(s, f).runs[k])
  {
    hide Inv, OldestClaimable, Delivered;
    if f.Lease? {
      RunOkIn(s, k);
    } else if f.Complete? {
      var Completing(run, target, runner) := s.actors[f.id];
      RunOkIn(s, run);
      ActorOkIn(s, f.id);
      DeliveryAdvances(s.gatedJobs, s.runs[run], target, f.error, runner, f.now);
    }
  }

  lemma RunnerAdvances(s: State, r: RunnerEvent, k: nat)
    requires Inv(s) && RunnerReady(s, r) && k < |s.runs|
    ensures k < |RunnerStep(s, r).runs| && Advances(s.runs[k], RunnerStep(s, r).runs[k])
  {
    hide Inv, Artifacts.OldestClaimable, Artifacts.Holds, Delivered;
    if r.PostWork? {
      var Posting(run, target, runner) := s.actors[r.id];
      RunOkIn(s, run);
      ActorOkIn(s, r.id);
      DeliveryAdvances(s.gatedJobs, s.runs[run], target, r.error, runner, r.now);
    }
  }

  lemma StepAdvances(s: State, e: Event, k: nat)
    requires Inv(s) && Enabled(s, e) && k < |s.runs|
    ensures k < |Apply(s, e).runs| && Advances(s.runs[k], Apply(s, e).runs[k])
  {
    hide Inv, TickerReady, TickerStep, WorkerReady, WorkerStep, SweeperReady, SweeperStep,
         FinanceReady, FinanceStep, RunnerReady, RunnerStep;
    match e {
      case ByTicker(t) => TickerAdvances(s, t, k);
      case ByWorker(w) => WorkerAdvances(s, w, k);
      case BySweeper(m) => SweeperAdvances(s, m, k);
      case ByFinance(f) => FinanceAdvances(s, f, k);
      case ByRunner(r) => RunnerAdvances(s, r, k);
      case _ =>
    }
  }

  lemma {:induction false} TraceAdvances(s: State, events: seq<Event>, k: nat)
    requires Inv(s) && k < |s.runs|
    ensures k < |Trace(s, events).runs| && Advances(s.runs[k], Trace(s, events).runs[k])
  {
    hide Inv, Enabled, Apply;
    if events != [] {
      var n := |events| - 1;
      TraceAdvances(s, events[..n], k);
      TraceKeepsInv(s, events[..n]);
      if Enabled(Trace(s, events[..n]), events[n]) {
        StepAdvances(Trace(s, events[..n]), events[n], k);
      }
    }
  }

  /** A state some interleaving of steps leads to from the beginning. */
  ghost predicate Reachable(s: State) {
    exists gatedJobs, localJobs, events :: s == Trace(Initial(gatedJobs, localJobs), events)
  }

  lemma ReachableInv(s: State)
    requires Reachable(s)
    ensures Inv(s)
  {
    var gatedJobs, localJobs, events :| s == Trace(Initial(gatedJobs, localJobs), events);
    InitialInv(gatedJobs, localJobs);
    TraceKeepsInv(Initial(gatedJobs, localJobs), events);
  }

  /** Waiting, then taken, then over: from any reachable state on, no run's phase ever goes back. */
  lemma PhaseNeverFalls(s: State, more: seq<Event>, k: nat)
    requires Reachable(s) && k < |s.runs|
    ensures var t := Trace(s, more);
            && k < |t.runs| && Phase(s.runs[k].status) <= Phase(t.runs[k].status)
            && t.runs[k].job == s.runs[k].job && t.runs[k].scheduledFor == s.runs[k].scheduledFor
  {
    hide Reachable, Inv, Trace;
    ReachableInv(s);
    TraceAdvances(s, more, k);
  }

  // ----- at most once, exactly one winner -----

  /** Redelivery, duplicates and re-drives notwithstanding, a run's handler starts at most once. */
  lemma HandlerStartsAtMostOnce(s: State, i: nat, j: nat)
    requires Reachable(s)
    ensures i < j < |s.executions| ==> s.executions[i] != s.executions[j]
  {
    ReachableInv(s);
  }

  /**
    A run leaves its waiting phase once, and the status tells who took it out. An ack-gated run is
    either leased by a runner or expired, never both: a cancelled run is exactly one whose expiry won.
    No late write ever does it.
   */
  lemma ExactlyOneExit(s: State, k: nat) returns (i: nat)
    requires Reachable(s) && k < |s.runs| && Phase(s.runs[k].status) > 0
    ensures Logged(s.exits, k, i) && (forall j :: Logged(s.exits, k, j) ==> j == i)
    ensures s.runs[k].gated ==> s.exits[i].1 == if s.runs[k].status == Cancelled then Expired else LeasedByRunner
    ensures !s.runs[k].gated ==> s.runs[k].status != Cancelled && s.exits[i].1 in {ClaimedByWorker, Exit.Aborted}
  {
    ReachableInv(s);
    assert HasExit(s.exits, k);
    i :| Logged(s.exits, k, i);
    assert ExitOk(s.runs[s.exits[i].0], s.exits[i].1);
  }

  /** While it waits, a run has not been taken by anyone. */
  lemma WaitingHasNoExit(s: State, k: nat)
    requires Reachable(s) && k < |s.runs| && Phase(s.runs[k].status) == 0
    ensures !HasExit(s.exits, k) && k !in s.executions
  {
    ReachableInv(s);
  }

  /** A lease and an expiry of one waiting run, in either order: the first takes it, the second does nothing. */
  lemma RaceHasOneWinner(s: State, k: nat, runner: nat, sweeper: nat, t1: int, t2: int)
    requires k < |s.runs| && s.runs[k].status == AwaitingAck && runner != sweeper
    requires runner in s.actors && s.actors[runner].Leasing? && s.actors[runner].run == k
    requires sweeper in s.actors && s.actors[sweeper].Sweeping? && s.actors[sweeper].sweep == ExpireUnapproved
    requires s.actors[sweeper].ids != [] && s.actors[sweeper].ids[0] == k
    ensures var lease, expire := ByFinance(Lease(runner, t1)), BySweeper(CloseNext(sweeper, t2));
            && Next(s, lease).runs[k].status == Running && Next(s, expire).runs[k].status == Cancelled
            && Next(Next(s, lease), expire).runs == Next(s, lease).runs
            && Next(Next(s, expire), lease).runs == Next(s, expire).runs
  {
    hide ReasonOf;
    var lease, expire := ByFinance(Lease(runner, t1)), BySweeper(CloseNext(sweeper, t2));
    assert Enabled(s, lease) && Enabled(s, expire);
    assert Enabled(Next(s, lease), expire) && Enabled(Next(s, expire), lease);
  }

  /** Without an approval an ack-gated run never runs: it waits, or it is cancelled. */
  lemma UnapprovedNeverRuns(s: State, k: nat)
    requires Reachable(s) && k < |s.runs| && s.runs[k].job in s.gatedJobs && s.runs[k].claimableAt.None?
    ensures s.runs[k].status in {AwaitingAck, Cancelled} && k !in s.executions
  {
    ReachableInv(s);
    RunOkIn(s, k);
  }

  /** In a reachable state, what the reaper misses for ever is a force-started ordinary run left running. */
  lemma MissedByTheReaper(s: State, k: nat)
    requires Reachable(s) && k < |s.runs|
    ensures NeverSwept(s.runs[k]) <==>
              || Terminal(s.runs[k].status) || s.runs[k].status == Queued
              || (s.runs[k].status == Running && s.runs[k].trigger == Manual && s.runs[k].job !in s.gatedJobs)
  {
    hide Reachable, Inv, NeverSwept;
    ReachableInv(s);
    RunOkIn(s, k);
    NeverSweptExactly(s.runs[k]);
  }

  // ----- when a final status is final -----

  /** This actor's next writes can leave the run at another status than st. */
  predicate MayRewrite(a: Actor, k: nat, st: Status) {
    match a
    case Claimed(run) => run == k
    case Executing(run, _) => run == k
    case Executed(run, outcome) => run == k && outcome != st
    case Completing(run, target, _) => run == k && target != st
    case Starting(run) => run == k && st != Failed
    case Aborting(run) => run == k && st != Failed
    case Posting(run, target, _) => run == k && target != st
    case _ => false
  }

  /** No handler, completion or failed start is still under way, and the run's work cannot be posted back. */
  predicate Settled(s: State, k: nat)
    requires k < |s.runs|
  {
    && !Artifacts.Postable(s.artifacts, s.localJobs, k)
    && forall id :: id in s.actors ==> !MayRewrite(s.actors[id], k, s.runs[k].status)
  }

  /** A closed run's status is as it was and nobody new is about to rewrite it. */
  ghost predicate StillSettled(s: State, t: State, k: nat)
    requires k < |s.runs|
  {
    && k < |t.runs| && t.runs[k].status == s.runs[k].status
    && forall id :: id in t.actors ==> !MayRewrite(t.actors[id], k, s.runs[k].status)
  }

  lemma TickerLeavesSettled(s: State, t: TickerEvent, k: nat)
    requires TickerReady(s, t) && k < |s.runs| && Terminal(s.runs[k].status) && Settled(s, k)
    ensures StillSettled(s, TickerStep(s, t), k) && TickerStep(s, t).artifacts == s.artifacts
  {
    hide Taken, NewRun, Closed, Artifacts.Postable;
    if t.Abort? {
      assert !MayRewrite(s.actors[t.id], k, s.runs[k].status);
      ClosedStatus(s.runs[s.actors[t.id].run], Failed, ENQUEUE_FAILED, t.now);
    }
  }

  lemma ClosedStatus(r: Run, to: Status, error: Option<string>, now: int)
    ensures Closed(r, to, error, now).status == to
  {
  }

  lemma RecordLeavesSettled(s: State, w: WorkerEvent, k: nat)
    requires w.Record? && WorkerReady(s, w) && k < |s.runs| && Terminal(s.runs[k].status) && Settled(s, k)
    ensures StillSettled(s, WorkerStep(s, w), k)
  {
    hide Closed, Artifacts.Postable;
    assert !MayRewrite(s.actors[w.id], k, s.runs[k].status);
    ClosedStatus(s.runs[s.actors[w.id].run], s.actors[w.id].outcome, w.error, w.now);
  }

  lemma ClaimLeavesSettled(s: State, w: WorkerEvent, k: nat)
    requires w.Claim? && WorkerReady(s, w) && k < |s.runs| && Terminal(s.runs[k].status) && Settled(s, k)
    ensures StillSettled(s, WorkerStep(s, w), k)
  {
    hide Artifacts.Postable;
  }

  lemma WorkerLeavesSettled(s: State, w: WorkerEvent, k: nat)
    requires WorkerReady(s, w) && k < |s.runs| && Terminal(s.runs[k].status) && Settled(s, k)
    ensures StillSettled(s, WorkerStep(s, w), k)
  {
    hide NewestPending, Closed, Started, Write, Artifacts.Postable, PendingOf, Artifacts.Stored, Artifacts.Consumed;
    if w.Record? {
      RecordLeavesSettled(s, w, k);
    } else if w.Claim? {
      ClaimLeavesSettled(s, w, k);
    } else {
      assert WorkerStep(s, w).runs == s.runs;
      assert w.Handle? || w.Assemble? || w.Consume? || w.Return? ==> !MayRewrite(s.actors[w.id], k, s.runs[k].status);
    }
  }

  lemma WorkerLeavesUnpostable(s: State, w: WorkerEvent, k: nat)
    requires Inv(s) && WorkerReady(s, w) && k < |s.runs| && Settled(s, k)
    ensures !Artifacts.Postable(WorkerStep(s, w).artifacts, s.localJobs, k)
  {
    NamedIn(s);
    hide Inv, Artifacts.Postable, Artifacts.Stored, Artifacts.Consumed;
    if w.Store? {
      var run := s.actors[w.id].run;
      assert !MayRewrite(s.actors[w.id], k, s.runs[k].status);
      Artifacts.StoringAdvances(s.artifacts, s.localJobs, s.runs[run].job, run, w.ids, w.now);
      Artifacts.UnpostableStays(s.artifacts, WorkerStep(s, w).artifacts, s.localJobs, Some(run), k);
    } else if w.Consume? {
      Artifacts.ConsumptionAdvances(s.artifacts, s.localJobs, s.actors[w.id].inputs, s.actors[w.id].run);
      Artifacts.UnpostableStays(s.artifacts, WorkerStep(s, w).artifacts, s.localJobs, None, k);
    }
  }

  lemma SweeperLeavesSettled(s: State, m: SweeperEvent, k: nat)
    requires SweeperReady(s, m) && k < |s.runs| && Terminal(s.runs[k].status) && Settled(s, k)
    ensures StillSettled(s, SweeperStep(s, m), k)
  {
    hide Select, Closed, ReasonOf, Artifacts.Postable, Artifacts.Swept;
  }

  lemma SweeperLeavesUnpostable(s: State, m: SweeperEvent, k: nat)
    requires Inv(s) && SweeperReady(s, m) && k < |s.runs| && Settled(s, k)
    ensures !Artifacts.Postable(SweeperStep(s, m).artifacts, s.localJobs, k)
  {
    NamedIn(s);
    hide Inv, Select, BulkReaped, Closed, Write, ReasonOf, Artifacts.Postable, Artifacts.Swept;
    if m.SweepArtifacts? {
      Artifacts.SweepAdvances(s.artifacts, s.localJobs, m.now);
      Artifacts.UnpostableStays(s.artifacts, SweeperStep(s, m).artifacts, s.localJobs, None, k);
    }
  }

  lemma FinanceLeavesSettled(s: State, f: FinanceEvent, k: nat)
    requires FinanceReady(s, f) && k < |s.runs| && Terminal(s.runs[k].status) && Settled(s, k)
    ensures StillSettled(s, FinanceStep(s, f), k) && FinanceStep(s, f).artifacts == s.artifacts
  {
    hide OldestClaimable, Closed, Artifacts.Postable;
    if f.Complete? {
      var Completing(run, target, _) := s.actors[f.id];
      assert !MayRewrite(s.actors[f.id], k, s.runs[k].status);
      ClosedStatus(s.runs[run], target, f.error, f.now);
    }
  }

  lemma HeldIsPostable(artifacts: Artifacts.Table, localJobs: set<nat>, k: nat, runner: string)
    requires Artifacts.Holds(artifacts, k, runner)
    ensures Artifacts.Postable(artifacts, localJobs, k)
  {
    var i :| i in artifacts && Artifacts.HeldBy(artifacts[i], k, runner);
    assert Artifacts.Offers(artifacts[i], localJobs, k);
  }

  lemma RunnerLeavesSettled(s: State, r: RunnerEvent, k: nat)
    requires RunnerReady(s, r) && k < |s.runs| && Terminal(s.runs[k].status) && Settled(s, k)
    ensures StillSettled(s, RunnerStep(s, r), k)
  {
    hide Artifacts.OldestClaimable, Artifacts.Holds, Artifacts.Postable, Artifacts.Leased, Artifacts.Finished, Closed;
    if r.CheckWork? {
      if r.run == k { HeldIsPostable(s.artifacts, s.localJobs, k, r.runner); }
    } else if r.PostWork? {
      var Posting(run, target, _) := s.actors[r.id];
      assert !MayRewrite(s.actors[r.id], k, s.runs[k].status);
      ClosedStatus(s.runs[run], target, r.error, r.now);
    }
  }

  lemma RunnerLeavesUnpostable(s: State, r: RunnerEvent, k: nat)
    requires Inv(s) && RunnerReady(s, r) && k < |s.runs| && Settled(s, k)
    ensures !Artifacts.Postable(RunnerStep(s, r).artifacts, s.localJobs, k)
  {
    NamedIn(s);
    hide Inv, Artifacts.Postable, Artifacts.Leased, Artifacts.Finished, Artifacts.OldestClaimable, Artifacts.Holds;
    if r.TakeWork? {
      var Taking(run, job, runner, now) := s.actors[r.id];
      Artifacts.LeaseAdvances(s.artifacts, s.localJobs, job, run, runner, now);
      Artifacts.UnpostableStays(s.artifacts, RunnerStep(s, r).artifacts, s.localJobs, None, k);
    } else if r.PostWork? {
      var Posting(run, _, runner) := s.actors[r.id];
      Artifacts.FinishAdvances(s.artifacts, s.localJobs, run, runner);
      Artifacts.UnpostableStays(s.artifacts, RunnerStep(s, r).artifacts, s.localJobs, None, k);
    }
  }

  lemma LocalJobsFixed(s: State, e: Event)
    requires Enabled(s, e)
    ensures Apply(s, e).localJobs == s.localJobs
  {
    hide Closed, Taken, NewRun, Artifacts.Stored, Artifacts.Consumed, Artifacts.Leased, Artifacts.Finished,
         Artifacts.Swept;
  }

  lemma SettledStep(s: State, e: Event, k: nat)
    requires Inv(s) && Enabled(s, e) && k < |s.runs| && Terminal(s.runs[k].status) && Settled(s, k)
    ensures var t := Apply(s, e); k < |t.runs| && t.runs[k].status == s.runs[k].status && Settled(t, k)
  {
    hide Inv, MayRewrite, Artifacts.Postable, TickerReady, TickerStep, WorkerReady, WorkerStep, SweeperReady,
         SweeperStep, FinanceReady, FinanceStep, RunnerReady, RunnerStep;
    LocalJobsFixed(s, e);
    match e {
      case ByTicker(t) => TickerLeavesSettled(s, t, k);
      case ByQueue(q) =>
      case ByWorker(w) => WorkerLeavesSettled(s, w, k); WorkerLeavesUnpostable(s, w, k);
      case BySweeper(m) => SweeperLeavesSettled(s, m, k); SweeperLeavesUnpostable(s, m, k);
      case ByFinance(f) => FinanceLeavesSettled(s, f, k);
      case ByRunner(r) => RunnerLeavesSettled(s, r, k); RunnerLeavesUnpostable(s, r, k);
      case Crash(id) =>
    }
  }

  lemma {:induction false} SettledStays(s: State, events: seq<Event>, k: nat)
    requires Inv(s) && k < |s.runs| && Terminal(s.runs[k].status) && Settled(s, k)
    ensures var t := Trace(s, events); k < |t.runs| && t.runs[k].status == s.runs[k].status && Settled(t, k)
  {
    hide Inv, Enabled, Apply, Settled;
    if events != [] {
      var n := |events| - 1;
      SettledStays(s, events[..n], k);
      TraceKeepsInv(s, events[..n]);
      var before := Trace(s, events[..n]);
      if Enabled(before, events[n]) {
        SettledStep(before, events[n], k);
      }
    }
  }

  // ----- event sequences, step by step -----

  lemma TraceOf1(s: State, e: Event)
    ensures Trace(s, [e]) == Next(s, e)
  {
    hide Enabled, Apply;
    assert [e][..0] == [];
    assert Trace(s, []) == s;
  }

  lemma TraceOf2(s: State, e1: Event, e2: Event)
    ensures Trace(s, [e1, e2]) == Next(Next(s, e1), e2)
  {
    hide Next;
    TraceOf1(s, e1);
    assert [e1, e2][..1] == [e1];
  }

  lemma TraceOf3(s: State, e1: Event, e2: Event, e3: Event)
    ensures Trace(s, [e1, e2, e3]) == Next(Next(Next(s, e1), e2), e3)
  {
    hide Next;
    TraceOf2(s, e1, e2);
    assert [e1, e2, e3][..2] == [e1, e2];
  }

  lemma {:induction false} Compose(s: State, first: seq<Event>, rest: seq<Event>)
    ensures Trace(s, first + rest) == Trace(Trace(s, first), rest)
  {
    hide Next;
    if rest == [] {
      assert first + rest == first;
    } else {
      var n := |rest| - 1;
      Compose(s, first, rest[..n]);
      assert (first + rest)[..|first| + n] == first + rest[..n];
    }
  }

  /** When a step happens, for the steps that look at the clock. */
  function TimeOf(e: Event): Option<int> {
    match e
    case ByTicker(Fire(_, _, now)) => Some(now)
    case ByTicker(ForceStart(_, _, now)) => Some(now)
    case ByTicker(Abort(_, now)) => Some(now)
    case ByWorker(Claim(_, now)) => Some(now)
    case ByWorker(Store(_, _, now)) => Some(now)
    case ByWorker(Record(_, _, _, now)) => Some(now)
    case BySweeper(BulkReap(now)) => Some(now)
    case BySweeper(FindStuck(_, _, now)) => Some(now)
    case BySweeper(CloseNext(_, now)) => Some(now)
    case BySweeper(SweepArtifacts(now)) => Some(now)
    case ByFinance(Approve(_, now)) => Some(now)
    case ByFinance(Lease(_, now)) => Some(now)
    case ByFinance(Complete(_, _, now)) => Some(now)
    case ByRunner(PickWork(_, _, _, _, now)) => Some(now)
    case ByRunner(PostWork(_, _, now)) => Some(now)
    case _ => None
  }

  predicate NoEarlier(e: Event, since: int) {
    TimeOf(e).Some? ==> since <= TimeOf(e).value
  }

  predicate AllSince(events: seq<Event>, since: int) {
    forall e :: e in events ==> NoEarlier(e, since)
  }

  /** These steps, none before the given time, leave the run at another status. */
  predicate Rewrites(s: State, k: nat, events: seq<Event>, since: int) {
    && k < |s.runs| && AllSince(events, since)
    && k < |Trace(s, events).runs| && Trace(s, events).runs[k].status != s.runs[k].status
  }

  function Other(st: Status): (ok: bool)
    ensures Verdict(ok) != st
  {
    st != Succeeded
  }

  // ----- whoever is under way can rewrite -----

  lemma RecordNext(s: State, id: nat, k: nat, outcome: Status, saved: bool, error: Option<string>, now: int)
    requires k < |s.runs| && id in s.actors && s.actors[id] == Executed(k, outcome)
    ensures Next(s, ByWorker(Record(id, saved, error, now))).executions == s.executions
    ensures Next(s, ByWorker(Record(id, saved, error, now))).runs
            == if saved then s.runs[k := Closed(s.runs[k], outcome, error, now)] else s.runs
  {
    hide Closed;
  }

  lemma ReturnNext(s: State, id: nat, k: nat, inputs: set<nat>, ok: bool)
    requires id in s.actors && s.actors[id] == Executing(k, inputs)
    ensures Next(s, ByWorker(Return(id, ok))) == Become(s, id, Executed(k, Verdict(ok)))
  {
  }

  lemma HandleNext(s: State, id: nat, k: nat)
    requires id in s.actors && s.actors[id] == Claimed(k)
    ensures Next(s, ByWorker(Handle(id))) == Become(s, id, Executing(k, {})).(executions := s.executions + [k])
  {
  }

  lemma PostNext(s: State, id: nat, k: nat, target: Status, runner: string, error: Option<string>, now: int)
    requires k < |s.runs| && id in s.actors && s.actors[id] == Posting(k, target, runner)
    ensures Next(s, ByRunner(PostWork(id, error, now))).runs
            == s.runs[k := Delivered(s.runs[k], target, error, runner, now)]
  {
    hide Delivered, Artifacts.Finished;
  }

  lemma CompleteNext(s: State, id: nat, k: nat, target: Status, runner: string, error: Option<string>, now: int)
    requires k < |s.runs| && id in s.actors && s.actors[id] == Completing(k, target, runner)
    ensures Next(s, ByFinance(Complete(id, error, now))).runs
            == s.runs[k := Delivered(s.runs[k], target, error, runner, now)]
  {
    hide Delivered;
  }

  lemma SendFailsNext(s: State, id: nat, k: nat)
    requires id in s.actors && s.actors[id] == Starting(k)
    ensures Next(s, ByTicker(SendFails(id, false))) == Become(s, id, Aborting(k))
  {
  }

  lemma AbortNext(s: State, id: nat, k: nat, now: int)
    requires k < |s.runs| && id in s.actors && s.actors[id] == Aborting(k)
    ensures Next(s, ByTicker(Abort(id, now))).runs == s.runs[k := Closed(s.runs[k], Failed, ENQUEUE_FAILED, now)]
  {
    hide Closed;
  }

  lemma DeliveredStatus(r: Run, target: Status, error: Option<string>, runner: string, now: int)
    ensures Delivered(r, target, error, runner, now).status == target
  {
  }

  /** A handler that has not returned can still end either way. */
  lemma HandlerOverwrites(s: State, id: nat, k: nat, since: int) returns (events: seq<Event>)
    requires k < |s.runs| && id in s.actors && s.actors[id].Executing? && s.actors[id].run == k
    ensures Rewrites(s, k, events, since)
  {
    hide Trace, Next, Closed;
    var ok := Other(s.runs[k].status);
    var e1, e2 := ByWorker(Return(id, ok)), ByWorker(Record(id, true, None, since));
    events := [e1, e2];
    TraceOf2(s, e1, e2);
    ReturnNext(s, id, k, s.actors[id].inputs, ok);
    RecordNext(Next(s, e1), id, k, Verdict(ok), true, None, since);
    ClosedStatus(s.runs[k], Verdict(ok), None, since);
  }

  lemma ClaimOverwrites(s: State, id: nat, k: nat, since: int) returns (events: seq<Event>)
    requires k < |s.runs| && id in s.actors && s.actors[id] == Claimed(k)
    ensures Rewrites(s, k, events, since)
  {
    hide Trace, Next;
    var e := ByWorker(Handle(id));
    HandleNext(s, id, k);
    var rest := HandlerOverwrites(Next(s, e), id, k, since);
    TraceOf1(s, e);
    Compose(s, [e], rest);
    events := [e] + rest;
  }

  lemma StartOverwrites(s: State, id: nat, k: nat, since: int) returns (events: seq<Event>)
    requires k < |s.runs| && id in s.actors && s.actors[id] == Starting(k) && s.runs[k].status != Failed
    ensures Rewrites(s, k, events, since)
  {
    hide Trace, Next, Closed;
    var e1, e2 := ByTicker(SendFails(id, false)), ByTicker(Abort(id, since));
    events := [e1, e2];
    TraceOf2(s, e1, e2);
    SendFailsNext(s, id, k);
    AbortNext(Next(s, e1), id, k, since);
    ClosedStatus(s.runs[k], Failed, ENQUEUE_FAILED, since);
  }

  /** One more step of an actor that has decided already. */
  lemma LastStepOverwrites(s: State, id: nat, k: nat, since: int) returns (events: seq<Event>)
    requires k < |s.runs| && id in s.actors && MayRewrite(s.actors[id], k, s.runs[k].status)
    requires var a := s.actors[id]; a.Executed? || a.Completing? || a.Aborting? || a.Posting?
    ensures Rewrites(s, k, events, since)
  {
    hide Trace, Next, Closed, Delivered;
    match s.actors[id] {
      case Executed(_, outcome) =>
        events := [ByWorker(Record(id, true, None, since))];
        RecordNext(s, id, k, outcome, true, None, since);
        ClosedStatus(s.runs[k], outcome, None, since);
      case Completing(_, target, runner) =>
        events := [ByFinance(Complete(id, None, since))];
        CompleteNext(s, id, k, target, runner, None, since);
        DeliveredStatus(s.runs[k], target, None, runner, since);
      case Aborting(_) =>
        events := [ByTicker(Abort(id, since))];
        AbortNext(s, id, k, since);
        ClosedStatus(s.runs[k], Failed, ENQUEUE_FAILED, since);
      case Posting(_, target, runner) =>
        events := [ByRunner(PostWork(id, None, since))];
        PostNext(s, id, k, target, runner, None, since);
        DeliveredStatus(s.runs[k], target, None, runner, since);
    }
    TraceOf1(s, events[0]);
    assert events == [events[0]];
  }

  lemma ActorOverwrites(s: State, k: nat, id: nat, since: int) returns (events: seq<Event>)
    requires k < |s.runs| && id in s.actors && MayRewrite(s.actors[id], k, s.runs[k].status)
    ensures Rewrites(s, k, events, since)
  {
    hide Rewrites;
    match s.actors[id] {
      case Claimed(_) => events := ClaimOverwrites(s, id, k, since);
      case Executing(_, _) => events := HandlerOverwrites(s, id, k, since);
      case Starting(_) => events := StartOverwrites(s, id, k, since);
      case _ => events := LastStepOverwrites(s, id, k, since);
    }
  }

  // ----- work that can be posted back can rewrite -----

  lemma {:induction false} FreshActor(ids: set<nat>) returns (id: nat)
    ensures forall x :: x in ids ==> x < id
  {
    if ids == {} {
      id := 0;
    } else {
      var x :| x in ids;
      var rest := FreshActor(ids - {x});
      id := if x < rest then rest else x + 1;
      assert forall y :: y in ids ==> y == x || y in ids - {x};
    }
  }

  /** A runner that holds any of the run's artifacts can close the run again, whatever became of it. */
  lemma HolderOverwrites(s: State, k: nat, runner: string, since: int) returns (events: seq<Event>)
    requires k < |s.runs| && Artifacts.Holds(s.artifacts, k, runner)
    ensures Rewrites(s, k, events, since)
  {
    hide Trace, Closed, Delivered, Artifacts.Holds, Artifacts.Finished;
    var id := FreshActor(s.actors.Keys);
    var ok := Other(s.runs[k].status);
    var e1, e2 := ByRunner(CheckWork(id, k, ok, runner)), ByRunner(PostWork(id, None, since));
    events := [e1, e2];
    TraceOf2(s, e1, e2);
    assert Next(s, e1) == Become(s, id, Posting(k, Verdict(ok), runner));
    hide Next;
    PostNext(Next(s, e1), id, k, Verdict(ok), runner, None, since);
    DeliveredStatus(s.runs[k], Verdict(ok), None, runner, since);
  }

  lemma {:induction false} FindOldest(artifacts: Artifacts.Table, localJobs: set<nat>, job: nat, now: int, i: nat)
    returns (first: nat)
    requires i in artifacts && Artifacts.Claimable(artifacts[i], localJobs, job, now)
    ensures Artifacts.OldestClaimable(artifacts, localJobs, job, now, first)
    decreases i
  {
    if j: nat :| j < i && j in artifacts && Artifacts.Claimable(artifacts[j], localJobs, job, now) {
      first := FindOldest(artifacts, localJobs, job, now, j);
    } else {
      first := i;
    }
  }

  function ClaimableIds(artifacts: Artifacts.Table, localJobs: set<nat>, job: nat, now: int): set<nat> {
    set i | i in artifacts && Artifacts.Claimable(artifacts[i], localJobs, job, now)
  }

  /** Picking and taking the oldest claimable work. */
  lemma TakeOldest(s: State, first: nat, job: nat, runner: string, now: int) returns (events: seq<Event>)
    requires Artifacts.OldestClaimable(s.artifacts, s.localJobs, job, now, first)
    ensures AllSince(events, now)
    ensures var t := Trace(s, events);
            && t.runs == s.runs && t.localJobs == s.localJobs
            && t.artifacts == Artifacts.Leased(s.artifacts, s.localJobs, job, s.artifacts[first].producedBy, runner,
                                               now)
  {
    hide Artifacts.Leased;
    assert first in s.artifacts;
    hide Artifacts.OldestClaimable;
    var id := FreshActor(s.actors.Keys);
    var e1, e2 := ByRunner(PickWork(id, first, job, runner, now)), ByRunner(TakeWork(id));
    events := [e1, e2];
    TraceOf2(s, e1, e2);
    assert Next(s, e1) == Become(s, id, Taking(s.artifacts[first].producedBy, job, runner, now));
  }

  /** Claims take the oldest work first, so a pending artifact is claimed once those before it are. */
  lemma {:induction false} PendingGetsHeld(s: State, i: nat, since: int) returns (events: seq<Event>)
    requires i in s.artifacts && s.artifacts[i].status == Artifacts.Pending && s.artifacts[i].job in s.localJobs
    ensures AllSince(events, since)
    ensures var t := Trace(s, events);
            t.runs == s.runs && Artifacts.Holds(t.artifacts, s.artifacts[i].producedBy, "runner")
    decreases |ClaimableIds(s.artifacts, s.localJobs, s.artifacts[i].job, since)|
  {
    var job := s.artifacts[i].job;
    var first := FindOldest(s.artifacts, s.localJobs, job, since, i);
    var run := s.artifacts[first].producedBy;
    var head := TakeOldest(s, first, job, "runner", since);
    var t := Trace(s, head);
    Artifacts.LeasingRetires(s.artifacts, s.localJobs, job, "runner", since, first, first);
    if run == s.artifacts[i].producedBy {
      events := head;
      assert Artifacts.HeldBy(t.artifacts[first], run, "runner");
    } else {
      Artifacts.LeasingRetires(s.artifacts, s.localJobs, job, "runner", since, first, i);
      FewerClaimable(s, first, job, since);
      var rest := PendingGetsHeld(t, i, since);
      Compose(s, head, rest);
      events := head + rest;
    }
  }

  lemma FewerClaimable(s: State, first: nat, job: nat, now: int)
    requires Artifacts.OldestClaimable(s.artifacts, s.localJobs, job, now, first)
    ensures var out := Artifacts.Leased(s.artifacts, s.localJobs, job, s.artifacts[first].producedBy, "runner", now);
            |ClaimableIds(out, s.localJobs, job, now)| < |ClaimableIds(s.artifacts, s.localJobs, job, now)|
  {
    var out := Artifacts.Leased(s.artifacts, s.localJobs, job, s.artifacts[first].producedBy, "runner", now);
    var before, after := ClaimableIds(s.artifacts, s.localJobs, job, now), ClaimableIds(out, s.localJobs, job, now);
    forall i | i in after ensures i in before && i != first {
      Artifacts.LeasingRetires(s.artifacts, s.localJobs, job, "runner", now, first, i);
    }
    assert first in before;
    ProperSubset(after, before, first);
  }

  lemma ProperSubset(small: set<nat>, big: set<nat>, x: nat)
    requires small <= big && x in big && x !in small
    ensures |small| < |big|
  {
    SmallerSet(small, big - {x});
  }

  lemma {:induction false} SmallerSet(small: set<nat>, big: set<nat>)
    requires small <= big
    ensures |small| <= |big|
  {
    if small != {} {
      var x :| x in small;
      SmallerSet(small - {x}, big - {x});
    }
  }

  lemma PostableOverwrites(s: State, k: nat, since: int) returns (events: seq<Event>)
    requires k < |s.runs| && Artifacts.Postable(s.artifacts, s.localJobs, k)
    ensures Rewrites(s, k, events, since)
  {
    hide Trace;
    var i :| i in s.artifacts && Artifacts.Offers(s.artifacts[i], s.localJobs, k);
    if s.artifacts[i].claimedBy.Some? {
      assert Artifacts.HeldBy(s.artifacts[i], k, s.artifacts[i].claimedBy.value);
      events := HolderOverwrites(s, k, s.artifacts[i].claimedBy.value, since);
    } else {
      var head := PendingGetsHeld(s, i, since);
      var rest := HolderOverwrites(Trace(s, head), k, "runner", since);
      Compose(s, head, rest);
      events := head + rest;
    }
  }

  // ----- exactly when -----

  /** Some continuation, all of it after the given time, leaves the run at another status. */
  ghost predicate Changeable(s: State, k: nat, since: int) {
    exists events :: Rewrites(s, k, events, since)
  }

  /**
    Terminal is not the same as final. A closed run can still change status, from any time on, if and
    only if one of the unguarded writers is still on its way, or one of its artifacts was ever claimed
    by an outside runner, or one is still pending at a job such runners may work for.
   */
  lemma FinalExactlyWhenSettled(s: State, k: nat, since: int)
    requires Reachable(s) && k < |s.runs| && Terminal(s.runs[k].status)
    ensures Changeable(s, k, since) <==> !Settled(s, k)
  {
    hide Reachable, Inv, Trace, MayRewrite, Artifacts.Postable;
    ReachableInv(s);
    if Settled(s, k) {
      forall events ensures !Rewrites(s, k, events, since) {
        SettledStays(s, events, k);
      }
    } else if Artifacts.Postable(s.artifacts, s.localJobs, k) {
      var events := PostableOverwrites(s, k, since);
    } else {
      var id :| id in s.actors && MayRewrite(s.actors[id], k, s.runs[k].status);
      var events := ActorOverwrites(s, k, id, since);
    }
  }

  /**
    What an outside runner cannot claim cannot be posted back: with nobody at work on the run, and its
    artifacts unclaimed and either consumed, expired or a server job's, its status is final.
   */
  lemma UnclaimableWorkIsFinal(s: State, k: nat, since: int)
    requires Reachable(s) && k < |s.runs| && Terminal(s.runs[k].status)
    requires forall i :: i in s.artifacts && s.artifacts[i].producedBy == k ==>
               && s.artifacts[i].claimedBy.None?
               && (s.artifacts[i].status in {Artifacts.Done, Artifacts.Expired} || s.artifacts[i].job !in s.localJobs)
    requires forall id :: id in s.actors && !s.actors[id].Sweeping? ==> s.actors[id].run != k
    ensures !Changeable(s, k, since)
  {
    forall i | i in s.artifacts ensures !Artifacts.Offers(s.artifacts[i], s.localJobs, k) {
    }
    FinalExactlyWhenSettled(s, k, since);
  }

  // ----- it does happen -----

  /** One ordinary run, created and sent. */
  function Sent(): State {
    var r := Run(0, false, Schedule, 0, 0, Queued, None, None, None, "", None);
    State({}, {}, [r], multiset{0}, map[], map[], [], [])
  }

  /** The same run, taken by a worker whose handler has started at time 10. */
  function SlowHandler(): State {
    var r := Run(0, false, Schedule, 0, 0, Running, Some(10), None, None, "", None);
    State({}, {}, [r], multiset{0}, map[1 := Executing(0, {})], map[], [0], [(0, ClaimedByWorker)])
  }

  /** The same run after the reaper has failed it, its handler still running. */
  function Reaped(): State {
    var s := SlowHandler();
    s.(runs := [Closed(s.runs[0], Failed, REAPED, 11 + RUNNING_LEASE)])
  }

  lemma SentReached()
    ensures Trace(Initial({}, {}), [ByTicker(Fire(0, 0, 0)), ByQueue(Enqueue(0))]) == Sent()
  {
    TraceOf2(Initial({}, {}), ByTicker(Fire(0, 0, 0)), ByQueue(Enqueue(0)));
  }

  lemma ClaimNext(s: State, id: nat, k: nat, now: int)
    requires k < |s.runs| && id in s.actors && s.actors[id] == Received(k) && s.runs[k].status == Queued
    ensures Next(s, ByWorker(Claim(id, now)))
            == Become(Write(s, k, Started(s.runs[k], now), ClaimedByWorker), id, Claimed(k))
  {
  }

  lemma ReceiveNext(s: State, id: nat, k: nat)
    requires id !in s.actors && k in s.queue && k < |s.runs|
    ensures Next(s, ByWorker(Receive(id, k))) == Become(s, id, Received(k))
  {
  }

  lemma SlowHandlerReached()
    ensures Trace(Sent(), [ByWorker(Receive(1, 0)), ByWorker(Claim(1, 10)), ByWorker(Handle(1))]) == SlowHandler()
  {
    hide Next, Trace;
    var s, e1, e2 := Sent(), ByWorker(Receive(1, 0)), ByWorker(Claim(1, 10));
    TraceOf3(s, e1, e2, ByWorker(Handle(1)));
    ReceiveNext(s, 1, 0);
    ClaimNext(Next(s, e1), 1, 0, 10);
    HandleNext(Next(Next(s, e1), e2), 1, 0);
    assert SlowHandler().actors == Next(Next(Next(s, e1), e2), ByWorker(Handle(1))).actors;
  }

  lemma ReapedReached()
    ensures Trace(SlowHandler(), [BySweeper(BulkReap(11 + RUNNING_LEASE))]) == Reaped()
  {
    TraceOf1(SlowHandler(), BySweeper(BulkReap(11 + RUNNING_LEASE)));
    assert BulkReaped(SlowHandler().runs, 11 + RUNNING_LEASE) == Reaped().runs;
  }

  /** The reaper fails a run past its lease, and the slow handler's success overwrites that. */
  lemma ReapedRunCanSucceed() returns (s: State, more: seq<Event>)
    ensures Reachable(s) && |s.runs| == 1 && s.runs[0].status == Failed
    ensures |Trace(s, more).runs| == 1 && Trace(s, more).runs[0].status == Succeeded
  {
    hide Trace, Next, SlowHandler;
    s := Reaped();
    var sent, taken, reap := [ByTicker(Fire(0, 0, 0)), ByQueue(Enqueue(0))],
        [ByWorker(Receive(1, 0)), ByWorker(Claim(1, 10)), ByWorker(Handle(1))],
        [BySweeper(BulkReap(11 + RUNNING_LEASE))];
    SentReached();
    SlowHandlerReached();
    ReapedReached();
    Compose(Initial({}, {}), sent, taken);
    Compose(Initial({}, {}), sent + taken, reap);
    assert Reachable(s);
    more := SuccessAfterReap();
  }

  lemma SuccessAfterReap() returns (more: seq<Event>)
    ensures |Trace(Reaped(), more).runs| == 1 && Trace(Reaped(), more).runs[0].status == Succeeded
  {
    hide Trace, Next;
    var s, e1, e2 := Reaped(), ByWorker(Return(1, true)), ByWorker(Record(1, true, None, 2000));
    more := [e1, e2];
    TraceOf2(s, e1, e2);
    ReturnNext(s, 1, 0, {}, true);
    RecordNext(Next(s, e1), 1, 0, Succeeded, true, None, 2000);
  }

  // ----- uninterrupted, the steps are the stores' methods -----

  lemma WorkerTakes(s: State, id: nat, k: nat, now: int)
    requires k < |s.runs| && k in s.queue && id !in s.actors
    ensures var t := Trace(s, [ByWorker(Receive(id, k)), ByWorker(Claim(id, now))]);
            && id in t.actors && t.executions == s.executions
            && (if s.runs[k].status == Queued
                then t.actors[id] == Claimed(k) && t.runs == s.runs[k := Started(s.runs[k], now)]
                else t.actors[id] == Recorded(k) && t.runs == s.runs)
  {
    hide Trace, Started;
    TraceOf2(s, ByWorker(Receive(id, k)), ByWorker(Claim(id, now)));
    ReceiveNext(s, id, k);
  }

  lemma WorkerHandles(s: State, id: nat, k: nat, ok: bool, saved: bool, error: Option<string>, now: int)
    requires k < |s.runs| && id in s.actors && s.actors[id] == Claimed(k)
    ensures var handled := [ByWorker(Handle(id)), ByWorker(Return(id, ok)), ByWorker(Record(id, saved, error, now))];
            var t := Trace(s, handled);
            && t.executions == s.executions + [k]
            && t.runs == if saved then s.runs[k := Closed(s.runs[k], Verdict(ok), error, now)] else s.runs
  {
    hide Closed, Verdict, Next, Trace;
    TraceOf3(s, ByWorker(Handle(id)), ByWorker(Return(id, ok)), ByWorker(Record(id, saved, error, now)));
    HandleNext(s, id, k);
    var s1 := Next(s, ByWorker(Handle(id)));
    ReturnNext(s1, id, k, {}, ok);
    RecordNext(Next(s1, ByWorker(Return(id, ok))), id, k, Verdict(ok), saved, error, now);
  }

  lemma WorkerSkips(s: State, id: nat, k: nat, ok: bool, saved: bool, error: Option<string>, now: int)
    requires id in s.actors && s.actors[id] == Recorded(k)
    ensures Trace(s, [ByWorker(Handle(id)), ByWorker(Return(id, ok)), ByWorker(Record(id, saved, error, now))]) == s
  {
    hide Trace, WorkerStep;
    TraceOf3(s, ByWorker(Handle(id)), ByWorker(Return(id, ok)), ByWorker(Record(id, saved, error, now)));
  }

  /** A worker left alone with one message does what ProcessScheduled states. */
  lemma WorkerAlone(s: State, id: nat, k: nat, ok: bool, saved: bool, error: Option<string>, started: int,
                    finished: int)
    requires k < |s.runs| && k in s.queue && id !in s.actors
    ensures var steps := [ByWorker(Receive(id, k)), ByWorker(Claim(id, started))]
                         + [ByWorker(Handle(id)), ByWorker(Return(id, ok)),
                            ByWorker(Record(id, saved, error, finished))];
            var r, t := Started(s.runs[k], started), Trace(s, steps);
            && (s.runs[k].status == Queued ==>
                  && t.runs == s.runs[k := if saved then Closed(r, Verdict(ok), error, finished) else r]
                  && t.executions == s.executions + [k])
            && (s.runs[k].status != Queued ==> t.runs == s.runs && t.executions == s.executions)
  {
    hide Trace, Closed, Verdict, Started;
    var first := [ByWorker(Receive(id, k)), ByWorker(Claim(id, started))];
    Compose(s, first, [ByWorker(Handle(id)), ByWorker(Return(id, ok)), ByWorker(Record(id, saved, error, finished))]);
    WorkerTakes(s, id, k, started);
    if s.runs[k].status == Queued {
      WorkerHandles(Trace(s, first), id, k, ok, saved, error, finished);
    } else {
      WorkerSkips(Trace(s, first), id, k, ok, saved, error, finished);
    }
  }

  /** A runner left alone leases the oldest approved run, as ClaimFinanceSync states. */
  lemma ClaimerAlone(s: State, id: nat, k: nat, runner: string, now: int)
    requires id !in s.actors && OldestClaimable(s.runs, k)
    ensures Trace(s, [ByFinance(PickClaim(id, k, runner)), ByFinance(Lease(id, now))]).runs
            == s.runs[k := By(Started(s.runs[k], now), runner)]
  {
    hide Started, By, Trace;
    TraceOf2(s, ByFinance(PickClaim(id, k, runner)), ByFinance(Lease(id, now)));
    assert Next(s, ByFinance(PickClaim(id, k, runner))) == Become(s, id, Leasing(k, runner));
    hide OldestClaimable;
  }

  lemma ReadNext(s: State, id: nat, k: nat, ok: bool, runner: string)
    requires id !in s.actors && k < |s.runs| && s.runs[k].gated
    ensures Next(s, ByFinance(ReadCompletion(id, k, ok, runner)))
            == if s.runs[k].status == Running then Become(s, id, Completing(k, Verdict(ok), runner)) else s
  {
  }

  /** Completed alone, a run is closed only if it was running, as CompleteFinanceSync states. */
  lemma CompleterAlone(s: State, id: nat, k: nat, ok: bool, error: Option<string>, runner: string, now: int)
    requires id !in s.actors && k < |s.runs| && s.runs[k].gated
    ensures Trace(s, [ByFinance(ReadCompletion(id, k, ok, runner)), ByFinance(Complete(id, error, now))]).runs
            == if s.runs[k].status == Running then s.runs[k := Delivered(s.runs[k], Verdict(ok), error, runner, now)]
              else s.runs
  {
    hide Delivered, Verdict, FinanceStep, Trace;
    TraceOf2(s, ByFinance(ReadCompletion(id, k, ok, runner)), ByFinance(Complete(id, error, now)));
    ReadNext(s, id, k, ok, runner);
    if s.runs[k].status == Running {
      CompleteNext(Next(s, ByFinance(ReadCompletion(id, k, ok, runner))), id, k, Verdict(ok), runner, error, now);
    }
  }

  /** A scrape stage left alone stores its fresh artifacts for its own run. */
  lemma ScrapeAlone(s: State, id: nat, ids: set<nat>, now: int)
    requires id in s.actors && s.actors[id].Executing? && s.actors[id].run < |s.runs|
    requires Artifacts.FreshIds(s.artifacts, ids)
    ensures var k := s.actors[id].run;
            Next(s, ByWorker(Store(id, ids, now)))
            == s.(artifacts := Artifacts.Stored(s.artifacts, s.runs[k].job, k, ids, now))
  {
  }

  /**
    The writing stage left alone takes the newest pending artifact there is: of its run, exactly the pending
    artifacts are done afterwards, on account of this run, and no other artifact has changed.
   */
  lemma DigestAlone(s: State, id: nat, newest: nat)
    requires id in s.actors && s.actors[id].Executing?
    ensures Enabled(s, ByWorker(Assemble(id, newest))) <==>
              && newest in s.artifacts && s.artifacts[newest].status == Artifacts.Pending
              && forall j :: j in s.artifacts && s.artifacts[j].status == Artifacts.Pending ==> j <= newest
    ensures Enabled(s, ByWorker(Assemble(id, newest))) ==>
            var t := Next(Next(s, ByWorker(Assemble(id, newest))), ByWorker(Consume(id)));
            && t.runs == s.runs && t.artifacts.Keys == s.artifacts.Keys
            && forall i :: i in s.artifacts ==>
                 var a := s.artifacts[i];
                 if a.producedBy == s.artifacts[newest].producedBy && a.status == Artifacts.Pending
                 then t.artifacts[i] == a.(status := Artifacts.Done, consumedBy := Some(s.actors[id].run))
                 else t.artifacts[i] == a
  {
  }

  /** The artifact sweep left alone expires exactly the pending artifacts past their time. */
  lemma ArtifactSweepAlone(s: State, now: int)
    ensures var t := Next(s, BySweeper(SweepArtifacts(now)));
            && t == s.(artifacts := t.artifacts) && t.artifacts.Keys == s.artifacts.Keys
            && forall i :: i in s.artifacts ==>
                 var a := s.artifacts[i];
                 if a.status == Artifacts.Pending && a.expiresAt.Some? && a.expiresAt.value < now
                 then t.artifacts[i] == a.(status := Artifacts.Expired) else t.artifacts[i] == a
  {
  }

  /** A worker takes up only a message in the queue, and leaves it there till it acknowledges it. */
  lemma ReceiveAlone(s: State, id: nat, k: nat)
    ensures Enabled(s, ByWorker(Receive(id, k))) <==> id !in s.actors && k in s.queue && k < |s.runs|
    ensures Next(s, ByWorker(Receive(id, k))).queue == s.queue
  {
  }

  /** A message the worker is done with is gone from the queue; one whose claim failed is still there. */
  lemma AckAlone(s: State, id: nat)
    requires id in s.actors && s.actors[id].Recorded?
    ensures Next(s, ByWorker(Ack(id))).queue == s.queue - multiset{s.actors[id].run}
    ensures Next(s, Crash(id)).queue == s.queue && id !in Next(s, Crash(id)).actors
    ensures s.actors[id].run in s.queue ==>
              Next(s, ByQueue(Lose(s.actors[id].run))).queue == s.queue - multiset{s.actors[id].run}
  {
  }

  /** A fire left alone inserts a waiting run unless the index has one for the instant. */
  lemma FireAlone(s: State, job: nat, tick: int, now: int)
    ensures var t := Next(s, ByTicker(Fire(job, tick, now)));
            && t.queue == s.queue && t.actors == s.actors
            && if exists k :: 0 <= k < |s.runs| && s.runs[k].job == job && s.runs[k].scheduledFor == tick
               then t == s
               else t.runs == s.runs + [Run(job, job in s.gatedJobs, Schedule, tick, now,
                                            if job in s.gatedJobs then AwaitingAck else Queued, None, None, None, "",
                                            None)]
  {
    assert forall k :: 0 <= k < |s.runs| ==>
             (IsFor(s.runs[k], job, tick) <==> s.runs[k].job == job && s.runs[k].scheduledFor == tick);
  }

  /** A force-start left alone inserts a manual run and, for an ordinary job, sends it; if sending fails, fails it. */
  lemma ForceStartAlone(s: State, id: nat, job: nat, now: int, later: int)
    requires id !in s.actors && !Taken(s.runs, job, now)
    ensures var r := Run(job, job in s.gatedJobs, Manual, now, now, if job in s.gatedJobs then AwaitingAck else Queued,
                         None, None, None, "", None);
            var t := Next(s, ByTicker(ForceStart(id, job, now)));
            && t.runs == s.runs + [r]
            && (job in s.gatedJobs ==> t.actors == s.actors && t.queue == s.queue)
            && (job !in s.gatedJobs ==>
                  && Next(t, ByTicker(Send(id))).queue == s.queue + multiset{|s.runs|}
                  && Next(t, ByTicker(Send(id))).runs == s.runs + [r]
                  && Next(t, ByTicker(SendFails(id, true))).queue == s.queue + multiset{|s.runs|}
                  && var failed := Next(Next(t, ByTicker(SendFails(id, false))), ByTicker(Abort(id, later)));
                  && failed.queue == s.queue
                  && failed.runs == s.runs + [r.(status := Failed, finishedAt := Some(later),
                                                 error := "enqueue failed")])
  {
    ForceStartNext(s, id, job, now);
    var t := Next(s, ByTicker(ForceStart(id, job, now)));
    if job !in s.gatedJobs {
      SendNext(t, id, |s.runs|);
      SendFailsNext(t, id, |s.runs|);
      AbortNext(Next(t, ByTicker(SendFails(id, false))), id, |s.runs|, later);
      AbortKeepsQueue(Next(t, ByTicker(SendFails(id, false))), id, later);
    }
  }

  lemma ForceStartNext(s: State, id: nat, job: nat, now: int)
    requires id !in s.actors && !Taken(s.runs, job, now)
    ensures var t := Next(s, ByTicker(ForceStart(id, job, now)));
            t == if job in s.gatedJobs then Inserted(s, job, Manual, now, now)
                 else Become(Inserted(s, job, Manual, now, now), id, Starting(|s.runs|))
  {
  }

  lemma SendNext(s: State, id: nat, k: nat)
    requires id in s.actors && s.actors[id] == Starting(k)
    ensures Next(s, ByTicker(Send(id))) == Leave(s, id).(queue := s.queue + multiset{k})
  {
  }

  lemma AbortKeepsQueue(s: State, id: nat, now: int)
    ensures Next(s, ByTicker(Abort(id, now))).queue == s.queue
  {
  }

  /**
    A row-wise sweep left alone: it finds, in id order, the rows of its kind that a whole pass at that time would
    close, and its next write makes the first of them what that pass would.
   */
  lemma SweeperAlone(s: State, id: nat, sweep: Sweep, now: int)
    requires id !in s.actors
    ensures var t := Next(s, BySweeper(FindStuck(id, sweep, now)));
            && t.runs == s.runs && id in t.actors && t.actors[id].Sweeping? && t.actors[id].sweep == sweep
            && (forall k: nat :: k in t.actors[id].ids <==>
                  && k < |s.runs| && s.runs[k].gated && SweptRow(s.runs[k], now) != s.runs[k]
                  && s.runs[k].status == if sweep == ReapGated then Running else AwaitingAck)
            && (t.actors[id].ids != [] ==>
                  var k := t.actors[id].ids[0];
                  && k < |s.runs|
                  && Next(t, BySweeper(CloseNext(id, now))).runs == s.runs[k := SweptRow(s.runs[k], now)])
  {
    forall k: nat | k < |s.runs|
      ensures Caught(sweep, s.runs[k], now) <==>
                s.runs[k].gated && SweptRow(s.runs[k], now) != s.runs[k] && s.runs[k].status == FromOf(sweep)
      ensures Caught(sweep, s.runs[k], now) ==>
                SweptRow(s.runs[k], now) == Closed(s.runs[k], ToOf(sweep), ReasonOf(sweep), now)
    {
      CaughtExactly(sweep, s.runs[k], now);
    }
    hide Caught, SweptRow, Closed, ToOf, ReasonOf, Next;
    var ids := FindStuckNext(s, id, sweep, now);
    if ids != [] {
      assert ids[0] in ids;
      CloseFirst(Next(s, BySweeper(FindStuck(id, sweep, now))), id, sweep, ids, now);
    }
  }

  lemma FindStuckNext(s: State, id: nat, sweep: Sweep, now: int) returns (ids: seq<nat>)
    requires id !in s.actors
    ensures Next(s, BySweeper(FindStuck(id, sweep, now))) == Become(s, id, Sweeping(sweep, ids))
    ensures forall k: nat :: k in ids <==> k < |s.runs| && Caught(sweep, s.runs[k], now)
  {
    hide Caught;
    ids := Next(s, BySweeper(FindStuck(id, sweep, now))).actors[id].ids;
  }

  lemma CloseFirst(s: State, id: nat, sweep: Sweep, ids: seq<nat>, now: int)
    requires id in s.actors && s.actors[id] == Sweeping(sweep, ids) && ids != [] && ids[0] < |s.runs|
    requires s.runs[ids[0]].status == FromOf(sweep)
    ensures Next(s, BySweeper(CloseNext(id, now))).runs
            == s.runs[ids[0] := Closed(s.runs[ids[0]], ToOf(sweep), ReasonOf(sweep), now)]
  {
    hide Closed, ToOf, ReasonOf;
  }

  lemma CaughtExactly(sweep: Sweep, r: Run, now: int)
    ensures Caught(sweep, r, now) <==> r.gated && SweptRow(r, now) != r && r.status == FromOf(sweep)
    ensures Caught(sweep, r, now) ==> SweptRow(r, now) == Closed(r, ToOf(sweep), ReasonOf(sweep), now)
  {
    SweptExactly(r, now);
  }

  /** Work posted back alone closes the run whatever its status, as CompleteWork states. */
  lemma PosterAlone(s: State, id: nat, k: nat, ok: bool, error: Option<string>, runner: string, now: int)
    requires id !in s.actors && k < |s.runs| && Artifacts.Holds(s.artifacts, k, runner)
    ensures var t := Trace(s, [ByRunner(CheckWork(id, k, ok, runner)), ByRunner(PostWork(id, error, now))]);
            && t.runs == s.runs[k := Delivered(s.runs[k], Verdict(ok), error, runner, now)]
            && t.artifacts == Artifacts.Finished(s.artifacts, k, runner)
  {
    hide Delivered, Verdict, Trace, Artifacts.Holds, Artifacts.Finished;
    TraceOf2(s, ByRunner(CheckWork(id, k, ok, runner)), ByRunner(PostWork(id, error, now)));
    assert Next(s, ByRunner(CheckWork(id, k, ok, runner))) == Become(s, id, Posting(k, Verdict(ok), runner));
  }
}
