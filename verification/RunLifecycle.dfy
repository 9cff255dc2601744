/**
  Everyone who writes a run's status, interleaved: ticker, re-drive, worker, reaper, expiry, approval,
  outside runners, force-start. Guarded writes re-check the status; unguarded ones write by id whatever
  it has become since they looked. The queue delivers at least once.
 */
module RunLifecycle {
  import opened Prelude
  import opened JobRuns
  import Artifacts

  /** How a run left its waiting phase. Overwritten would be a late write doing it. */
  datatype Exit = ClaimedByWorker | LeasedByRunner | Expired | Aborted | Overwritten

  /** Someone part-way through a sequence of steps about a run. */
  datatype Actor =
    | Received(run: nat)
    | Claimed(run: nat)
    | Executing(run: nat, inputs: set<nat>)
    | Executed(run: nat, outcome: Status)
    | Recorded(run: nat)
    | Sweeping(sweep: Sweep, ids: seq<nat>)
    | Approving(run: nat)
    | Leasing(run: nat, runner: string)
    | Completing(run: nat, target: Status, runner: string)
    | Starting(run: nat)
    | Aborting(run: nat)
    | Taking(run: nat, job: nat, runner: string, now: int)
    | Posting(run: nat, target: Status, runner: string)

  /**
    gatedJobs await an approval, localJobs let outside runners claim their artifacts. executions and
    exits are history: handler starts, and departures from the waiting phase.
   */
  datatype State = State(gatedJobs: set<nat>, localJobs: set<nat>, runs: seq<Run>, queue: multiset<nat>,
                         actors: map<nat, Actor>, artifacts: Artifacts.Table,
                         executions: seq<nat>, exits: seq<(nat, Exit)>)

  /** The ticker's inserts and the admin console's force-start. */
  datatype TickerEvent =
    | Fire(job: nat, tick: int, now: int)
    | ForceStart(id: nat, job: nat, now: int)
    | Send(id: nat)
    | SendFails(id: nat, landed: bool)
    | Abort(id: nat, now: int)

  /** A message gained, by a fire or a re-drive, or lost by the queue. */
  datatype QueueEvent =
    | Enqueue(run: nat)
    | Lose(run: nat)

  datatype WorkerEvent =
    | Receive(id: nat, run: nat)
    | Claim(id: nat, now: int)
    | Handle(id: nat)
    | Store(id: nat, ids: set<nat>, now: int)
    | Assemble(id: nat, newest: nat)
    | Consume(id: nat)
    | Return(id: nat, ok: bool)
    | Record(id: nat, saved: bool, error: Option<string>, now: int)
    | Ack(id: nat)

  datatype SweeperEvent =
    | BulkReap(now: int)
    | FindStuck(id: nat, sweep: Sweep, now: int)
    | CloseNext(id: nat, now: int)
    | SweepArtifacts(now: int)

  datatype FinanceEvent =
    | ReadApproval(id: nat, run: nat)
    | Approve(id: nat, now: int)
    | PickClaim(id: nat, run: nat, runner: string)
    | Lease(id: nat, now: int)
    | ReadCompletion(id: nat, run: nat, ok: bool, runner: string)
    | Complete(id: nat, error: Option<string>, now: int)

  /** The work API: claiming a run's artifacts and posting its result back. */
  datatype RunnerEvent =
    | PickWork(id: nat, first: nat, job: nat, runner: string, now: int)
    | TakeWork(id: nat)
    | CheckWork(id: nat, run: nat, ok: bool, runner: string)
    | PostWork(id: nat, error: Option<string>, now: int)

  datatype Event =
    | ByTicker(t: TickerEvent)
    | ByQueue(q: QueueEvent)
    | ByWorker(w: WorkerEvent)
    | BySweeper(m: SweeperEvent)
    | ByFinance(f: FinanceEvent)
    | ByRunner(r: RunnerEvent)
    | Crash(id: nat)

  function Initial(gatedJobs: set<nat>, localJobs: set<nat>): State {
    State(gatedJobs, localJobs, [], multiset{}, map[], map[], [], [])
  }

  const ENQUEUE_FAILED: Option<string> := Some("enqueue failed")

  // ----- building blocks of a step -----

  /** A write of one row, which logs the exit when it takes the run out of its waiting phase. */
  function Write(s: State, k: nat, r: Run, exit: Exit): State
    requires k < |s.runs|
  {
    s.(runs := s.runs[k := r],
       exits := if Phase(s.runs[k].status) == 0 && Phase(r.status) > 0 then s.exits + [(k, exit)] else s.exits)
  }

  function Become(s: State, id: nat, a: Actor): State {
    s.(actors := s.actors[id := a])
  }

  function Leave(s: State, id: nat): State {
    s.(actors := s.actors - {id})
  }

  function Inserted(s: State, job: nat, trigger: Trigger, tick: int, now: int): State {
    s.(runs := s.runs + [NewRun(job, job in s.gatedJobs, trigger, tick, now)])
  }

  /** The row a finance completion or a posted-back result writes. */
  function Delivered(r: Run, target: Status, error: Option<string>, runner: string, now: int): Run {
    By(Closed(r, target, error, now), runner)
  }

  // ----- the ticker and the admin console -----

  predicate TickerReady(s: State, t: TickerEvent) {
    match t
    case Fire(_, _, _) => true
    case ForceStart(id, _, _) => id !in s.actors
    case Send(id) => id in s.actors && s.actors[id].Starting?
    case SendFails(id, _) => id in s.actors && s.actors[id].Starting?
    case Abort(id, _) => id in s.actors && s.actors[id].Aborting? && s.actors[id].run < |s.runs|
  }

  function TickerStep(s: State, t: TickerEvent): State
    requires TickerReady(s, t)
  {
    match t
    case Fire(job, tick, now) =>
      // Insert unless the index has the pair; the message follows in an Enqueue of its own.
      if Taken(s.runs, job, tick) then s else Inserted(s, job, Schedule, tick, now)
    case ForceStart(id, job, now) =>
      if Taken(s.runs, job, now) then s
      else if job in s.gatedJobs then Inserted(s, job, Manual, now, now)
      else Become(Inserted(s, job, Manual, now, now), id, Starting(|s.runs|))
    case Send(id) => Leave(s, id).(queue := s.queue + multiset{s.actors[id].run})
    case SendFails(id, landed) =>
      Become(s, id, Aborting(s.actors[id].run)).(queue := if landed then s.queue + multiset{s.actors[id].run}
                                                 else s.queue)
    case Abort(id, now) =>
      var k := s.actors[id].run;
      Leave(Write(s, k, Closed(s.runs[k], Failed, ENQUEUE_FAILED, now), Exit.Aborted), id)
  }

  // ----- the queue -----

  predicate QueueReady(s: State, q: QueueEvent) {
    match q
    case Enqueue(k) => k < |s.runs| && !s.runs[k].gated
    case Lose(k) => k in s.queue
  }

  function QueueStep(s: State, q: QueueEvent): State {
    match q
    case Enqueue(k) => s.(queue := s.queue + multiset{k})
    case Lose(k) => s.(queue := s.queue - multiset{k})
  }

  // ----- the worker -----

  predicate WorkerReady(s: State, w: WorkerEvent) {
    match w
    case Receive(id, k) => id !in s.actors && k in s.queue && k < |s.runs|
    case Claim(id, _) => id in s.actors && s.actors[id].Received? && s.actors[id].run < |s.runs|
    case Handle(id) => id in s.actors && s.actors[id].Claimed?
    case Store(id, ids, _) =>
      && id in s.actors && s.actors[id].Executing? && s.actors[id].run < |s.runs|
      && Artifacts.FreshIds(s.artifacts, ids)
    case Assemble(id, newest) =>
      && id in s.actors && s.actors[id].Executing? && NewestPending(s.artifacts, newest)
    case Consume(id) => id in s.actors && s.actors[id].Executing?
    case Return(id, _) => id in s.actors && s.actors[id].Executing?
    case Record(id, _, _, _) => id in s.actors && s.actors[id].Executed? && s.actors[id].run < |s.runs|
    case Ack(id) => id in s.actors && s.actors[id].Recorded?
  }

  predicate NewestPending(artifacts: Artifacts.Table, i: nat) {
    && i in artifacts && artifacts[i].status == Artifacts.Pending
    && forall j :: j in artifacts && artifacts[j].status == Artifacts.Pending ==> j <= i
  }

  /** The newest scrape run's pending artifacts, read to be summarised. */
  function PendingOf(artifacts: Artifacts.Table, run: nat): set<nat> {
    set i | i in artifacts && artifacts[i].producedBy == run && artifacts[i].status == Artifacts.Pending
  }

  function WorkerStep(s: State, w: WorkerEvent): State
    requires WorkerReady(s, w)
  {
    match w
    case Receive(id, k) => Become(s, id, Received(k))
    case Claim(id, now) =>
      var k := s.actors[id].run;
      if s.runs[k].status == Queued then Become(Write(s, k, Started(s.runs[k], now), ClaimedByWorker), id, Claimed(k))
      else Become(s, id, Recorded(k))
    case Handle(id) =>
      Become(s, id, Executing(s.actors[id].run, {})).(executions := s.executions + [s.actors[id].run])
    case Store(id, ids, now) =>
      var k := s.actors[id].run;
      s.(artifacts := Artifacts.Stored(s.artifacts, s.runs[k].job, k, ids, now))
    case Assemble(id, newest) =>
      Become(s, id, Executing(s.actors[id].run, PendingOf(s.artifacts, s.artifacts[newest].producedBy)))
    case Consume(id) =>
      var a := s.actors[id];
      Become(s, id, Executing(a.run, {})).(artifacts := Artifacts.Consumed(s.artifacts, a.inputs, a.run))
    case Return(id, ok) => Become(s, id, Executed(s.actors[id].run, Verdict(ok)))
    case Record(id, saved, error, now) =>
      var k := s.actors[id].run;
      var t := if saved then Write(s, k, Closed(s.runs[k], s.actors[id].outcome, error, now), Overwritten) else s;
      Become(t, id, Recorded(k))
    case Ack(id) => Leave(s, id).(queue := s.queue - multiset{s.actors[id].run})
  }

  // ----- maintenance -----

  predicate SweeperReady(s: State, m: SweeperEvent) {
    match m
    case BulkReap(_) => true
    case FindStuck(id, _, _) => id !in s.actors
    case CloseNext(id, _) =>
      id in s.actors && s.actors[id].Sweeping? && s.actors[id].ids != [] && s.actors[id].ids[0] < |s.runs|
    case SweepArtifacts(_) => true
  }

  function SweeperStep(s: State, m: SweeperEvent): State
    requires SweeperReady(s, m)
  {
    match m
    case BulkReap(now) => s.(runs := BulkReaped(s.runs, now))
    case FindStuck(id, sweep, now) => Become(s, id, Sweeping(sweep, Select(s.runs, r => Caught(sweep, r, now))))
    case CloseNext(id, now) =>
      var Sweeping(sweep, ids) := s.actors[id];
      var k := ids[0];
      var t := if s.runs[k].status == FromOf(sweep)
               then Write(s, k, Closed(s.runs[k], ToOf(sweep), ReasonOf(sweep), now), Expired) else s;
      Become(t, id, Sweeping(sweep, ids[1..]))
    case SweepArtifacts(now) => s.(artifacts := Artifacts.Swept(s.artifacts, now))
  }

  // ----- the finance sync -----

  predicate FinanceReady(s: State, f: FinanceEvent) {
    match f
    case ReadApproval(id, k) => id !in s.actors && k < |s.runs| && s.runs[k].gated && s.runs[k].status == AwaitingAck
    case Approve(id, _) => id in s.actors && s.actors[id].Approving? && s.actors[id].run < |s.runs|
    case PickClaim(id, k, _) => id !in s.actors && OldestClaimable(s.runs, k)
    case Lease(id, _) => id in s.actors && s.actors[id].Leasing? && s.actors[id].run < |s.runs|
    case ReadCompletion(id, k, _, _) => id !in s.actors && k < |s.runs| && s.runs[k].gated
      && s.runs[k].status == Running
    case Complete(id, _, _) => id in s.actors && s.actors[id].Completing? && s.actors[id].run < |s.runs|
  }

  function FinanceStep(s: State, f: FinanceEvent): State
    requires FinanceReady(s, f)
  {
    match f
    case ReadApproval(id, k) => Become(s, id, Approving(k))
    case Approve(id, now) =>
      var k := s.actors[id].run;
      Leave(Write(s, k, s.runs[k].(claimableAt := Some(now)), Overwritten), id)
    case PickClaim(id, k, runner) => Become(s, id, Leasing(k, runner))
    case Lease(id, now) =>
      var Leasing(k, runner) := s.actors[id];
      if s.runs[k].status == AwaitingAck
      then Leave(Write(s, k, By(Started(s.runs[k], now), runner), LeasedByRunner), id)
      else Leave(s, id)
    case ReadCompletion(id, k, ok, runner) => Become(s, id, Completing(k, Verdict(ok), runner))
    case Complete(id, error, now) =>
      var Completing(k, target, runner) := s.actors[id];
      Leave(Write(s, k, Delivered(s.runs[k], target, error, runner, now), Overwritten), id)
  }

  // ----- the work API -----

  predicate RunnerReady(s: State, r: RunnerEvent) {
    match r
    case PickWork(id, first, job, _, now) =>
      id !in s.actors && Artifacts.OldestClaimable(s.artifacts, s.localJobs, job, now, first)
    case TakeWork(id) => id in s.actors && s.actors[id].Taking?
    case CheckWork(id, k, _, runner) => id !in s.actors && k < |s.runs| && Artifacts.Holds(s.artifacts, k, runner)
    case PostWork(id, _, _) => id in s.actors && s.actors[id].Posting? && s.actors[id].run < |s.runs|
  }

  function RunnerStep(s: State, r: RunnerEvent): State
    requires RunnerReady(s, r)
  {
    match r
    case PickWork(id, first, job, runner, now) => Become(s, id, Taking(s.artifacts[first].producedBy, job, runner, now))
    case TakeWork(id) =>
      var Taking(k, job, runner, now) := s.actors[id];
      Leave(s, id).(artifacts := Artifacts.Leased(s.artifacts, s.localJobs, job, k, runner, now))
    case CheckWork(id, k, ok, runner) => Become(s, id, Posting(k, Verdict(ok), runner))
    case PostWork(id, error, now) =>
      var Posting(k, target, runner) := s.actors[id];
      Leave(Write(s, k, Delivered(s.runs[k], target, error, runner, now), Overwritten), id)
        .(artifacts := Artifacts.Finished(s.artifacts, k, runner))
  }

  // ----- runs of steps -----

  predicate Enabled(s: State, e: Event) {
    match e
    case ByTicker(t) => TickerReady(s, t)
    case ByQueue(q) => QueueReady(s, q)
    case ByWorker(w) => WorkerReady(s, w)
    case BySweeper(m) => SweeperReady(s, m)
    case ByFinance(f) => FinanceReady(s, f)
    case ByRunner(r) => RunnerReady(s, r)
    case Crash(id) => id in s.actors
  }

  function Apply(s: State, e: Event): State
    requires Enabled(s, e)
  {
    match e
    case ByTicker(t) => TickerStep(s, t)
    case ByQueue(q) => QueueStep(s, q)
    case ByWorker(w) => WorkerStep(s, w)
    case BySweeper(m) => SweeperStep(s, m)
    case ByFinance(f) => FinanceStep(s, f)
    case ByRunner(r) => RunnerStep(s, r)
    case Crash(id) => Leave(s, id)
  }

  function Next(s: State, e: Event): State {
    if Enabled(s, e) then Apply(s, e) else s
  }

  /** The state after a run of events; one that is not enabled does nothing. */
  function Trace(s: State, events: seq<Event>): State {
    if events == [] then s else Next(Trace(s, events[..|events| - 1]), events[|events| - 1])
  }

  // ----- the invariant -----

  /** Ordinary runs queue; ack-gated runs await approval, and run only once approved. */
  predicate RunOk(gatedJobs: set<nat>, r: Run) {
    && (r.gated <==> r.job in gatedJobs)
    && (r.status == Running ==> r.startedAt.Some?)
    && (r.gated ==> r.status != Queued && (r.status in {Running, Succeeded, Failed} ==> r.claimableAt.Some?))
    && (!r.gated ==> r.status != AwaitingAck && r.status != Cancelled)
  }

  ghost predicate RunsOk(gatedJobs: set<nat>, runs: seq<Run>) {
    forall k :: 0 <= k < |runs| ==> RunOk(gatedJobs, runs[k])
  }

  /** A run past waiting, and a worker's rather than a runner's. */
  predicate UnderWay(runs: seq<Run>, k: nat) {
    k < |runs| && !runs[k].gated && Phase(runs[k].status) > 0
  }

  predicate ActorOk(runs: seq<Run>, executions: seq<nat>, a: Actor) {
    match a
    case Received(k) => k < |runs|
    case Claimed(k) => UnderWay(runs, k) && k !in executions
    case Executing(k, _) => k in executions
    case Executed(k, outcome) => k in executions && Terminal(outcome) && outcome != Cancelled
    case Recorded(_) => true
    case Sweeping(_, ids) => forall i :: 0 <= i < |ids| ==> ids[i] < |runs| && runs[ids[i]].gated
    case Approving(k) => k < |runs| && runs[k].gated
    case Leasing(k, _) => k < |runs| && runs[k].gated && runs[k].claimableAt.Some?
    case Completing(k, target, _) =>
      && k < |runs| && runs[k].gated && runs[k].claimableAt.Some? && runs[k].status in {Running, Succeeded, Failed}
      && Terminal(target) && target != Cancelled
    case Starting(k) => k < |runs| && !runs[k].gated
    case Aborting(k) => k < |runs| && !runs[k].gated
    case Taking(_, _, _, _) => true
    case Posting(k, target, _) => UnderWay(runs, k) && Terminal(target) && target != Cancelled
  }

  ghost predicate ActorsOk(runs: seq<Run>, executions: seq<nat>, actors: map<nat, Actor>) {
    && (forall id :: id in actors ==> ActorOk(runs, executions, actors[id]))
    && (forall id, id' :: id in actors && id' in actors && id != id' && actors[id].Claimed? && actors[id'].Claimed? ==>
          actors[id].run != actors[id'].run)
  }

  /** A run's handler starts once, after the run was taken, and only it stores the run's artifacts. */
  ghost predicate HistoryOk(runs: seq<Run>, executions: seq<nat>) {
    && (forall k :: k in executions ==> UnderWay(runs, k))
    && (forall i, j :: 0 <= i < j < |executions| ==> executions[i] != executions[j])
  }

  ghost predicate ArtifactsOk(executions: seq<nat>, artifacts: Artifacts.Table) {
    Artifacts.ClaimsNamed(artifacts) && forall i :: i in artifacts ==> artifacts[i].producedBy in executions
  }

  /** The status an exit leads to, and the kind of run it belongs to. */
  predicate ExitOk(r: Run, exit: Exit) {
    match exit
    case ClaimedByWorker => !r.gated && Phase(r.status) > 0
    case Aborted => !r.gated && Phase(r.status) > 0
    case LeasedByRunner => r.gated && r.status in {Running, Succeeded, Failed}
    case Expired => r.gated && r.status == Cancelled
    case Overwritten => false
  }

  predicate Logged(exits: seq<(nat, Exit)>, k: nat, i: int) {
    0 <= i < |exits| && exits[i].0 == k
  }

  ghost predicate HasExit(exits: seq<(nat, Exit)>, k: nat) {
    exists i :: Logged(exits, k, i)
  }

  ghost predicate ExitsOk(runs: seq<Run>, exits: seq<(nat, Exit)>) {
    && (forall i, j :: 0 <= i < j < |exits| ==> exits[i].0 != exits[j].0)
    && (forall i :: 0 <= i < |exits| ==> exits[i].0 < |runs| && ExitOk(runs[exits[i].0], exits[i].1))
    && (forall k :: 0 <= k < |runs| && Phase(runs[k].status) > 0 ==> HasExit(exits, k))
  }

  ghost predicate Inv(s: State) {
    && RunsOk(s.gatedJobs, s.runs)
    && OneRunPerTick(s.runs)
    && ActorsOk(s.runs, s.executions, s.actors)
    && HistoryOk(s.runs, s.executions)
    && ArtifactsOk(s.executions, s.artifacts)
    && ExitsOk(s.runs, s.exits)
  }

  // ----- what one write may do -----

  /** Identity stays, the phase does not fall, approval is not taken back, a cancelled run stays cancelled. */
  predicate Advances(r: Run, r': Run) {
    && r'.job == r.job && r'.gated == r.gated && r'.trigger == r.trigger
    && r'.scheduledFor == r.scheduledFor && r'.createdAt == r.createdAt
    && Phase(r.status) <= Phase(r'.status)
    && (r.claimableAt.Some? ==> r'.claimableAt.Some?)
    && (r.status == Cancelled ==> r'.status == Cancelled)
    && (r.gated && r.status in {Running, Succeeded, Failed} ==> r'.status in {Running, Succeeded, Failed})
  }

  ghost predicate AllAdvance(runs: seq<Run>, runs': seq<Run>) {
    |runs| <= |runs'| && forall k :: 0 <= k < |runs| ==> Advances(runs[k], runs'[k])
  }

  lemma ActorKept(runs: seq<Run>, runs': seq<Run>, executions: seq<nat>, a: Actor)
    requires AllAdvance(runs, runs') && ActorOk(runs, executions, a)
    ensures ActorOk(runs', executions, a)
  {
    match a {
      case Sweeping(_, ids) =>
        assert forall i :: 0 <= i < |ids| ==> Advances(runs[ids[i]], runs'[ids[i]]);
      case Executing(_, _) =>
      case Executed(_, _) =>
      case Recorded(_) =>
      case Taking(_, _, _, _) =>
      case _ => assert Advances(runs[a.run], runs'[a.run]);
    }
  }

  lemma ActorsKept(runs: seq<Run>, runs': seq<Run>, executions: seq<nat>, actors: map<nat, Actor>)
    requires AllAdvance(runs, runs') && ActorsOk(runs, executions, actors)
    ensures ActorsOk(runs', executions, actors)
  {
    hide ActorOk, AllAdvance;
    forall id | id in actors ensures ActorOk(runs', executions, actors[id]) {
      ActorKept(runs, runs', executions, actors[id]);
    }
  }

  lemma HistoryKept(runs: seq<Run>, runs': seq<Run>, executions: seq<nat>)
    requires AllAdvance(runs, runs') && HistoryOk(runs, executions)
    ensures HistoryOk(runs', executions)
  {
    forall k | k in executions ensures UnderWay(runs', k) {
      assert Advances(runs[k], runs'[k]);
    }
  }

  lemma ExitKept(r: Run, r': Run, exit: Exit)
    requires Advances(r, r') && ExitOk(r, exit)
    ensures ExitOk(r', exit)
  {
  }

  lemma ExitsKept(runs: seq<Run>, runs': seq<Run>, exits: seq<(nat, Exit)>)
    requires AllAdvance(runs, runs') && ExitsOk(runs, exits)
    requires forall k :: 0 <= k < |runs'| && Phase(runs'[k].status) > 0 ==> k < |runs| && Phase(runs[k].status) > 0
    ensures ExitsOk(runs', exits)
  {
    hide ExitOk;
    forall i | 0 <= i < |exits| ensures exits[i].0 < |runs'| && ExitOk(runs'[exits[i].0], exits[i].1) {
      assert Advances(runs[exits[i].0], runs'[exits[i].0]);
      ExitKept(runs[exits[i].0], runs'[exits[i].0], exits[i].1);
    }
  }

  lemma ExitIsPastWaiting(r: Run, exit: Exit)
    requires ExitOk(r, exit)
    ensures Phase(r.status) > 0
  {
  }

  lemma FirstExit(runs: seq<Run>, k: nat, r: Run, exit: Exit, exits: seq<(nat, Exit)>)
    requires k < |runs| && AllAdvance(runs, runs[k := r]) && ExitsOk(runs, exits)
    requires Phase(runs[k].status) == 0 && ExitOk(r, exit)
    ensures ExitsOk(runs[k := r], exits + [(k, exit)])
  {
    hide ExitOk;
    var runs', more := runs[k := r], exits + [(k, exit)];
    forall i | 0 <= i < |exits| ensures exits[i].0 != k && ExitOk(runs'[exits[i].0], exits[i].1) {
      ExitIsPastWaiting(runs[exits[i].0], exits[i].1);
    }
    forall j | 0 <= j < |runs'| && Phase(runs'[j].status) > 0 ensures HasExit(more, j) {
      if j == k {
        assert Logged(more, k, |exits|);
      } else {
        assert HasExit(exits, j);
        var i :| Logged(exits, j, i);
        assert Logged(more, j, i);
      }
    }
  }

  // ----- steps keep the invariant -----

  lemma WriteKeepsInv(s: State, k: nat, r: Run, exit: Exit)
    requires Inv(s) && k < |s.runs| && Advances(s.runs[k], r) && RunOk(s.gatedJobs, r)
    requires Phase(s.runs[k].status) == 0 && Phase(r.status) > 0 ==> ExitOk(r, exit)
    ensures Inv(Write(s, k, r, exit)) && AllAdvance(s.runs, Write(s, k, r, exit).runs)
  {
    hide ActorsOk, HistoryOk, ArtifactsOk, ExitsOk, RunOk, ExitOk;
    var runs' := s.runs[k := r];
    assert AllAdvance(s.runs, runs');
    ActorsKept(s.runs, runs', s.executions, s.actors);
    HistoryKept(s.runs, runs', s.executions);
    if Phase(s.runs[k].status) == 0 && Phase(r.status) > 0 {
      FirstExit(s.runs, k, r, exit, s.exits);
    } else {
      ExitsKept(s.runs, runs', s.exits);
    }
  }

  lemma ActorKeptByWrite(s: State, k: nat, r: Run, exit: Exit, a: Actor)
    requires k < |s.runs| && AllAdvance(s.runs, Write(s, k, r, exit).runs) && ActorOk(s.runs, s.executions, a)
    ensures var t := Write(s, k, r, exit); ActorOk(t.runs, t.executions, a)
  {
    ActorKept(s.runs, Write(s, k, r, exit).runs, s.executions, a);
  }

  lemma BecomeKeepsInv(s: State, id: nat, a: Actor)
    requires Inv(s) && ActorOk(s.runs, s.executions, a)
    requires a.Claimed? ==>
               forall id' :: id' in s.actors && id' != id && s.actors[id'].Claimed? ==> s.actors[id'].run != a.run
    ensures Inv(Become(s, id, a))
  {
    hide ActorOk, RunsOk, OneRunPerTick, HistoryOk, ArtifactsOk, ExitsOk;
  }

  lemma LeaveKeepsInv(s: State, id: nat)
    requires Inv(s)
    ensures Inv(Leave(s, id))
  {
    hide ActorOk, RunsOk, OneRunPerTick, HistoryOk, ArtifactsOk, ExitsOk;
  }

  lemma InsertKeepsInv(s: State, job: nat, trigger: Trigger, tick: int, now: int)
    requires Inv(s) && !Taken(s.runs, job, tick)
    ensures Inv(Inserted(s, job, trigger, tick, now))
  {
    hide ActorsOk, HistoryOk, ArtifactsOk, ExitsOk;
    var runs' := Inserted(s, job, trigger, tick, now).runs;
    assert AllAdvance(s.runs, runs');
    ActorsKept(s.runs, runs', s.executions, s.actors);
    HistoryKept(s.runs, runs', s.executions);
    ExitsKept(s.runs, runs', s.exits);
  }

  lemma ReapAdvances(runs: seq<Run>, gatedJobs: set<nat>, now: int)
    requires RunsOk(gatedJobs, runs)
    ensures AllAdvance(runs, BulkReaped(runs, now)) && RunsOk(gatedJobs, BulkReaped(runs, now))
    ensures forall k :: 0 <= k < |runs| ==> (Phase(BulkReaped(runs, now)[k].status) > 0 <==> Phase(runs[k].status) > 0)
  {
  }

  lemma ReapKeepsInv(s: State, now: int)
    requires Inv(s)
    ensures Inv(s.(runs := BulkReaped(s.runs, now)))
  {
    var runs' := BulkReaped(s.runs, now);
    ReapAdvances(s.runs, s.gatedJobs, now);
    assert OneRunPerTick(runs') by {
      assert forall k :: 0 <= k < |s.runs| ==> Advances(s.runs[k], runs'[k]);
    }
    hide ActorsOk, HistoryOk, ArtifactsOk, ExitsOk, RunsOk, OneRunPerTick, BulkReaped;
    ActorsKept(s.runs, runs', s.executions, s.actors);
    HistoryKept(s.runs, runs', s.executions);
    ExitsKept(s.runs, runs', s.exits);
  }

  lemma ArtifactsKeepInv(s: State, artifacts: Artifacts.Table, producer: Option<nat>)
    requires Inv(s) && Artifacts.ClaimsNamed(artifacts)
    requires Artifacts.TableAdvances(s.artifacts, artifacts, s.localJobs, producer)
    requires producer.Some? ==> producer.value in s.executions
    ensures Inv(s.(artifacts := artifacts))
  {
    hide ActorsOk, HistoryOk, ExitsOk, RunsOk, OneRunPerTick;
  }

  lemma ActorOkIn(s: State, id: nat)
    requires Inv(s) && id in s.actors
    ensures ActorOk(s.runs, s.executions, s.actors[id])
  {
  }

  lemma RunOkIn(s: State, k: nat)
    requires Inv(s) && k < |s.runs|
    ensures RunOk(s.gatedJobs, s.runs[k])
  {
  }

  lemma ExecutedIn(s: State, k: nat)
    requires Inv(s) && k in s.executions
    ensures UnderWay(s.runs, k)
  {
  }

  lemma NamedIn(s: State)
    requires Inv(s)
    ensures Artifacts.ClaimsNamed(s.artifacts)
  {
  }

  lemma HolderIn(s: State, k: nat, runner: string)
    requires Inv(s) && Artifacts.Holds(s.artifacts, k, runner)
    ensures UnderWay(s.runs, k)
  {
    var i :| i in s.artifacts && Artifacts.HeldBy(s.artifacts[i], k, runner);
    assert s.artifacts[i].producedBy in s.executions;
  }

  /** A write that ends a run already past waiting, by a worker or an outside runner. */
  lemma CloseKeepsInv(s: State, k: nat, target: Status, error: Option<string>, now: int)
    requires Inv(s) && UnderWay(s.runs, k) && Terminal(target) && target != Cancelled
    ensures Inv(Write(s, k, Closed(s.runs[k], target, error, now), Overwritten))
    ensures AllAdvance(s.runs, Write(s, k, Closed(s.runs[k], target, error, now), Overwritten).runs)
  {
    RunOkIn(s, k);
    hide Inv, AllAdvance;
    WriteKeepsInv(s, k, Closed(s.runs[k], target, error, now), Overwritten);
  }

  lemma DeliveryKeepsInv(s: State, k: nat, target: Status, error: Option<string>, runner: string, now: int)
    requires Inv(s) && k < |s.runs| && Terminal(target) && target != Cancelled
    requires UnderWay(s.runs, k) || (s.runs[k].gated && s.runs[k].status in {Running, Succeeded, Failed})
    ensures Inv(Write(s, k, Delivered(s.runs[k], target, error, runner, now), Overwritten))
    ensures AllAdvance(s.runs, Write(s, k, Delivered(s.runs[k], target, error, runner, now), Overwritten).runs)
  {
    RunOkIn(s, k);
    hide Inv, AllAdvance;
    WriteKeepsInv(s, k, Delivered(s.runs[k], target, error, runner, now), Overwritten);
  }

  // ----- the ticker -----

  lemma ForceStartKeepsInv(s: State, id: nat, job: nat, now: int)
    requires Inv(s) && TickerReady(s, ForceStart(id, job, now))
    ensures Inv(TickerStep(s, ForceStart(id, job, now)))
  {
    hide Inv;
    if !Taken(s.runs, job, now) {
      InsertKeepsInv(s, job, Manual, now, now);
      if job !in s.gatedJobs {
        BecomeKeepsInv(Inserted(s, job, Manual, now, now), id, Starting(|s.runs|));
      }
    }
  }

  lemma AbortKeepsInv(s: State, id: nat, now: int)
    requires Inv(s) && TickerReady(s, Abort(id, now))
    ensures Inv(TickerStep(s, Abort(id, now)))
  {
    var k := s.actors[id].run;
    RunOkIn(s, k);
    ActorOkIn(s, id);
    hide Inv, AllAdvance;
    var r := Closed(s.runs[k], Failed, ENQUEUE_FAILED, now);
    WriteKeepsInv(s, k, r, Exit.Aborted);
    LeaveKeepsInv(Write(s, k, r, Exit.Aborted), id);
  }

  lemma QueueKeepsInv(s: State, queue: multiset<nat>)
    requires Inv(s)
    ensures Inv(s.(queue := queue))
  {
    hide RunsOk, OneRunPerTick, ActorsOk, HistoryOk, ArtifactsOk, ExitsOk;
  }

  lemma TickerKeepsInv(s: State, t: TickerEvent)
    requires Inv(s) && TickerReady(s, t)
    ensures Inv(TickerStep(s, t))
  {
    hide Inv;
    match t {
      case Fire(job, tick, now) =>
        if !Taken(s.runs, job, tick) { InsertKeepsInv(s, job, Schedule, tick, now); }
      case ForceStart(id, job, now) => ForceStartKeepsInv(s, id, job, now);
      case Send(id) =>
        LeaveKeepsInv(s, id);
        QueueKeepsInv(Leave(s, id), TickerStep(s, t).queue);
      case SendFails(id, landed) =>
        ActorOkIn(s, id);
        BecomeKeepsInv(s, id, Aborting(s.actors[id].run));
        QueueKeepsInv(Become(s, id, Aborting(s.actors[id].run)), TickerStep(s, t).queue);
      case Abort(id, now) => AbortKeepsInv(s, id, now);
    }
  }

  // ----- the worker -----

  lemma ClaimKeepsInv(s: State, id: nat, now: int)
    requires Inv(s) && WorkerReady(s, Claim(id, now))
    ensures Inv(WorkerStep(s, Claim(id, now)))
  {
    var k := s.actors[id].run;
    RunOkIn(s, k);
    if s.runs[k].status == Queued { NotYetClaimed(s, k); }
    hide Inv, AllAdvance;
    if s.runs[k].status == Queued {
      WriteKeepsInv(s, k, Started(s.runs[k], now), ClaimedByWorker);
      BecomeKeepsInv(Write(s, k, Started(s.runs[k], now), ClaimedByWorker), id, Claimed(k));
    } else {
      BecomeKeepsInv(s, id, Recorded(k));
    }
  }

  /** A queued run has no execution behind it and nobody holding a claim on it. */
  lemma NotYetClaimed(s: State, k: nat)
    requires Inv(s) && k < |s.runs| && s.runs[k].status == Queued
    ensures k !in s.executions
    ensures forall id :: id in s.actors && s.actors[id].Claimed? ==> s.actors[id].run != k
  {
    forall id | id in s.actors && s.actors[id].Claimed? ensures s.actors[id].run != k {
      ActorOkIn(s, id);
    }
  }

  lemma HandleKeepsInv(s: State, id: nat)
    requires Inv(s) && WorkerReady(s, Handle(id))
    ensures Inv(WorkerStep(s, Handle(id)))
  {
    hide RunsOk, OneRunPerTick, ExitsOk, Artifacts.ClaimsNamed;
    var t := WorkerStep(s, Handle(id));
    ActorOkIn(s, id);
    forall id' | id' in t.actors ensures ActorOk(t.runs, t.executions, t.actors[id']) {
      if id' != id {
        ActorOkIn(s, id');
      }
    }
  }

  lemma StoreKeepsInv(s: State, id: nat, ids: set<nat>, now: int)
    requires Inv(s) && WorkerReady(s, Store(id, ids, now))
    ensures Inv(WorkerStep(s, Store(id, ids, now)))
  {
    var k := s.actors[id].run;
    ActorOkIn(s, id);
    NamedIn(s);
    hide Inv;
    Artifacts.StoringAdvances(s.artifacts, s.localJobs, s.runs[k].job, k, ids, now);
    ArtifactsKeepInv(s, Artifacts.Stored(s.artifacts, s.runs[k].job, k, ids, now), Some(k));
  }

  lemma ConsumeKeepsInv(s: State, id: nat)
    requires Inv(s) && WorkerReady(s, Consume(id))
    ensures Inv(WorkerStep(s, Consume(id)))
  {
    var a := s.actors[id];
    ActorOkIn(s, id);
    NamedIn(s);
    hide Inv;
    BecomeKeepsInv(s, id, Executing(a.run, {}));
    Artifacts.ConsumptionAdvances(s.artifacts, s.localJobs, a.inputs, a.run);
    ArtifactsKeepInv(Become(s, id, Executing(a.run, {})), Artifacts.Consumed(s.artifacts, a.inputs, a.run), None);
  }

  lemma RecordKeepsInv(s: State, id: nat, saved: bool, error: Option<string>, now: int)
    requires Inv(s) && WorkerReady(s, Record(id, saved, error, now))
    ensures Inv(WorkerStep(s, Record(id, saved, error, now)))
  {
    var Executed(k, outcome) := s.actors[id];
    ActorOkIn(s, id);
    ExecutedIn(s, k);
    hide Inv, AllAdvance;
    if saved {
      CloseKeepsInv(s, k, outcome, error, now);
      BecomeKeepsInv(Write(s, k, Closed(s.runs[k], outcome, error, now), Overwritten), id, Recorded(k));
    } else {
      BecomeKeepsInv(s, id, Recorded(k));
    }
  }

  lemma WorkerKeepsInv(s: State, w: WorkerEvent)
    requires Inv(s) && WorkerReady(s, w)
    ensures Inv(WorkerStep(s, w))
  {
    hide Inv;
    match w {
      case Receive(id, k) => BecomeKeepsInv(s, id, Received(k));
      case Claim(id, now) => ClaimKeepsInv(s, id, now);
      case Handle(id) => HandleKeepsInv(s, id);
      case Store(id, ids, now) => StoreKeepsInv(s, id, ids, now);
      case Assemble(id, newest) =>
        ActorOkIn(s, id);
        BecomeKeepsInv(s, id, Executing(s.actors[id].run, PendingOf(s.artifacts, s.artifacts[newest].producedBy)));
      case Consume(id) => ConsumeKeepsInv(s, id);
      case Return(id, ok) =>
        ActorOkIn(s, id);
        BecomeKeepsInv(s, id, Executed(s.actors[id].run, Verdict(ok)));
      case Record(id, saved, error, now) => RecordKeepsInv(s, id, saved, error, now);
      case Ack(id) =>
        LeaveKeepsInv(s, id);
        QueueKeepsInv(Leave(s, id), WorkerStep(s, w).queue);
    }
  }

  // ----- maintenance -----

  lemma CloseNextKeepsInv(s: State, id: nat, now: int)
    requires Inv(s) && SweeperReady(s, CloseNext(id, now))
    ensures Inv(SweeperStep(s, CloseNext(id, now)))
  {
    hide ReasonOf;
    var Sweeping(sweep, ids) := s.actors[id];
    var k := ids[0];
    ActorOkIn(s, id);
    RunOkIn(s, k);
    hide Inv;
    assert ActorOk(s.runs, s.executions, Sweeping(sweep, ids[1..]));
    if s.runs[k].status == FromOf(sweep) {
      var r := Closed(s.runs[k], ToOf(sweep), ReasonOf(sweep), now);
      WriteKeepsInv(s, k, r, Expired);
      hide Closed, Advances, AllAdvance;
      ActorKeptByWrite(s, k, r, Expired, Sweeping(sweep, ids[1..]));
      BecomeKeepsInv(Write(s, k, r, Expired), id, Sweeping(sweep, ids[1..]));
    } else {
      BecomeKeepsInv(s, id, Sweeping(sweep, ids[1..]));
    }
  }

  lemma FindKeepsInv(s: State, id: nat, sweep: Sweep, now: int)
    requires Inv(s)
    ensures Inv(Become(s, id, Sweeping(sweep, Select(s.runs, r => Caught(sweep, r, now)))))
  {
    hide Inv;
    var ids := Select(s.runs, r => Caught(sweep, r, now));
    assert forall i :: 0 <= i < |ids| ==> ids[i] in ids;
    BecomeKeepsInv(s, id, Sweeping(sweep, ids));
  }

  lemma SweeperKeepsInv(s: State, m: SweeperEvent)
    requires Inv(s) && SweeperReady(s, m)
    ensures Inv(SweeperStep(s, m))
  {
    hide Inv, BulkReaped, Select;
    match m {
      case BulkReap(now) => ReapKeepsInv(s, now);
      case FindStuck(id, sweep, now) => FindKeepsInv(s, id, sweep, now);
      case CloseNext(id, now) => CloseNextKeepsInv(s, id, now);
      case SweepArtifacts(now) =>
        NamedIn(s);
        Artifacts.SweepAdvances(s.artifacts, s.localJobs, now);
        ArtifactsKeepInv(s, Artifacts.Swept(s.artifacts, now), None);
    }
  }

  // ----- the finance sync -----

  lemma ApproveKeepsInv(s: State, id: nat, now: int)
    requires Inv(s) && FinanceReady(s, Approve(id, now))
    ensures Inv(FinanceStep(s, Approve(id, now)))
  {
    var k := s.actors[id].run;
    RunOkIn(s, k);
    hide Inv, AllAdvance;
    var r := s.runs[k].(claimableAt := Some(now));
    WriteKeepsInv(s, k, r, Overwritten);
    LeaveKeepsInv(Write(s, k, r, Overwritten), id);
  }

  lemma LeaseKeepsInv(s: State, id: nat, now: int)
    requires Inv(s) && FinanceReady(s, Lease(id, now))
    ensures Inv(FinanceStep(s, Lease(id, now)))
  {
    var Leasing(k, runner) := s.actors[id];
    RunOkIn(s, k);
    ActorOkIn(s, id);
    hide Inv, AllAdvance;
    if s.runs[k].status == AwaitingAck {
      var r := By(Started(s.runs[k], now), runner);
      WriteKeepsInv(s, k, r, LeasedByRunner);
      LeaveKeepsInv(Write(s, k, r, LeasedByRunner), id);
    } else {
      LeaveKeepsInv(s, id);
    }
  }

  lemma CompleteKeepsInv(s: State, id: nat, error: Option<string>, now: int)
    requires Inv(s) && FinanceReady(s, Complete(id, error, now))
    ensures Inv(FinanceStep(s, Complete(id, error, now)))
  {
    var Completing(k, target, runner) := s.actors[id];
    ActorOkIn(s, id);
    hide Inv, AllAdvance;
    DeliveryKeepsInv(s, k, target, error, runner, now);
    LeaveKeepsInv(Write(s, k, Delivered(s.runs[k], target, error, runner, now), Overwritten), id);
  }

  lemma FinanceKeepsInv(s: State, f: FinanceEvent)
    requires Inv(s) && FinanceReady(s, f)
    ensures Inv(FinanceStep(s, f))
  {
    hide Inv;
    match f {
      case ReadApproval(id, k) => BecomeKeepsInv(s, id, Approving(k));
      case Approve(id, now) => ApproveKeepsInv(s, id, now);
      case PickClaim(id, k, runner) => BecomeKeepsInv(s, id, Leasing(k, runner));
      case Lease(id, now) => LeaseKeepsInv(s, id, now);
      case ReadCompletion(id, k, ok, runner) =>
        RunOkIn(s, k);
        BecomeKeepsInv(s, id, Completing(k, Verdict(ok), runner));
      case Complete(id, error, now) => CompleteKeepsInv(s, id, error, now);
    }
  }

  // ----- the work API -----

  lemma PostKeepsInv(s: State, id: nat, error: Option<string>, now: int)
    requires Inv(s) && RunnerReady(s, PostWork(id, error, now))
    ensures Inv(RunnerStep(s, PostWork(id, error, now)))
  {
    var Posting(k, target, runner) := s.actors[id];
    ActorOkIn(s, id);
    NamedIn(s);
    hide Inv, AllAdvance;
    DeliveryKeepsInv(s, k, target, error, runner, now);
    var t := Write(s, k, Delivered(s.runs[k], target, error, runner, now), Overwritten);
    LeaveKeepsInv(t, id);
    Artifacts.FinishAdvances(s.artifacts, s.localJobs, k, runner);
    ArtifactsKeepInv(Leave(t, id), Artifacts.Finished(s.artifacts, k, runner), None);
  }

  lemma RunnerKeepsInv(s: State, r: RunnerEvent)
    requires Inv(s) && RunnerReady(s, r)
    ensures Inv(RunnerStep(s, r))
  {
    hide Inv, Artifacts.ClaimsNamed, Artifacts.TableAdvances;
    match r {
      case PickWork(id, first, job, runner, now) =>
        BecomeKeepsInv(s, id, Taking(s.artifacts[first].producedBy, job, runner, now));
      case TakeWork(id) =>
        var Taking(k, job, runner, now) := s.actors[id];
        NamedIn(s);
        LeaveKeepsInv(s, id);
        Artifacts.LeaseAdvances(s.artifacts, s.localJobs, job, k, runner, now);
        ArtifactsKeepInv(Leave(s, id), Artifacts.Leased(s.artifacts, s.localJobs, job, k, runner, now), None);
      case CheckWork(id, k, ok, runner) =>
        HolderIn(s, k, runner);
        BecomeKeepsInv(s, id, Posting(k, Verdict(ok), runner));
      case PostWork(id, error, now) => PostKeepsInv(s, id, error, now);
    }
  }

  // ----- every run -----

  lemma StepKeepsInv(s: State, e: Event)
    requires Inv(s) && Enabled(s, e)
    ensures Inv(Apply(s, e))
  {
    hide Inv, TickerReady, TickerStep, WorkerReady, WorkerStep, SweeperReady, SweeperStep,
         FinanceReady, FinanceStep, RunnerReady, RunnerStep;
    match e {
      case ByTicker(t) => TickerKeepsInv(s, t);
      case ByQueue(q) => QueueKeepsInv(s, QueueStep(s, q).queue);
      case ByWorker(w) => WorkerKeepsInv(s, w);
      case BySweeper(m) => SweeperKeepsInv(s, m);
      case ByFinance(f) => FinanceKeepsInv(s, f);
      case ByRunner(r) => RunnerKeepsInv(s, r);
      case Crash(id) => LeaveKeepsInv(s, id);
    }
  }

  lemma InitialInv(gatedJobs: set<nat>, localJobs: set<nat>)
    ensures Inv(Initial(gatedJobs, localJobs))
  {
  }

  lemma {:induction false} TraceKeepsInv(s: State, events: seq<Event>)
    requires Inv(s)
    ensures Inv(Trace(s, events))
  {
    hide Inv, Enabled, Apply;
    if events != [] {
      var n := |events| - 1;
      TraceKeepsInv(s, events[..n]);
      if Enabled(Trace(s, events[..n]), events[n]) {
        StepKeepsInv(Trace(s, events[..n]), events[n]);
      }
    }
  }
}
