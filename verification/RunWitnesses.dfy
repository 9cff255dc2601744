/** Two reachable states: a run the reaper misses for good, and one whose second approval costs it its place. */
module RunWitnesses {
  import opened Prelude
  import opened JobRuns
  import opened RunLifecycle
  import opened RunLifecycleProperties

  lemma StaysReachable(s: State, e: Event)
    requires Reachable(s)
    ensures Reachable(Next(s, e))
  {
    hide Next;
    var gatedJobs, localJobs, events :| s == Trace(Initial(gatedJobs, localJobs), events);
    assert (events + [e])[..|events|] == events;
    assert Next(s, e) == Trace(Initial(gatedJobs, localJobs), events + [e]);
  }

  lemma InitialReachable(gatedJobs: set<nat>, localJobs: set<nat>)
    ensures Reachable(Initial(gatedJobs, localJobs))
  {
    assert Initial(gatedJobs, localJobs) == Trace(Initial(gatedJobs, localJobs), []);
  }

  // ----- a force-started run whose worker died -----

  /** One force-started run of an ordinary job. */
  function Manually(status: Status, started: Option<int>): Run {
    NewRun(0, false, Manual, 5, 5).(status := status, startedAt := started)
  }

  lemma ForceStarted()
    ensures Next(Next(Initial({}, {}), ByTicker(ForceStart(1, 0, 5))), ByTicker(Send(1)))
            == State({}, {}, [Manually(Queued, None)], multiset{0}, map[], map[], [], [])
  {
    var s := Next(Initial({}, {}), ByTicker(ForceStart(1, 0, 5)));
    assert s.actors[1] == Starting(0);
    assert map[1 := Starting(0)] - {1} == map[];
  }

  lemma TakenUp(s: State)
    requires s == State({}, {}, [Manually(Queued, None)], multiset{0}, map[], map[], [], [])
    ensures Next(Next(Next(s, ByWorker(Receive(1, 0))), ByWorker(Claim(1, 6))), ByWorker(Handle(1)))
            == State({}, {}, [Manually(Running, Some(6))], multiset{0}, map[1 := Executing(0, {})], map[], [0],
                     [(0, ClaimedByWorker)])
  {
    hide Next;
    ReceiveNext(s, 1, 0);
    var received := Next(s, ByWorker(Receive(1, 0)));
    ClaimNext(received, 1, 0, 6);
    var claimed := Next(received, ByWorker(Claim(1, 6)));
    HandleNext(claimed, 1, 0);
    assert Next(claimed, ByWorker(Handle(1))).actors == map[1 := Executing(0, {})];
  }

  lemma WorkerDies(s: State)
    requires 1 in s.actors
    ensures Next(s, Crash(1)) == s.(actors := s.actors - {1})
  {
  }

  /** Its worker gone, a force-started ordinary run is left running, and no sweep at any time closes it. */
  lemma ForceStartedRunIsStuck() returns (s: State)
    ensures Reachable(s) && |s.runs| == 1 && s.actors.Keys == {}
    ensures s.runs[0].status == Running && s.runs[0].trigger == Manual && NeverSwept(s.runs[0])
  {
    hide Next, Reachable, NeverSwept;
    InitialReachable({}, {});
    var start := Initial({}, {});
    StaysReachable(start, ByTicker(ForceStart(1, 0, 5)));
    StaysReachable(Next(start, ByTicker(ForceStart(1, 0, 5))), ByTicker(Send(1)));
    ForceStarted();
    var sent := Next(Next(start, ByTicker(ForceStart(1, 0, 5))), ByTicker(Send(1)));
    StaysReachable(sent, ByWorker(Receive(1, 0)));
    StaysReachable(Next(sent, ByWorker(Receive(1, 0))), ByWorker(Claim(1, 6)));
    StaysReachable(Next(Next(sent, ByWorker(Receive(1, 0))), ByWorker(Claim(1, 6))), ByWorker(Handle(1)));
    TakenUp(sent);
    var handling := Next(Next(Next(sent, ByWorker(Receive(1, 0))), ByWorker(Claim(1, 6))), ByWorker(Handle(1)));
    StaysReachable(handling, Crash(1));
    WorkerDies(handling);
    s := Next(handling, Crash(1));
    MissedByTheReaper(s, 0);
  }

  // ----- an approval given twice -----

  /** An approval left alone does what AckFinanceSync states: only a waiting ack-gated run is touched. */
  lemma ApproverAlone(s: State, id: nat, k: nat, now: int)
    requires id !in s.actors && k < |s.runs|
    ensures var t := Next(Next(s, ByFinance(ReadApproval(id, k))), ByFinance(Approve(id, now)));
            && t.runs == (if s.runs[k].gated
                          && s.runs[k].status == AwaitingAck then Approved(s.runs, k, now) else s.runs)
            && t.actors == s.actors
  {
    var a := s.actors[id := Approving(k)];
    assert a - {id} == s.actors;
  }

  lemma ApprovalIsReachable(s: State, id: nat, k: nat, now: int)
    requires Reachable(s)
    ensures Reachable(Next(Next(s, ByFinance(ReadApproval(id, k))), ByFinance(Approve(id, now))))
  {
    hide Reachable, Next;
    StaysReachable(s, ByFinance(ReadApproval(id, k)));
    StaysReachable(Next(s, ByFinance(ReadApproval(id, k))), ByFinance(Approve(id, now)));
  }

  /** A run of the ack-gated job 0. */
  function Waiting(tick: int, approved: Option<int>): Run {
    NewRun(0, true, Schedule, tick, tick).(claimableAt := approved)
  }

  lemma TwoFired()
    ensures var s := Next(Next(Initial({0}, {}), ByTicker(Fire(0, 0, 0))), ByTicker(Fire(0, 1, 1)));
            s.runs == [Waiting(0, None), Waiting(1, None)] && s.actors == map[]
  {
  }

  /** Run 0 is approved at 10 and again at 30, run 1 in between: now run 1 is next. */
  lemma SecondApprovalCostsThePlace() returns (s: State, t: State)
    ensures Reachable(s) && OldestClaimable(s.runs, 0)
    ensures t == Next(Next(s, ByFinance(ReadApproval(1, 0))), ByFinance(Approve(1, 30)))
    ensures OldestClaimable(t.runs, 1) && !OldestClaimable(t.runs, 0)
  {
    hide Next, Reachable;
    InitialReachable({0}, {});
    var start := Initial({0}, {});
    StaysReachable(start, ByTicker(Fire(0, 0, 0)));
    StaysReachable(Next(start, ByTicker(Fire(0, 0, 0))), ByTicker(Fire(0, 1, 1)));
    TwoFired();
    var fired := Next(Next(start, ByTicker(Fire(0, 0, 0))), ByTicker(Fire(0, 1, 1)));
    ApproverAlone(fired, 1, 0, 10);
    ApprovalIsReachable(fired, 1, 0, 10);
    var once := Next(Next(fired, ByFinance(ReadApproval(1, 0))), ByFinance(Approve(1, 10)));
    ApproverAlone(once, 1, 1, 20);
    ApprovalIsReachable(once, 1, 1, 20);
    s := Next(Next(once, ByFinance(ReadApproval(1, 1))), ByFinance(Approve(1, 20)));
    assert s.runs == [Waiting(0, Some(10)), Waiting(1, Some(20))];
    ApproverAlone(s, 1, 0, 30);
    t := Next(Next(s, ByFinance(ReadApproval(1, 0))), ByFinance(Approve(1, 30)));
    assert t.runs == [Waiting(0, Some(30)), Waiting(1, Some(20))];
  }
}
