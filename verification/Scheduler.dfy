/**
  Firing scheduled jobs. A schedule is any function giving an instant strictly after its argument;
  where the proofs need more, the least such instant among the schedule's activations.
 */
module Scheduler {
  import opened Prelude
  import opened JobRuns

  datatype Job = Job(gated: bool, nextRunAt: Option<int>, lastRunAt: Option<int>)

  datatype Tables = Tables(jobs: seq<Job>, runs: seq<Run>, queue: seq<nat>)

  /** One evaluation by a ticker that read the job's pointer as `seen`, perhaps a while ago. */
  datatype Tick = Tick(job: nat, seen: Option<int>, now: int, committed: bool, sent: bool)

  type Schedules = nat -> int -> int

  ghost predicate Future(next: int -> int) {
    forall t :: t < next(t)
  }

  /** Insert-if-absent and advance, together or not at all. */
  function Fired(t: Tables, j: nat, tick: int, next: int, now: int): (out: Tables)
    requires j < |t.jobs|
  {
    var runs := if Taken(t.runs, j, tick) then t.runs else t.runs + [NewRun(j, t.jobs[j].gated, Schedule, tick, now)];
    t.(runs := runs, jobs := t.jobs[j := t.jobs[j].(nextRunAt := Some(next), lastRunAt := Some(now))])
  }

  /** What one evaluation does. A failed transaction does nothing; a refused message leaves the run queued. */
  function Evaluated(t: Tables, e: Tick, next: int -> int): Tables {
    if e.job >= |t.jobs| || !e.committed then t
    else if e.seen.None? then t.(jobs := t.jobs[e.job := t.jobs[e.job].(nextRunAt := Some(next(e.now)))])
    else if e.now < e.seen.value then t
    else
      var out := Fired(t, e.job, e.seen.value, next(e.now), e.now);
      if |out.runs| > |t.runs| && !t.jobs[e.job].gated && e.sent then out.(queue := out.queue + [|t.runs|]) else out
  }

  class JobStore {
    var jobs: seq<Job>
    var runs: seq<Run>
    var queue: seq<nat>

    constructor (jobs: seq<Job>)
      ensures this.jobs == jobs && runs == [] && queue == []
    {
      this.jobs, runs, queue := jobs, [], [];
    }

    function Contents(): Tables
      reads this
    {
      Tables(jobs, runs, queue)
    }

    /** Reports whether a run was inserted, and which. A rollback puts both tables back. */
    method Fire(j: nat, tick: int, next: int, now: int, committed: bool) returns (r: Result<Option<nat>, RunError>)
      requires j < |jobs|
      modifies this`runs, this`jobs
      ensures r.Ok? <==> committed
      ensures Contents() == if committed then Fired(old(Contents()), j, tick, next, now) else old(Contents())
      ensures r.Ok? ==> r.value == if Taken(old(runs), j, tick) then None else Some(|old(runs)|)
    {
      var before := (runs, jobs);
      var inserted := None;
      var k := 0;
      while k < |runs| && !IsFor(runs[k], j, tick)
        invariant 0 <= k <= |runs|
        invariant forall i :: 0 <= i < k ==> !IsFor(runs[i], j, tick)
      {
        k := k + 1;
      }
      if k == |runs| {
        inserted := Some(|runs|);
        runs := runs + [NewRun(j, jobs[j].gated, Schedule, tick, now)];
      }
      jobs := jobs[j := jobs[j].(nextRunAt := Some(next), lastRunAt := Some(now))];
      if !committed {
        runs, jobs := before.0, before.1;
        return Err(Conflict);
      }
      return Ok(inserted);
    }

    /** Initialise a fresh pointer, wait, or fire for the instant the pointer named and move on from now. */
    method Evaluate(e: Tick, next: int -> int)
      requires e.job < |jobs|
      modifies this
      ensures Contents() == Evaluated(old(Contents()), e, next)
      ensures var due := e.committed && e.seen.Some? && e.seen.value <= e.now;
              var insert := due && forall k :: 0 <= k < |old(runs)| ==>
                                     !(old(runs)[k].job == e.job && old(runs)[k].scheduledFor == e.seen.value);
              && runs == old(runs) + (if insert then [NewRun(e.job, jobs[e.job].gated, Schedule, e.seen.value, e.now)]
                                      else [])
              && queue == old(queue) + (if insert && !jobs[e.job].gated && e.sent then [|old(runs)|] else [])
              && jobs == (var j := old(jobs)[e.job];
                          if due then old(jobs)[e.job := j.(nextRunAt := Some(next(e.now)), lastRunAt := Some(e.now))]
                          else if e.committed && e.seen.None?
                            then old(jobs)[e.job := j.(nextRunAt := Some(next(e.now)))]
                          else old(jobs))
    {
      if e.seen.None? {
        if e.committed {
          jobs := jobs[e.job := jobs[e.job].(nextRunAt := Some(next(e.now)))];
        }
        return;
      }
      if e.now < e.seen.value {
        return;
      }
      var r := Fire(e.job, e.seen.value, next(e.now), e.now, e.committed);
      if r.Err? || r.value.None? || jobs[e.job].gated {
        return;
      }
      if e.sent {
        queue := queue + [r.value.value];
      }
    }
  }

  // ----- any number of tickers -----

  function Evaluations(t: Tables, ticks: seq<Tick>, schedules: Schedules): Tables {
    if ticks == [] then t
    else
      var e := ticks[|ticks| - 1];
      Evaluated(Evaluations(t, ticks[..|ticks| - 1], schedules), e, schedules(e.job))
  }

  lemma EvaluatedKeepsOne(t: Tables, e: Tick, next: int -> int)
    requires OneRunPerTick(t.runs)
    ensures OneRunPerTick(Evaluated(t, e, next).runs)
    ensures t.runs <= Evaluated(t, e, next).runs
  {
    if e.seen.Some? && !Taken(t.runs, e.job, e.seen.value) {
      assert forall k :: 0 <= k < |t.runs| ==> !IsFor(t.runs[k], e.job, e.seen.value);
    }
  }

  /** However many tickers, however stale what they read: at most one run per job and instant, none taken back. */
  lemma {:induction false} AtMostOneRunPerTick(t: Tables, ticks: seq<Tick>, schedules: Schedules)
    requires OneRunPerTick(t.runs)
    ensures OneRunPerTick(Evaluations(t, ticks, schedules).runs)
    ensures t.runs <= Evaluations(t, ticks, schedules).runs
  {
    hide Evaluated, OneRunPerTick;
    if ticks != [] {
      var n := |ticks| - 1;
      AtMostOneRunPerTick(t, ticks[..n], schedules);
      EvaluatedKeepsOne(Evaluations(t, ticks[..n], schedules), ticks[n], schedules(ticks[n].job));
    }
  }

  // ----- one ticker -----

  /** A single ticker reads the pointer it is about to act on. */
  function Ticked(t: Tables, e: Tick, next: int -> int): Tables {
    if e.job < |t.jobs| then Evaluated(t, e.(seen := t.jobs[e.job].nextRunAt), next) else t
  }

  function Ticks(t: Tables, ticks: seq<Tick>, schedules: Schedules): Tables {
    if ticks == [] then t
    else
      var e := ticks[|ticks| - 1];
      Ticked(Ticks(t, ticks[..|ticks| - 1], schedules), e, schedules(e.job))
  }

  /** A run stands for the instants from its tick to the moment it was fired, which lateness can put apart. */
  predicate StandsFor(r: Run, j: nat, a: int) {
    r.job == j && r.scheduledFor <= a <= r.createdAt
  }

  ghost predicate Answered(runs: seq<Run>, j: nat, a: int) {
    exists k :: 0 <= k < |runs| && StandsFor(runs[k], j, a)
  }

  predicate Pair(runs: seq<Run>, i: int, k: int, j: nat) {
    0 <= i < k < |runs| && runs[i].job == j && runs[k].job == j
  }

  /** Each run of the job fired no earlier than its tick, after every earlier one had, and before the pointer. */
  ghost predicate InStep(runs: seq<Run>, j: nat, pointer: int) {
    && (forall k :: 0 <= k < |runs| && runs[k].job == j ==> runs[k].scheduledFor <= runs[k].createdAt < pointer)
    && (forall i, k :: Pair(runs, i, k, j) ==> runs[i].createdAt < runs[k].scheduledFor)
  }

  /** The schedule's next instant after t is the least activation after t. */
  ghost predicate LeastAfter(active: int -> bool, next: int -> int) {
    && Future(next)
    && forall t, a :: t < a < next(t) ==> !active(a)
  }

  ghost predicate AllAnswered(runs: seq<Run>, j: nat, active: int -> bool, first: int, pointer: int) {
    forall a :: active(a) && first <= a < pointer ==> Answered(runs, j, a)
  }

  predicate PointerIs(t: Tables, j: nat, p: int) {
    j < |t.jobs| && t.jobs[j].nextRunAt == Some(p)
  }

  lemma PointerIsFree(runs: seq<Run>, j: nat, p: int)
    requires InStep(runs, j, p)
    ensures !Taken(runs, j, p)
  {
  }

  /** A due tick of a lone ticker inserts exactly one run, for the pointer's instant, and moves the pointer past now. */
  lemma DueTickFiresOnce(t: Tables, e: Tick, next: int -> int, p: int)
    requires Future(next) && PointerIs(t, e.job, p) && InStep(t.runs, e.job, p)
    requires p <= e.now
    ensures var out := Ticked(t, e, next);
            if e.committed
            then && out.runs == t.runs + [NewRun(e.job, t.jobs[e.job].gated, Schedule, p, e.now)]
                 && PointerIs(out, e.job, next(e.now)) && p <= e.now < next(e.now)
            else out == t
  {
    PointerIsFree(t.runs, e.job, p);
  }

  /** A tick of another job, or of a job that is not due, leaves the job in step. */
  lemma OtherTickStaysInStep(t: Tables, e: Tick, next: int -> int, j: nat, p: int)
    requires PointerIs(t, j, p) && InStep(t.runs, j, p)
    requires e.job != j || !e.committed || e.now < p
    ensures var out := Ticked(t, e, next);
            PointerIs(out, j, p) && InStep(out.runs, j, p) && t.runs <= out.runs
  {
    var out := Ticked(t, e, next);
    if e.job == j {
      assert out == t;
    } else {
      assert forall k :: |t.runs| <= k < |out.runs| ==> out.runs[k].job == e.job;
    }
  }

  lemma TickStaysInStep(t: Tables, e: Tick, next: int -> int, j: nat, p: int) returns (q: int)
    requires e.job == j ==> Future(next)
    requires PointerIs(t, j, p) && InStep(t.runs, j, p)
    ensures var out := Ticked(t, e, next);
            && PointerIs(out, j, q) && InStep(out.runs, j, q) && p <= q && t.runs <= out.runs
            && (q != p ==> e.job == j && e.committed && p <= e.now && q == next(e.now)
                           && out.runs == t.runs + [NewRun(j, t.jobs[j].gated, Schedule, p, e.now)])
  {
    if e.job == j && e.committed && p <= e.now {
      q := next(e.now);
      DueTickFiresOnce(t, e, next, p);
    } else {
      q := p;
      OtherTickStaysInStep(t, e, next, j, p);
    }
  }

  lemma TickAnswers(t: Tables, e: Tick, next: int -> int, j: nat, p: int, active: int -> bool, first: int)
    returns (q: int)
    requires e.job == j ==> LeastAfter(active, next)
    requires PointerIs(t, j, p) && InStep(t.runs, j, p) && first <= p && AllAnswered(t.runs, j, active, first, p)
    ensures var out := Ticked(t, e, next);
            && PointerIs(out, j, q) && InStep(out.runs, j, q) && p <= q && AllAnswered(out.runs, j, active, first, q)
  {
    q := TickStaysInStep(t, e, next, j, p);
    var out := Ticked(t, e, next);
    hide Ticked, InStep;
    forall a | active(a) && first <= a < q ensures Answered(out.runs, j, a) {
      if a < p {
        assert Answered(t.runs, j, a);
        var k :| 0 <= k < |t.runs| && StandsFor(t.runs[k], j, a);
        assert out.runs[k] == t.runs[k];
      } else {
        assert a <= e.now;
        assert StandsFor(out.runs[|t.runs|], j, a);
      }
    }
  }

  /**
    A lone ticker over any run of ticks, however late or failing: the pointer only moves forward, and
    every activation it has passed is stood for by exactly one run of the job.
   */
  lemma {:induction false} EveryActivationAnsweredOnce(t: Tables, ticks: seq<Tick>, schedules: Schedules, j: nat,
                                                       first: int, active: int -> bool)
      returns (q: int)
    requires PointerIs(t, j, first) && InStep(t.runs, j, first) && LeastAfter(active, schedules(j))
    ensures var out := Ticks(t, ticks, schedules);
            && PointerIs(out, j, q) && first <= q && InStep(out.runs, j, q)
            && forall a :: active(a) && first <= a < q ==>
                 exists k :: 0 <= k < |out.runs| && StandsFor(out.runs[k], j, a)
                             && forall i :: 0 <= i < |out.runs| && StandsFor(out.runs[i], j, a) ==> i == k
  {
    q := AllActivationsAnswered(t, ticks, schedules, j, first, active);
    var runs := Ticks(t, ticks, schedules).runs;
    forall a | active(a) && first <= a < q
      ensures exists k :: 0 <= k < |runs| && StandsFor(runs[k], j, a)
                          && forall i :: 0 <= i < |runs| && StandsFor(runs[i], j, a) ==> i == k
    {
      assert Answered(runs, j, a);
      var k :| 0 <= k < |runs| && StandsFor(runs[k], j, a);
      forall i | 0 <= i < |runs| && StandsFor(runs[i], j, a) ensures i == k {
        StandInAlone(runs, j, q, a, i, k);
      }
    }
  }

  lemma {:induction false} AllActivationsAnswered(t: Tables, ticks: seq<Tick>, schedules: Schedules, j: nat, first: int,
                                                  active: int -> bool)
      returns (q: int)
    requires PointerIs(t, j, first) && InStep(t.runs, j, first) && LeastAfter(active, schedules(j))
    ensures var out := Ticks(t, ticks, schedules);
            PointerIs(out, j, q) && first <= q && InStep(out.runs, j, q) && AllAnswered(out.runs, j, active, first, q)
  {
    hide Ticked, InStep, LeastAfter;
    q := first;
    if ticks != [] {
      var n := |ticks| - 1;
      var p := AllActivationsAnswered(t, ticks[..n], schedules, j, first, active);
      q := TickAnswers(Ticks(t, ticks[..n], schedules), ticks[n], schedules(ticks[n].job), j, p, active, first);
    }
  }

  lemma StandInAlone(runs: seq<Run>, j: nat, pointer: int, a: int, i: nat, k: nat)
    requires InStep(runs, j, pointer) && i < |runs| && k < |runs|
    requires StandsFor(runs[i], j, a) && StandsFor(runs[k], j, a)
    ensures i == k
  {
    assert !Pair(runs, i, k, j) && !Pair(runs, k, i, j);
  }

  /**
    Downtime fires once: if two runs of a job have their ticks inside one stretch of time, the ticker
    ran inside that stretch. So a stretch without ticks, whatever it spans, leaves one run at most.
   */
  lemma DowntimeFiresOnce(t: Tables, ticks: seq<Tick>, schedules: Schedules, j: nat, first: int, from: int, to: int,
                          i: nat, k: nat)
    requires PointerIs(t, j, first) && InStep(t.runs, j, first) && Future(schedules(j))
    requires var runs := Ticks(t, ticks, schedules).runs;
             Pair(runs, i, k, j) && from < runs[i].scheduledFor <= to && from < runs[k].scheduledFor <= to
    ensures from < Ticks(t, ticks, schedules).runs[i].createdAt < to
  {
    var never: int -> bool := a => false;
    var q := AllActivationsAnswered(t, ticks, schedules, j, first, never);
    var runs := Ticks(t, ticks, schedules).runs;
    assert Pair(runs, i, k, j) && runs[i].job == j;
  }

  // ----- tickers that fall behind -----

  /** Next is the least activation after its argument. */
  ghost predicate NextActivation(active: int -> bool, next: int -> int) {
    LeastAfter(active, next) && forall t :: active(next(t))
  }

  /** Whether an evaluation gets as far as writing the pointer: a fresh one, or one it found due. */
  predicate Writes(e: Tick) {
    e.committed && (e.seen.None? || e.seen.value <= e.now)
  }

  /**
    The pointer is written without a second look. It moves back exactly when the evaluation that writes it
    is behind: an activation lies after its clock and no later than the clock the stored pointer was set by.
   */
  lemma PointerFallsExactly(t: Tables, e: Tick, next: int -> int, active: int -> bool, clock: int)
    requires NextActivation(active, next) && PointerIs(t, e.job, next(clock))
    ensures var q := Evaluated(t, e, next).jobs[e.job].nextRunAt;
            && q.Some?
            && (q.value < next(clock) <==> Writes(e) && exists a :: active(a) && e.now < a <= clock)
  {
    if Writes(e) {
      assert PointerIs(Evaluated(t, e, next), e.job, next(e.now));
      if next(e.now) < next(clock) {
        var a := next(e.now);
        assert active(a) && e.now < a <= clock;
      }
    }
  }

  /** Evaluations that commit in the order of their clocks never move it back, however stale what they saw. */
  lemma {:induction false} InOrderNeverFalls(t: Tables, ticks: seq<Tick>, schedules: Schedules, j: nat, clock: int,
                                             active: int -> bool) returns (last: int)
    requires NextActivation(active, schedules(j)) && PointerIs(t, j, schedules(j)(clock))
    requires forall i :: 0 <= i < |ticks| ==> clock <= ticks[i].now
    requires forall i, k :: 0 <= i < k < |ticks| ==> ticks[i].now <= ticks[k].now
    ensures PointerIs(Evaluations(t, ticks, schedules), j, schedules(j)(last)) && clock <= last
    ensures schedules(j)(clock) <= schedules(j)(last)
    ensures last == clock || exists i :: 0 <= i < |ticks| && ticks[i].now == last
  {
    hide NextActivation;
    last := clock;
    if ticks != [] {
      var n := |ticks| - 1;
      var e := ticks[n];
      var earlier := InOrderNeverFalls(t, ticks[..n], schedules, j, clock, active);
      assert forall i :: 0 <= i < n ==> ticks[..n][i].now <= e.now;
      var before := Evaluations(t, ticks[..n], schedules);
      if e.job == j && Writes(e) {
        last := e.now;
        NextIsMonotone(schedules(j), active, earlier, last);
      } else {
        last := earlier;
      }
      OneEvaluation(before, e, schedules(e.job), j, earlier, last, schedules(j));
    }
  }

  lemma OneEvaluation(t: Tables, e: Tick, next: int -> int, j: nat, clock: int, last: int, own: int -> int)
    requires PointerIs(t, j, own(clock)) && (e.job == j ==> next == own)
    requires last == if e.job == j && Writes(e) then e.now else clock
    ensures PointerIs(Evaluated(t, e, next), j, own(last))
  {
  }

  lemma NextIsMonotone(next: int -> int, active: int -> bool, t: int, u: int)
    requires NextActivation(active, next) && t <= u
    ensures next(t) <= next(u)
  {
  }

  function EveryTen(t: int): int {
    10 * (t / 10 + 1)
  }

  function OnTens(t: int): bool {
    t % 10 == 0
  }

  lemma EveryTenIsNext()
    ensures NextActivation(OnTens, EveryTen)
  {
    forall t, a | t < a < EveryTen(t) ensures !OnTens(a) {
      NoTenBetween(t, a);
    }
    forall t ensures t < EveryTen(t) && OnTens(EveryTen(t)) {
      assert t == 10 * (t / 10) + t % 10;
    }
    hide EveryTen, OnTens;
  }

  lemma NoTenBetween(t: int, a: int)
    requires t < a < EveryTen(t)
    ensures !OnTens(a)
  {
    assert 10 * (t / 10) < a < 10 * (t / 10) + 10;
  }

  /** A job whose pointer is 10, and one ordinary run of it. */
  const DUE_AT_TEN: Tables := Tables([Job(false, Some(10), None)], [], [])

  const LATE: Tick := Tick(0, Some(10), 35, true, true)

  const STALLED: Tick := Tick(0, Some(10), 10, true, true)

  function OneRun(pointer: int, fired: int): Tables {
    Tables([Job(false, Some(pointer), Some(fired))], [NewRun(0, false, Schedule, 10, 35)], [0])
  }

  lemma LateFires()
    ensures Evaluated(DUE_AT_TEN, LATE, EveryTen) == OneRun(40, 35)
  {
  }

  lemma StalledSetsBack()
    ensures Evaluated(OneRun(40, 35), STALLED, EveryTen) == OneRun(20, 10)
  {
    assert IsFor(OneRun(40, 35).runs[0], 0, 10);
  }

  lemma FiresForTwenty()
    ensures Ticked(OneRun(20, 10), Tick(0, None, 41, true, true), EveryTen).runs
            == OneRun(20, 10).runs + [NewRun(0, false, Schedule, 20, 41)]
  {
    assert !Taken(OneRun(20, 10).runs, 0, 20);
  }

  /**
    A ticker reads the pointer 10 at time 10 and stalls. Another one, at 35, fires for 10 on behalf of
    10, 20 and 30 and sets 40. The first commits and sets 20, so at 41 a second run answers 20 and 30.
   */
  lemma StalledTickerAnswersTwice()
    ensures var mid := Evaluated(DUE_AT_TEN, LATE, EveryTen);
            var back := Evaluated(mid, STALLED, EveryTen);
            var runs := Ticked(back, Tick(0, None, 41, true, true), EveryTen).runs;
            && PointerIs(mid, 0, 40) && PointerIs(back, 0, 20) && |runs| == 2
            && forall a :: a in {20, 30} ==> OnTens(a) && StandsFor(runs[0], 0, a) && StandsFor(runs[1], 0, a)
  {
    hide Evaluated, Ticked;
    LateFires();
    StalledSetsBack();
    FiresForTwenty();
  }
}
