/** The outside runner's side of a digest: taking a run's artifacts and posting its result back. */
module WorkApi {
  import opened Prelude
  import opened JobRuns
  import Artifacts

  /** What is wrong with the artifacts a completion names, the first wrong one deciding. */
  function Fault(artifacts: Artifacts.Table, refs: seq<nat>, run: nat, runner: string, now: int): Option<RunError> {
    if refs == [] then None
    else
      var first := FaultOf(artifacts, refs[0], run, runner, now);
      if first.Some? then first else Fault(artifacts, refs[1..], run, runner, now)
  }

  /** Naming a row another runner holds on a live lease is a conflict; any other foreign row is forbidden. */
  function FaultOf(artifacts: Artifacts.Table, i: nat, run: nat, runner: string, now: int): Option<RunError> {
    if i !in artifacts || artifacts[i].producedBy != run then Some(Foreign)
    else if artifacts[i].claimedBy == Some(runner) then None
    else if artifacts[i].status == Artifacts.Claimed
      && (artifacts[i].expiresAt.None? || artifacts[i].expiresAt.value > now)
    then Some(Conflict)
    else Some(Foreign)
  }

  /** Everything that is checked before a completion writes anything. */
  function Refusal(runs: seq<Run>, artifacts: Artifacts.Table, job: nat, run: Option<nat>, refs: seq<nat>,
                   runner: string, now: int)
    : Option<RunError>
  {
    if run.None? then Some(Unprocessable)
    else if run.value >= |runs| then Some(Missing)
    else if runs[run.value].job != job then Some(Foreign)
    else if Fault(artifacts, refs, run.value, runner, now).Some? then Fault(artifacts, refs, run.value, runner, now)
    else if !Artifacts.Holds(artifacts, run.value, runner) then Some(Foreign)
    else None
  }

  /** Of this job, which outside runners may work for, and pending or left by a runner whose lease is over. */
  predicate OnOffer(a: Artifacts.Artifact, localJobs: set<nat>, job: nat, now: int) {
    && a.job == job && job in localJobs
    && match a.status
       case Pending => true
       case Claimed => a.expiresAt.Some? && a.expiresAt.value <= now
       case Done => false
       case Expired => false
  }

  /** The run of the lowest artifact on offer is taken for ten minutes, every artifact of it on offer, and no other. */
  ghost predicate TakenWhole(before: Artifacts.Table, after: Artifacts.Table, localJobs: set<nat>, job: nat, run: nat,
                             runner: string, now: int) {
    && after.Keys == before.Keys
    && (exists i :: && i in before && before[i].producedBy == run && OnOffer(before[i], localJobs, job, now)
                    && forall j :: j in before && OnOffer(before[j], localJobs, job, now) ==> i <= j)
    && forall i :: i in before ==>
         if before[i].producedBy == run && OnOffer(before[i], localJobs, job, now)
         then after[i] == before[i].(status := Artifacts.Claimed, claimedBy := Some(runner),
                                     expiresAt := Some(now + 600))
         else after[i] == before[i]
  }

  lemma LeasedIsTakenWhole(artifacts: Artifacts.Table, localJobs: set<nat>, job: nat, i: nat, runner: string, now: int)
    requires Artifacts.OldestClaimable(artifacts, localJobs, job, now, i)
    ensures var run := artifacts[i].producedBy;
            TakenWhole(artifacts, Artifacts.Leased(artifacts, localJobs, job, run, runner, now), localJobs, job, run,
                       runner, now)
  {
    assert forall j :: j in artifacts ==>
             (OnOffer(artifacts[j], localJobs, job, now) <==> Artifacts.Claimable(artifacts[j], localJobs, job, now));
  }

  /** The artifact is of the run and attributed to the runner, or a live claim of another runner's. */
  predicate HeldHere(artifacts: Artifacts.Table, i: nat, run: nat, runner: string) {
    i in artifacts && artifacts[i].producedBy == run && artifacts[i].claimedBy == Some(runner)
  }

  predicate HeldElsewhere(artifacts: Artifacts.Table, i: nat, run: nat, runner: string, now: int) {
    && i in artifacts && artifacts[i].producedBy == run && artifacts[i].claimedBy != Some(runner)
    && artifacts[i].status.Claimed? && (artifacts[i].expiresAt.Some? ==> now < artifacts[i].expiresAt.value)
  }

  lemma {:induction false} FaultExactly(artifacts: Artifacts.Table, refs: seq<nat>, run: nat, runner: string, now: int)
    ensures var out := Fault(artifacts, refs, run, runner, now);
            && (out.None? <==> forall i :: 0 <= i < |refs| ==> HeldHere(artifacts, refs[i], run, runner))
            && (out == Some(Conflict) <==>
                  exists i :: 0 <= i < |refs| && HeldElsewhere(artifacts, refs[i], run, runner, now)
                              && forall j :: 0 <= j < i ==> HeldHere(artifacts, refs[j], run, runner))
            && (out.Some? ==> out.value in {Conflict, Foreign})
  {
    if refs != [] {
      FaultExactly(artifacts, refs[1..], run, runner, now);
      var out := Fault(artifacts, refs, run, runner, now);
      if HeldHere(artifacts, refs[0], run, runner) {
        assert forall i :: 0 <= i < |refs| - 1 ==> refs[1..][i] == refs[i + 1];
        assert forall i :: 0 < i < |refs| ==> refs[i] == refs[1..][i - 1];
        if out == Some(Conflict) {
          var i :| && 0 <= i < |refs| - 1 && HeldElsewhere(artifacts, refs[1..][i], run, runner, now)
                   && forall j :: 0 <= j < i ==> HeldHere(artifacts, refs[1..][j], run, runner);
          forall j | 0 < j < i + 1 ensures HeldHere(artifacts, refs[j], run, runner) {
            assert HeldHere(artifacts, refs[1..][j - 1], run, runner);
          }
          assert HeldElsewhere(artifacts, refs[i + 1], run, runner, now);
        }
        forall i | && 0 <= i < |refs| && HeldElsewhere(artifacts, refs[i], run, runner, now)
                   && forall j :: 0 <= j < i ==> HeldHere(artifacts, refs[j], run, runner)
          ensures out == Some(Conflict)
        {
          assert HeldElsewhere(artifacts, refs[1..][i - 1], run, runner, now);
          assert forall j :: 0 <= j < i - 1 ==> HeldHere(artifacts, refs[1..][j], run, runner);
        }
      }
    }
  }

  /**
    Why a completion is refused: no run named; no such run; the first artifact named that the runner does not
    hold is on another runner's live lease; and forbidden for every other reason.
   */
  lemma RefusalExactly(runs: seq<Run>, artifacts: Artifacts.Table, job: nat, run: Option<nat>, refs: seq<nat>,
                       runner: string, now: int)
    ensures var out := Refusal(runs, artifacts, job, run, refs, runner, now);
            && (out == Some(Unprocessable) <==> run.None?)
            && (out == Some(Missing) <==> run.Some? && run.value >= |runs|)
            && (out == Some(Conflict) <==>
                  && run.Some? && run.value < |runs| && runs[run.value].job == job
                  && exists i :: 0 <= i < |refs| && HeldElsewhere(artifacts, refs[i], run.value, runner, now)
                                 && forall j :: 0 <= j < i ==> HeldHere(artifacts, refs[j], run.value, runner))
            && (out.None? <==>
                  && run.Some? && run.value < |runs| && runs[run.value].job == job
                  && (forall i :: 0 <= i < |refs| ==> HeldHere(artifacts, refs[i], run.value, runner))
                  && exists i :: HeldHere(artifacts, i, run.value, runner))
            && (out.Some? ==> out.value in {Unprocessable, Missing, Conflict, Foreign})
  {
    hide Fault;
    if run.Some? {
      FaultExactly(artifacts, refs, run.value, runner, now);
      assert Artifacts.Holds(artifacts, run.value, runner) <==>
        exists i :: HeldHere(artifacts, i, run.value, runner) by {
        forall i ensures HeldHere(artifacts, i, run.value, runner)
                         <==> i in artifacts && Artifacts.HeldBy(artifacts[i], run.value, runner) {
        }
      }
    }
  }

  class WorkStore {
    var runs: seq<Run>
    var artifacts: Artifacts.Table

    constructor ()
      ensures runs == [] && artifacts == map[]
    {
      runs, artifacts := [], map[];
    }

    /** Takes the run of the oldest claimable artifact, with all of that run's claimable artifacts. */
    method ClaimWork(localJobs: set<nat>, job: nat, runner: string, now: int) returns (claimed: Option<nat>)
      modifies this`artifacts
      ensures claimed.None? ==>
                && artifacts == old(artifacts)
                && forall i :: i in artifacts ==> !Artifacts.Claimable(artifacts[i], localJobs, job, now)
      ensures claimed.Some? ==>
                && artifacts == Artifacts.Leased(old(artifacts), localJobs, job, claimed.value, runner, now)
                && exists i :: && Artifacts.OldestClaimable(old(artifacts), localJobs, job, now, i)
                               && old(artifacts)[i].producedBy == claimed.value
                               && Artifacts.HeldBy(artifacts[i], claimed.value, runner)
      ensures claimed.None? ==> forall i :: i in artifacts ==> !OnOffer(artifacts[i], localJobs, job, now)
      ensures claimed.Some? ==> TakenWhole(old(artifacts), artifacts, localJobs, job, claimed.value, runner, now)
    {
      var todo := artifacts.Keys;
      var oldest: Option<nat> := None;
      while todo != {}
        invariant todo <= artifacts.Keys
        invariant forall j :: j in artifacts && j !in todo && Artifacts.Claimable(artifacts[j], localJobs, job, now) ==>
                    oldest.Some? && oldest.value <= j
        invariant oldest.Some? ==>
                  oldest.value in artifacts && Artifacts.Claimable(artifacts[oldest.value], localJobs, job, now)
        decreases |todo|
      {
        var j :| j in todo;
        if Artifacts.Claimable(artifacts[j], localJobs, job, now) && (oldest.None? || j < oldest.value) {
          oldest := Some(j);
        }
        todo := todo - {j};
      }
      if oldest.None? {
        return None;
      }
      assert Artifacts.OldestClaimable(artifacts, localJobs, job, now, oldest.value);
      var run := artifacts[oldest.value].producedBy;
      LeasedIsTakenWhole(artifacts, localJobs, job, oldest.value, runner, now);
      artifacts := Artifacts.Leased(artifacts, localJobs, job, run, runner, now);
      return Some(run);
    }

    /** All the checks come before the first write, and the run's status is not one of them. */
    method CompleteWork(job: nat, run: Option<nat>, refs: seq<nat>, runner: string, failed: bool, error: Option<string>,
                        now: int)
      returns (r: Result<bool, RunError>)
      modifies this
      ensures r == (var refusal := Refusal(old(runs), old(artifacts), job, run, refs, runner, now);
                    if refusal.Some? then Err(refusal.value) else Ok(true))
      ensures r.Err? ==> runs == old(runs) && artifacts == old(artifacts)
      ensures r.Ok? ==> && artifacts.Keys == old(artifacts).Keys
                        && forall i :: i in artifacts ==>
                             var a := old(artifacts)[i];
                             if a.producedBy == run.value && a.claimedBy == Some(runner)
                               && a.status == Artifacts.Claimed
                             then artifacts[i] == a.(status := Artifacts.Done, consumedBy := run) else artifacts[i] == a
      ensures r.Ok? ==> && artifacts == Artifacts.Finished(old(artifacts), run.value, runner)
                        && (var r := old(runs)[run.value];
                            runs == old(runs)[run.value := r.(status := if failed then Failed else Succeeded,
                                                              finishedAt := Some(now), runner := Some(runner),
                                                              error := if failed then error.GetOr(r.error)
                                                                       else r.error)])
    {
      if run.None? {
        return Err(Unprocessable);
      }
      var k := run.value;
      if k >= |runs| {
        return Err(Missing);
      }
      if runs[k].job != job {
        return Err(Foreign);
      }
      for n := 0 to |refs|
        invariant Fault(artifacts, refs, k, runner, now) == Fault(artifacts, refs[n..], k, runner, now)
      {
        assert refs[n..][1..] == refs[n + 1..];
        var fault := FaultOf(artifacts, refs[n], k, runner, now);
        if fault.Some? {
          return Err(fault.value);
        }
      }
      assert refs[|refs|..] == [];
      if !Artifacts.Holds(artifacts, k, runner) {
        return Err(Foreign);
      }
      artifacts := Artifacts.Finished(artifacts, k, runner);
      runs := runs[k := By(Closed(runs[k], Verdict(!failed), if failed then error else None, now), runner)];
      return Ok(true);
    }
  }

  /** A refused completion names the reason; one that passes was made by a runner holding the run's work. */
  lemma CompletionNeedsAClaim(runs: seq<Run>, artifacts: Artifacts.Table, job: nat, run: nat, refs: seq<nat>,
                              runner: string, now: int, i: nat)
    requires Refusal(runs, artifacts, job, Some(run), refs, runner, now).None? && i < |refs|
    ensures run < |runs| && runs[run].job == job && Artifacts.Holds(artifacts, run, runner)
    ensures refs[i] in artifacts && Artifacts.HeldBy(artifacts[refs[i]], run, runner)
  {
    EveryRefHeld(artifacts, refs, run, runner, now, i);
  }

  lemma {:induction false} EveryRefHeld(artifacts: Artifacts.Table, refs: seq<nat>, run: nat, runner: string, now: int,
                                        i: nat)
    requires Fault(artifacts, refs, run, runner, now).None? && i < |refs|
    ensures refs[i] in artifacts && Artifacts.HeldBy(artifacts[refs[i]], run, runner)
  {
    if i > 0 {
      EveryRefHeld(artifacts, refs[1..], run, runner, now, i - 1);
    }
  }
}
