/**
  Rows of artifacts: what a scrape run leaves for a later stage or an outside runner. Times are seconds,
  ids ascend in order of insertion.
 */
module Artifacts {
  import opened Prelude

  const WORK_LEASE_TTL: int := 10 * 60
  const ARTIFACT_TTL: int := 7 * 24 * 3600

  datatype ArtifactStatus = Pending | Claimed | Done | Expired

  /** expiresAt is a pending row's time to live and a claimed row's lease; claimedBy is never taken back. */
  datatype Artifact = Artifact(job: nat, producedBy: nat, status: ArtifactStatus, claimedBy: Option<string>,
                               expiresAt: Option<int>, consumedBy: Option<nat>)

  type Table = map<nat, Artifact>

  // ----- what the statements do -----

  /** A scrape clears what its run left pending before, then writes the fresh set. */
  function Stored(artifacts: Table, job: nat, run: nat, ids: set<nat>, now: int): Table {
    (map i | i in artifacts && !(artifacts[i].producedBy == run && artifacts[i].status == Pending) :: artifacts[i])
    + (map i | i in ids :: Artifact(job, run, Pending, None, Some(now + ARTIFACT_TTL), None))
  }

  /** Ids are handed out in ascending order. */
  predicate FreshIds(artifacts: Table, ids: set<nat>) {
    forall i, j :: i in ids && j in artifacts ==> j < i
  }

  /** Pending past its time. */
  predicate Lapsed(a: Artifact, now: int) {
    a.status == Pending && a.expiresAt.Some? && a.expiresAt.value < now
  }

  /** A lapsed claim is not swept. */
  function Swept(artifacts: Table, now: int): Table {
    map i | i in artifacts :: if Lapsed(artifacts[i], now) then artifacts[i].(status := Expired) else artifacts[i]
  }

  /** Read for summarising, marked consumed later by id, whatever their status has become. */
  function Consumed(artifacts: Table, ids: set<nat>, run: nat): Table {
    map i | i in artifacts ::
      if i in ids then artifacts[i].(status := Done, consumedBy := Some(run)) else artifacts[i]
  }

  /** Pending, or claimed on a lease that has lapsed, at a job outside runners may work for. */
  predicate Claimable(a: Artifact, localJobs: set<nat>, job: nat, now: int) {
    && a.job == job && job in localJobs
    && (a.status == Pending || (a.status == Claimed && a.expiresAt.Some? && a.expiresAt.value <= now))
  }

  predicate OldestClaimable(artifacts: Table, localJobs: set<nat>, job: nat, now: int, i: nat) {
    && i in artifacts && Claimable(artifacts[i], localJobs, job, now)
    && forall j :: j in artifacts && j < i ==> !Claimable(artifacts[j], localJobs, job, now)
  }

  /** One run's claimable rows, claimed together. */
  function Leased(artifacts: Table, localJobs: set<nat>, job: nat, run: nat, runner: string, now: int): Table {
    map i | i in artifacts ::
      if artifacts[i].producedBy == run && Claimable(artifacts[i], localJobs, job, now)
      then artifacts[i].(status := Claimed, claimedBy := Some(runner), expiresAt := Some(now + WORK_LEASE_TTL))
      else artifacts[i]
  }

  /** The rows of a run that a runner holds, on its completing the run. */
  function Finished(artifacts: Table, run: nat, runner: string): Table {
    map i | i in artifacts ::
      if HeldBy(artifacts[i], run, runner) && artifacts[i].status == Claimed
      then artifacts[i].(status := Done, consumedBy := Some(run)) else artifacts[i]
  }

  /** The evidence a completion asks for: any row of the run attributed to the runner, in whatever status. */
  predicate HeldBy(a: Artifact, run: nat, runner: string) {
    a.producedBy == run && a.claimedBy == Some(runner)
  }

  predicate Holds(artifacts: Table, run: nat, runner: string) {
    exists i :: i in artifacts && HeldBy(artifacts[i], run, runner)
  }

  // ----- whether a run's work can still be posted back -----

  /** Attributed to some runner already, or pending where a runner may claim it. */
  predicate Offers(a: Artifact, localJobs: set<nat>, run: nat) {
    a.producedBy == run && (a.claimedBy.Some? || (a.status == Pending && a.job in localJobs))
  }

  predicate Postable(artifacts: Table, localJobs: set<nat>, run: nat) {
    exists i :: i in artifacts && Offers(artifacts[i], localJobs, run)
  }

  /** Who produced it stays; pending is never come back to; a claim attributes the row to a runner. */
  predicate Advances(a: Artifact, a': Artifact, localJobs: set<nat>) {
    && a'.job == a.job && a'.producedBy == a.producedBy
    && (a'.status == Pending ==> a.status == Pending)
    && (a'.claimedBy.Some? ==> a.claimedBy.Some? || (a.status == Pending && a.job in localJobs))
  }

  /** Every claimed row says who claimed it. */
  ghost predicate ClaimsNamed(artifacts: Table) {
    forall i :: i in artifacts && artifacts[i].status == Claimed ==> artifacts[i].claimedBy.Some?
  }

  /** Rows of an earlier table have advanced; rows it lacked belong to one run. */
  ghost predicate TableAdvances(artifacts: Table, artifacts': Table, localJobs: set<nat>, run: Option<nat>) {
    forall i :: i in artifacts' ==>
      if i in artifacts then Advances(artifacts[i], artifacts'[i], localJobs) else Some(artifacts'[i].producedBy) == run
  }

  lemma SweepAdvances(artifacts: Table, localJobs: set<nat>, now: int)
    requires ClaimsNamed(artifacts)
    ensures TableAdvances(artifacts, Swept(artifacts, now), localJobs, None) && ClaimsNamed(Swept(artifacts, now))
  {
  }

  lemma ConsumptionAdvances(artifacts: Table, localJobs: set<nat>, ids: set<nat>, run: nat)
    requires ClaimsNamed(artifacts)
    ensures var out := Consumed(artifacts, ids, run);
            TableAdvances(artifacts, out, localJobs, None) && ClaimsNamed(out)
  {
  }

  lemma LeaseAdvances(artifacts: Table, localJobs: set<nat>, job: nat, run: nat, runner: string, now: int)
    requires ClaimsNamed(artifacts)
    ensures var out := Leased(artifacts, localJobs, job, run, runner, now);
            TableAdvances(artifacts, out, localJobs, None) && ClaimsNamed(out)
  {
  }

  lemma FinishAdvances(artifacts: Table, localJobs: set<nat>, run: nat, runner: string)
    requires ClaimsNamed(artifacts)
    ensures var out := Finished(artifacts, run, runner);
            TableAdvances(artifacts, out, localJobs, None) && ClaimsNamed(out)
  {
  }

  lemma StoringAdvances(artifacts: Table, localJobs: set<nat>, job: nat, run: nat, ids: set<nat>, now: int)
    requires ClaimsNamed(artifacts) && FreshIds(artifacts, ids)
    ensures var out := Stored(artifacts, job, run, ids, now);
            TableAdvances(artifacts, out, localJobs, Some(run)) && ClaimsNamed(out)
  {
    assert forall i :: i in ids ==> i !in artifacts;
  }

  /** A sweep takes from the runners exactly the pending rows past their time: those, at any later time, for good. */
  lemma SweepTakesOnlyLapsed(artifacts: Table, localJobs: set<nat>, job: nat, now: int, later: int, i: nat)
    requires i in artifacts
    ensures i in Swept(artifacts, now)
    ensures Claimable(Swept(artifacts, now)[i], localJobs, job, later) <==>
              Claimable(artifacts[i], localJobs, job, later) && !Lapsed(artifacts[i], now)
  {
  }

  /** Two sweeps, in either order of their times, are the later one. */
  lemma SweepsAreOne(artifacts: Table, now: int, again: int)
    ensures Swept(Swept(artifacts, now), again) == Swept(artifacts, Max(now, again))
  {
  }

  /** A lease keeps an artifact from every other runner for ten minutes, and no longer. */
  lemma LeaseHoldsTenMinutes(artifacts: Table, localJobs: set<nat>, job: nat, run: nat, runner: string, now: int,
                             i: nat, later: int)
    requires i in artifacts && artifacts[i].producedBy == run && Claimable(artifacts[i], localJobs, job, now)
    ensures var a := Leased(artifacts, localJobs, job, run, runner, now)[i];
            && HeldBy(a, run, runner)
            && (Claimable(a, localJobs, job, later) <==> now + 10 * 60 <= later)
  {
  }

  /**
    After a scrape its run has pending exactly the fresh artifacts; each can be claimed, if the job is one for
    outside runners, until a sweep more than seven days on. Everything else is as it was.
   */
  lemma StoredExactly(artifacts: Table, localJobs: set<nat>, job: nat, run: nat, ids: set<nat>, now: int, i: nat,
                      later: int)
    requires FreshIds(artifacts, ids)
    ensures var out := Stored(artifacts, job, run, ids, now);
            && (i in out <==>
                  i in ids || (i in artifacts && !(artifacts[i].producedBy == run && artifacts[i].status == Pending)))
            && (i in ids ==>
                  && out[i].producedBy == run && out[i].claimedBy.None? && out[i].consumedBy.None?
                  && (Claimable(out[i], localJobs, job, later) <==> job in localJobs)
                  && (Swept(out, later)[i].status == Expired <==> now + 7 * 24 * 60 * 60 < later))
            && (i in out && i !in ids ==> out[i] == artifacts[i])
  {
  }

  /** A run whose work cannot be posted back stays that way while it stores nothing new. */
  lemma UnpostableStays(artifacts: Table, artifacts': Table, localJobs: set<nat>, producer: Option<nat>, run: nat)
    requires TableAdvances(artifacts, artifacts', localJobs, producer) && producer != Some(run)
    requires !Postable(artifacts, localJobs, run)
    ensures !Postable(artifacts', localJobs, run)
  {
    forall i | i in artifacts' ensures !Offers(artifacts'[i], localJobs, run) {
      if i in artifacts {
        assert !Offers(artifacts[i], localJobs, run);
      }
    }
  }

  /** Claiming makes progress: the oldest claimable row and its run's others are no longer claimable then. */
  lemma LeasingRetires(artifacts: Table, localJobs: set<nat>, job: nat, runner: string, now: int, first: nat, i: nat)
    requires OldestClaimable(artifacts, localJobs, job, now, first)
    ensures var run := artifacts[first].producedBy;
            var out := Leased(artifacts, localJobs, job, run, runner, now);
            && out.Keys == artifacts.Keys
            && (i in artifacts && artifacts[i].producedBy != run ==> out[i] == artifacts[i])
            && HeldBy(out[first], run, runner) && !Claimable(out[first], localJobs, job, now)
            && (i in artifacts && Claimable(out[i], localJobs, job, now) ==>
                Claimable(artifacts[i], localJobs, job, now))
  {
  }
}
