/**
 * How jobs return to the queue, and what that means for a claim made in two statements: it is exact as long
 * as whatever was requeued in between is dated after the instant it captured, however clocks disagree.
 */
module Queue {
  import opened Wrappers
  import opened Backoff
  import opened Jobs
  import opened Protocol
  import opened Guarantees

  // ---- who returns to the queue, and when it is due ----

  /** The branches that put job `id` in the queue, or back at another place in it. */
  ghost predicate Requeues(s: Sys, step: Step, id: JobId) {
    id in s.db.jobs && Enabled(s, step) &&
    match step
    case Sweep(now) => Expired(s.db.jobs[id], now) && s.db.jobs[id].attempts < s.db.jobs[id].maxAttempts
    case RequestRun(k, _) => k == id && (s.db.jobs[id].status == Queued || s.db.jobs[id].status == Failed)
    case Fail(exec, error, _, _) =>
      s.execs[exec].held.id == id && s.execs[exec].held.executionId == Some(exec) && Holds(s, exec) &&
      !Terminal(s.execs[exec].held, error)
    case _ => false
  }

  /** The `next_run_at` it is given. */
  ghost function RequeueDate(s: Sys, step: Step, id: JobId): Time
    requires Requeues(s, step, id)
  {
    match step
    case Sweep(now) => now
    case RequestRun(_, now) => now
    case Fail(exec, _, retry, now) => now + RetryDelay(s.execs[exec].held.attempts, retry.base, retry.maximum)
  }

  /** The place of job `id` in the queue after a step, given that before: its date, or `None` if it is not queued. */
  ghost function PlaceAfter(s: Sys, step: Step, id: JobId, place: Option<Time>): Option<Time> {
    if Requeues(s, step, id) then Some(RequeueDate(s, step, id))
    else if step.Claim? && step.id == id then None
    else place
  }

  predicate Stands(j: Job, place: Option<Time>) {
    && (j.status == Queued <==> place.Some?)
    && (place.Some? ==> j.nextRunAt == place.value)
  }

  ghost predicate PlaceKept(s: Sys, step: Step, id: JobId, place: Option<Time>)
    requires Enabled(s, step) && id in s.db.jobs
  {
    && id in Apply(s, step).db.jobs
    && Stands(Apply(s, step).db.jobs[id], PlaceAfter(s, step, id, place))
    && (place.Some? && PlaceAfter(s, step, id, place) == place && !Requeues(s, step, id) ==>
          Apply(s, step).db.jobs[id] == s.db.jobs[id])
  }

  lemma SweepPlace(s: Sys, step: Step, id: JobId, place: Option<Time>)
    requires Enabled(s, step) && step.Sweep? && id in s.db.jobs && Stands(s.db.jobs[id], place)
    ensures PlaceKept(s, step, id, place)
  {
  }

  lemma RequestPlace(s: Sys, step: Step, id: JobId, place: Option<Time>)
    requires Enabled(s, step) && step.RequestRun? && id in s.db.jobs && Stands(s.db.jobs[id], place)
    ensures PlaceKept(s, step, id, place)
  {
  }

  lemma ClaimPlace(s: Sys, step: Step, id: JobId, place: Option<Time>)
    requires Enabled(s, step) && step.Claim? && id in s.db.jobs && Stands(s.db.jobs[id], place)
    ensures PlaceKept(s, step, id, place)
  {
  }

  lemma FailPlace(s: Sys, step: Step, id: JobId, place: Option<Time>)
    requires Leases(s) && Enabled(s, step) && step.Fail? && id in s.db.jobs && Stands(s.db.jobs[id], place)
    ensures PlaceKept(s, step, id, place)
  {
    assert ExecOk(s, step.exec);
  }

  lemma QuietPlace(s: Sys, step: Step, id: JobId, place: Option<Time>)
    requires Enabled(s, step) && id in s.db.jobs && Stands(s.db.jobs[id], place)
    requires step.Create? || step.Heartbeat? || step.Complete? || IsWork(step)
    ensures PlaceKept(s, step, id, place)
  {
    if IsWork(step) { WorkEffect(s, step); }
  }

  lemma StepPlace(s: Sys, step: Step, id: JobId, place: Option<Time>)
    requires Leases(s) && Enabled(s, step) && id in s.db.jobs && Stands(s.db.jobs[id], place)
    ensures PlaceKept(s, step, id, place)
  {
    match step
    case Sweep(_) => SweepPlace(s, step, id, place);
    case RequestRun(_, _) => RequestPlace(s, step, id, place);
    case Claim(_, _, _, _, _) => ClaimPlace(s, step, id, place);
    case Fail(_, _, _, _) => FailPlace(s, step, id, place);
    case _ => QuietPlace(s, step, id, place);
  }

  function PlaceOf(j: Job): Option<Time> {
    if j.status == Queued then Some(j.nextRunAt) else None
  }

  /** A row that a step leaves eligible at `captured` is either untouched or was requeued by then. */
  lemma EligibleIsOldOrRequeued(s: Sys, step: Step, id: JobId, captured: Time)
    requires Leases(s) && Enabled(s, step) && id in s.db.jobs
    requires Requeues(s, step, id) ==> captured < RequeueDate(s, step, id)
    ensures id in Apply(s, step).db.jobs
    ensures Eligible(Apply(s, step).db.jobs[id], captured) ==> Apply(s, step).db.jobs[id] == s.db.jobs[id]
  {
    StepPlace(s, step, id, PlaceOf(s.db.jobs[id]));
  }

  // ---- the place of a job as its history tells it ----

  /** The date of the last requeue of job `id` in the run, or `place` if there is none; `None` once it is claimed. */
  ghost function PlaceByHistory(s: Sys, steps: seq<Step>, id: JobId, place: Option<Time>): Option<Time>
    requires ValidRun(s, steps)
    decreases |steps|
  {
    if steps == [] then place
    else PlaceByHistory(Apply(s, steps[0]), steps[1..], id, PlaceAfter(s, steps[0], id, place))
  }

  lemma {:induction false} HistoryTellsPlace(s: Sys, steps: seq<Step>, id: JobId, place: Option<Time>)
    requires Leases(s) && ValidRun(s, steps) && id in s.db.jobs && Stands(s.db.jobs[id], place)
    ensures id in Run(s, steps).db.jobs
    ensures Stands(Run(s, steps).db.jobs[id], PlaceByHistory(s, steps, id, place))
    decreases |steps|
  {
    if steps != [] {
      StepPlace(s, steps[0], id, place);
      StepKeepsLeases(s, steps[0]);
      HistoryTellsPlace(Apply(s, steps[0]), steps[1..], id, PlaceAfter(s, steps[0], id, place));
    }
  }

  // ---- when a two-phase claim is exact ----

  /**
   * The second half of a claim that captured the instant `captured` and read the row `read` does not do what
   * an atomic claim would do now: it matches, but writes another count.
   */
  ghost predicate WritesStaleCount(s: Sys, id: JobId, read: Job, captured: Time)
    requires id in s.db.jobs
  {
    exists worker: WorkerId, lease: Time, exec: ExecId ::
      ClaimSys(s, id, read.attempts, worker, lease, exec, captured) !=
      ClaimSys(s, id, s.db.jobs[id].attempts, worker, lease, exec, captured)
  }

  lemma StaleMeansMatchingOtherCount(s: Sys, id: JobId, read: Job, captured: Time)
    requires id in s.db.jobs
    ensures WritesStaleCount(s, id, read, captured) <==>
            Eligible(s.db.jobs[id], captured) && s.db.jobs[id].attempts != read.attempts
  {
    if Eligible(s.db.jobs[id], captured) && s.db.jobs[id].attempts != read.attempts {
      var a, b := ClaimSys(s, id, read.attempts, "", 0.0, 0, captured),
                  ClaimSys(s, id, s.db.jobs[id].attempts, "", 0.0, 0, captured);
      assert a.db.jobs[id].attempts != b.db.jobs[id].attempts;
    }
  }

  /**
   * Exactly when a claim is stale. Its update matches if and only if the job stands in the queue again and
   * its last requeue is dated no later than the captured instant; it is stale if and only if the claims made
   * since the last rerun are then not as many as the claim read.
   */
  lemma ClaimIsStaleExactly(s: Sys, steps: seq<Step>, id: JobId, captured: Time)
    requires Inv(s) && ValidRun(s, steps) && id in s.db.jobs && Eligible(s.db.jobs[id], captured)
    ensures var read, s' := s.db.jobs[id], Run(s, steps);
            var place := PlaceByHistory(s, steps, id, Some(read.nextRunAt));
            var matches := place.Some? && place.value <= captured;
            && id in s'.db.jobs
            && (Eligible(s'.db.jobs[id], captured) <==> matches)
            && (WritesStaleCount(s', id, read, captured) <==>
                  matches && ClaimsSinceRerun(s, steps, id, read.attempts) != read.attempts)
  {
    var read, s' := s.db.jobs[id], Run(s, steps);
    HistoryTellsPlace(s, steps, id, Some(read.nextRunAt));
    AttemptsAreClaims(s, steps, id);
    StaleMeansMatchingOtherCount(s', id, read, captured);
  }

  lemma AttemptsAreClaims(s: Sys, steps: seq<Step>, id: JobId)
    requires Inv(s) && ValidRun(s, steps) && id in s.db.jobs && id in Run(s, steps).db.jobs
    ensures s.db.jobs[id].attempts >= 0
    ensures var row := Run(s, steps).db.jobs[id];
            && row.attempts == ClaimsSinceRerun(s, steps, id, s.db.jobs[id].attempts)
            && (row.status != Running ==> row.leaseExpiresAt.None?)
  {
    assert RowOk(s, id);
    RunKeepsInv(s, steps);
    assert RowOk(Run(s, steps), id);
    TallyCounts(s, steps, id);
  }

  lemma {:induction false} ClaimsWithoutRerun(s: Sys, steps: seq<Step>, id: JobId, before: nat)
    requires ValidRun(s, steps) && NoRerun(s, steps, id)
    ensures ClaimsSinceRerun(s, steps, id, before) == before + Claims(steps, id)
    decreases |steps|
  {
    if steps != [] {
      var claimed := if steps[0].Claim? && steps[0].id == id then before + 1 else before;
      ClaimsWithoutRerun(Apply(s, steps[0]), steps[1..], id, claimed);
    }
  }

  /** Without a rerun in between: stale exactly when the job was claimed meanwhile and is back, dated no later. */
  lemma StaleWithoutRerun(s: Sys, steps: seq<Step>, id: JobId, captured: Time)
    requires Inv(s) && ValidRun(s, steps) && id in s.db.jobs && Eligible(s.db.jobs[id], captured)
    requires NoRerun(s, steps, id)
    ensures var read := s.db.jobs[id];
            var place := PlaceByHistory(s, steps, id, Some(read.nextRunAt));
            && id in Run(s, steps).db.jobs
            && (WritesStaleCount(Run(s, steps), id, read, captured) <==>
                  place.Some? && place.value <= captured && Claims(steps, id) > 0)
  {
    assert RowOk(s, id);
    ClaimIsStaleExactly(s, steps, id, captured);
    ClaimsWithoutRerun(s, steps, id, s.db.jobs[id].attempts);
  }

  /** Some step of the run puts job `id` in the queue with a date no later than `captured`. */
  ghost predicate RequeuedBy(s: Sys, steps: seq<Step>, id: JobId, captured: Time)
    requires ValidRun(s, steps)
    decreases |steps|
  {
    if steps == [] then false
    else
      || (Requeues(s, steps[0], id) && RequeueDate(s, steps[0], id) <= captured)
      || RequeuedBy(Apply(s, steps[0]), steps[1..], id, captured)
  }

  /**
   * So it is enough that no requeue of this job is dated by the captured instant: then a write that matches
   * finds the row as it was read, whatever else happened and however it was dated.
   */
  lemma {:induction false} ClaimIsExactUnlessRequeuedInThePast(s: Sys, steps: seq<Step>, id: JobId, captured: Time)
    requires Inv(s) && ValidRun(s, steps) && id in s.db.jobs
    requires !RequeuedBy(s, steps, id, captured)
    ensures id in Run(s, steps).db.jobs
    ensures Eligible(Run(s, steps).db.jobs[id], captured) ==> Run(s, steps).db.jobs[id] == s.db.jobs[id]
    ensures !WritesStaleCount(Run(s, steps), id, s.db.jobs[id], captured)
    decreases |steps|
  {
    if steps != [] {
      EligibleIsOldOrRequeued(s, steps[0], id, captured);
      StepKeepsInv(s, steps[0]);
      ClaimIsExactUnlessRequeuedInThePast(Apply(s, steps[0]), steps[1..], id, captured);
    }
    StaleMeansMatchingOtherCount(Run(s, steps), id, s.db.jobs[id], captured);
  }

  // ---- the failing case ----

  const JOB_0: Job := NewJob(0, 2, 5.0, 5.0)

  const NO_WAIT: RetrySettings := RetrySettings(0.0, 0.0)

  /**
   * A requeue dated at the captured instant itself is too early. If all of this happens at instant 10, a
   * worker's claim reads a job with 0 attempts; a second worker claims it, fails at once and requeues it
   * without delay; the first worker's update then still matches, and the job's second claim is recorded as
   * its first.
   */
  lemma TiedClockMakesClaimStale()
    ensures var s0 := Apply(Start(1), Create(0, 2, 5.0, 5.0));
            var s1 := Apply(s0, Claim(0, "b", 60.0, 1, 10.0));
            && IsNext(s0.db.jobs, 0, 10.0)
            && Inv(s1) && Enabled(s1, Fail(1, WorkError(OtherError, "x"), NO_WAIT, 10.0))
            && var s2 := Apply(s1, Fail(1, WorkError(OtherError, "x"), NO_WAIT, 10.0));
               var s3 := ClaimSys(s2, 0, s0.db.jobs[0].attempts, "a", 60.0, 2, 10.0);
               && 2 in s3.execs
               && s3.db.jobs[0].attempts == 1
               && TallyOf(s3, 0).claims == 2
               && !Inv(s3)
  {
    var s0 := Apply(Start(1), Create(0, 2, 5.0, 5.0));
    assert s0.db.jobs[0] == JOB_0;
    var s1 := Apply(s0, Claim(0, "b", 60.0, 1, 10.0));
    InvInit(1);
    StepKeepsInv(Start(1), Create(0, 2, 5.0, 5.0));
    StepKeepsInv(s0, Claim(0, "b", 60.0, 1, 10.0));
    var s2 := Apply(s1, Fail(1, WorkError(OtherError, "x"), NO_WAIT, 10.0));
    assert RetryDelay(1, 0.0, 0.0) == 0.0;
    assert Eligible(s2.db.jobs[0], 10.0);
    var s3 := ClaimSys(s2, 0, s0.db.jobs[0].attempts, "a", 60.0, 2, 10.0);
    assert !RowOk(s3, 0);
  }
}
