/** The delays that the failures of one job impose over a run, with recoveries and completions in between. */
module Delays {
  import opened Wrappers
  import opened Backoff
  import opened Jobs
  import opened Protocol
  import opened Guarantees
  import opened Queue

  /** A failure of job `id` that puts it back in the queue. */
  ghost predicate PutsBack(s: Sys, step: Step, id: JobId) {
    step.Fail? && Requeues(s, step, id)
  }

  ghost function DelayOf(s: Sys, step: Step, id: JobId): Time {
    if PutsBack(s, step, id) then RequeueDate(s, step, id) - step.now else 0.0
  }

  ghost function FailureOf(s: Sys, step: Step, id: JobId): nat {
    if PutsBack(s, step, id) then 1 else 0
  }

  /** The delays that the failures of job `id` in the run impose together. */
  ghost function ImposedDelay(s: Sys, steps: seq<Step>, id: JobId): Time
    requires ValidRun(s, steps)
    decreases |steps|
  {
    if steps == [] then 0.0
    else DelayOf(s, steps[0], id) + ImposedDelay(Apply(s, steps[0]), steps[1..], id)
  }

  ghost function Failures(s: Sys, steps: seq<Step>, id: JobId): nat
    requires ValidRun(s, steps)
    decreases |steps|
  {
    if steps == [] then 0
    else FailureOf(s, steps[0], id) + Failures(Apply(s, steps[0]), steps[1..], id)
  }

  /** The failures of job `id` all use the one configuration. */
  ghost predicate Configured(s: Sys, steps: seq<Step>, id: JobId, retry: RetrySettings)
    requires ValidRun(s, steps)
    decreases |steps|
  {
    steps == [] ||
    ((PutsBack(s, steps[0], id) ==> steps[0].retry == retry) &&
     Configured(Apply(s, steps[0]), steps[1..], id, retry))
  }

  /** The attempts that are over. */
  function Done(j: Job): int {
    if j.status == Running then j.attempts - 1 else j.attempts
  }

  function DoneDelay(j: Job, retry: RetrySettings): Time {
    TotalDelay(if Done(j) > 0 then Done(j) else 0, retry.base, retry.maximum)
  }

  lemma DoneIsCounted(s: Sys, id: JobId)
    requires Counts(s) && id in s.db.jobs
    ensures 0 <= Done(s.db.jobs[id]) <= s.db.jobs[id].attempts
  {
    assert RowCounted(s, id);
  }

  lemma {:induction false} TotalDelayGrows(m: nat, n: nat, retry: RetrySettings)
    requires m <= n && retry.base >= 0.0 && retry.maximum >= 0.0
    ensures 0.0 <= TotalDelay(m, retry.base, retry.maximum) <= TotalDelay(n, retry.base, retry.maximum)
    decreases n
  {
    if n > 0 {
      DelayBoundedAndMonotone(n, n, retry.base, retry.maximum);
      TotalDelayGrows(if m < n then m else n - 1, n - 1, retry);
    }
  }

  lemma SweepDone(s: Sys, step: Step, id: JobId)
    requires Inv(s) && Enabled(s, step) && id in s.db.jobs && step.Sweep?
    ensures id in Apply(s, step).db.jobs && Done(s.db.jobs[id]) <= Done(Apply(s, step).db.jobs[id])
  {
  }

  lemma CloseDone(s: Sys, step: Step, id: JobId)
    requires Inv(s) && Enabled(s, step) && id in s.db.jobs && (step.Complete? || step.Fail?)
    ensures id in Apply(s, step).db.jobs
    ensures Done(s.db.jobs[id]) <= Done(Apply(s, step).db.jobs[id])
    ensures PutsBack(s, step, id) ==>
              && Done(Apply(s, step).db.jobs[id]) == Done(s.db.jobs[id]) + 1 == s.db.jobs[id].attempts
              && s.execs[step.exec].held.attempts == s.db.jobs[id].attempts
  {
    assert ExecOk(s, step.exec);
    if Holds(s, step.exec) {
      assert RowLeased(s, s.execs[step.exec].held.id);
      CloseEffect(s, step);
    }
  }

  lemma OtherDone(s: Sys, step: Step, id: JobId)
    requires Enabled(s, step) && id in s.db.jobs && !Reruns(s, step, id)
    requires step.Create? || step.Claim? || step.Heartbeat? || step.RequestRun? || IsWork(step)
    ensures id in Apply(s, step).db.jobs && Done(s.db.jobs[id]) <= Done(Apply(s, step).db.jobs[id])
  {
    if IsWork(step) { WorkEffect(s, step); }
  }

  lemma StepDone(s: Sys, step: Step, id: JobId)
    requires Inv(s) && Enabled(s, step) && id in s.db.jobs && !Reruns(s, step, id)
    ensures id in Apply(s, step).db.jobs
    ensures Done(s.db.jobs[id]) <= Done(Apply(s, step).db.jobs[id])
    ensures PutsBack(s, step, id) ==>
              && Done(Apply(s, step).db.jobs[id]) == Done(s.db.jobs[id]) + 1 == s.db.jobs[id].attempts
              && s.execs[step.exec].held.attempts == s.db.jobs[id].attempts
  {
    match step
    case Sweep(_) => SweepDone(s, step, id);
    case Complete(_, _) => CloseDone(s, step, id);
    case Fail(_, _, _, _) => CloseDone(s, step, id);
    case _ => OtherDone(s, step, id);
  }

  lemma WorthOfOne(j: Job, j': Job, retry: RetrySettings)
    requires Done(j) >= 0 && Done(j') == Done(j) + 1
    ensures DoneDelay(j', retry) == DoneDelay(j, retry) + RetryDelay(Done(j'), retry.base, retry.maximum)
  {
  }

  lemma WorthGrows(j: Job, j': Job, retry: RetrySettings)
    requires 0 <= Done(j) <= Done(j') && retry.base >= 0.0 && retry.maximum >= 0.0
    ensures DoneDelay(j, retry) <= DoneDelay(j', retry)
  {
    TotalDelayGrows(Done(j), Done(j'), retry);
  }

  lemma DelayIsRetryDelay(s: Sys, step: Step, id: JobId)
    requires PutsBack(s, step, id)
    ensures DelayOf(s, step, id) == RetryDelay(s.execs[step.exec].held.attempts, step.retry.base, step.retry.maximum)
  {
  }

  /** One step imposes no more delay than the attempts it ends are worth. */
  lemma StepDelay(s: Sys, step: Step, id: JobId, retry: RetrySettings)
    requires Inv(s) && Enabled(s, step) && id in s.db.jobs && !Reruns(s, step, id)
    requires retry.base >= 0.0 && retry.maximum >= 0.0 && (PutsBack(s, step, id) ==> step.retry == retry)
    ensures id in Apply(s, step).db.jobs
    ensures DelayOf(s, step, id) + DoneDelay(s.db.jobs[id], retry) <= DoneDelay(Apply(s, step).db.jobs[id], retry)
  {
    StepDone(s, step, id);
    DoneIsCounted(s, id);
    if PutsBack(s, step, id) {
      DelayIsRetryDelay(s, step, id);
      WorthOfOne(s.db.jobs[id], Apply(s, step).db.jobs[id], retry);
    } else {
      WorthGrows(s.db.jobs[id], Apply(s, step).db.jobs[id], retry);
    }
  }

  /**
   * Over any run without a rerun: what the failures of a job impose, with the worth of the attempts over
   * before the run, is at most the worth of those over after it.
   */
  lemma {:induction false} DelaysWithinAttempts(s: Sys, steps: seq<Step>, id: JobId, retry: RetrySettings)
    requires Inv(s) && ValidRun(s, steps) && id in s.db.jobs && NoRerun(s, steps, id)
    requires retry.base >= 0.0 && retry.maximum >= 0.0 && Configured(s, steps, id, retry)
    ensures id in Run(s, steps).db.jobs
    ensures ImposedDelay(s, steps, id) + DoneDelay(s.db.jobs[id], retry) <= DoneDelay(Run(s, steps).db.jobs[id], retry)
    decreases |steps|
  {
    if steps != [] {
      StepDelay(s, steps[0], id, retry);
      StepKeepsInv(s, steps[0]);
      DelaysWithinAttempts(Apply(s, steps[0]), steps[1..], id, retry);
    }
  }

  lemma StepCap(s: Sys, step: Step, id: JobId, retry: RetrySettings)
    requires PutsBack(s, step, id) ==> step.retry == retry
    ensures DelayOf(s, step, id) <= Caps(FailureOf(s, step, id), retry.maximum)
  {
    if PutsBack(s, step, id) {
      DelayIsRetryDelay(s, step, id);
      assert Caps(1, retry.maximum) == Caps(0, retry.maximum) + retry.maximum;
    }
  }

  lemma {:induction false} CapsAdd(m: nat, n: nat, maximum: real)
    ensures Caps(m + n, maximum) == Caps(m, maximum) + Caps(n, maximum)
  {
    if m > 0 {
      CapsAdd(m - 1, n, maximum);
    }
  }

  /** And it is at most a cap for each failure. */
  lemma {:induction false} DelaysWithinCaps(s: Sys, steps: seq<Step>, id: JobId, retry: RetrySettings)
    requires ValidRun(s, steps) && Configured(s, steps, id, retry)
    ensures ImposedDelay(s, steps, id) <= Caps(Failures(s, steps, id), retry.maximum)
    decreases |steps|
  {
    if steps != [] {
      var s' := Apply(s, steps[0]);
      StepCap(s, steps[0], id, retry);
      DelaysWithinCaps(s', steps[1..], id, retry);
      CapsAdd(FailureOf(s, steps[0], id), Failures(s', steps[1..], id), retry.maximum);
    }
  }

  lemma WorthBound(j: Job, retry: RetrySettings)
    requires 0 <= Done(j) <= j.attempts && retry.base >= 0.0 && retry.maximum >= 0.0
    ensures 0.0 <= DoneDelay(j, retry) <= Geometric(retry.base, j.attempts)
  {
    TotalDelayGrows(0, Done(j), retry);
    TotalDelayGrows(Done(j), j.attempts, retry);
    TotalDelayDoubled(j.attempts, retry.base, retry.maximum);
  }

  /**
   * So the failures of a job delay it by at most a cap for each, and by at most base * (2^attempts - 1) in
   * all: the attempts count, recovered ones included, not the failures.
   */
  lemma TotalImposedDelay(s: Sys, steps: seq<Step>, id: JobId, retry: RetrySettings)
    requires Inv(s) && ValidRun(s, steps) && id in s.db.jobs && NoRerun(s, steps, id)
    requires retry.base >= 0.0 && retry.maximum >= 0.0 && Configured(s, steps, id, retry)
    ensures id in Run(s, steps).db.jobs && Run(s, steps).db.jobs[id].attempts >= 0
    ensures ImposedDelay(s, steps, id) <= Caps(Failures(s, steps, id), retry.maximum)
    ensures ImposedDelay(s, steps, id) <= Geometric(retry.base, Run(s, steps).db.jobs[id].attempts)
  {
    DelaysWithinCaps(s, steps, id, retry);
    DelaysWithinAttempts(s, steps, id, retry);
    RunKeepsInv(s, steps);
    DoneIsCounted(s, id);
    DoneIsCounted(Run(s, steps), id);
    WorthBound(s.db.jobs[id], retry);
    WorthBound(Run(s, steps).db.jobs[id], retry);
  }

  // ---- counting failures in place of attempts ----

  /** The number of the attempt that failed last in the run, or `before` if none did. */
  ghost function LastFailed(s: Sys, steps: seq<Step>, id: JobId, before: int): int
    requires ValidRun(s, steps)
    decreases |steps|
  {
    if steps == [] then before
    else
      LastFailed(Apply(s, steps[0]), steps[1..], id,
                 if PutsBack(s, steps[0], id) then s.execs[steps[0].exec].held.attempts else before)
  }

  /** No delay of the job reaches the cap. */
  predicate Uncapped(retry: RetrySettings, maxAttempts: int) {
    retry.base > 0.0 && maxAttempts >= 0 && Doubled(retry.base, maxAttempts) <= retry.maximum
  }

  /** After f failures, the last one of attempt l, which imposed the delay d together. */
  ghost predicate Ledger(retry: RetrySettings, maxAttempts: int, d: Time, f: nat, l: int) {
    && f <= l
    && (f == l ==> d == TotalDelay(f, retry.base, retry.maximum))
    && (f < l && Uncapped(retry, maxAttempts) ==> Geometric(retry.base, f) < d)
  }

  lemma {:induction false} UncappedTotal(n: nat, retry: RetrySettings, maxAttempts: int)
    requires Uncapped(retry, maxAttempts) && n <= maxAttempts
    ensures TotalDelay(n, retry.base, retry.maximum) == Geometric(retry.base, n)
  {
    if n > 0 {
      UncappedTotal(n - 1, retry, maxAttempts);
      UncappedDelay(n, retry, maxAttempts);
    }
  }

  lemma UncappedDelay(k: nat, retry: RetrySettings, maxAttempts: int)
    requires Uncapped(retry, maxAttempts) && 1 <= k <= maxAttempts
    ensures RetryDelay(k, retry.base, retry.maximum) == Doubled(retry.base, k - 1) > 0.0
  {
    DelayIsDoubled(k, retry.base, retry.maximum);
    DoubledMonotone(retry.base, k - 1, maxAttempts);
    DoubledMonotone(retry.base, 0, k - 1);
  }

  /** One more failure, of an attempt after the last that failed. */
  lemma LedgerGrows(retry: RetrySettings, maxAttempts: int, d: Time, f: nat, l: int, k: nat)
    requires Ledger(retry, maxAttempts, d, f, l) && l < k <= maxAttempts
    ensures Ledger(retry, maxAttempts, d + RetryDelay(k, retry.base, retry.maximum), f + 1, k)
  {
    if f + 1 < k && Uncapped(retry, maxAttempts) {
      UncappedTotal(f, retry, maxAttempts);
      UncappedDelay(k, retry, maxAttempts);
      DoubledMonotone(retry.base, f + 1, k - 1);
      DoubledMonotone(retry.base, 0, f);
    }
  }

  lemma {:induction false} LedgerOfRun(
    s: Sys, steps: seq<Step>, id: JobId, retry: RetrySettings, d: Time, f: nat, l: int)
    requires Inv(s) && ValidRun(s, steps) && id in s.db.jobs && NoRerun(s, steps, id)
    requires Configured(s, steps, id, retry)
    requires Ledger(retry, s.db.jobs[id].maxAttempts, d, f, l) && l <= Done(s.db.jobs[id])
    ensures Ledger(retry, s.db.jobs[id].maxAttempts, d + ImposedDelay(s, steps, id), f + Failures(s, steps, id),
                   LastFailed(s, steps, id, l))
    decreases |steps|
  {
    if steps != [] {
      var step, s' := steps[0], Apply(s, steps[0]);
      StepDone(s, step, id);
      StepIsLaterRow(s, step, id);
      StepKeepsInv(s, step);
      var d', f', l' := d + DelayOf(s, step, id), f + FailureOf(s, step, id),
                        if PutsBack(s, step, id) then s.execs[step.exec].held.attempts else l;
      LedgerOfStep(s, step, id, retry, d, f, l);
      LedgerOfRun(s', steps[1..], id, retry, d', f', l');
    }
  }

  lemma LedgerOfStep(s: Sys, step: Step, id: JobId, retry: RetrySettings, d: Time, f: nat, l: int)
    requires Inv(s) && Enabled(s, step) && id in s.db.jobs && !Reruns(s, step, id)
    requires PutsBack(s, step, id) ==> step.retry == retry
    requires Ledger(retry, s.db.jobs[id].maxAttempts, d, f, l) && l <= Done(s.db.jobs[id])
    ensures Ledger(retry, s.db.jobs[id].maxAttempts, d + DelayOf(s, step, id), f + FailureOf(s, step, id),
                   if PutsBack(s, step, id) then s.execs[step.exec].held.attempts else l)
  {
    if PutsBack(s, step, id) {
      StepDone(s, step, id);
      DelayIsRetryDelay(s, step, id);
      AttemptsBounded(s, id);
      LedgerGrows(retry, s.db.jobs[id].maxAttempts, d, f, l, s.db.jobs[id].attempts);
    }
  }

  lemma AttemptsBounded(s: Sys, id: JobId)
    requires Counts(s) && id in s.db.jobs
    ensures 0 <= s.db.jobs[id].attempts <= s.db.jobs[id].maxAttempts
  {
    assert RowCounted(s, id);
  }

  /**
   * From a job's first attempt on, n failures impose at most base * (2^n - 1) if every attempt up to the last
   * failure failed; and, as long as no delay reaches the cap, only then.
   */
  lemma FailuresCountExactly(s: Sys, steps: seq<Step>, id: JobId, retry: RetrySettings)
    requires Inv(s) && ValidRun(s, steps) && id in s.db.jobs && NoRerun(s, steps, id)
    requires s.db.jobs[id].attempts == 0 && Configured(s, steps, id, retry)
    ensures var n, last := Failures(s, steps, id), LastFailed(s, steps, id, 0);
            && (n == last ==> ImposedDelay(s, steps, id) <= Geometric(retry.base, n))
            && (Uncapped(retry, s.db.jobs[id].maxAttempts) ==>
                  (ImposedDelay(s, steps, id) <= Geometric(retry.base, n) <==> n == last))
  {
    AttemptsBounded(s, id);
    assert RowCounted(s, id);
    LedgerOfRun(s, steps, id, retry, 0.0, 0, 0);
    TotalDelayDoubled(Failures(s, steps, id), retry.base, retry.maximum);
  }

  const ONE_SECOND: RetrySettings := RetrySettings(1.0, 100.0)

  const TAKEN: Step := Claim(0, "a", 1.0, 1, 10.0)
  const RETAKEN: Step := Claim(0, "b", 60.0, 2, 21.0)
  const GIVEN_BACK: Step := Fail(2, WorkError(OtherError, "x"), ONE_SECOND, 22.0)

  ghost function NewOnly(): Sys {
    Apply(Start(1), Create(0, 3, 5.0, 5.0))
  }

  /** A job that was claimed at 10 and recovered at 20. */
  lemma RecoveredOnce()
    ensures Enabled(NewOnly(), TAKEN)
    ensures var s := Apply(Apply(NewOnly(), TAKEN), Sweep(20.0));
            && s.db.jobs.Keys == {0} && s.execs.Keys == {1}
            && s.db.jobs[0].id == 0 && s.db.jobs[0].status == Queued && s.db.jobs[0].nextRunAt == 20.0
            && s.db.jobs[0].leaseExpiresAt.None? && s.db.jobs[0].attempts == 1 && s.db.jobs[0].maxAttempts == 3
  {
    assert NewOnly().db.jobs[0] == NewJob(0, 3, 5.0, 5.0);
  }

  /** A recovered attempt uses up a number without a delay: the one failure of this job waits twice the base. */
  lemma RecoveredAttemptRaisesDelay()
    ensures Enabled(NewOnly(), TAKEN)
    ensures var s := Apply(Apply(NewOnly(), TAKEN), Sweep(20.0));
            && Enabled(s, RETAKEN)
            && var s' := Apply(s, RETAKEN);
            && Enabled(s', GIVEN_BACK) && PutsBack(s', GIVEN_BACK, 0)
            && DelayOf(s', GIVEN_BACK, 0) == 2.0 > Geometric(ONE_SECOND.base, 1)
  {
    RecoveredOnce();
    var s := Apply(Apply(NewOnly(), TAKEN), Sweep(20.0));
    RetakenFails(s);
  }

  lemma RetakenFails(s: Sys)
    requires s.db.jobs.Keys == {0} && s.execs.Keys == {1}
    requires s.db.jobs[0].id == 0 && s.db.jobs[0].status == Queued && s.db.jobs[0].nextRunAt == 20.0
    requires s.db.jobs[0].leaseExpiresAt.None? && s.db.jobs[0].attempts == 1 && s.db.jobs[0].maxAttempts == 3
    ensures Enabled(s, RETAKEN)
    ensures var s' := Apply(s, RETAKEN);
            && Enabled(s', GIVEN_BACK) && PutsBack(s', GIVEN_BACK, 0)
            && DelayOf(s', GIVEN_BACK, 0) == 2.0 > Geometric(ONE_SECOND.base, 1)
  {
    assert Eligible(s.db.jobs[0], 21.0);
    DelayOfSecond();
    DelayIsRetryDelay(Apply(s, RETAKEN), GIVEN_BACK, 0);
  }

  lemma DelayOfSecond()
    ensures RetryDelay(2, 1.0, 100.0) == 2.0 && Geometric(1.0, 1) == 1.0
  {
    assert Pow2(0) == 1 && Pow2(1) == 2 && Doubled(1.0, 0) == 1.0;
  }
}
