/**
 * What the lease protocol guarantees over whole runs, whatever the clocks of the workers say:
 * fencing, attempt accounting, one record per job, the audit trail and termination.
 */
module Guarantees {
  import opened Wrappers
  import opened Jobs
  import opened Protocol

  // ---- fencing ----

  /** A late call by a worker that still believes it owns `exec`. */
  ghost predicate CallBy(step: Step, exec: ExecId) {
    (step.Heartbeat? || step.Complete? || step.Fail?) && step.exec == exec
  }

  lemma ClosedMeansFencedOff(s: Sys, exec: ExecId, step: Step)
    requires Leases(s) && exec in s.execs && s.execs[exec].closes != []
    requires CallBy(step, exec) && Enabled(s, step)
    ensures Apply(s, step) == s
  {
    assert ExecOk(s, exec);
    assert RowLeased(s, s.execs[exec].held.id);
  }

  /**
   * An execution is closed at most once in any run, however it is closed; from then on its calls change
   * nothing, even though completed and failed rows keep its execution id.
   */
  lemma ClosedOnceAndFenced(s: Sys, steps: seq<Step>, exec: ExecId)
    requires Leases(s) && ValidRun(s, steps) && exec in s.execs
    ensures var s' := Run(s, steps);
            && exec in s'.execs && s.execs[exec].closes <= s'.execs[exec].closes
            && |s'.execs[exec].closes| <= 1
            && (s.execs[exec].closes != [] ==> s'.execs[exec].closes == s.execs[exec].closes)
            && (s.execs[exec].closes != [] ==>
                  forall step :: CallBy(step, exec) && Enabled(s', step) ==> Apply(s', step) == s')
  {
    var s' := Run(s, steps);
    RunKeepsLeases(s, steps);
    RunIsLater(s, steps);
    assert LaterExec(s, s', exec);
    assert ExecOk(s', exec);
    forall step | s.execs[exec].closes != [] && CallBy(step, exec) && Enabled(s', step)
      ensures Apply(s', step) == s'
    {
      ClosedMeansFencedOff(s', exec, step);
    }
  }

  /**
   * Closing calls take effect exactly while the execution is open, an expired lease notwithstanding;
   * heartbeats exactly while it is open and its lease has not run out.
   */
  lemma CallsTakeEffectExactlyWhileOpen(s: Sys, exec: ExecId)
    requires Leases(s) && exec in s.execs
    ensures Holds(s, exec) <==> s.execs[exec].closes == []
    ensures forall step: Step :: (step.Complete? || step.Fail?) && CallBy(step, exec) && Enabled(s, step) ==>
              (Apply(s, step) == s <==> s.execs[exec].closes != [])
    ensures forall now ::
              CanExtend(s.db, s.execs[exec].held.id, s.execs[exec].worker, Some(exec), now) <==>
              s.execs[exec].closes == [] && now <= s.execs[exec].leaseTo
  {
    assert ExecOk(s, exec);
    assert RowLeased(s, s.execs[exec].held.id);
  }

  /** At every moment a job is leased to at most one execution, and that one is open. */
  lemma OneLeaseHolder(s: Sys, d: ExecId, e: ExecId)
    requires Leases(s) && d in s.execs && e in s.execs
    requires s.execs[d].closes == [] && s.execs[e].closes == []
    requires s.execs[d].held.id == s.execs[e].held.id
    ensures d == e
  {
    assert ExecOk(s, d) && ExecOk(s, e);
  }

  // ---- status changes ----

  function Measure(j: Job): int {
    match j.status
    case Queued => 2 * (j.maxAttempts - j.attempts)
    case Running => 2 * (j.maxAttempts - j.attempts) + 1
    case Completed => 0
    case Failed => 0
  }

  /** The one edge outside the transition table: a run request puts a failed job back in the queue. */
  ghost predicate Reruns(s: Sys, step: Step, id: JobId) {
    step.RequestRun? && step.id == id && id in s.db.jobs && s.db.jobs[id].status == Failed
  }

  /** The transition table: from the queue to a worker, from there back, to success or to failure, and no further. */
  lemma TransitionTable(from: Status, to: Status)
    ensures to in AllowedTransitions(from) <==>
            (from == Queued && to == Running) ||
            (from == Running && (to == Queued || to == Completed || to == Failed))
  {
  }

  /** The row keeps its status and measure, or moves along the table and lowers the measure. */
  predicate Moves(a: Job, b: Job) {
    if a.status == b.status then Measure(b) == Measure(a)
    else b.status in AllowedTransitions(a.status) && 0 <= Measure(b) < Measure(a)
  }

  lemma ClaimMoves(s: Sys, step: Step, id: JobId)
    requires Inv(s) && Enabled(s, step) && id in s.db.jobs && step.Claim?
    ensures id in Apply(s, step).db.jobs && Moves(s.db.jobs[id], Apply(s, step).db.jobs[id])
  {
    assert RowOk(s, id);
  }

  lemma SweepMoves(s: Sys, step: Step, id: JobId)
    requires Inv(s) && Enabled(s, step) && id in s.db.jobs && step.Sweep?
    ensures id in Apply(s, step).db.jobs && Moves(s.db.jobs[id], Apply(s, step).db.jobs[id])
  {
    assert RowOk(s, id);
  }

  lemma RequestMoves(s: Sys, step: Step, id: JobId)
    requires Enabled(s, step) && id in s.db.jobs && step.RequestRun? && !Reruns(s, step, id)
    ensures id in Apply(s, step).db.jobs && Moves(s.db.jobs[id], Apply(s, step).db.jobs[id])
  {
  }

  lemma CloseMoves(s: Sys, step: Step, id: JobId)
    requires Inv(s) && Enabled(s, step) && id in s.db.jobs && (step.Complete? || step.Fail?)
    ensures id in Apply(s, step).db.jobs && Moves(s.db.jobs[id], Apply(s, step).db.jobs[id])
  {
    assert ExecOk(s, step.exec);
    assert RowOk(s, id);
    if Holds(s, step.exec) {
      CloseEffect(s, step);
      assert id == s.execs[step.exec].held.id ==> RowOk(Apply(s, step), id);
    }
  }

  lemma QuietMoves(s: Sys, step: Step, id: JobId)
    requires Enabled(s, step) && id in s.db.jobs && (step.Create? || step.Heartbeat? || IsWork(step))
    ensures id in Apply(s, step).db.jobs && Moves(s.db.jobs[id], Apply(s, step).db.jobs[id])
  {
    if IsWork(step) { WorkEffect(s, step); }
  }

  /**
   * Every status change is in the transition table and lowers the measure, except the rerun of a failed
   * job; a step that keeps the status keeps the measure.
   */
  lemma StatusChange(s: Sys, step: Step, id: JobId)
    requires Inv(s) && Enabled(s, step) && id in s.db.jobs && !Reruns(s, step, id)
    ensures id in Apply(s, step).db.jobs && Moves(s.db.jobs[id], Apply(s, step).db.jobs[id])
  {
    match step
    case Claim(_, _, _, _, _) => ClaimMoves(s, step, id);
    case Sweep(_) => SweepMoves(s, step, id);
    case RequestRun(_, _) => RequestMoves(s, step, id);
    case Complete(_, _) => CloseMoves(s, step, id);
    case Fail(_, _, _, _) => CloseMoves(s, step, id);
    case _ => QuietMoves(s, step, id);
  }

  /** Remark: what that edge makes of the row. */
  lemma RerunChange(s: Sys, step: Step, id: JobId)
    requires Inv(s) && Enabled(s, step) && Reruns(s, step, id)
    ensures var j := Apply(s, step).db.jobs[id];
            j.status == Queued && j.attempts == 0 && Measure(j) == 2 * j.maxAttempts
  {
  }

  ghost predicate NoRerun(s: Sys, steps: seq<Step>, id: JobId)
    requires ValidRun(s, steps)
    decreases |steps|
  {
    steps == [] || (!Reruns(s, steps[0], id) && NoRerun(Apply(s, steps[0]), steps[1..], id))
  }

  /** The reruns of job `id` in a run: requests that found it failed. */
  ghost function RerunCount(s: Sys, steps: seq<Step>, id: JobId): nat
    requires ValidRun(s, steps)
    decreases |steps|
  {
    if steps == [] then 0
    else (if Reruns(s, steps[0], id) then 1 else 0) + RerunCount(Apply(s, steps[0]), steps[1..], id)
  }

  lemma {:induction false} AllowanceIsProduct(reruns: nat, maxAttempts: int)
    ensures Allowance(reruns, maxAttempts) == reruns * maxAttempts
  {
    if reruns > 0 {
      AllowanceIsProduct(reruns - 1, maxAttempts);
    }
  }

  ghost function StatusChanges(s: Sys, steps: seq<Step>, id: JobId): nat
    requires ValidRun(s, steps) && id in s.db.jobs
    decreases |steps|
  {
    if steps == [] then 0
    else
      var s' := Apply(s, steps[0]);
      StepIsLaterRow(s, steps[0], id);
      (if s'.db.jobs[id].status != s.db.jobs[id].status then 1 else 0) + StatusChanges(s', steps[1..], id)
  }

  lemma MeasureBounds(s: Sys, id: JobId)
    requires Inv(s) && id in s.db.jobs
    ensures 0 <= Measure(s.db.jobs[id]) <= 2 * s.db.jobs[id].maxAttempts
  {
    assert RowOk(s, id);
  }

  ghost function FirstChange(s: Sys, step: Step, id: JobId): nat
    requires Enabled(s, step) && id in s.db.jobs
  {
    StepIsLaterRow(s, step, id);
    if Apply(s, step).db.jobs[id].status != s.db.jobs[id].status then 1 else 0
  }

  ghost function FirstCost(s: Sys, step: Step, id: JobId, size: int): int {
    if Reruns(s, step, id) then size else 0
  }

  /** `size` for every rerun of job `id` in the run. */
  ghost function RerunCost(s: Sys, steps: seq<Step>, id: JobId, size: int): int
    requires ValidRun(s, steps)
    decreases |steps|
  {
    if steps == [] then 0
    else FirstCost(s, steps[0], id, size) + RerunCost(Apply(s, steps[0]), steps[1..], id, size)
  }

  lemma {:induction false} RerunCostIsAllowance(s: Sys, steps: seq<Step>, id: JobId, size: int)
    requires ValidRun(s, steps)
    ensures RerunCost(s, steps, id, size) == Allowance(RerunCount(s, steps, id), size)
    decreases |steps|
  {
    if steps != [] {
      RerunCostIsAllowance(Apply(s, steps[0]), steps[1..], id, size);
    }
  }

  lemma OneStatusChange(s: Sys, step: Step, id: JobId, size: int)
    requires Inv(s) && Enabled(s, step) && id in s.db.jobs && size == 2 * s.db.jobs[id].maxAttempts + 1
    ensures id in Apply(s, step).db.jobs
    ensures var a, b := s.db.jobs[id], Apply(s, step).db.jobs[id];
            && b.maxAttempts == a.maxAttempts
            && FirstChange(s, step, id) + Measure(b) <= Measure(a) + FirstCost(s, step, id, size)
  {
    StepIsLaterRow(s, step, id);
    MeasureBounds(s, id);
    if Reruns(s, step, id) {
      RerunChange(s, step, id);
    } else {
      StatusChange(s, step, id);
    }
  }

  lemma ChangesSplit(s: Sys, steps: seq<Step>, id: JobId, size: int)
    requires ValidRun(s, steps) && steps != [] && id in s.db.jobs && id in Apply(s, steps[0]).db.jobs
    ensures var s', rest := Apply(s, steps[0]), steps[1..];
            && Run(s, steps) == Run(s', rest)
            && StatusChanges(s, steps, id) - RerunCost(s, steps, id, size) ==
               FirstChange(s, steps[0], id) - FirstCost(s, steps[0], id, size) +
               StatusChanges(s', rest, id) - RerunCost(s', rest, id, size)
  {
  }

  lemma {:induction false} ChangesWithin(s: Sys, steps: seq<Step>, id: JobId, size: int)
    requires Inv(s) && ValidRun(s, steps) && id in s.db.jobs && size == 2 * s.db.jobs[id].maxAttempts + 1
    ensures id in Run(s, steps).db.jobs
    ensures StatusChanges(s, steps, id) - RerunCost(s, steps, id, size) + Measure(Run(s, steps).db.jobs[id]) <=
              Measure(s.db.jobs[id])
    decreases |steps|
  {
    if steps != [] {
      OneStatusChange(s, steps[0], id, size);
      StepKeepsInv(s, steps[0]);
      ChangesWithin(Apply(s, steps[0]), steps[1..], id, size);
      ChangesSplit(s, steps, id, size);
    }
  }

  /** In any run a job changes status at most `2 * max_attempts` times, and that often plus one more for every rerun. */
  lemma StatusChangesBounded(s: Sys, steps: seq<Step>, id: JobId)
    requires Inv(s) && ValidRun(s, steps) && id in s.db.jobs
    ensures id in Run(s, steps).db.jobs
    ensures var size := 2 * s.db.jobs[id].maxAttempts + 1;
            StatusChanges(s, steps, id) + Measure(Run(s, steps).db.jobs[id]) <=
              Measure(s.db.jobs[id]) + RerunCount(s, steps, id) * size
  {
    ChangesWithin(s, steps, id, 2 * s.db.jobs[id].maxAttempts + 1);
    RerunCostIsAllowance(s, steps, id, 2 * s.db.jobs[id].maxAttempts + 1);
    AllowanceIsProduct(RerunCount(s, steps, id), 2 * s.db.jobs[id].maxAttempts + 1);
  }

  lemma {:induction false} NoRerunMeansNone(s: Sys, steps: seq<Step>, id: JobId)
    requires ValidRun(s, steps)
    ensures NoRerun(s, steps, id) <==> RerunCount(s, steps, id) == 0
    decreases |steps|
  {
    if steps != [] {
      NoRerunMeansNone(Apply(s, steps[0]), steps[1..], id);
    }
  }

  /** So between reruns it changes status at most `2 * max_attempts` times, and always comes to rest. */
  lemma JobsComeToRest(s: Sys, steps: seq<Step>, id: JobId)
    requires Inv(s) && ValidRun(s, steps) && id in s.db.jobs && NoRerun(s, steps, id)
    ensures id in Run(s, steps).db.jobs
    ensures StatusChanges(s, steps, id) + Measure(Run(s, steps).db.jobs[id]) <= Measure(s.db.jobs[id])
    ensures 0 <= Measure(Run(s, steps).db.jobs[id])
    ensures Measure(s.db.jobs[id]) <= 2 * s.db.jobs[id].maxAttempts
  {
    RunKeepsInv(s, steps);
    NoRerunMeansNone(s, steps, id);
    ChangesWithin(s, steps, id, 2 * s.db.jobs[id].maxAttempts + 1);
    RerunCostIsAllowance(s, steps, id, 2 * s.db.jobs[id].maxAttempts + 1);
    MeasureBounds(s, id);
    MeasureBounds(Run(s, steps), id);
  }

  /** A failed job stays failed through any run that does not ask for it to be rerun. */
  lemma {:induction false} FailedLeftOnlyByRequest(s: Sys, steps: seq<Step>, id: JobId)
    requires Inv(s) && ValidRun(s, steps) && id in s.db.jobs && s.db.jobs[id].status == Failed
    requires NoRerun(s, steps, id)
    ensures id in Run(s, steps).db.jobs && Run(s, steps).db.jobs[id].status == Failed
    decreases |steps|
  {
    if steps != [] {
      StatusChange(s, steps[0], id);
      StepKeepsInv(s, steps[0]);
      FailedLeftOnlyByRequest(Apply(s, steps[0]), steps[1..], id);
    }
  }

  /** A completed row never changes again, run requests included. */
  lemma CompletedIsFinal(s: Sys, steps: seq<Step>, id: JobId)
    requires ValidRun(s, steps) && id in s.db.jobs && s.db.jobs[id].status == Completed
    ensures id in Run(s, steps).db.jobs && Run(s, steps).db.jobs[id] == s.db.jobs[id]
  {
    RunIsLater(s, steps);
    assert LaterRow(s, Run(s, steps), id);
  }

  // ---- attempts ----

  /** A queued job always has an attempt left, a running one is within its limit, though no claim checks it. */
  lemma AttemptsWithinLimit(limit: nat, steps: seq<Step>, id: JobId)
    requires ValidRun(Start(limit), steps) && id in Run(Start(limit), steps).db.jobs
    ensures var j := Run(Start(limit), steps).db.jobs[id];
            && 0 <= j.attempts <= j.maxAttempts
            && (j.status == Queued ==> j.attempts < j.maxAttempts)
            && (j.status == Running ==> 1 <= j.attempts)
  {
    InvInit(limit);
    RunKeepsInv(Start(limit), steps);
    assert RowOk(Run(Start(limit), steps), id);
  }

  /** The claims of job `id` in a run. */
  function Claims(steps: seq<Step>, id: JobId): nat {
    if steps == [] then 0
    else (if steps[0].Claim? && steps[0].id == id then 1 else 0) + Claims(steps[1..], id)
  }

  /** The claims of job `id` after the last rerun in the run, on top of `before` when there is none. */
  ghost function ClaimsSinceRerun(s: Sys, steps: seq<Step>, id: JobId, before: nat): nat
    requires ValidRun(s, steps)
    decreases |steps|
  {
    if steps == [] then before
    else
      ClaimsSinceRerun(Apply(s, steps[0]), steps[1..], id,
        if Reruns(s, steps[0], id) then 0
        else if steps[0].Claim? && steps[0].id == id then before + 1
        else before)
  }

  lemma {:induction false} TallyCounts(s: Sys, steps: seq<Step>, id: JobId)
    requires ValidRun(s, steps) && (id in s.tally ==> id in s.db.jobs)
    requires Inv(s)
    ensures var t, t' := TallyOf(s, id), TallyOf(Run(s, steps), id);
            && t'.claims == t.claims + Claims(steps, id)
            && t'.reruns == t.reruns + RerunCount(s, steps, id)
            && t'.sinceRerun == ClaimsSinceRerun(s, steps, id, t.sinceRerun)
    decreases |steps|
  {
    if steps != [] {
      StepKeepsInv(s, steps[0]);
      TallyStep(s, steps[0], id);
      TallyCounts(Apply(s, steps[0]), steps[1..], id);
    }
  }

  lemma TallyStep(s: Sys, step: Step, id: JobId)
    requires Inv(s) && Enabled(s, step) && (id in s.tally ==> id in s.db.jobs)
    ensures var s' := Apply(s, step);
            var t, t' := TallyOf(s, id), TallyOf(s', id);
            && (id in s'.tally ==> id in s'.db.jobs)
            && t'.claims == t.claims + (if step.Claim? && step.id == id then 1 else 0)
            && t'.reruns == t.reruns + (if Reruns(s, step, id) then 1 else 0)
            && t'.sinceRerun == if Reruns(s, step, id) then 0
                                else if step.Claim? && step.id == id then t.sinceRerun + 1
                                else t.sinceRerun
  {
    if step.Extract? { assert ExecOk(s, step.exec); }
  }

  /**
   * The row's attempt count is the number of claims since its last rerun, and a job is claimed at most
   * `max_attempts` times per series: once for its creation and once for each rerun.
   */
  lemma AttemptAccounting(limit: nat, steps: seq<Step>, id: JobId)
    requires ValidRun(Start(limit), steps) && id in Run(Start(limit), steps).db.jobs
    ensures var j := Run(Start(limit), steps).db.jobs[id];
            && j.attempts == ClaimsSinceRerun(Start(limit), steps, id, 0)
            && Claims(steps, id) <= (1 + RerunCount(Start(limit), steps, id)) * j.maxAttempts
  {
    var s := Start(limit);
    InvInit(limit);
    RunKeepsInv(s, steps);
    TallyCounts(s, steps, id);
    assert RowOk(Run(s, steps), id);
    var n := RerunCount(s, steps, id);
    AllowanceIsProduct(n, Run(s, steps).db.jobs[id].maxAttempts);
    AllowanceIsProduct(n + 1, Run(s, steps).db.jobs[id].maxAttempts);
  }

  // ---- one record per job ----

  /** Index of the record of job `id`. */
  ghost predicate IsRecordOf(records: seq<Record>, i: int, id: JobId) {
    0 <= i < |records| && records[i].jobId == Some(id)
  }

  /**
   * Retries and overlapping zombies never give a job a second record, the first record stored is never
   * replaced or removed, and every completed job has its record.
   */
  lemma ExactlyOneRecord(s: Sys, steps: seq<Step>, id: JobId)
    requires Leases(s) && ValidRun(s, steps)
    ensures var records := Run(s, steps).db.records;
            && s.db.records <= records
            && (forall i, j :: IsRecordOf(records, i, id) && IsRecordOf(records, j, id) ==> i == j)
            && (forall i :: IsRecordOf(s.db.records, i, id) ==>
                  IsRecordOf(records, i, id) && records[i] == s.db.records[i])
    ensures var s' := Run(s, steps);
            id in s'.db.jobs && s'.db.jobs[id].status == Completed ==>
              exists i :: IsRecordOf(s'.db.records, i, id)
  {
    RunKeepsLeases(s, steps);
    RunIsLater(s, steps);
    var s' := Run(s, steps);
    if id in s'.db.jobs && s'.db.jobs[id].status == Completed {
      assert RowLeased(s', id);
      var i :| 0 <= i < |s'.db.records| && s'.db.records[i].jobId == Some(id);
      assert IsRecordOf(s'.db.records, i, id);
    }
  }

  /** This step of the run stored this record, for the job its execution had claimed. */
  ghost predicate StoredBy(s: Sys, step: Step, record: Record) {
    && step.InsertRecord? && step.exec in s.execs
    && record == Record(Some(s.execs[step.exec].held.id), step.payload)
  }

  lemma StoredByLater(s: Sys, s': Sys, step: Step, record: Record)
    requires StoredBy(s, step, record) && Later(s, s')
    ensures StoredBy(s', step, record)
  {
    assert LaterExec(s, s', step.exec);
  }

  /** A step stores at most one record: the payload of an insert, under the job of its execution. */
  lemma StepStores(s: Sys, step: Step)
    requires Enabled(s, step)
    ensures var s' := Apply(s, step);
            && |s.db.records| <= |s'.db.records| && s'.db.records[..|s.db.records|] == s.db.records
            && (forall i :: |s.db.records| <= i < |s'.db.records| ==> StoredBy(s', step, s'.db.records[i]))
  {
  }

  ghost predicate SomeStored(s: Sys, steps: seq<Step>, record: Record) {
    exists k :: 0 <= k < |steps| && StoredBy(s, steps[k], record)
  }

  /** Every record added in a run is the payload of one of its inserts, stored for the job of that execution. */
  lemma {:induction false} RecordsComeFromInserts(s: Sys, steps: seq<Step>, i: int)
    requires ValidRun(s, steps) && |s.db.records| <= i < |Run(s, steps).db.records|
    ensures SomeStored(Run(s, steps), steps, Run(s, steps).db.records[i])
    decreases |steps|
  {
    var s', rest := Apply(s, steps[0]), steps[1..];
    var last := Run(s, steps);
    StepStores(s, steps[0]);
    RunIsLater(s', rest);
    if i < |s'.db.records| {
      StoredByLater(s', last, steps[0], last.db.records[i]);
    } else {
      RecordsComeFromInserts(s', rest, i);
      var k :| 0 <= k < |rest| && StoredBy(last, rest[k], last.db.records[i]);
      assert steps[k + 1] == rest[k];
    }
  }

  /**
   * An insert loses exactly when the job has its record already, which it leaves as it is; by what module
   * Worker proves of the handler, its execution can then only report a retryable error.
   */
  lemma ConflictIsRetried(s: Sys, exec: ExecId, payload: string)
    requires Leases(s) && Enabled(s, InsertRecord(exec, payload))
    ensures var s', id := Apply(s, InsertRecord(exec, payload)), s.execs[exec].held.id;
            && (s'.execs[exec].work == Conflicted <==> HasRecord(s.db.records, id))
            && (HasRecord(s.db.records, id) ==>
                  && s'.db == s.db
                  && (forall error, retry, now :: Enabled(s', Fail(exec, error, retry, now)) ==> Retryable(error))
                  && (forall now :: !Enabled(s', Complete(exec, now))))
            && (!HasRecord(s.db.records, id) ==>
                  && s'.db.records == s.db.records + [Record(Some(id), payload)]
                  && (forall now :: Enabled(s', Complete(exec, now))))
  {
  }

  // ---- the audit trail ----

  function StatusAfter(how: Ending): Status
    requires !how.Recovery?
  {
    match how
    case Completion => Completed
    case Surrender(terminal) => if terminal then Failed else Queued
  }

  /** This entry reports how an execution closed itself. */
  ghost predicate TellsTruth(s: Sys, entry: AuditEntry) {
    entry.StatusUpdated? ==>
      && entry.execution.Some?
      && entry.execution.value in s.execs
      && var x := s.execs[entry.execution.value];
         && x.held.id == entry.job
         && |x.closes| == 1
         && !x.closes[0].how.Recovery?
         && entry.status == StatusAfter(x.closes[0].how)
  }

  ghost predicate ReportedIn(audit: seq<AuditEntry>, exec: ExecId) {
    exists i :: 0 <= i < |audit| && audit[i].StatusUpdated? && audit[i].execution == Some(exec)
  }

  /** `job.status_updated` entries are exactly the executions that closed themselves, one each. */
  ghost predicate AuditOk(s: Sys) {
    && (forall i :: 0 <= i < |s.db.audit| ==> TellsTruth(s, s.db.audit[i]))
    && (forall i, j :: 0 <= i < j < |s.db.audit| && s.db.audit[i].StatusUpdated? && s.db.audit[j].StatusUpdated?
          ==> s.db.audit[i].execution != s.db.audit[j].execution)
    && (forall e :: e in s.execs && s.execs[e].closes != [] && !s.execs[e].closes[0].how.Recovery?
          ==> ReportedIn(s.db.audit, e))
  }

  lemma ReportedGrows(audit: seq<AuditEntry>, entry: AuditEntry, exec: ExecId)
    ensures ReportedIn(audit + [entry], exec) <==>
            ReportedIn(audit, exec) || (entry.StatusUpdated? && entry.execution == Some(exec))
  {
    var grown := audit + [entry];
    assert grown[|audit|] == entry;
    if ReportedIn(audit, exec) {
      var i :| 0 <= i < |audit| && audit[i].StatusUpdated? && audit[i].execution == Some(exec);
      assert grown[i] == audit[i];
    }
  }

  lemma NoReport(s: Sys, step: Step)
    requires Enabled(s, step) && !Closes(s, step) && Leases(s)
    ensures var s' := Apply(s, step);
            || s'.db.audit == s.db.audit
            || (exists entry :: s'.db.audit == s.db.audit + [entry] && !entry.StatusUpdated?)
  {
    if step.Complete? || step.Fail? { assert ExecOk(s, step.exec); }
  }

  ghost predicate AtMostRecovered(x: Execution, x': Execution) {
    && x'.held == x.held
    && (x'.closes == x.closes || (x.closes == [] && |x'.closes| == 1 && x'.closes[0].how.Recovery?))
  }

  lemma SweepRecovers(s: Sys, step: Step, e: ExecId)
    requires Leases(s) && Enabled(s, step) && step.Sweep? && e in s.execs
    ensures e in Apply(s, step).execs && AtMostRecovered(s.execs[e], Apply(s, step).execs[e])
  {
    assert ExecOk(s, e);
  }

  lemma OnlyRecovered(s: Sys, step: Step, e: ExecId)
    requires Leases(s) && Enabled(s, step) && !Closes(s, step) && e in s.execs
    ensures e in Apply(s, step).execs && AtMostRecovered(s.execs[e], Apply(s, step).execs[e])
  {
    if step.Sweep? {
      SweepRecovers(s, step, e);
    } else if step.Complete? || step.Fail? {
      assert ExecOk(s, step.exec);
    }
  }

  lemma NewcomersAreOpen(s: Sys, step: Step, e: ExecId)
    requires Enabled(s, step) && e in Apply(s, step).execs && e !in s.execs
    ensures Apply(s, step).execs[e].closes == []
  {
  }

  /** A step that closes nobody, or closes by recovery, adds no status report. */
  lemma AuditUntouched(s: Sys, step: Step)
    requires Leases(s) && AuditOk(s) && Enabled(s, step) && !Closes(s, step)
    ensures AuditOk(Apply(s, step))
  {
    var s' := Apply(s, step);
    NoReport(s, step);
    forall e | e in s.execs
      ensures e in s'.execs && s'.execs[e].held == s.execs[e].held
      ensures s'.execs[e].closes == s.execs[e].closes ||
              (s.execs[e].closes == [] && |s'.execs[e].closes| == 1 && s'.execs[e].closes[0].how.Recovery?)
    {
      OnlyRecovered(s, step, e);
    }
    forall e | e in s'.execs && e !in s.execs ensures s'.execs[e].closes == [] {
      NewcomersAreOpen(s, step, e);
    }
    AuditCarriesOver(s, s');
  }

  lemma AuditCarriesOver(s: Sys, s': Sys)
    requires AuditOk(s)
    requires s'.db.audit == s.db.audit ||
             (exists entry :: s'.db.audit == s.db.audit + [entry] && !entry.StatusUpdated?)
    requires forall e :: e in s.execs ==>
               && e in s'.execs && s'.execs[e].held == s.execs[e].held
               && (s'.execs[e].closes == s.execs[e].closes ||
                   (s.execs[e].closes == [] && |s'.execs[e].closes| == 1 && s'.execs[e].closes[0].how.Recovery?))
    requires forall e :: e in s'.execs && e !in s.execs ==> s'.execs[e].closes == []
    ensures AuditOk(s')
  {
    forall i | 0 <= i < |s'.db.audit| ensures TellsTruth(s', s'.db.audit[i]) {
      if i < |s.db.audit| { assert TellsTruth(s, s.db.audit[i]); }
    }
    forall e | e in s'.execs && s'.execs[e].closes != [] && !s'.execs[e].closes[0].how.Recovery?
      ensures ReportedIn(s'.db.audit, e)
    {
      assert ReportedIn(s.db.audit, e);
      if s'.db.audit != s.db.audit {
        ReportedGrows(s.db.audit, s'.db.audit[|s.db.audit|], e);
      }
    }
  }

  /** What a close adds to the log. */
  lemma CloseReport(s: Sys, step: Step)
    requires Leases(s) && Closes(s, step)
    ensures var s' := Apply(s, step);
            && s.execs[step.exec].closes == []
            && s'.execs == s.execs[step.exec := s'.execs[step.exec]]
            && |s'.db.audit| == |s.db.audit| + 1
            && s'.db.audit == s.db.audit + [s'.db.audit[|s.db.audit|]]
            && var entry := s'.db.audit[|s.db.audit|];
               entry.StatusUpdated? && entry.execution == Some(step.exec) && TellsTruth(s', entry)
  {
    assert ExecOk(s, step.exec);
    assert RowLeased(s, s.execs[step.exec].held.id);
  }

  lemma AuditOfClose(s: Sys, step: Step)
    requires Leases(s) && AuditOk(s) && Closes(s, step)
    ensures AuditOk(Apply(s, step))
  {
    CloseReport(s, step);
    AuditAppend(s, Apply(s, step), step.exec, Apply(s, step).db.audit[|s.db.audit|]);
  }

  lemma AuditAppend(s: Sys, s': Sys, exec: ExecId, entry: AuditEntry)
    requires AuditOk(s) && exec in s.execs && s.execs[exec].closes == []
    requires exec in s'.execs && s'.execs == s.execs[exec := s'.execs[exec]]
    requires s'.db.audit == s.db.audit + [entry]
    requires entry.StatusUpdated? && entry.execution == Some(exec) && TellsTruth(s', entry)
    ensures AuditOk(s')
  {
    forall i | 0 <= i < |s.db.audit|
      ensures TellsTruth(s', s.db.audit[i])
      ensures s.db.audit[i].StatusUpdated? ==> s.db.audit[i].execution != Some(exec)
    {
      assert TellsTruth(s, s.db.audit[i]);
    }
    forall e | e in s'.execs && s'.execs[e].closes != [] && !s'.execs[e].closes[0].how.Recovery?
      ensures ReportedIn(s'.db.audit, e)
    {
      ReportedGrows(s.db.audit, entry, e);
    }
  }

  /** In every run the audit log names each self-closed execution exactly once, with its true outcome, and no other. */
  lemma {:induction false} AuditIsFaithful(s: Sys, steps: seq<Step>)
    requires Leases(s) && AuditOk(s) && ValidRun(s, steps)
    ensures AuditOk(Run(s, steps))
    decreases |steps|
  {
    if steps != [] {
      if Closes(s, steps[0]) {
        AuditOfClose(s, steps[0]);
      } else {
        AuditUntouched(s, steps[0]);
      }
      StepKeepsLeases(s, steps[0]);
      AuditIsFaithful(Apply(s, steps[0]), steps[1..]);
    }
  }

  /** So it is from the empty system on. */
  lemma AuditOfAnyRun(limit: nat, steps: seq<Step>)
    requires ValidRun(Start(limit), steps)
    ensures AuditOk(Run(Start(limit), steps))
  {
    InvInit(limit);
    assert AuditOk(Start(limit));
    AuditIsFaithful(Start(limit), steps);
  }

  // ---- nested retries ----

  /** The executions of a job that have not called the extractor yet. */
  ghost function FreshOf(s: Sys, id: JobId): set<ExecId> {
    set e | e in s.execs && s.execs[e].held.id == id && s.execs[e].work.Fresh?
  }

  /** Each claim buys one round of extraction, which an execution spends at most once. */
  ghost predicate WithinBudget(s: Sys, id: JobId) {
    TallyOf(s, id).extractorCalls + Allowance(|FreshOf(s, id)|, s.extractionLimit)
      <= Allowance(TallyOf(s, id).claims, s.extractionLimit)
  }

  lemma BudgetSpent(s: Sys, s': Sys, id: JobId, exec: ExecId, calls: nat)
    requires WithinBudget(s, id) && s'.extractionLimit == s.extractionLimit && calls <= s.extractionLimit
    requires exec in FreshOf(s, id) && FreshOf(s', id) == FreshOf(s, id) - {exec}
    requires TallyOf(s', id).claims == TallyOf(s, id).claims
    requires TallyOf(s', id).extractorCalls == TallyOf(s, id).extractorCalls + calls
    ensures WithinBudget(s', id)
  {
  }

  lemma BudgetBought(s: Sys, s': Sys, id: JobId, exec: ExecId)
    requires WithinBudget(s, id) && s'.extractionLimit == s.extractionLimit
    requires exec !in FreshOf(s, id) && FreshOf(s', id) == FreshOf(s, id) + {exec}
    requires TallyOf(s', id).claims == TallyOf(s, id).claims + 1
    requires TallyOf(s', id).extractorCalls == TallyOf(s, id).extractorCalls
    ensures WithinBudget(s', id)
  {
  }

  lemma TallyAfterExtract(s: Sys, step: Step, id: JobId)
    requires Enabled(s, step) && step.Extract?
    ensures var s' := Apply(s, step);
            var t, t' := TallyOf(s, id), TallyOf(s', id);
            && s'.extractionLimit == s.extractionLimit && t'.claims == t.claims
            && t'.extractorCalls == t.extractorCalls + if s.execs[step.exec].held.id == id then step.calls else 0
  {
  }

  lemma FreshAfterExtract(s: Sys, step: Step, id: JobId)
    requires Enabled(s, step) && step.Extract?
    ensures FreshOf(Apply(s, step), id) == FreshOf(s, id) - {step.exec}
    ensures step.exec in FreshOf(s, id) <==> s.execs[step.exec].held.id == id
  {
    WorkEffect(s, step);
  }

  lemma BudgetOfExtract(s: Sys, step: Step, id: JobId)
    requires Enabled(s, step) && step.Extract? && WithinBudget(s, id)
    ensures WithinBudget(Apply(s, step), id)
  {
    TallyAfterExtract(s, step, id);
    FreshAfterExtract(s, step, id);
    if step.exec in FreshOf(s, id) {
      BudgetSpent(s, Apply(s, step), id, step.exec, step.calls);
    } else {
      assert FreshOf(s, id) - {step.exec} == FreshOf(s, id);
    }
  }

  lemma FreshAfterClaim(s: Sys, step: Step, id: JobId)
    requires Inv(s) && Enabled(s, step) && step.Claim?
    ensures FreshOf(Apply(s, step), id) == if step.id == id then FreshOf(s, id) + {step.exec} else FreshOf(s, id)
  {
    assert RowOk(s, step.id);
  }

  lemma TallyAfterClaim(s: Sys, step: Step, id: JobId)
    requires Enabled(s, step) && step.Claim?
    ensures var s' := Apply(s, step);
            var t, t' := TallyOf(s, id), TallyOf(s', id);
            && s'.extractionLimit == s.extractionLimit
            && t'.extractorCalls == t.extractorCalls
            && t'.claims == t.claims + if step.id == id then 1 else 0
  {
  }

  lemma BudgetOfClaim(s: Sys, step: Step, id: JobId)
    requires Inv(s) && Enabled(s, step) && step.Claim? && WithinBudget(s, id)
    ensures WithinBudget(Apply(s, step), id)
  {
    FreshAfterClaim(s, step, id);
    TallyAfterClaim(s, step, id);
    if step.id == id {
      BudgetBought(s, Apply(s, step), id, step.exec);
    }
  }

  lemma BudgetOfCreate(s: Sys, step: Step, id: JobId)
    requires Inv(s) && Enabled(s, step) && step.Create? && WithinBudget(s, id)
    ensures WithinBudget(Apply(s, step), id)
  {
    var s' := Apply(s, step);
    assert FreshOf(s', id) == FreshOf(s, id);
    if step.id == id {
      forall e | e in s.execs ensures s.execs[e].held.id != id {
        assert ExecOk(s, e);
      }
      assert FreshOf(s, id) == {};
    }
  }

  /** No other step makes an execution fresh or counts a call or a claim. */
  lemma FreshStays(s: Sys, step: Step, e: ExecId)
    requires Enabled(s, step) && !step.Extract? && !step.Claim? && e in s.execs
    ensures var s' := Apply(s, step);
            && e in s'.execs && s'.execs[e].held == s.execs[e].held
            && (s'.execs[e].work.Fresh? <==> s.execs[e].work.Fresh?)
  {
  }

  lemma ExecutionsStay(s: Sys, step: Step)
    requires Enabled(s, step) && !step.Claim?
    ensures Apply(s, step).execs.Keys == s.execs.Keys
  {
  }

  lemma CallsStay(s: Sys, step: Step, id: JobId)
    requires Enabled(s, step) && !step.Extract? && !step.Claim? && !step.Create?
    ensures var t, t' := TallyOf(s, id), TallyOf(Apply(s, step), id);
            t'.extractorCalls == t.extractorCalls && t'.claims == t.claims
  {
  }

  lemma BudgetOfOthers(s: Sys, step: Step, id: JobId)
    requires Enabled(s, step) && !step.Extract? && !step.Claim? && !step.Create? && WithinBudget(s, id)
    ensures WithinBudget(Apply(s, step), id)
  {
    var s' := Apply(s, step);
    ExecutionsStay(s, step);
    CallsStay(s, step, id);
    StepIsLater(s, step);
    forall e | e in s.execs
      ensures s'.execs[e].held == s.execs[e].held && (s'.execs[e].work.Fresh? <==> s.execs[e].work.Fresh?)
    {
      FreshStays(s, step, e);
    }
    assert FreshOf(s', id) == FreshOf(s, id);
  }

  lemma {:induction false} BudgetHolds(s: Sys, steps: seq<Step>, id: JobId)
    requires Inv(s) && ValidRun(s, steps) && WithinBudget(s, id)
    ensures WithinBudget(Run(s, steps), id)
    decreases |steps|
  {
    if steps != [] {
      match steps[0] {
        case Extract(_, _, _) => BudgetOfExtract(s, steps[0], id);
        case Claim(_, _, _, _, _) => BudgetOfClaim(s, steps[0], id);
        case Create(_, _, _, _) => BudgetOfCreate(s, steps[0], id);
        case _ => BudgetOfOthers(s, steps[0], id);
      }
      StepKeepsInv(s, steps[0]);
      BudgetHolds(Apply(s, steps[0]), steps[1..], id);
    }
  }

  lemma {:induction false} AllowanceMonotone(m: nat, n: nat, size: nat)
    requires m <= n
    ensures 0 <= Allowance(m, size) <= Allowance(n, size)
    decreases n
  {
    if m < n {
      AllowanceMonotone(m, n - 1, size);
    } else if n > 0 {
      AllowanceMonotone(n - 1, n - 1, size);
    }
  }

  /** The extractor calls that a step makes for job `id`. */
  ghost function CallsOfStep(s: Sys, step: Step, id: JobId): nat {
    if step.Extract? && step.exec in s.execs && s.execs[step.exec].held.id == id then step.calls else 0
  }

  /** The extractor calls of the run for job `id`. */
  ghost function ExtractorCalls(s: Sys, steps: seq<Step>, id: JobId): nat
    requires ValidRun(s, steps)
    decreases |steps|
  {
    if steps == [] then 0
    else CallsOfStep(s, steps[0], id) + ExtractorCalls(Apply(s, steps[0]), steps[1..], id)
  }

  lemma CallsTallied(s: Sys, step: Step, id: JobId)
    requires Enabled(s, step) && (id in s.tally ==> id in s.db.jobs)
    ensures TallyOf(Apply(s, step), id).extractorCalls == TallyOf(s, id).extractorCalls + CallsOfStep(s, step, id)
  {
  }

  lemma {:induction false} ExtractorCallsTallied(s: Sys, steps: seq<Step>, id: JobId)
    requires Inv(s) && ValidRun(s, steps) && (id in s.tally ==> id in s.db.jobs)
    ensures TallyOf(Run(s, steps), id).extractorCalls == TallyOf(s, id).extractorCalls + ExtractorCalls(s, steps, id)
    decreases |steps|
  {
    if steps != [] {
      CallsTallied(s, steps[0], id);
      StepKeepsInv(s, steps[0]);
      TallyStep(s, steps[0], id);
      ExtractorCallsTallied(Apply(s, steps[0]), steps[1..], id);
    }
  }

  /** The two retry loops multiply, no more: a series of attempts costs at most max_attempts rounds of extraction. */
  lemma ExtractorCallsBounded(limit: nat, steps: seq<Step>, id: JobId)
    requires ValidRun(Start(limit), steps) && id in Run(Start(limit), steps).db.jobs
    ensures ExtractorCalls(Start(limit), steps, id) <=
              (1 + RerunCount(Start(limit), steps, id)) * Run(Start(limit), steps).db.jobs[id].maxAttempts * limit
  {
    var s := Start(limit);
    var s' := Run(s, steps);
    InvInit(limit);
    assert FreshOf(s, id) == {};
    BudgetHolds(s, steps, id);
    RunIsLater(s, steps);
    AttemptAccounting(limit, steps, id);
    TallyCounts(s, steps, id);
    ExtractorCallsTallied(s, steps, id);
    var claims := TallyOf(s', id).claims;
    var bound := (1 + RerunCount(s, steps, id)) * s'.db.jobs[id].maxAttempts;
    AllowanceMonotone(0, |FreshOf(s', id)|, limit);
    AllowanceMonotone(claims, bound, limit);
    AllowanceIsProduct(bound, limit);
  }

  /**
   * An extraction that the pipeline gives up on ends the series at once: by what module Worker proves of the
   * handler it surfaces as a PipelineError, which is never retried.
   */
  lemma ExhaustedExtractionIsTerminal(s: Sys, step: Step)
    requires Leases(s) && Enabled(s, step) && step.Fail? && s.execs[step.exec].work.ExtractionFailed?
    requires s.execs[step.exec].closes == []
    ensures Apply(s, step).db.jobs[s.execs[step.exec].held.id].status == Failed
  {
    assert ExecOk(s, step.exec);
  }
}
