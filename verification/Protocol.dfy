/**
 * The job lease protocol as a step relation: any number of workers, each execution possibly a zombie
 * whose lease is long gone, interleaved at the granularity of database statements. Here a claim is one
 * atomic step and every step carries an arbitrary `now`; module Clock splits the claim into its read
 * and its conditional write and ties all steps to one clock.
 */
module Protocol {
  import opened Wrappers
  import opened Jobs

  datatype Ending = Completion | Surrender(terminal: bool) | Recovery

  datatype Close = Close(how: Ending, at: Time)

  /** One granted claim. `held` is the worker's copy of the row; `leaseTo` and `closes` are history. */
  datatype Execution = Execution(held: Job, worker: WorkerId, leaseTo: Time, work: Work, closes: seq<Close>)

  /** History of one job: claims ever, reruns from FAILED, claims since the last of them, extractor calls. */
  datatype Tally = Tally(claims: nat, reruns: nat, sinceRerun: nat, extractorCalls: nat)

  datatype Sys = Sys(db: Db, execs: map<ExecId, Execution>, tally: map<JobId, Tally>, extractionLimit: nat)

  datatype Step =
    | Create(id: JobId, maxAttempts: int, nextRunAt: Time, createdAt: Time)
    | Claim(id: JobId, worker: WorkerId, lease: Time, exec: ExecId, now: Time)
    | Heartbeat(exec: ExecId, lease: Time, now: Time)
    | Sweep(now: Time)
    | RequestRun(id: JobId, now: Time)
    | Extract(exec: ExecId, calls: nat, result: Work)
    | LookUpRecord(exec: ExecId)
    | InsertRecord(exec: ExecId, payload: string)
    | Complete(exec: ExecId, now: Time)
    | Fail(exec: ExecId, error: WorkError, retry: RetrySettings, now: Time)

  function Start(extractionLimit: nat): Sys {
    Sys(Db(map[], [], []), map[], map[], extractionLimit)
  }

  function TallyOf(s: Sys, id: JobId): Tally {
    if id in s.tally then s.tally[id] else Tally(0, 0, 0, 0)
  }

  // ---- the steps ----

  ghost predicate Enabled(s: Sys, step: Step) {
    match step
    case Create(id, maxAttempts, _, _) => id !in s.db.jobs && maxAttempts >= 1
    case Claim(id, _, _, exec, now) => exec !in s.execs && IsNext(s.db.jobs, id, now)
    case Heartbeat(exec, _, _) => exec in s.execs
    case Sweep(_) => true
    case RequestRun(id, _) => id in s.db.jobs
    case Extract(exec, calls, result) =>
      exec in s.execs && s.execs[exec].work.Fresh? && calls <= s.extractionLimit && EndsExtraction(result)
    case LookUpRecord(exec) => exec in s.execs && s.execs[exec].work.Extracted?
    case InsertRecord(exec, _) => exec in s.execs && s.execs[exec].work.NoRecordSeen?
    case Complete(exec, _) => exec in s.execs && s.execs[exec].work.Stored?
    case Fail(exec, error, _, _) => exec in s.execs && MayRaise(s.execs[exec].work, error)
  }

  function ClaimSys(s: Sys, id: JobId, readAttempts: int, worker: WorkerId, lease: Time, exec: ExecId, now: Time): Sys
    requires id in s.db.jobs
  {
    if Eligible(s.db.jobs[id], now) then
      var db := ClaimDb(s.db, id, readAttempts, worker, lease, exec, now);
      var t := TallyOf(s, id);
      s.(db := db,
         execs := s.execs[exec := Execution(db.jobs[id], worker, now + lease, Fresh, [])],
         tally := s.tally[id := t.(claims := t.claims + 1, sinceRerun := t.sinceRerun + 1)])
    else
      s
  }

  function WithExec(s: Sys, exec: ExecId, x: Execution): Sys {
    s.(execs := s.execs[exec := x])
  }

  function Closed(x: Execution, how: Ending, now: Time): Execution {
    x.(closes := x.closes + [Close(how, now)])
  }

  /** The execution's own row says it is running under it. */
  predicate Holds(s: Sys, exec: ExecId)
    requires exec in s.execs
  {
    CanClose(s.db, s.execs[exec].held.id, s.execs[exec].worker, Some(exec))
  }

  function SweepSys(s: Sys, now: Time): Sys {
    s.(db := SweepDb(s.db, now),
       execs := map e | e in s.execs ::
         if Holds(s, e) && Expired(s.db.jobs[s.execs[e].held.id], now)
         then Closed(s.execs[e], Recovery, now)
         else s.execs[e])
  }

  function RequestRunSys(s: Sys, id: JobId, now: Time): Sys
    requires id in s.db.jobs
  {
    var t := TallyOf(s, id);
    var s' := s.(db := RequestRunDb(s.db, id, now));
    if s.db.jobs[id].status == Failed then
      s'.(tally := s.tally[id := t.(reruns := t.reruns + 1, sinceRerun := 0)])
    else
      s'
  }

  ghost function Apply(s: Sys, step: Step): Sys
    requires Enabled(s, step)
  {
    match step
    case Create(id, maxAttempts, nextRunAt, createdAt) =>
      s.(db := CreateDb(s.db, id, maxAttempts, nextRunAt, createdAt),
         tally := s.tally[id := Tally(0, 0, 0, 0)])
    case Claim(id, worker, lease, exec, now) =>
      ClaimSys(s, id, s.db.jobs[id].attempts, worker, lease, exec, now)
    case Heartbeat(exec, lease, now) =>
      var x := s.execs[exec];
      if CanExtend(s.db, x.held.id, x.worker, x.held.executionId, now) then
        WithExec(s, exec, x.(leaseTo := now + lease))
        .(db := HeartbeatDb(s.db, x.held.id, x.worker, x.held.executionId, lease, now))
      else s
    case Sweep(now) => SweepSys(s, now)
    case RequestRun(id, now) => RequestRunSys(s, id, now)
    case Extract(exec, calls, result) =>
      var x := s.execs[exec];
      var t := TallyOf(s, x.held.id);
      WithExec(s, exec, x.(work := result))
      .(tally := s.tally[x.held.id := t.(extractorCalls := t.extractorCalls + calls)])
    case LookUpRecord(exec) =>
      var x := s.execs[exec];
      WithExec(s, exec, x.(work := if HasRecord(s.db.records, x.held.id) then Stored else NoRecordSeen))
    case InsertRecord(exec, payload) =>
      var x := s.execs[exec];
      if HasRecord(s.db.records, x.held.id) then
        WithExec(s, exec, x.(work := Conflicted))
      else
        WithExec(s, exec, x.(work := Stored)).(db := AppendRecord(s.db, Some(x.held.id), payload))
    case Complete(exec, now) =>
      var x := s.execs[exec];
      if CanClose(s.db, x.held.id, x.worker, x.held.executionId) then
        WithExec(s, exec, Closed(x, Completion, now))
        .(db := CompleteDb(s.db, x.held.id, x.worker, x.held.executionId, now))
      else s
    case Fail(exec, error, retry, now) =>
      var x := s.execs[exec];
      if CanClose(s.db, x.held.id, x.worker, x.held.executionId) then
        WithExec(s, exec, Closed(x, Surrender(Terminal(x.held, error)), now))
        .(db := FailDb(s.db, x.held, x.worker, error, retry, now))
      else s
  }

  // ---- runs ----

  ghost predicate ValidRun(s: Sys, steps: seq<Step>)
    decreases |steps|
  {
    steps == [] || (Enabled(s, steps[0]) && ValidRun(Apply(s, steps[0]), steps[1..]))
  }

  ghost function Run(s: Sys, steps: seq<Step>): Sys
    requires ValidRun(s, steps)
    decreases |steps|
  {
    if steps == [] then s else Run(Apply(s, steps[0]), steps[1..])
  }

  lemma {:induction false} RunsCompose(s: Sys, first: seq<Step>, rest: seq<Step>)
    requires ValidRun(s, first) && ValidRun(Run(s, first), rest)
    ensures ValidRun(s, first + rest) && Run(s, first + rest) == Run(Run(s, first), rest)
    decreases |first|
  {
    if first == [] {
      assert first + rest == rest;
    } else {
      assert (first + rest)[0] == first[0] && (first + rest)[1..] == first[1..] + rest;
      RunsCompose(Apply(s, first[0]), first[1..], rest);
    }
  }

  // ---- the invariant ----

  /** `reruns` full series of attempts. */
  function Allowance(reruns: nat, maxAttempts: int): int {
    if reruns == 0 then 0 else Allowance(reruns - 1, maxAttempts) + maxAttempts
  }

  /** Row j is leased to execution `exec`, which has not been closed, and both agree on the terms. */
  ghost predicate LeasedTo(s: Sys, j: Job, exec: ExecId) {
    && exec in s.execs
    && var x := s.execs[exec];
       && x.closes == []
       && x.held.id == j.id
       && x.held.attempts == j.attempts
       && j.leaseOwner == Some(x.worker)
       && j.leaseExpiresAt == Some(x.leaseTo)
  }

  /** The lease side of a row: who may hold it, and what it left behind. */
  ghost predicate RowLeased(s: Sys, id: JobId)
    requires id in s.db.jobs
  {
    var j := s.db.jobs[id];
    && j.id == id
    && (j.status != Running ==> j.leaseOwner.None? && j.leaseExpiresAt.None?)
    && (j.status == Running ==> j.executionId.Some? && LeasedTo(s, j, j.executionId.value))
    && (j.status == Completed ==> HasRecord(s.db.records, id))
  }

  /** The count side of a row: its attempts are the claims since the last rerun, and within the limit. */
  ghost predicate RowCounted(s: Sys, id: JobId)
    requires id in s.db.jobs
  {
    var j := s.db.jobs[id];
    var t := TallyOf(s, id);
    && 0 <= j.attempts <= j.maxAttempts
    && 1 <= j.maxAttempts
    && t.sinceRerun == j.attempts
    && t.claims <= Allowance(t.reruns, j.maxAttempts) + j.attempts
    && (j.status == Queued ==> j.attempts < j.maxAttempts)
    && (j.status != Queued ==> j.attempts >= 1)
  }

  ghost predicate RowOk(s: Sys, id: JobId)
    requires id in s.db.jobs
  {
    RowLeased(s, id) && RowCounted(s, id)
  }

  ghost predicate ExecOk(s: Sys, exec: ExecId)
    requires exec in s.execs
  {
    var x := s.execs[exec];
    && x.held.executionId == Some(exec)
    && x.held.id in s.db.jobs
    && x.held.maxAttempts == s.db.jobs[x.held.id].maxAttempts
    && |x.closes| <= 1
    && (x.closes == [] ==> Holds(s, exec))
    && (x.work.Stored? ==> HasRecord(s.db.records, x.held.id))
  }

  /** Fencing and records. This part does not depend on the counts that claims write. */
  ghost predicate Leases(s: Sys) {
    && (forall k :: k in s.db.jobs ==> RowLeased(s, k))
    && (forall e :: e in s.execs ==> ExecOk(s, e))
    && UniqueRecords(s.db.records)
  }

  ghost predicate Counts(s: Sys) {
    forall k :: k in s.db.jobs ==> RowCounted(s, k)
  }

  ghost predicate Inv(s: Sys) {
    Leases(s) && Counts(s)
  }

  lemma InvInit(limit: nat)
    ensures Inv(Start(limit))
  {
  }

  // ---- frames ----

  /** A row that a step leaves alone stays in order as long as its lease does. */
  lemma RowFrame(s: Sys, s': Sys, id: JobId)
    requires id in s.db.jobs && RowLeased(s, id)
    requires id in s'.db.jobs && s'.db.jobs[id] == s.db.jobs[id]
    requires HasRecord(s.db.records, id) ==> HasRecord(s'.db.records, id)
    requires forall e :: e in s.execs && s.execs[e].held.id == id ==>
               e in s'.execs && s'.execs[e] == s.execs[e].(work := s'.execs[e].work)
    ensures RowLeased(s', id)
  {
  }

  /** So does an execution whose own row is left alone. */
  lemma ExecFrame(s: Sys, s': Sys, exec: ExecId)
    requires exec in s.execs && ExecOk(s, exec)
    requires exec in s'.execs && s'.execs[exec] == s.execs[exec]
    requires var id := s.execs[exec].held.id; id in s'.db.jobs && s'.db.jobs[id] == s.db.jobs[id]
    requires var id := s.execs[exec].held.id; HasRecord(s.db.records, id) ==> HasRecord(s'.db.records, id)
    ensures ExecOk(s', exec)
  {
  }

  // ---- new jobs ----

  lemma CreateKeepsLeases(s: Sys, step: Step)
    requires Leases(s) && step.Create? && Enabled(s, step)
    ensures Leases(Apply(s, step))
  {
    var s' := Apply(s, step);
    forall k | k in s'.db.jobs ensures RowLeased(s', k) {
      if k != step.id { assert RowLeased(s, k); }
    }
    forall e | e in s'.execs ensures ExecOk(s', e) {
      assert ExecOk(s, e);
    }
  }

  lemma CreateKeepsCount(s: Sys, step: Step, k: JobId)
    requires Counts(s) && step.Create? && Enabled(s, step) && k in Apply(s, step).db.jobs
    ensures RowCounted(Apply(s, step), k)
  {
    if k != step.id { assert RowCounted(s, k); }
  }

  // ---- claims ----

  /** Whatever count a claim writes, the row and the execution agree on it. */
  lemma ClaimSysKeepsRow(
    s: Sys, id: JobId, readAttempts: int, worker: WorkerId, lease: Time, exec: ExecId, now: Time, k: JobId)
    requires Leases(s) && id in s.db.jobs && exec !in s.execs && k in s.db.jobs
    ensures var s' := ClaimSys(s, id, readAttempts, worker, lease, exec, now);
            k in s'.db.jobs && RowLeased(s', k)
  {
    assert RowLeased(s, k);
  }

  lemma ClaimSysKeepsExec(
    s: Sys, id: JobId, readAttempts: int, worker: WorkerId, lease: Time, exec: ExecId, now: Time, e: ExecId)
    requires Leases(s) && id in s.db.jobs && exec !in s.execs
    requires e in ClaimSys(s, id, readAttempts, worker, lease, exec, now).execs
    ensures ExecOk(ClaimSys(s, id, readAttempts, worker, lease, exec, now), e)
  {
    assert RowLeased(s, id);
    if e != exec { assert ExecOk(s, e); }
  }

  lemma ClaimSysKeepsLeases(
    s: Sys, id: JobId, readAttempts: int, worker: WorkerId, lease: Time, exec: ExecId, now: Time)
    requires Leases(s) && id in s.db.jobs && exec !in s.execs
    ensures Leases(ClaimSys(s, id, readAttempts, worker, lease, exec, now))
  {
    var s' := ClaimSys(s, id, readAttempts, worker, lease, exec, now);
    forall k | k in s'.db.jobs ensures RowLeased(s', k) {
      ClaimSysKeepsRow(s, id, readAttempts, worker, lease, exec, now, k);
    }
    forall e | e in s'.execs ensures ExecOk(s', e) {
      ClaimSysKeepsExec(s, id, readAttempts, worker, lease, exec, now, e);
    }
  }

  lemma ClaimKeepsLeases(s: Sys, step: Step)
    requires Leases(s) && step.Claim? && Enabled(s, step)
    ensures Leases(Apply(s, step))
  {
    ClaimSysKeepsLeases(s, step.id, s.db.jobs[step.id].attempts, step.worker, step.lease, step.exec, step.now);
  }

  lemma ClaimKeepsCount(s: Sys, step: Step, k: JobId)
    requires Counts(s) && step.Claim? && Enabled(s, step) && k in Apply(s, step).db.jobs
    ensures RowCounted(Apply(s, step), k)
  {
    assert RowCounted(s, k);
  }

  // ---- heartbeats ----

  lemma HeartbeatKeepsRow(s: Sys, step: Step, k: JobId)
    requires Leases(s) && step.Heartbeat? && Enabled(s, step) && k in Apply(s, step).db.jobs
    ensures RowLeased(Apply(s, step), k)
  {
    assert ExecOk(s, step.exec);
    assert RowLeased(s, k);
  }

  lemma HeartbeatKeepsExec(s: Sys, step: Step, e: ExecId)
    requires Leases(s) && step.Heartbeat? && Enabled(s, step) && e in Apply(s, step).execs
    ensures ExecOk(Apply(s, step), e)
  {
    assert ExecOk(s, step.exec);
    assert ExecOk(s, e);
    assert RowLeased(s, s.execs[e].held.id);
  }

  lemma HeartbeatKeepsLeases(s: Sys, step: Step)
    requires Leases(s) && step.Heartbeat? && Enabled(s, step)
    ensures Leases(Apply(s, step))
  {
    var s' := Apply(s, step);
    forall k | k in s'.db.jobs ensures RowLeased(s', k) {
      HeartbeatKeepsRow(s, step, k);
    }
    forall e | e in s'.execs ensures ExecOk(s', e) {
      HeartbeatKeepsExec(s, step, e);
    }
  }

  lemma HeartbeatKeepsCount(s: Sys, step: Step, k: JobId)
    requires Counts(s) && step.Heartbeat? && Enabled(s, step) && k in Apply(s, step).db.jobs
    ensures RowCounted(Apply(s, step), k)
  {
    assert RowCounted(s, k);
  }

  // ---- sweeps ----

  lemma SweepKeepsRow(s: Sys, step: Step, k: JobId)
    requires Leases(s) && step.Sweep? && Enabled(s, step) && k in s.db.jobs
    ensures RowLeased(Apply(s, step), k)
  {
    assert RowLeased(s, k);
  }

  lemma SweepKeepsExec(s: Sys, step: Step, e: ExecId)
    requires Leases(s) && step.Sweep? && Enabled(s, step) && e in s.execs
    ensures ExecOk(Apply(s, step), e)
  {
    assert ExecOk(s, e);
    assert RowLeased(s, s.execs[e].held.id);
  }

  lemma SweepKeepsLeases(s: Sys, step: Step)
    requires Leases(s) && step.Sweep? && Enabled(s, step)
    ensures Leases(Apply(s, step))
  {
    var s' := Apply(s, step);
    forall k | k in s'.db.jobs ensures RowLeased(s', k) {
      SweepKeepsRow(s, step, k);
    }
    forall e | e in s'.execs ensures ExecOk(s', e) {
      SweepKeepsExec(s, step, e);
    }
  }

  lemma SweepKeepsCount(s: Sys, step: Step, k: JobId)
    requires Counts(s) && step.Sweep? && Enabled(s, step) && k in Apply(s, step).db.jobs
    ensures RowCounted(Apply(s, step), k)
  {
    assert RowCounted(s, k);
  }

  // ---- run requests ----

  lemma RequestRunKeepsRow(s: Sys, step: Step, k: JobId)
    requires Leases(s) && step.RequestRun? && Enabled(s, step) && k in Apply(s, step).db.jobs
    ensures RowLeased(Apply(s, step), k)
  {
    assert RowLeased(s, step.id);
    assert RowLeased(s, k);
    if k != step.id { RowFrame(s, Apply(s, step), k); }
  }

  lemma RequestRunKeepsExec(s: Sys, step: Step, e: ExecId)
    requires Leases(s) && step.RequestRun? && Enabled(s, step) && e in Apply(s, step).execs
    ensures ExecOk(Apply(s, step), e)
  {
    assert RowLeased(s, step.id);
    assert ExecOk(s, e);
    if s.execs[e].held.id != step.id { ExecFrame(s, Apply(s, step), e); }
  }

  lemma RequestRunKeepsLeases(s: Sys, step: Step)
    requires Leases(s) && step.RequestRun? && Enabled(s, step)
    ensures Leases(Apply(s, step))
  {
    var s' := Apply(s, step);
    forall k | k in s'.db.jobs ensures RowLeased(s', k) {
      RequestRunKeepsRow(s, step, k);
    }
    forall e | e in s'.execs ensures ExecOk(s', e) {
      RequestRunKeepsExec(s, step, e);
    }
  }

  lemma RequestRunKeepsCount(s: Sys, step: Step, k: JobId)
    requires Counts(s) && step.RequestRun? && Enabled(s, step) && k in Apply(s, step).db.jobs
    ensures RowCounted(Apply(s, step), k)
  {
    assert RowCounted(s, step.id);
    assert RowCounted(s, k);
  }

  // ---- work ----

  lemma RecordStepsGrow(s: Sys, step: Step, id: JobId)
    requires (step.Extract? || step.LookUpRecord? || step.InsertRecord?) && Enabled(s, step)
    ensures HasRecord(s.db.records, id) ==> HasRecord(Apply(s, step).db.records, id)
  {
    if step.InsertRecord? && !HasRecord(s.db.records, s.execs[step.exec].held.id) {
      RecordsGrow(s.db.records, Record(Some(s.execs[step.exec].held.id), step.payload), id);
    }
  }

  lemma InsertKeepsUnique(s: Sys, step: Step)
    requires UniqueRecords(s.db.records) && step.InsertRecord? && Enabled(s, step)
    ensures UniqueRecords(Apply(s, step).db.records)
  {
  }

  predicate IsWork(step: Step) {
    step.Extract? || step.LookUpRecord? || step.InsertRecord?
  }

  /** Work changes nothing but how far its execution has come, its job's tally of calls, and the records. */
  lemma WorkEffect(s: Sys, step: Step)
    requires IsWork(step) && Enabled(s, step)
    ensures var s' := Apply(s, step);
            && s'.db.jobs == s.db.jobs && step.exec in s'.execs
            && s'.execs == s.execs[step.exec := s.execs[step.exec].(work := s'.execs[step.exec].work)]
  {
  }

  lemma WorkKeepsTally(s: Sys, step: Step, k: JobId)
    requires IsWork(step) && Enabled(s, step)
    ensures TallyOf(Apply(s, step), k).(extractorCalls := 0) == TallyOf(s, k).(extractorCalls := 0)
  {
  }

  lemma WorkKeepsRow(s: Sys, step: Step, k: JobId)
    requires Leases(s) && IsWork(step) && Enabled(s, step) && k in s.db.jobs
    ensures k in Apply(s, step).db.jobs && RowLeased(Apply(s, step), k)
  {
    WorkEffect(s, step);
    RecordStepsGrow(s, step, k);
    RowFrame(s, Apply(s, step), k);
  }

  lemma StoredHasRecord(s: Sys, step: Step)
    requires IsWork(step) && Enabled(s, step) && Apply(s, step).execs[step.exec].work.Stored?
    ensures HasRecord(Apply(s, step).db.records, s.execs[step.exec].held.id)
  {
    var id := s.execs[step.exec].held.id;
    if step.InsertRecord? {
      RecordsGrow(s.db.records, Record(Some(id), step.payload), id);
    }
  }

  lemma WorkKeepsExec(s: Sys, step: Step, e: ExecId)
    requires Leases(s) && IsWork(step) && Enabled(s, step) && e in s.execs
    ensures e in Apply(s, step).execs && ExecOk(Apply(s, step), e)
  {
    WorkEffect(s, step);
    assert ExecOk(s, e);
    RecordStepsGrow(s, step, s.execs[e].held.id);
    if e != step.exec {
      ExecFrame(s, Apply(s, step), e);
    } else {
      WorkingExecOk(s, step);
    }
  }

  lemma WorkingExecOk(s: Sys, step: Step)
    requires IsWork(step) && Enabled(s, step) && ExecOk(s, step.exec)
    ensures step.exec in Apply(s, step).execs && ExecOk(Apply(s, step), step.exec)
  {
    WorkEffect(s, step);
    if Apply(s, step).execs[step.exec].work.Stored? {
      StoredHasRecord(s, step);
    }
  }

  lemma WorkKeepsLeases(s: Sys, step: Step)
    requires Leases(s) && IsWork(step) && Enabled(s, step)
    ensures Leases(Apply(s, step))
  {
    WorkEffect(s, step);
    if step.InsertRecord? { InsertKeepsUnique(s, step); }
    forall k | k in s.db.jobs ensures RowLeased(Apply(s, step), k) {
      WorkKeepsRow(s, step, k);
    }
    forall e | e in s.execs ensures ExecOk(Apply(s, step), e) {
      WorkKeepsExec(s, step, e);
    }
  }

  ghost predicate Closes(s: Sys, step: Step) {
    (step.Complete? || step.Fail?) && Enabled(s, step) && Holds(s, step.exec)
  }

  /** What a close that takes effect does: it ends the lease of its row and nothing else. */
  ghost predicate CloseOutcome(s: Sys, s': Sys, exec: ExecId)
    requires exec in s.execs
  {
    var id := s.execs[exec].held.id;
    && s'.db.records == s.db.records && s'.tally == s.tally && id in s.db.jobs && exec in s'.execs
    && s'.execs == s.execs[exec := s'.execs[exec]]
    && s'.execs[exec] == s.execs[exec].(closes := s'.execs[exec].closes)
    && |s'.execs[exec].closes| == |s.execs[exec].closes| + 1
    && id in s'.db.jobs && s'.db.jobs == s.db.jobs[id := s'.db.jobs[id]]
    && ClosedRow(s.execs[exec], s.db.jobs[id], s'.db.jobs[id])
  }

  /** Completed only with the record in place, queued only with an attempt left. */
  predicate ClosedRow(x: Execution, row: Job, row': Job) {
    && row'.id == row.id && row'.attempts == row.attempts && row'.maxAttempts == row.maxAttempts
    && row'.leaseOwner.None? && row'.leaseExpiresAt.None?
    && row'.status != Running
    && (row'.status == Queued ==> x.held.attempts < x.held.maxAttempts)
    && (row'.status == Completed ==> x.work.Stored?)
  }

  lemma CompleteEffect(s: Sys, step: Step)
    requires step.Complete? && Closes(s, step) && s.execs[step.exec].held.executionId == Some(step.exec)
    ensures CloseOutcome(s, Apply(s, step), step.exec)
  {
  }

  lemma FailEffect(s: Sys, step: Step)
    requires step.Fail? && Closes(s, step) && s.execs[step.exec].held.executionId == Some(step.exec)
    ensures CloseOutcome(s, Apply(s, step), step.exec)
  {
  }

  lemma CloseEffect(s: Sys, step: Step)
    requires Leases(s) && Closes(s, step)
    ensures CloseOutcome(s, Apply(s, step), step.exec)
    ensures RowLeased(Apply(s, step), s.execs[step.exec].held.id) && ExecOk(Apply(s, step), step.exec)
  {
    assert ExecOk(s, step.exec);
    if step.Complete? { CompleteEffect(s, step); } else { FailEffect(s, step); }
    ClosedStaysOk(s, Apply(s, step), step.exec);
  }

  lemma ClosedStaysOk(s: Sys, s': Sys, exec: ExecId)
    requires Leases(s) && exec in s.execs && Holds(s, exec) && CloseOutcome(s, s', exec)
    ensures RowLeased(s', s.execs[exec].held.id) && ExecOk(s', exec)
  {
    assert ExecOk(s, exec);
    assert RowLeased(s, s.execs[exec].held.id);
  }

  lemma CloseKeepsLeases(s: Sys, step: Step)
    requires Leases(s) && (step.Complete? || step.Fail?) && Enabled(s, step)
    ensures Leases(Apply(s, step))
  {
    assert ExecOk(s, step.exec);
    if Holds(s, step.exec) {
      CloseEffect(s, step);
      CloseSpares(s, Apply(s, step), step.exec);
    }
  }

  /** Closing one execution leaves every other row and execution in order. */
  lemma CloseSpares(s: Sys, s': Sys, exec: ExecId)
    requires Leases(s) && exec in s.execs && Holds(s, exec)
    requires CloseOutcome(s, s', exec) && RowLeased(s', s.execs[exec].held.id) && ExecOk(s', exec)
    ensures Leases(s')
  {
    var id := s.execs[exec].held.id;
    forall k | k in s'.db.jobs ensures RowLeased(s', k) {
      assert RowLeased(s, k);
      if k != id { RowFrame(s, s', k); }
    }
    forall e | e in s'.execs ensures ExecOk(s', e) {
      assert ExecOk(s, e);
      if e != exec && s.execs[e].held.id != id { ExecFrame(s, s', e); }
    }
  }

  lemma WorkKeepsCount(s: Sys, step: Step, k: JobId)
    requires Counts(s) && IsWork(step) && Enabled(s, step) && k in Apply(s, step).db.jobs
    ensures RowCounted(Apply(s, step), k)
  {
    WorkEffect(s, step);
    WorkKeepsTally(s, step, k);
    assert RowCounted(s, k);
  }

  lemma CloseKeepsCount(s: Sys, step: Step, k: JobId)
    requires Inv(s) && (step.Complete? || step.Fail?) && Enabled(s, step) && k in Apply(s, step).db.jobs
    ensures RowCounted(Apply(s, step), k)
  {
    assert ExecOk(s, step.exec);
    if Holds(s, step.exec) {
      CloseEffect(s, step);
      assert RowLeased(s, s.execs[step.exec].held.id);
      CountOfClose(s, Apply(s, step), step.exec, k);
    } else {
      assert RowCounted(s, k);
    }
  }

  lemma CountOfClose(s: Sys, s': Sys, exec: ExecId, k: JobId)
    requires Counts(s) && exec in s.execs && CloseOutcome(s, s', exec) && k in s'.db.jobs
    requires var x := s.execs[exec];
             && s.db.jobs[x.held.id].status == Running && x.held.attempts == s.db.jobs[x.held.id].attempts
             && x.held.maxAttempts == s.db.jobs[x.held.id].maxAttempts
    ensures RowCounted(s', k)
  {
    assert RowCounted(s, k);
  }

  // ---- all steps ----

  /** Fencing is kept by every step, whatever the counts in the rows. */
  lemma StepKeepsLeases(s: Sys, step: Step)
    requires Leases(s) && Enabled(s, step)
    ensures Leases(Apply(s, step))
  {
    match step
    case Create(_, _, _, _) => CreateKeepsLeases(s, step);
    case Claim(_, _, _, _, _) => ClaimKeepsLeases(s, step);
    case Heartbeat(_, _, _) => HeartbeatKeepsLeases(s, step);
    case Sweep(_) => SweepKeepsLeases(s, step);
    case RequestRun(_, _) => RequestRunKeepsLeases(s, step);
    case Complete(_, _) => CloseKeepsLeases(s, step);
    case Fail(_, _, _, _) => CloseKeepsLeases(s, step);
    case _ => WorkKeepsLeases(s, step);
  }

  lemma StepKeepsCount(s: Sys, step: Step, k: JobId)
    requires Inv(s) && Enabled(s, step) && k in Apply(s, step).db.jobs
    ensures RowCounted(Apply(s, step), k)
  {
    match step
    case Create(_, _, _, _) => CreateKeepsCount(s, step, k);
    case Claim(_, _, _, _, _) => ClaimKeepsCount(s, step, k);
    case Heartbeat(_, _, _) => HeartbeatKeepsCount(s, step, k);
    case Sweep(_) => SweepKeepsCount(s, step, k);
    case RequestRun(_, _) => RequestRunKeepsCount(s, step, k);
    case Complete(_, _) => CloseKeepsCount(s, step, k);
    case Fail(_, _, _, _) => CloseKeepsCount(s, step, k);
    case _ => WorkKeepsCount(s, step, k);
  }

  lemma StepKeepsInv(s: Sys, step: Step)
    requires Inv(s) && Enabled(s, step)
    ensures Inv(Apply(s, step))
  {
    StepKeepsLeases(s, step);
    forall k | k in Apply(s, step).db.jobs ensures RowCounted(Apply(s, step), k) {
      StepKeepsCount(s, step, k);
    }
  }

  lemma {:induction false} RunKeepsLeases(s: Sys, steps: seq<Step>)
    requires Leases(s) && ValidRun(s, steps)
    ensures Leases(Run(s, steps))
    decreases |steps|
  {
    if steps != [] {
      StepKeepsLeases(s, steps[0]);
      RunKeepsLeases(Apply(s, steps[0]), steps[1..]);
    }
  }

  lemma {:induction false} RunKeepsInv(s: Sys, steps: seq<Step>)
    requires Inv(s) && ValidRun(s, steps)
    ensures Inv(Run(s, steps))
    decreases |steps|
  {
    if steps != [] {
      StepKeepsInv(s, steps[0]);
      RunKeepsInv(Apply(s, steps[0]), steps[1..]);
    }
  }

  // ---- what never changes back ----

  ghost predicate LaterRow(s: Sys, s': Sys, k: JobId)
    requires k in s.db.jobs
  {
    && k in s'.db.jobs
    && s'.db.jobs[k].maxAttempts == s.db.jobs[k].maxAttempts
    && s'.db.jobs[k].createdAt == s.db.jobs[k].createdAt
    && (s.db.jobs[k].status == Completed ==> s'.db.jobs[k] == s.db.jobs[k])
  }

  ghost predicate LaterExec(s: Sys, s': Sys, e: ExecId)
    requires e in s.execs
  {
    && e in s'.execs
    && s'.execs[e].held == s.execs[e].held
    && s'.execs[e].worker == s.execs[e].worker
    && s.execs[e].closes <= s'.execs[e].closes
  }

  /** What every later state of the system still agrees with. */
  ghost predicate Later(s: Sys, s': Sys) {
    && (forall k :: k in s.db.jobs ==> LaterRow(s, s', k))
    && (forall e :: e in s.execs ==> LaterExec(s, s', e))
    && s.db.records <= s'.db.records
    && s.db.audit <= s'.db.audit
    && s'.extractionLimit == s.extractionLimit
  }

  lemma StepIsLaterRow(s: Sys, step: Step, k: JobId)
    requires Enabled(s, step) && k in s.db.jobs
    ensures LaterRow(s, Apply(s, step), k)
  {
  }

  lemma StepIsLaterExec(s: Sys, step: Step, e: ExecId)
    requires Enabled(s, step) && e in s.execs
    ensures LaterExec(s, Apply(s, step), e)
  {
  }

  lemma StepIsLater(s: Sys, step: Step)
    requires Enabled(s, step)
    ensures Later(s, Apply(s, step))
  {
    forall k | k in s.db.jobs ensures LaterRow(s, Apply(s, step), k) {
      StepIsLaterRow(s, step, k);
    }
    forall e | e in s.execs ensures LaterExec(s, Apply(s, step), e) {
      StepIsLaterExec(s, step, e);
    }
  }

  lemma LaterIsTransitive(a: Sys, b: Sys, c: Sys)
    requires Later(a, b) && Later(b, c)
    ensures Later(a, c)
  {
    forall k | k in a.db.jobs ensures LaterRow(a, c, k) {
      assert LaterRow(a, b, k) && LaterRow(b, c, k);
    }
    forall e | e in a.execs ensures LaterExec(a, c, e) {
      assert LaterExec(a, b, e) && LaterExec(b, c, e);
    }
  }

  lemma {:induction false} RunIsLater(s: Sys, steps: seq<Step>)
    requires ValidRun(s, steps)
    ensures Later(s, Run(s, steps))
    decreases |steps|
  {
    if steps != [] {
      StepIsLater(s, steps[0]);
      RunIsLater(Apply(s, steps[0]), steps[1..]);
      LaterIsTransitive(s, Apply(s, steps[0]), Run(s, steps));
    }
  }
}
