/**
 * The rows of the job queue and what each database statement of app/workers/durable.py and
 * app/db/repositories.py does to them, as functions from one database value to the next.
 * The imperative operations (module Store) are proved against these functions, and the protocol
 * (module Protocol) is built from them.
 */
module Jobs {
  import opened Wrappers
  import opened Backoff

  type JobId = nat        // a uuid4 value
  type ExecId = nat       // a uuid4 value, drawn afresh by every claim
  type WorkerId = string
  type Time = real        // an instant, or a duration in seconds

  datatype Status = Queued | Running | Completed | Failed

  function AllowedTransitions(status: Status): set<Status> {
    match status
    case Queued => {Running}
    case Running => {Queued, Completed, Failed}
    case Completed => {}
    case Failed => {}
  }

  datatype Job = Job(
    id: JobId,
    status: Status,
    attempts: int,
    maxAttempts: int,
    nextRunAt: Time,
    createdAt: Time,
    updatedAt: Time,
    startedAt: Option<Time>,
    completedAt: Option<Time>,
    failedAt: Option<Time>,
    leaseOwner: Option<WorkerId>,
    leaseExpiresAt: Option<Time>,
    executionId: Option<ExecId>,
    errorMessage: Option<string>)

  /** An extracted record. Only `job_id` matters for uniqueness; the payload is opaque. */
  datatype Record = Record(jobId: Option<JobId>, payload: string)

  datatype AuditEntry =
    | JobCreated(job: JobId)
    | RunRequested(job: JobId)
    | StatusUpdated(job: JobId, status: Status, execution: Option<ExecId>)
    | RecordExtracted(source: Option<JobId>)

  datatype Db = Db(jobs: map<JobId, Job>, audit: seq<AuditEntry>, records: seq<Record>)

  // ---- selecting a job ----

  predicate Eligible(j: Job, now: Time) {
    && j.status == Queued
    && j.nextRunAt <= now
    && (j.leaseExpiresAt.None? || j.leaseExpiresAt.value < now)
  }

  /** ORDER BY next_run_at, created_at. */
  predicate KeyLeq(a: Job, b: Job) {
    a.nextRunAt < b.nextRunAt || (a.nextRunAt == b.nextRunAt && a.createdAt <= b.createdAt)
  }

  /** `id` is a row the candidate query may return at `now`; ties in the key are broken arbitrarily. */
  predicate IsNext(jobs: map<JobId, Job>, id: JobId, now: Time) {
    && id in jobs
    && Eligible(jobs[id], now)
    && forall k :: k in jobs && Eligible(jobs[k], now) ==> KeyLeq(jobs[id], jobs[k])
  }

  // ---- what one UPDATE writes into one row ----

  function NewJob(id: JobId, maxAttempts: int, nextRunAt: Time, createdAt: Time): Job {
    Job(id, Queued, 0, maxAttempts, nextRunAt, createdAt, createdAt,
        None, None, None, None, None, None, None)
  }

  /** The claim writes the attempt count of an earlier read plus one, not the row's own. */
  function Claimed(j: Job, readAttempts: int, worker: WorkerId, lease: Time, exec: ExecId, now: Time): Job {
    j.(status := Running,
       attempts := readAttempts + 1,
       startedAt := Some(now),
       leaseOwner := Some(worker),
       leaseExpiresAt := Some(now + lease),
       executionId := Some(exec),
       errorMessage := None,
       updatedAt := now)
  }

  function Extended(j: Job, lease: Time, now: Time): Job {
    j.(leaseExpiresAt := Some(now + lease), updatedAt := now)
  }

  function Recovered(j: Job, now: Time): Job {
    j.(status := Queued, nextRunAt := now, leaseOwner := None, leaseExpiresAt := None,
       executionId := None, errorMessage := Some("Worker lease expired; job recovered."),
       updatedAt := now)
  }

  function TimedOut(j: Job, now: Time): Job {
    j.(status := Failed, failedAt := Some(now), leaseOwner := None, leaseExpiresAt := None,
       executionId := None,
       errorMessage := Some("Worker lease expired after the maximum number of attempts."),
       updatedAt := now)
  }

  /** `request_job_run` on a queued or failed row; only a failed one starts a new series of attempts. */
  function Requested(j: Job, now: Time): Job {
    var reset := if j.status == Failed then j.(status := Queued, failedAt := None, attempts := 0) else j;
    reset.(nextRunAt := now, errorMessage := None, leaseOwner := None, leaseExpiresAt := None,
           executionId := None, updatedAt := now)
  }

  function Finished(j: Job, now: Time): Job {
    j.(status := Completed, completedAt := Some(now), leaseOwner := None, leaseExpiresAt := None,
       updatedAt := now)
  }

  function GivenUp(j: Job, message: string, now: Time): Job {
    j.(status := Failed, failedAt := Some(now), errorMessage := Some(message), leaseOwner := None,
       leaseExpiresAt := None, updatedAt := now)
  }

  function Rescheduled(j: Job, message: string, delay: Time, now: Time): Job {
    j.(status := Queued, nextRunAt := now + delay, errorMessage := Some(message), leaseOwner := None,
       leaseExpiresAt := None, updatedAt := now)
  }

  // ---- the WHERE clauses ----

  /** The fence of `complete_job` and `fail_job`: the lease's expiry time plays no part in it. */
  predicate Fenced(j: Job, worker: WorkerId, exec: Option<ExecId>) {
    j.status == Running && j.leaseOwner == Some(worker) && j.executionId == exec
  }

  predicate Expired(j: Job, now: Time) {
    j.status == Running && j.leaseExpiresAt.Some? && j.leaseExpiresAt.value < now
  }

  // ---- errors ----

  /** The exception classes `run_once` tells apart. */
  datatype ErrorKind = PipelineError | PipelineInputError | ValueError | OtherError

  datatype WorkError = WorkError(kind: ErrorKind, message: string)

  predicate Retryable(error: WorkError) {
    error.kind == OtherError
  }

  datatype RunRequestError = AlreadyCompleted | AlreadyRunning

  datatype RetrySettings = RetrySettings(base: Time, maximum: Time)

  // ---- whole operations ----

  function CreateDb(db: Db, id: JobId, maxAttempts: int, nextRunAt: Time, createdAt: Time): Db {
    db.(jobs := db.jobs[id := NewJob(id, maxAttempts, nextRunAt, createdAt)],
        audit := db.audit + [JobCreated(id)])
  }

  /** The conditional UPDATE of a claim whose candidate was read with `readAttempts`. */
  function ClaimDb(db: Db, id: JobId, readAttempts: int, worker: WorkerId, lease: Time, exec: ExecId, now: Time): Db {
    if id in db.jobs && Eligible(db.jobs[id], now) then
      db.(jobs := db.jobs[id := Claimed(db.jobs[id], readAttempts, worker, lease, exec, now)])
    else
      db
  }

  predicate CanExtend(db: Db, id: JobId, worker: WorkerId, exec: Option<ExecId>, now: Time) {
    && id in db.jobs
    && Fenced(db.jobs[id], worker, exec)
    && db.jobs[id].leaseExpiresAt.Some?
    && db.jobs[id].leaseExpiresAt.value >= now
  }

  function HeartbeatDb(db: Db, id: JobId, worker: WorkerId, exec: Option<ExecId>, lease: Time, now: Time): Db {
    if CanExtend(db, id, worker, exec, now) then
      db.(jobs := db.jobs[id := Extended(db.jobs[id], lease, now)])
    else
      db
  }

  /** What a sweep makes of one row. */
  function Swept(j: Job, now: Time): Job {
    if !Expired(j, now) then j
    else if j.attempts < j.maxAttempts then Recovered(j, now)
    else TimedOut(j, now)
  }

  function SweepDb(db: Db, now: Time): Db {
    db.(jobs := map k | k in db.jobs :: Swept(db.jobs[k], now))
  }

  function RequestRunDb(db: Db, id: JobId, now: Time): Db
    requires id in db.jobs
  {
    if db.jobs[id].status == Completed || db.jobs[id].status == Running then db
    else db.(jobs := db.jobs[id := Requested(db.jobs[id], now)], audit := db.audit + [RunRequested(id)])
  }

  predicate CanClose(db: Db, id: JobId, worker: WorkerId, exec: Option<ExecId>) {
    id in db.jobs && Fenced(db.jobs[id], worker, exec)
  }

  function CompleteDb(db: Db, id: JobId, worker: WorkerId, exec: Option<ExecId>, now: Time): Db {
    if CanClose(db, id, worker, exec) then
      db.(jobs := db.jobs[id := Finished(db.jobs[id], now)],
          audit := db.audit + [StatusUpdated(id, Completed, exec)])
    else
      db
  }

  /** `held` is the worker's own copy of the row, taken when it claimed the job. */
  predicate Terminal(held: Job, error: WorkError) {
    !Retryable(error) || held.attempts >= held.maxAttempts
  }

  function FailDb(db: Db, held: Job, worker: WorkerId, error: WorkError, retry: RetrySettings, now: Time): Db {
    if !CanClose(db, held.id, worker, held.executionId) then db
    else
      var row := db.jobs[held.id];
      if Terminal(held, error) then
        db.(jobs := db.jobs[held.id := GivenUp(row, error.message, now)],
            audit := db.audit + [StatusUpdated(held.id, Failed, held.executionId)])
      else
        var delay := RetryDelay(held.attempts, retry.base, retry.maximum);
        db.(jobs := db.jobs[held.id := Rescheduled(row, error.message, delay, now)],
            audit := db.audit + [StatusUpdated(held.id, Queued, held.executionId)])
  }

  // ---- extracted records ----

  ghost predicate HasRecord(records: seq<Record>, id: JobId) {
    exists i :: 0 <= i < |records| && records[i].jobId == Some(id)
  }

  /** The unique index on `job_id`; rows without a job are not constrained. */
  ghost predicate UniqueRecords(records: seq<Record>) {
    forall i, j :: 0 <= i < j < |records| && records[i].jobId.Some? ==> records[i].jobId != records[j].jobId
  }

  function AppendRecord(db: Db, jobId: Option<JobId>, payload: string): Db {
    db.(records := db.records + [Record(jobId, payload)], audit := db.audit + [RecordExtracted(jobId)])
  }

  lemma RecordsGrow(records: seq<Record>, r: Record, id: JobId)
    ensures HasRecord(records + [r], id) <==> HasRecord(records, id) || r.jobId == Some(id)
  {
    var grown := records + [r];
    assert grown[|records|] == r;
    if HasRecord(records, id) {
      var i :| 0 <= i < |records| && records[i].jobId == Some(id);
      assert grown[i].jobId == Some(id);
    }
  }

  /** What another worker's insert between two statements leaves behind; the unique index may refuse it. */
  ghost function Interfered(db: Db, rival: Option<Record>): Db {
    if rival.None? || (rival.value.jobId.Some? && HasRecord(db.records, rival.value.jobId.value)) then db
    else AppendRecord(db, rival.value.jobId, rival.value.payload)
  }

  // ---- the default handler as the protocol sees it ----

  /**
   * How far the handler has come: extraction, then the record lookup, then the insert. Extraction that does
   * not yield a payload has failed if the pipeline catches the error, and is interrupted otherwise.
   */
  datatype Work = Fresh | Extracted | ExtractionFailed | Interrupted | NoRecordSeen | Stored | Conflicted

  predicate EndsExtraction(work: Work) {
    work.Extracted? || work.ExtractionFailed? || work.Interrupted?
  }

  /** The errors the handler can end in at this point; module Worker proves it of the handler. */
  predicate MayRaise(work: Work, error: WorkError) {
    && (work.ExtractionFailed? ==> error.kind == PipelineError)
    && (work.Conflicted? ==> error.kind == OtherError)
  }
}
