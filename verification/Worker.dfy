/**
 * One poll of a worker: app/workers/document_jobs.py around app/pipeline/document_pipeline.py. While it
 * works, its heartbeats and other workers' sweeps reach the table, and a rival may store the job's record.
 */
module Worker {
  import opened Wrappers
  import opened Backoff
  import opened Jobs
  import opened Store
  import opened Retry
  import Json

  /** A row of the extraction error log. */
  datatype ErrorRow = ErrorRow(stage: string, message: string, retryable: bool, attempt: int)

  datatype Settings = Settings(
    leaseSeconds: Time,
    retry: RetrySettings,
    extractionMaxAttempts: int,
    extractionRetryBase: real)

  type Extractor = nat -> Attempt<string, WorkError>

  /** What stops the handler: `Refused` is raised before the pipeline's `try` block, the others inside it. */
  datatype StageError =
    | Refused(error: WorkError)
    | ParserFault(message: string)
    | Exhaustion(attempts: int, cause: string)
    | OtherRaised(error: WorkError)

  /**
   * What the outside world does to one document: the input check, the parser, the extractor call by call,
   * another worker's insert between record lookup and insert, and the validation insert.
   */
  datatype Document = Document(
    input: Option<WorkError>,
    parse: Option<StageError>,
    extractor: Extractor,
    rival: Option<Record>,
    validation: Option<WorkError>)

  // ---- the error log ----

  function MessageOf(attempt: Attempt<string, WorkError>): string {
    if attempt.RaisesRetryable? then attempt.message else ""
  }

  /** The rows of the first n attempts, each of them to be retried. */
  function RetriedRows(extractor: Extractor, n: nat): (rows: seq<ErrorRow>)
    ensures |rows| == n
    ensures forall i :: 0 <= i < n ==> rows[i] == ErrorRow("extract", MessageOf(extractor(i + 1)), true, i + 1)
  {
    seq(n, i requires 0 <= i < n => ErrorRow("extract", MessageOf(extractor(i + 1)), true, i + 1))
  }

  /** The row the `except` block writes, if it catches the exception. */
  function CaughtRows(e: StageError): seq<ErrorRow> {
    match e
    case Refused(_) => []
    case ParserFault(message) => [ErrorRow("parse", message, false, 1)]
    case Exhaustion(attempts, cause) => [ErrorRow("extract", cause, false, attempts)]
    case OtherRaised(error) => if error.kind == ValueError then [ErrorRow("extract", error.message, false, 1)] else []
  }

  /** What the pipeline raises for it: whatever it catches becomes a PipelineError. */
  function Rethrown(e: StageError): WorkError {
    match e
    case Refused(error) => error
    case ParserFault(message) => WorkError(PipelineError, message)
    case Exhaustion(attempts, cause) =>
      WorkError(PipelineError, "Operation failed after " + Json.IntText(attempts) + " attempts: " + cause)
    case OtherRaised(error) => if error.kind == ValueError then WorkError(PipelineError, error.message) else error
  }

  /**
   * The row `run_once` writes for an error that the pipeline did not. `closed` says whether the fence let the
   * close through: a terminal failure that it kept out is reported as retryable.
   */
  function WorkerRows(held: Job, failure: Option<WorkError>, closed: bool): seq<ErrorRow> {
    if failure.None? || failure.value.kind == PipelineError || failure.value.kind == PipelineInputError then []
    else [ErrorRow("worker", failure.value.message, !(Terminal(held, failure.value) && closed), held.attempts)]
  }

  // ---- extraction ----

  /** The first attempt that does not end in a retryable error is number k, within the limit. */
  ghost predicate StopsAt(extractor: Extractor, limit: int, k: nat) {
    1 <= k <= limit && AllRetryable(extractor, k - 1) && !extractor(k).RaisesRetryable?
  }

  /** What extraction comes to: the answer of the first attempt that stops the loop, or exhaustion. */
  ghost predicate Extraction(document: Document, limit: int, r: Result<string, StageError>, rows: seq<ErrorRow>) {
    && (forall k: nat | StopsAt(document.extractor, limit, k) ::
          && rows == RetriedRows(document.extractor, k - 1)
          && r == match document.extractor(k)
                  case Returns(payload) => Success(payload)
                  case RaisesOther(error) => Failure(OtherRaised(error)))
    && (limit >= 1 && AllRetryable(document.extractor, limit) ==>
          && rows == RetriedRows(document.extractor, limit - 1)
          && r == Failure(Exhaustion(limit, MessageOf(document.extractor(limit)))))
    && (limit < 1 ==> rows == [] && r == Failure(Exhaustion(limit, NO_ATTEMPTS)))
    && (r.Success? ==> exists k: nat :: StopsAt(document.extractor, limit, k))
  }

  lemma RowsOfRetries(extractor: Extractor, retries: seq<RetryCall>, base: real)
    requires CallbacksOf(retries, extractor, base)
    ensures RowsFor(retries) == RetriedRows(extractor, |retries|)
  {
  }

  /** What `record_retry` writes. */
  function RowsFor(retries: seq<RetryCall>): (rows: seq<ErrorRow>)
    ensures |rows| == |retries|
    ensures forall i :: 0 <= i < |rows| ==>
              rows[i] == ErrorRow("extract", retries[i].message, true, retries[i].attempt)
  {
    seq(|retries|, i requires 0 <= i < |retries| => ErrorRow("extract", retries[i].message, true, retries[i].attempt))
  }

  /** The stages up to the extracted payload; `rows` are those of the attempts that were retried. */
  method ExtractDocument(document: Document, settings: Settings)
    returns (r: Result<string, StageError>, rows: seq<ErrorRow>, calls: nat)
    ensures calls <= if settings.extractionMaxAttempts > 0 then settings.extractionMaxAttempts else 0
    ensures document.parse.Some? ==> calls == 0 && rows == [] && r == Failure(document.parse.value)
    ensures document.parse.None? ==> Extraction(document, settings.extractionMaxAttempts, r, rows)
  {
    if document.parse.Some? {
      return Failure(document.parse.value), [], 0;
    }
    var limit := settings.extractionMaxAttempts;
    var outcome, n, retries, _ := RetryAsync(document.extractor, limit, settings.extractionRetryBase);
    RowsOfRetries(document.extractor, retries, settings.extractionRetryBase);
    calls, rows := n, RowsFor(retries);
    match outcome {
      case Returned(payload) =>
        assert StopsAt(document.extractor, limit, n);
        r := Success(payload);
      case Exhausted(attempts, cause) =>
        r := Failure(Exhaustion(attempts, cause));
      case Raised(error) =>
        assert StopsAt(document.extractor, limit, n);
        r := Failure(OtherRaised(error));
    }
    forall k: nat | StopsAt(document.extractor, limit, k) ensures n == k && !outcome.Exhausted? {
    }
  }

  // ---- the default handler ----

  /** What the handler went through; `work` is how far it came in the terms of the protocol. */
  datatype Trace = Trace(
    extraction: Result<string, StageError>,
    retried: seq<ErrorRow>,
    calls: nat,
    fault: Option<StageError>,
    work: Work)

  function FailureOf(trace: Trace): Option<WorkError> {
    if trace.fault.Some? then Some(Rethrown(trace.fault.value)) else None
  }

  function RowsOf(trace: Trace): seq<ErrorRow> {
    trace.retried + if trace.fault.Some? then CaughtRows(trace.fault.value) else []
  }

  function RaisedBy(validation: Option<WorkError>): Option<StageError> {
    if validation.Some? then Some(OtherRaised(validation.value)) else None
  }

  function StoppedAt(e: StageError): Work {
    if Rethrown(e).kind == PipelineError then ExtractionFailed else Interrupted
  }

  /** Storing the payload: a record found is kept, a rival's record is a conflict, else the payload is stored. */
  ghost predicate Storing(document: Document, payload: string, before: Db, after: Db, job: JobId, trace: Trace) {
    if HasRecord(before.records, job) then
      after == before && trace.fault == RaisedBy(document.validation) && trace.work == Stored
    else if document.rival.Some? && document.rival.value.jobId == Some(job) then
      && after == Interfered(before, document.rival)
      && trace.fault == Some(OtherRaised(INTEGRITY_ERROR)) && trace.work == Conflicted
    else
      && after == AppendRecord(Interfered(before, document.rival), Some(job), payload)
      && trace.fault == RaisedBy(document.validation) && trace.work == Stored
  }

  /** The handler took `before` to `after` for the document, and this is its trace. */
  ghost predicate Handled(document: Document, limit: int, before: Db, after: Db, job: JobId, trace: Trace) {
    && trace.calls <= (if limit > 0 then limit else 0)
    && if document.input.Some? then
         after == before && trace == Trace(Failure(Refused(document.input.value)), [], 0,
                                           Some(Refused(document.input.value)), Fresh)
       else if document.parse.Some? then
         after == before && trace == Trace(Failure(document.parse.value), [], 0, document.parse, Fresh)
       else
         && Extraction(document, limit, trace.extraction, trace.retried)
         && match trace.extraction
            case Failure(e) => after == before && trace.fault == Some(e) && trace.work == StoppedAt(e)
            case Success(payload) => Storing(document, payload, before, after, job, trace)
  }

  /** The handler ends only in errors the protocol allows for, and without one only with the job's record in place. */
  lemma HandlerFitsProtocol(
    document: Document, limit: int, before: Db, after: Db, job: JobId, trace: Trace)
    requires Handled(document, limit, before, after, job, trace)
    ensures trace.fault.Some? ==> MayRaise(trace.work, FailureOf(trace).value)
    ensures trace.fault.None? ==> trace.work.Stored?
    ensures trace.work.Stored? || trace.work.Conflicted? ==> HasRecord(after.records, job)
    ensures after.jobs == before.jobs
  {
    if document.input.None? && document.parse.None? && trace.extraction.Success? {
      StoringLeavesRecord(document, trace.extraction.value, before, after, job, trace);
    }
  }

  lemma StoringLeavesRecord(
    document: Document, payload: string, before: Db, after: Db, job: JobId, trace: Trace)
    requires Storing(document, payload, before, after, job, trace)
    ensures HasRecord(after.records, job)
  {
    if !HasRecord(before.records, job) {
      RivalDecides(before, document.rival, job);
      RecordsGrow(Interfered(before, document.rival).records, Record(Some(job), payload), job);
    }
  }

  /**
   * An exhausted extraction of n attempts logs n - 1 retryable rows, one for each attempt but the last, and a
   * final row that is not retryable; it stores nothing and fails in a way that is never retried.
   */
  lemma ExhaustionIsFinal(
    document: Document, limit: int, before: Db, after: Db, job: JobId, trace: Trace)
    requires Handled(document, limit, before, after, job, trace)
    requires document.input.None? && document.parse.None? && limit >= 1 && AllRetryable(document.extractor, limit)
    ensures after == before && trace.work == ExtractionFailed
    ensures trace.fault.Some? && !Retryable(FailureOf(trace).value)
    ensures |RowsOf(trace)| == limit
    ensures forall i :: 0 <= i < limit ==>
              RowsOf(trace)[i] == ErrorRow("extract", MessageOf(document.extractor(i + 1)), i + 1 < limit, i + 1)
  {
  }

  /**
   * A payload extracted for a job that had no record conflicts exactly when a rival stored the job's record
   * first. The conflict escapes the pipeline unlogged, and the worker takes it for a retryable error.
   */
  lemma ConflictEscapes(
    document: Document, limit: int, before: Db, after: Db, job: JobId, trace: Trace, held: Job)
    requires Handled(document, limit, before, after, job, trace)
    requires document.input.None? && document.parse.None? && trace.extraction.Success?
    requires !HasRecord(before.records, job)
    ensures trace.work.Conflicted? <==> document.rival.Some? && document.rival.value.jobId == Some(job)
    ensures trace.work.Conflicted? ==>
              && FailureOf(trace) == Some(INTEGRITY_ERROR) && Retryable(INTEGRITY_ERROR)
              && RowsOf(trace) == trace.retried
              && after == AppendRecord(before, Some(job), document.rival.value.payload)
              && |WorkerRows(held, FailureOf(trace), true)| == 1
  {
  }

  // ---- one poll ----

  /** What reaches the table while the handler works: a beat of the worker's heartbeat, or another worker's sweep. */
  datatype Disturbance = Beat(now: Time) | Strike(now: Time)

  /** The heartbeat task ends with the first beat that fails; `beating` says that it has not. */
  function Disturbed(
    db: Db, held: Job, worker: WorkerId, lease: Time, beating: bool, during: seq<Disturbance>): Db
    decreases |during|
  {
    if during == [] then db
    else
      match during[0]
      case Strike(now) => Disturbed(SweepDb(db, now), held, worker, lease, beating, during[1..])
      case Beat(now) =>
        if beating then
          Disturbed(HeartbeatDb(db, held.id, worker, held.executionId, lease, now), held, worker, lease,
                    CanExtend(db, held.id, worker, held.executionId, now), during[1..])
        else Disturbed(db, held, worker, lease, false, during[1..])
  }

  /** The expiry of the worker's lease in the end, or `None` once a sweep has found it expired. */
  function LeaseAfter(expiry: Time, lease: Time, beating: bool, during: seq<Disturbance>): Option<Time>
    decreases |during|
  {
    if during == [] then Some(expiry)
    else
      match during[0]
      case Strike(now) => if expiry < now then None else LeaseAfter(expiry, lease, beating, during[1..])
      case Beat(now) =>
        if beating && now <= expiry then LeaseAfter(now + lease, lease, true, during[1..])
        else LeaseAfter(expiry, lease, false, during[1..])
  }

  /** What the sweeps make of a row that the worker does not hold. */
  function SweptThrough(j: Job, during: seq<Disturbance>): Job
    decreases |during|
  {
    if during == [] then j
    else SweptThrough(if during[0].Strike? then Swept(j, during[0].now) else j, during[1..])
  }

  /** The instants of one poll. */
  datatype Times = Times(sweep: Time, claim: Time, during: seq<Disturbance>, close: Time)

  function CloseDb(
    db: Db, held: Job, worker: WorkerId, failure: Option<WorkError>, retry: RetrySettings, now: Time): Db
  {
    if failure.None? then CompleteDb(db, held.id, worker, held.executionId, now)
    else FailDb(db, held, worker, failure.value, retry, now)
  }

  datatype Poll = Poll(worker: WorkerId, settings: Settings, exec: ExecId, times: Times, document: Document)

  /** The table after the poll's sweep and its claim of `job`. */
  function ClaimedDb(poll: Poll, before: Db, job: JobId): Db {
    var swept := SweepDb(before, poll.times.sweep);
    if job in swept.jobs then
      ClaimDb(swept, job, swept.jobs[job].attempts, poll.worker, poll.settings.leaseSeconds, poll.exec,
              poll.times.claim)
    else swept
  }

  /** The poll claimed `job`, ran the handler and closed the job as far as its fence let it. */
  ghost predicate Polled(poll: Poll, before: Db, after: Db, job: JobId, worked: Db, trace: Trace) {
    var claimed := ClaimedDb(poll, before, job);
    && IsNext(SweepDb(before, poll.times.sweep).jobs, job, poll.times.claim)
    && job in claimed.jobs
    && Handled(poll.document, poll.settings.extractionMaxAttempts, claimed, worked, job, trace)
    && after == CloseDb(Meanwhile(poll, worked, claimed.jobs[job]), claimed.jobs[job], poll.worker, FailureOf(trace),
                        poll.settings.retry, poll.times.close)
  }

  function Meanwhile(poll: Poll, worked: Db, held: Job): Db {
    Disturbed(worked, held, poll.worker, poll.settings.leaseSeconds, true, poll.times.during)
  }

  /** Some sweep of another worker found the lease expired, its heartbeats notwithstanding. */
  predicate Lost(poll: Poll) {
    LeaseAfter(poll.times.claim + poll.settings.leaseSeconds, poll.settings.leaseSeconds, true,
               poll.times.during).None?
  }

  /** The error rows of the poll. */
  ghost function PollRows(poll: Poll, before: Db, job: JobId, trace: Trace): seq<ErrorRow> {
    var claimed := ClaimedDb(poll, before, job);
    RowsOf(trace) + if job in claimed.jobs then WorkerRows(claimed.jobs[job], FailureOf(trace), !Lost(poll)) else []
  }

  ghost predicate RowsById(db: Db) {
    forall k :: k in db.jobs ==> db.jobs[k].id == k
  }

  lemma ClaimedRow(poll: Poll, before: Db, job: JobId)
    requires RowsById(before) && IsNext(SweepDb(before, poll.times.sweep).jobs, job, poll.times.claim)
    ensures var swept, claimed := SweepDb(before, poll.times.sweep), ClaimedDb(poll, before, job);
            && claimed.jobs.Keys == before.jobs.Keys
            && (forall k :: k in before.jobs && k != job ==> claimed.jobs[k] == swept.jobs[k])
            && claimed.jobs[job].id == job
            && Fenced(claimed.jobs[job], poll.worker, Some(poll.exec))
            && claimed.jobs[job].leaseExpiresAt == Some(poll.times.claim + poll.settings.leaseSeconds)
            && claimed.jobs[job].attempts == swept.jobs[job].attempts + 1
            && claimed.jobs[job].maxAttempts == swept.jobs[job].maxAttempts
  {
  }

  /** The row is still the one the worker claimed, its lease perhaps extended. */
  predicate StillHeld(row: Job, held: Job, expiry: Time) {
    row == held.(leaseExpiresAt := Some(expiry), updatedAt := row.updatedAt)
  }

  /** Every disturbance leaves the worker's row held exactly as long as no sweep finds the lease expired. */
  lemma {:induction false} DisturbedRow(
    db: Db, held: Job, worker: WorkerId, exec: ExecId, lease: Time, beating: bool, during: seq<Disturbance>,
    expiry: Time)
    requires held.id in db.jobs && Fenced(held, worker, Some(exec)) && StillHeld(db.jobs[held.id], held, expiry)
    ensures var db', left := Disturbed(db, held, worker, lease, beating, during),
                             LeaseAfter(expiry, lease, beating, during);
            && held.id in db'.jobs
            && (left.Some? ==> StillHeld(db'.jobs[held.id], held, left.value))
            && (left.None? ==> PutBack(db'.jobs[held.id], held))
    decreases |during|
  {
    if during != [] {
      match during[0]
      case Strike(now) =>
        if expiry < now {
          StaysRecovered(SweepDb(db, now), held, worker, lease, beating, during[1..]);
        } else {
          DisturbedRow(SweepDb(db, now), held, worker, exec, lease, beating, during[1..], expiry);
        }
      case Beat(now) =>
        var alive := beating && now <= expiry;
        assert beating ==> (CanExtend(db, held.id, worker, held.executionId, now) <==> now <= expiry);
        var db' := if beating then HeartbeatDb(db, held.id, worker, held.executionId, lease, now) else db;
        DisturbedRow(db', held, worker, exec, lease, alive, during[1..], if alive then now + lease else expiry);
    }
  }

  /** Another worker's sweep has put the row back or failed it. */
  predicate PutBack(row: Job, held: Job) {
    && row.id == held.id && row.attempts == held.attempts && row.maxAttempts == held.maxAttempts
    && row.status == (if held.attempts < held.maxAttempts then Queued else Failed)
    && row.executionId.None? && row.leaseExpiresAt.None?
  }

  lemma {:induction false} StaysRecovered(
    db: Db, held: Job, worker: WorkerId, lease: Time, beating: bool, during: seq<Disturbance>)
    requires held.id in db.jobs && PutBack(db.jobs[held.id], held)
    ensures var db' := Disturbed(db, held, worker, lease, beating, during);
            held.id in db'.jobs && PutBack(db'.jobs[held.id], held)
    decreases |during|
  {
    if during != [] {
      match during[0]
      case Strike(now) => StaysRecovered(SweepDb(db, now), held, worker, lease, beating, during[1..]);
      case Beat(now) => StaysRecovered(db, held, worker, lease, false, during[1..]);
    }
  }

  /** Disturbances change jobs only, and other rows only by the sweeps. */
  lemma {:induction false} DisturbedOthers(
    db: Db, held: Job, worker: WorkerId, lease: Time, beating: bool, during: seq<Disturbance>, other: JobId)
    requires other in db.jobs && other != held.id
    ensures var db' := Disturbed(db, held, worker, lease, beating, during);
            && other in db'.jobs && db'.jobs[other] == SweptThrough(db.jobs[other], during)
            && db'.records == db.records
    decreases |during|
  {
    if during != [] {
      match during[0]
      case Strike(now) => DisturbedOthers(SweepDb(db, now), held, worker, lease, beating, during[1..], other);
      case Beat(now) =>
        var db' := if beating then HeartbeatDb(db, held.id, worker, held.executionId, lease, now) else db;
        DisturbedOthers(db', held, worker, lease,
          beating && CanExtend(db, held.id, worker, held.executionId, now), during[1..], other);
    }
  }

  lemma {:induction false} DisturbedRecords(
    db: Db, held: Job, worker: WorkerId, lease: Time, beating: bool, during: seq<Disturbance>)
    ensures Disturbed(db, held, worker, lease, beating, during).records == db.records
    ensures Disturbed(db, held, worker, lease, beating, during).audit == db.audit
    decreases |during|
  {
    if during != [] {
      match during[0]
      case Strike(now) => DisturbedRecords(SweepDb(db, now), held, worker, lease, beating, during[1..]);
      case Beat(now) =>
        var db' := if beating then HeartbeatDb(db, held.id, worker, held.executionId, lease, now) else db;
        DisturbedRecords(db', held, worker, lease,
          beating && CanExtend(db, held.id, worker, held.executionId, now), during[1..]);
    }
  }

  /** The worker's own row when the handler is through: as claimed. */
  lemma RowAsClaimed(
    poll: Poll, before: Db, after: Db, job: JobId, worked: Db, trace: Trace)
    requires RowsById(before) && Polled(poll, before, after, job, worked, trace)
    ensures var held := ClaimedDb(poll, before, job).jobs[job];
            && held.id == job && job in worked.jobs && worked.jobs[job] == held
            && Fenced(held, poll.worker, Some(poll.exec))
            && StillHeld(held, held, poll.times.claim + poll.settings.leaseSeconds)
  {
    var claimed := ClaimedDb(poll, before, job);
    ClaimedRow(poll, before, job);
    HandlerFitsProtocol(poll.document, poll.settings.extractionMaxAttempts, claimed, worked, job, trace);
  }

  lemma MeanwhileRow(poll: Poll, worked: Db, held: Job)
    requires held.id in worked.jobs && worked.jobs[held.id] == held
    requires Fenced(held, poll.worker, Some(poll.exec))
    requires StillHeld(held, held, poll.times.claim + poll.settings.leaseSeconds)
    ensures var db := Meanwhile(poll, worked, held);
            && held.id in db.jobs && db.records == worked.records
            && (Lost(poll) ==> PutBack(db.jobs[held.id], held))
            && (!Lost(poll) ==> db.jobs[held.id].leaseExpiresAt.Some? &&
                                StillHeld(db.jobs[held.id], held, db.jobs[held.id].leaseExpiresAt.value))
  {
    DisturbedRow(worked, held, poll.worker, poll.exec, poll.settings.leaseSeconds, true,
                 poll.times.during, poll.times.claim + poll.settings.leaseSeconds);
    DisturbedRecords(worked, held, poll.worker, poll.settings.leaseSeconds, true, poll.times.during);
  }

  /** Closing a row that is still held. */
  lemma CloseOfHeld(
    db: Db, held: Job, worker: WorkerId, failure: Option<WorkError>, retry: RetrySettings, now: Time)
    requires held.id in db.jobs && db.jobs[held.id].leaseExpiresAt.Some?
    requires StillHeld(db.jobs[held.id], held, db.jobs[held.id].leaseExpiresAt.value)
    requires Fenced(held, worker, held.executionId)
    ensures var db' := CloseDb(db, held, worker, failure, retry, now);
            && db'.records == db.records && held.id in db'.jobs
            && var row := db'.jobs[held.id];
               && row.attempts == held.attempts && row.maxAttempts == held.maxAttempts
               && (row.status == Completed <==> failure.None?)
               && (row.status == Failed <==> failure.Some? && Terminal(held, failure.value))
               && (row.status == Completed || row.status == Failed || row.status == Queued)
               && (row.status == Queued ==>
                     row.nextRunAt == now + RetryDelay(row.attempts, retry.base, retry.maximum))
               && (failure.Some? ==> row.errorMessage == Some(failure.value.message))
  {
  }

  /**
   * A poll that keeps its lease always closes its job: completed exactly when the handler ended without an
   * error, and then with its record in place; failed exactly when the error is not retryable or no attempt
   * is left; otherwise due again after its backoff.
   */
  lemma KeptPollClosesItsJob(
    poll: Poll, before: Db, after: Db, job: JobId, worked: Db, trace: Trace)
    requires RowsById(before) && Polled(poll, before, after, job, worked, trace) && !Lost(poll)
    ensures job in before.jobs && job in after.jobs && after.records == worked.records
    ensures var held, row := ClaimedDb(poll, before, job).jobs[job], after.jobs[job];
            && row.attempts == held.attempts == SweepDb(before, poll.times.sweep).jobs[job].attempts + 1
            && row.maxAttempts == held.maxAttempts
            && (row.status == Completed <==> trace.fault.None?)
            && (row.status == Completed ==> HasRecord(after.records, job))
            && (row.status == Failed <==> trace.fault.Some? && Terminal(held, FailureOf(trace).value))
            && (row.status == Completed || row.status == Failed || row.status == Queued)
            && (row.status == Queued ==>
                  && row.attempts < row.maxAttempts
                  && row.nextRunAt == poll.times.close + RetryDelay(row.attempts, poll.settings.retry.base,
                                                                    poll.settings.retry.maximum))
            && (trace.fault.Some? ==> row.errorMessage == Some(FailureOf(trace).value.message))
  {
    var claimed := ClaimedDb(poll, before, job);
    var held := claimed.jobs[job];
    ClaimedRow(poll, before, job);
    HandlerFitsProtocol(poll.document, poll.settings.extractionMaxAttempts, claimed, worked, job, trace);
    RowAsClaimed(poll, before, after, job, worked, trace);
    MeanwhileRow(poll, worked, held);
    CloseOfHeld(Meanwhile(poll, worked, held), held, poll.worker, FailureOf(trace), poll.settings.retry,
                poll.times.close);
  }

  /** A poll that lost its lease closes nothing: the job is back in the queue, or failed, as the sweep left it. */
  lemma LostPollClosesNothing(
    poll: Poll, before: Db, after: Db, job: JobId, worked: Db, trace: Trace)
    requires RowsById(before) && Polled(poll, before, after, job, worked, trace) && Lost(poll)
    ensures job in ClaimedDb(poll, before, job).jobs && job in after.jobs
    ensures after == Meanwhile(poll, worked, ClaimedDb(poll, before, job).jobs[job])
    ensures PutBack(after.jobs[job], ClaimedDb(poll, before, job).jobs[job])
  {
    RowAsClaimed(poll, before, after, job, worked, trace);
    MeanwhileRow(poll, worked, ClaimedDb(poll, before, job).jobs[job]);
  }

  lemma CloseSparesOthers(
    db: Db, held: Job, worker: WorkerId, failure: Option<WorkError>, retry: RetrySettings, now: Time, other: JobId)
    requires other in db.jobs && other != held.id
    ensures var db' := CloseDb(db, held, worker, failure, retry, now);
            other in db'.jobs && db'.jobs[other] == db.jobs[other]
  {
  }

  /** Either way no other row is touched except by the sweeps. */
  lemma PollTouchesOneRow(
    poll: Poll, before: Db, after: Db, job: JobId, worked: Db, trace: Trace, other: JobId)
    requires RowsById(before) && Polled(poll, before, after, job, worked, trace)
    requires other in before.jobs && other != job
    ensures other in after.jobs
    ensures after.jobs[other] == SweptThrough(Swept(before.jobs[other], poll.times.sweep), poll.times.during)
  {
    var claimed := ClaimedDb(poll, before, job);
    var held := claimed.jobs[job];
    ClaimedRow(poll, before, job);
    HandlerFitsProtocol(poll.document, poll.settings.extractionMaxAttempts, claimed, worked, job, trace);
    DisturbedOthers(worked, held, poll.worker, poll.settings.leaseSeconds, true, poll.times.during, other);
    CloseSparesOthers(Meanwhile(poll, worked, held), held, poll.worker, FailureOf(trace), poll.settings.retry,
                      poll.times.close, other);
  }

  /**
   * The insert conflict seen from the table: the job is put back after its backoff while it has an attempt
   * left and failed otherwise, with one row in the error log that says which, and the rival's record stays.
   */
  lemma ConflictIsRequeuedOrFailed(
    poll: Poll, before: Db, after: Db, job: JobId, worked: Db, trace: Trace)
    requires RowsById(before) && Polled(poll, before, after, job, worked, trace) && !Lost(poll)
    requires trace.work.Conflicted?
    ensures job in before.jobs && job in after.jobs
    ensures var row := after.jobs[job];
            && row.status == (if row.attempts < row.maxAttempts then Queued else Failed)
            && PollRows(poll, before, job, trace) ==
               trace.retried + [ErrorRow("worker", INTEGRITY_ERROR.message, row.status == Queued, row.attempts)]
            && HasRecord(after.records, job)
  {
    var claimed := ClaimedDb(poll, before, job);
    ClaimedRow(poll, before, job);
    KeptPollClosesItsJob(poll, before, after, job, worked, trace);
    HandlerFitsProtocol(poll.document, poll.settings.extractionMaxAttempts, claimed, worked, job, trace);
    ConflictHasCause(poll.document, poll.settings.extractionMaxAttempts, claimed, worked, job, trace);
  }

  lemma ConflictHasCause(
    document: Document, limit: int, before: Db, after: Db, job: JobId, trace: Trace)
    requires Handled(document, limit, before, after, job, trace) && trace.work.Conflicted?
    ensures trace.fault == Some(OtherRaised(INTEGRITY_ERROR))
  {
  }

  class DocumentWorker {
    const workerId: WorkerId
    const settings: Settings
    var errors: seq<ErrorRow>

    constructor (workerId: WorkerId, settings: Settings)
      ensures this.workerId == workerId && this.settings == settings && errors == []
    {
      this.workerId, this.settings, errors := workerId, settings, [];
    }

    /** The default handler: input check, extraction, record, validation, and the error log as it goes. */
    method RunDocument(db: Database, job: JobId, document: Document)
      returns (failure: Option<WorkError>, ghost trace: Trace)
      requires UniqueRecords(db.records)
      modifies this`errors, db
      ensures Handled(document, settings.extractionMaxAttempts, old(db.View()), db.View(), job, trace)
      ensures failure == FailureOf(trace) && errors == old(errors) + RowsOf(trace)
      ensures UniqueRecords(db.records)
    {
      if document.input.Some? {
        var refused := Refused(document.input.value);
        return document.input, Trace(Failure(refused), [], 0, Some(refused), Fresh);
      }
      var payload, rows, calls := ExtractDocument(document, settings);
      errors := errors + rows;
      var fault: Option<StageError>;
      ghost var work := Fresh;
      if payload.Failure? {
        fault := Some(payload.error);
        work := if document.parse.Some? then Fresh else StoppedAt(payload.error);
      } else {
        var record := db.CreateExtractedRecord(Some(job), payload.value, document.rival);
        fault := if record.Failure? then Some(OtherRaised(record.error)) else RaisedBy(document.validation);
        work := if record.Failure? then Conflicted else Stored;
      }
      trace := Trace(payload, rows, calls, fault, work);
      if fault.None? {
        return None, trace;
      }
      errors := errors + CaughtRows(fault.value);
      failure := Some(Rethrown(fault.value));
    }

    /** Completed without a failure, else failed or put back; the error log takes what the pipeline did not log. */
    method CloseJob(db: Database, held: Job, failure: Option<WorkError>, now: Time)
      requires db.Valid()
      modifies this`errors, db
      ensures db.Valid() && db.View() == CloseDb(old(db.View()), held, workerId, failure, settings.retry, now)
      ensures errors == old(errors) +
                WorkerRows(held, failure, CanClose(old(db.View()), held.id, workerId, held.executionId))
    {
      if failure.None? {
        var _ := db.CompleteJob(held, workerId, now);
      } else {
        var outcome := db.FailJob(held, workerId, failure.value, settings.retry, now);
        if failure.value.kind != PipelineError && failure.value.kind != PipelineInputError {
          errors := errors + [ErrorRow("worker", failure.value.message, outcome != Failed, held.attempts)];
        }
      }
    }

    /** The heartbeat task, and whatever other workers sweep while the handler works. */
    method Await(db: Database, held: Job, during: seq<Disturbance>)
      requires db.Valid()
      modifies db
      ensures db.Valid()
      ensures db.View() == Disturbed(old(db.View()), held, workerId, settings.leaseSeconds, true, during)
    {
      var beating, i := true, 0;
      while i < |during|
        invariant 0 <= i <= |during| && db.Valid()
        invariant Disturbed(db.View(), held, workerId, settings.leaseSeconds, beating, during[i..]) ==
                  Disturbed(old(db.View()), held, workerId, settings.leaseSeconds, true, during)
      {
        assert during[i..][0] == during[i] && during[i..][1..] == during[i + 1..];
        match during[i] {
          case Strike(now) =>
            var _ := db.RecoverExpiredJobs(now);
          case Beat(now) =>
            if beating {
              beating := db.HeartbeatJob(held.id, workerId, held.executionId, settings.leaseSeconds, now);
            }
        }
        i := i + 1;
      }
    }

    /** The part of a poll after its claim: work, with what reaches the table meanwhile, then close. */
    method WorkOn(db: Database, held: Job, during: seq<Disturbance>, now: Time, document: Document)
      returns (ghost worked: Db, ghost trace: Trace)
      requires db.Valid() && UniqueRecords(db.records)
      modifies this`errors, db
      ensures db.Valid() && UniqueRecords(db.records)
      ensures Handled(document, settings.extractionMaxAttempts, old(db.View()), worked, held.id, trace)
      ensures var db' := Disturbed(worked, held, workerId, settings.leaseSeconds, true, during);
              && db.View() == CloseDb(db', held, workerId, FailureOf(trace), settings.retry, now)
              && errors == old(errors) + RowsOf(trace) +
                   WorkerRows(held, FailureOf(trace), CanClose(db', held.id, workerId, held.executionId))
    {
      var failure;
      failure, trace := RunDocument(db, held.id, document);
      worked := db.View();
      HandlerFitsProtocol(document, settings.extractionMaxAttempts, old(db.View()), worked, held.id, trace);
      DisturbedRecords(worked, held, workerId, settings.leaseSeconds, true, during);
      Await(db, held, during);
      CloseJob(db, held, failure, now);
    }

    /** Sweep, claim, work, close. The poll runs exactly when a job is eligible after the sweep. */
    method RunOnce(db: Database, exec: ExecId, times: Times, document: Document)
      returns (ran: bool, ghost job: JobId, ghost worked: Db, ghost trace: Trace)
      requires db.Valid() && UniqueRecords(db.records)
      modifies this`errors, db
      ensures db.Valid() && UniqueRecords(db.records)
      ensures var swept := SweepDb(old(db.View()), times.sweep);
              && (ran <==> exists k :: k in swept.jobs && Eligible(swept.jobs[k], times.claim))
              && (!ran ==> db.View() == swept && errors == old(errors))
      ensures var poll := Poll(workerId, settings, exec, times, document);
              ran ==>
                && Polled(poll, old(db.View()), db.View(), job, worked, trace)
                && errors == old(errors) + PollRows(poll, old(db.View()), job, trace)
    {
      job, worked, trace := 0, db.View(), Trace(Success(""), [], 0, None, Fresh);
      var _ := db.RecoverExpiredJobs(times.sweep);
      var claimed := db.ClaimNextJob(workerId, settings.leaseSeconds, exec, times.claim);
      if claimed.None? {
        return false, job, worked, trace;
      }
      var held := claimed.value;
      job := held.id;
      ghost var poll := Poll(workerId, settings, exec, times, document);
      assert db.View() == ClaimedDb(poll, old(db.View()), job);
      ClaimedRow(poll, old(db.View()), job);
      worked, trace := WorkOn(db, held, times.during, times.close, document);
      FenceHolds(poll, old(db.View()), worked, trace, held);
      ran := true;
    }
  }

  /** The fence keeps the close out exactly when the lease was lost. */
  lemma FenceHolds(poll: Poll, before: Db, worked: Db, trace: Trace, held: Job)
    requires var claimed := ClaimedDb(poll, before, held.id);
             && held.id in claimed.jobs && held == claimed.jobs[held.id]
             && Handled(poll.document, poll.settings.extractionMaxAttempts, claimed, worked, held.id, trace)
    requires Fenced(held, poll.worker, Some(poll.exec))
    requires held.leaseExpiresAt == Some(poll.times.claim + poll.settings.leaseSeconds)
    ensures var db := Meanwhile(poll, worked, held);
            && (CanClose(db, held.id, poll.worker, held.executionId) <==> !Lost(poll))
            && PollRows(poll, before, held.id, trace) == RowsOf(trace) +
                 WorkerRows(held, FailureOf(trace), CanClose(db, held.id, poll.worker, held.executionId))
  {
    var claimed := ClaimedDb(poll, before, held.id);
    HandlerFitsProtocol(poll.document, poll.settings.extractionMaxAttempts, claimed, worked, held.id, trace);
    DisturbedRow(worked, held, poll.worker, poll.exec, poll.settings.leaseSeconds, true, poll.times.during,
                 poll.times.claim + poll.settings.leaseSeconds);
  }
}
