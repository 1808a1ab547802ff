/**
 * What becomes of a document, spelled out from what the parser, the extractor and the validation do to it:
 * the state its job is left in, the rows in the error log and the record. All of it is for a poll that keeps
 * its lease.
 */
module Outcomes {
  import opened Wrappers
  import opened Backoff
  import opened Jobs
  import opened Retry
  import opened Store
  import opened Worker
  import Json

  /** The poll claimed the job, kept its lease throughout and left the table as `after`. */
  ghost predicate Kept(poll: Poll, before: Db, after: Db, job: JobId, worked: Db, trace: Trace) {
    RowsById(before) && Polled(poll, before, after, job, worked, trace) && !Lost(poll)
  }

  /** The job is failed for good, with this message. */
  predicate FailedWith(after: Db, job: JobId, message: string) {
    && job in after.jobs
    && after.jobs[job].status == Failed && after.jobs[job].errorMessage == Some(message)
  }

  /** The job is put back while it has an attempt left and failed otherwise, with this message. */
  predicate RetriedWith(after: Db, job: JobId, message: string) {
    && job in after.jobs && after.jobs[job].errorMessage == Some(message)
    && after.jobs[job].status == if after.jobs[job].attempts < after.jobs[job].maxAttempts then Queued else Failed
  }

  /** The worker's own row about a job in the state it was left in. */
  function WorkerRow(after: Db, job: JobId, message: string): ErrorRow
    requires job in after.jobs
  {
    ErrorRow("worker", message, after.jobs[job].status == Queued, after.jobs[job].attempts)
  }

  /** One retryable row for each of the first n attempts, in order. */
  ghost predicate RowsOfRetried(rows: seq<ErrorRow>, extractor: Extractor, n: nat) {
    && |rows| == n
    && (forall i :: 0 <= i < n ==>
          && extractor(i + 1).RaisesRetryable?
          && rows[i] == ErrorRow("extract", extractor(i + 1).message, true, i + 1))
  }

  lemma RetriedRowsAre(extractor: Extractor, n: nat)
    requires AllRetryable(extractor, n)
    ensures RowsOfRetried(RetriedRows(extractor, n), extractor, n)
  {
  }

  /** An error leaves the job failed unless it is retryable and an attempt is left. */
  lemma ErrorDecides(
    poll: Poll, before: Db, after: Db, job: JobId, worked: Db, trace: Trace, error: WorkError)
    requires Kept(poll, before, after, job, worked, trace) && FailureOf(trace) == Some(error)
    ensures error.kind == OtherError ==> RetriedWith(after, job, error.message)
    ensures error.kind != OtherError ==> FailedWith(after, job, error.message)
    ensures job in after.jobs
    ensures PollRows(poll, before, job, trace) == RowsOf(trace) +
              if error.kind == PipelineError || error.kind == PipelineInputError then []
              else [WorkerRow(after, job, error.message)]
  {
    KeptPollClosesItsJob(poll, before, after, job, worked, trace);
    ClaimedRow(poll, before, job);
  }

  lemma ClaimKeepsRecords(poll: Poll, before: Db, job: JobId)
    ensures ClaimedDb(poll, before, job).records == before.records
  {
  }

  // ---- before the document is read ----

  /** A refused input: retried only if the error is neither a pipeline error nor a ValueError. */
  lemma RefusedInput(
    poll: Poll, before: Db, after: Db, job: JobId, worked: Db, trace: Trace, error: WorkError)
    requires Kept(poll, before, after, job, worked, trace) && poll.document.input == Some(error)
    ensures job in after.jobs && after.records == before.records
    ensures match error.kind
            case PipelineError => FailedWith(after, job, error.message) && PollRows(poll, before, job, trace) == []
            case PipelineInputError =>
              FailedWith(after, job, error.message) && PollRows(poll, before, job, trace) == []
            case ValueError =>
              && FailedWith(after, job, error.message)
              && PollRows(poll, before, job, trace) ==
                   [ErrorRow("worker", error.message, false, after.jobs[job].attempts)]
            case OtherError =>
              && RetriedWith(after, job, error.message)
              && PollRows(poll, before, job, trace) == [WorkerRow(after, job, error.message)]
  {
    ErrorDecides(poll, before, after, job, worked, trace, error);
    KeptPollClosesItsJob(poll, before, after, job, worked, trace);
    ClaimKeepsRecords(poll, before, job);
  }

  // ---- parsing ----

  /** A document that cannot be parsed fails its job at once, whatever attempts are left. */
  lemma UnparsableDocument(
    poll: Poll, before: Db, after: Db, job: JobId, worked: Db, trace: Trace, message: string)
    requires Kept(poll, before, after, job, worked, trace)
    requires poll.document.input.None? && poll.document.parse == Some(ParserFault(message))
    ensures FailedWith(after, job, message) && after.records == before.records
    ensures PollRows(poll, before, job, trace) == [ErrorRow("parse", message, false, 1)]
  {
    ErrorDecides(poll, before, after, job, worked, trace, WorkError(PipelineError, message));
    KeptPollClosesItsJob(poll, before, after, job, worked, trace);
    ClaimKeepsRecords(poll, before, job);
  }

  // ---- an exception from one of the stages ----

  /** What an exception does to the job: a ValueError fails it for good, another one is retried. */
  ghost predicate Disposed(
    after: Db, job: JobId, error: WorkError, rows: seq<ErrorRow>, retried: seq<ErrorRow>)
  {
    && job in after.jobs
    && (error.kind == ValueError ==>
          && FailedWith(after, job, error.message)
          && rows == retried + [ErrorRow("extract", error.message, false, 1)])
    && (error.kind == OtherError ==>
          && RetriedWith(after, job, error.message)
          && rows == retried + [WorkerRow(after, job, error.message)])
  }

  lemma StageDisposes(
    poll: Poll, before: Db, after: Db, job: JobId, worked: Db, trace: Trace, error: WorkError)
    requires Kept(poll, before, after, job, worked, trace) && trace.fault == Some(OtherRaised(error))
    requires error.kind == ValueError || error.kind == OtherError
    ensures Disposed(after, job, error, PollRows(poll, before, job, trace), trace.retried)
  {
    var raised := if error.kind == ValueError then WorkError(PipelineError, error.message) else error;
    ErrorDecides(poll, before, after, job, worked, trace, raised);
    assert trace.retried + [] == trace.retried;
    assert RowsOf(trace) + [] == RowsOf(trace);
  }

  /** The parser raises something else than a ParserError. */
  lemma ParserRaises(
    poll: Poll, before: Db, after: Db, job: JobId, worked: Db, trace: Trace, error: WorkError)
    requires Kept(poll, before, after, job, worked, trace)
    requires poll.document.input.None? && poll.document.parse == Some(OtherRaised(error))
    requires error.kind == ValueError || error.kind == OtherError
    ensures Disposed(after, job, error, PollRows(poll, before, job, trace), [])
    ensures after.records == before.records
  {
    StageDisposes(poll, before, after, job, worked, trace, error);
    KeptPollClosesItsJob(poll, before, after, job, worked, trace);
    ClaimKeepsRecords(poll, before, job);
  }

  /** The extractor's attempt k, the first that is not retried, raises. */
  lemma ExtractorRaises(
    poll: Poll, before: Db, after: Db, job: JobId, worked: Db, trace: Trace, k: nat, error: WorkError)
    returns (retried: seq<ErrorRow>)
    requires Kept(poll, before, after, job, worked, trace)
    requires poll.document.input.None? && poll.document.parse.None?
    requires StopsAt(poll.document.extractor, poll.settings.extractionMaxAttempts, k)
    requires poll.document.extractor(k) == RaisesOther(error)
    requires error.kind == ValueError || error.kind == OtherError
    ensures RowsOfRetried(retried, poll.document.extractor, k - 1)
    ensures Disposed(after, job, error, PollRows(poll, before, job, trace), retried)
    ensures after.records == before.records
  {
    retried := RetriedRows(poll.document.extractor, k - 1);
    RetriedRowsAre(poll.document.extractor, k - 1);
    StageDisposes(poll, before, after, job, worked, trace, error);
    KeptPollClosesItsJob(poll, before, after, job, worked, trace);
    ClaimKeepsRecords(poll, before, job);
  }

  /** All n attempts fail retryably: the job is failed with one row for each, the last of them final. */
  lemma ExtractionExhausted(poll: Poll, before: Db, after: Db, job: JobId, worked: Db, trace: Trace)
    requires Kept(poll, before, after, job, worked, trace)
    requires poll.document.input.None? && poll.document.parse.None?
    requires poll.settings.extractionMaxAttempts >= 1
    requires AllRetryable(poll.document.extractor, poll.settings.extractionMaxAttempts)
    ensures var n := poll.settings.extractionMaxAttempts;
            var rows := PollRows(poll, before, job, trace);
            && FailedWith(after, job, "Operation failed after " + Json.IntText(n) + " attempts: " +
                                      poll.document.extractor(n).message)
            && |rows| == n
            && (forall i :: 0 <= i < n ==>
                  rows[i] == ErrorRow("extract", poll.document.extractor(i + 1).message, i + 1 < n, i + 1))
    ensures after.records == before.records
  {
    var n := poll.settings.extractionMaxAttempts;
    var claimed := ClaimedDb(poll, before, job);
    ExhaustionIsFinal(poll.document, n, claimed, worked, job, trace);
    ErrorDecides(poll, before, after, job, worked, trace, FailureOf(trace).value);
    KeptPollClosesItsJob(poll, before, after, job, worked, trace);
    ClaimKeepsRecords(poll, before, job);
    assert RowsOf(trace) + [] == RowsOf(trace);
  }

  // ---- a payload ----

  /** The records that another worker's insert adds. */
  ghost function RivalRecords(records: seq<Record>, rival: Option<Record>): seq<Record> {
    if rival.None? || (rival.value.jobId.Some? && HasRecord(records, rival.value.jobId.value)) then []
    else [rival.value]
  }

  /** Attempt k yields a payload, and no rival has stored the job's record first. */
  ghost predicate Yields(poll: Poll, before: Db, job: JobId, k: nat, payload: string) {
    && poll.document.input.None? && poll.document.parse.None?
    && StopsAt(poll.document.extractor, poll.settings.extractionMaxAttempts, k)
    && poll.document.extractor(k) == Returns(payload)
    && (poll.document.rival.Some? && poll.document.rival.value.jobId == Some(job) ==> HasRecord(before.records, job))
  }

  /** What is stored then: the payload under the job, unless the job had its record. */
  ghost predicate Stores(poll: Poll, before: Db, after: Db, job: JobId, payload: string) {
    after.records ==
      if HasRecord(before.records, job) then before.records
      else before.records + RivalRecords(before.records, poll.document.rival) + [Record(Some(job), payload)]
  }

  lemma YieldStores(
    poll: Poll, before: Db, after: Db, job: JobId, worked: Db, trace: Trace, k: nat, payload: string)
    requires Kept(poll, before, after, job, worked, trace) && Yields(poll, before, job, k, payload)
    ensures Stores(poll, before, after, job, payload)
    ensures trace.fault == RaisedBy(poll.document.validation)
    ensures trace.retried == RetriedRows(poll.document.extractor, k - 1)
  {
    ClaimKeepsRecords(poll, before, job);
    KeptPollClosesItsJob(poll, before, after, job, worked, trace);
  }

  /** A document that validates completes its job; only the retried attempts are logged. */
  lemma DocumentCompletes(
    poll: Poll, before: Db, after: Db, job: JobId, worked: Db, trace: Trace, k: nat, payload: string)
    requires Kept(poll, before, after, job, worked, trace) && Yields(poll, before, job, k, payload)
    requires poll.document.validation.None?
    ensures job in after.jobs && after.jobs[job].status == Completed
    ensures RowsOfRetried(PollRows(poll, before, job, trace), poll.document.extractor, k - 1)
    ensures Stores(poll, before, after, job, payload)
  {
    YieldStores(poll, before, after, job, worked, trace, k, payload);
    KeptPollClosesItsJob(poll, before, after, job, worked, trace);
    RetriedRowsAre(poll.document.extractor, k - 1);
    ClaimedRow(poll, before, job);
    var retried := RetriedRows(poll.document.extractor, k - 1);
    assert retried + [] == retried;
  }

  /** Validation raises after the record is stored: the record stays, the job is disposed of by the exception. */
  lemma ValidationRaises(
    poll: Poll, before: Db, after: Db, job: JobId, worked: Db, trace: Trace, k: nat, payload: string,
    error: WorkError)
    returns (retried: seq<ErrorRow>)
    requires Kept(poll, before, after, job, worked, trace) && Yields(poll, before, job, k, payload)
    requires poll.document.validation == Some(error) && (error.kind == ValueError || error.kind == OtherError)
    ensures RowsOfRetried(retried, poll.document.extractor, k - 1)
    ensures Disposed(after, job, error, PollRows(poll, before, job, trace), retried)
    ensures Stores(poll, before, after, job, payload)
  {
    retried := RetriedRows(poll.document.extractor, k - 1);
    RetriedRowsAre(poll.document.extractor, k - 1);
    YieldStores(poll, before, after, job, worked, trace, k, payload);
    StageDisposes(poll, before, after, job, worked, trace, error);
  }

  /** A completed job that had no record holds the payload of the first attempt that returned one. */
  lemma CompletionStoresPayload(poll: Poll, before: Db, after: Db, job: JobId, worked: Db, trace: Trace)
    returns (k: nat)
    requires Kept(poll, before, after, job, worked, trace) && !HasRecord(before.records, job)
    requires job in after.jobs && after.jobs[job].status == Completed
    ensures StopsAt(poll.document.extractor, poll.settings.extractionMaxAttempts, k)
    ensures poll.document.extractor(k).Returns?
    ensures Record(Some(job), poll.document.extractor(k).value) in after.records
  {
    KeptPollClosesItsJob(poll, before, after, job, worked, trace);
    ClaimKeepsRecords(poll, before, job);
    k :| StopsAt(poll.document.extractor, poll.settings.extractionMaxAttempts, k);
  }
}
