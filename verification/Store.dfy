/**
 * The operations of app/workers/durable.py and of the repository functions they rest on, as the source
 * performs them: statement by statement on the tables. Each is proved against the function of module
 * Jobs from which the protocol is built.
 */
module Store {
  import opened Wrappers
  import opened Backoff
  import opened Jobs

  function ExpiredRows(jobs: map<JobId, Job>, now: Time): set<JobId> {
    set k | k in jobs && Expired(jobs[k], now)
  }

  // ---- the candidate query always has an answer ----

  lemma {:induction false} EarliestExists(jobs: map<JobId, Job>, ids: set<JobId>) returns (first: JobId)
    requires ids != {} && ids <= jobs.Keys
    ensures first in ids && forall k :: k in ids ==> KeyLeq(jobs[first], jobs[k])
    decreases |ids|
  {
    first :| first in ids;
    var rest := ids - {first};
    if rest == {} {
      assert ids == {first};
    } else {
      var other := EarliestExists(jobs, rest);
      assert forall k :: k in ids ==> k == first || k in rest;
      if !KeyLeq(jobs[first], jobs[other]) {
        first := other;
      }
    }
  }

  /** Queued, due, and under no lease that still runs. */
  predicate Due(j: Job, now: Time) {
    && j.status == Queued && j.nextRunAt <= now
    && (j.leaseExpiresAt.Some? ==> j.leaseExpiresAt.value < now)
  }

  /** No row that is due has an earlier date, nor the same date and an earlier creation. */
  ghost predicate FirstInLine(jobs: map<JobId, Job>, first: Job, now: Time) {
    forall k | k in jobs && Due(jobs[k], now) ::
      && first.nextRunAt <= jobs[k].nextRunAt
      && (first.nextRunAt == jobs[k].nextRunAt ==> first.createdAt <= jobs[k].createdAt)
  }

  lemma NextIsFirst(jobs: map<JobId, Job>, id: JobId, now: Time)
    ensures IsNext(jobs, id, now) <==> id in jobs && Due(jobs[id], now) && FirstInLine(jobs, jobs[id], now)
  {
    assert forall k :: k in jobs ==> (Eligible(jobs[k], now) <==> Due(jobs[k], now));
  }

  /** If any row is due, one of those that are is first in line. */
  lemma NextExists(jobs: map<JobId, Job>, now: Time)
    requires exists k :: k in jobs && Due(jobs[k], now)
    ensures exists id :: id in jobs.Keys && IsNext(jobs, id, now)
    ensures exists id :: id in jobs.Keys && Due(jobs[id], now) && FirstInLine(jobs, jobs[id], now)
  {
    var eligible := set k | k in jobs && Eligible(jobs[k], now);
    var some :| some in jobs && Due(jobs[some], now);
    assert some in eligible;
    var first := EarliestExists(jobs, eligible);
    assert IsNext(jobs, first, now);
    NextIsFirst(jobs, first, now);
  }

  /** A sweep leaves no expired lease behind, so a second one at the same instant finds nothing to do. */
  lemma SweepLeavesNoneExpired(db: Db, now: Time)
    ensures ExpiredRows(SweepDb(db, now).jobs, now) == {}
    ensures SweepDb(SweepDb(db, now), now) == SweepDb(db, now)
  {
    var swept := SweepDb(db, now);
    assert forall k :: k in swept.jobs ==> !Expired(swept.jobs[k], now);
    assert SweepDb(swept, now).jobs == swept.jobs;
  }

  // ---- the two UPDATE statements of a sweep ----

  predicate ToRequeue(j: Job, now: Time) {
    Expired(j, now) && j.attempts < j.maxAttempts
  }

  predicate ToFail(j: Job, now: Time) {
    Expired(j, now) && j.attempts >= j.maxAttempts
  }

  function RequeueUpdate(jobs: map<JobId, Job>, now: Time): map<JobId, Job> {
    map k | k in jobs ::
      if ToRequeue(jobs[k], now) then
        jobs[k].(status := Queued, nextRunAt := now, leaseOwner := None, leaseExpiresAt := None, executionId := None,
                 errorMessage := Some("Worker lease expired; job recovered."), updatedAt := now)
      else jobs[k]
  }

  function FailUpdate(jobs: map<JobId, Job>, now: Time): map<JobId, Job> {
    map k | k in jobs ::
      if ToFail(jobs[k], now) then
        jobs[k].(status := Failed, failedAt := Some(now), leaseOwner := None, leaseExpiresAt := None,
                 executionId := None, updatedAt := now,
                 errorMessage := Some("Worker lease expired after the maximum number of attempts."))
      else jobs[k]
  }

  /** The rows an UPDATE with the given condition matches. */
  function Matched(jobs: map<JobId, Job>, condition: (Job, Time) -> bool, now: Time): set<JobId> {
    set k | k in jobs && condition(jobs[k], now)
  }

  lemma SizeOfUnion<T>(a: set<T>, b: set<T>)
    requires a !! b
    ensures |a + b| == |a| + |b|
  {
  }

  lemma RowTwiceUpdated(j: Job, now: Time)
    ensures var r := if ToRequeue(j, now) then Recovered(j, now) else j;
            && (ToFail(r, now) <==> ToFail(j, now))
            && (if ToFail(r, now) then TimedOut(r, now) else r) == Swept(j, now)
  {
  }

  lemma RowsTwiceUpdated(db: Db, now: Time)
    ensures FailUpdate(RequeueUpdate(db.jobs, now), now) == SweepDb(db, now).jobs
    ensures Matched(RequeueUpdate(db.jobs, now), ToFail, now) == Matched(db.jobs, ToFail, now)
  {
    forall k | k in db.jobs
      ensures FailUpdate(RequeueUpdate(db.jobs, now), now)[k] == Swept(db.jobs[k], now)
      ensures ToFail(RequeueUpdate(db.jobs, now)[k], now) <==> ToFail(db.jobs[k], now)
    {
      RowTwiceUpdated(db.jobs[k], now);
    }
  }

  lemma ExpiredRowsSplit(jobs: map<JobId, Job>, now: Time)
    ensures ExpiredRows(jobs, now) == Matched(jobs, ToRequeue, now) + Matched(jobs, ToFail, now)
    ensures Matched(jobs, ToRequeue, now) !! Matched(jobs, ToFail, now)
  {
  }

  /** The second update leaves alone what the first has requeued, so each expired row is changed and counted once. */
  lemma TwoUpdatesMakeASweep(db: Db, now: Time)
    ensures FailUpdate(RequeueUpdate(db.jobs, now), now) == SweepDb(db, now).jobs
    ensures |Matched(db.jobs, ToRequeue, now)| + |Matched(RequeueUpdate(db.jobs, now), ToFail, now)|
            == |ExpiredRows(db.jobs, now)|
  {
    RowsTwiceUpdated(db, now);
    ExpiredRowsSplit(db.jobs, now);
    SizeOfUnion(Matched(db.jobs, ToRequeue, now), Matched(db.jobs, ToFail, now));
  }

  // ---- the record insert ----

  /** What a violation of the unique index raises: neither a pipeline error nor a ValueError. */
  const INTEGRITY_ERROR: WorkError := WorkError(OtherError, "IntegrityError")

  lemma RivalDecides(db: Db, rival: Option<Record>, id: JobId)
    requires !HasRecord(db.records, id)
    ensures HasRecord(Interfered(db, rival).records, id) <==> rival.Some? && rival.value.jobId == Some(id)
  {
    if rival.Some? {
      RecordsGrow(db.records, rival.value, id);
    }
  }

  // ---- a new job ----

  /** It is due from its `next_run_at` on, and goes before no job that was first in line and is not later than it. */
  lemma NewJobTakesItsTurn(
    db: Db, id: JobId, maxAttempts: int, nextRunAt: Time, createdAt: Time, now: Time, first: JobId)
    requires id !in db.jobs
    ensures var jobs := CreateDb(db, id, maxAttempts, nextRunAt, createdAt).jobs;
            && (Due(jobs[id], now) <==> nextRunAt <= now)
            && (IsNext(jobs, first, now) && first != id ==> IsNext(db.jobs, first, now))
            && (IsNext(db.jobs, first, now) &&
                (db.jobs[first].nextRunAt < nextRunAt ||
                 (db.jobs[first].nextRunAt == nextRunAt && db.jobs[first].createdAt <= createdAt)) ==>
                  IsNext(jobs, first, now))
            && (IsNext(jobs, id, now) <==>
                  nextRunAt <= now &&
                  forall k | k in db.jobs && Due(db.jobs[k], now) ::
                    nextRunAt < db.jobs[k].nextRunAt ||
                    (nextRunAt == db.jobs[k].nextRunAt && createdAt <= db.jobs[k].createdAt))
  {
    var jobs := CreateDb(db, id, maxAttempts, nextRunAt, createdAt).jobs;
    assert forall k :: k in db.jobs ==> k in jobs && jobs[k] == db.jobs[k];
    NextIsFirst(jobs, id, now);
    assert forall k :: k in db.jobs ==> (Eligible(db.jobs[k], now) <==> Due(db.jobs[k], now));
  }

  class Database {
    var jobs: map<JobId, Job>
    var audit: seq<AuditEntry>
    var records: seq<Record>

    constructor ()
      ensures View() == Db(map[], [], [])
    {
      jobs, audit, records := map[], [], [];
    }

    function View(): Db
      reads this
    {
      Db(jobs, audit, records)
    }

    /** Rows are stored under their primary key. */
    ghost predicate Valid()
      reads this
    {
      forall k :: k in jobs ==> jobs[k].id == k
    }

    method CreateProcessingJob(id: JobId, maxAttempts: int, nextRunAt: Time, createdAt: Time) returns (job: Job)
      requires Valid() && id !in jobs
      modifies this
      ensures Valid() && View() == CreateDb(old(View()), id, maxAttempts, nextRunAt, createdAt)
      ensures id in jobs && job == jobs[id]
      ensures job.status == Queued && job.attempts == 0 && job.maxAttempts == maxAttempts
      ensures job.nextRunAt == nextRunAt && job.createdAt == createdAt && job.id == id
      ensures forall now :: Due(job, now) <==> nextRunAt <= now
      ensures audit == old(audit) + [JobCreated(id)] && records == old(records)
      ensures jobs.Keys == old(jobs).Keys + {id} && forall k :: k in old(jobs) ==> jobs[k] == old(jobs)[k]
    {
      job := Job(id, Queued, 0, maxAttempts, nextRunAt, createdAt, createdAt,
                 None, None, None, None, None, None, None);
      jobs := jobs[id := job];
      audit := audit + [JobCreated(id)];
    }

    /** The first statement of a claim. Other workers may run between it and the second. */
    method SelectCandidate(now: Time) returns (candidate: Option<Job>)
      requires Valid()
      ensures candidate.None? <==> forall k :: k in jobs ==> !Due(jobs[k], now)
      ensures candidate.Some? ==>
                var c := candidate.value;
                && c.id in jobs && c == jobs[c.id]
                && c.status == Queued && c.nextRunAt <= now
                && (c.leaseExpiresAt.Some? ==> c.leaseExpiresAt.value < now)
                && (forall k | k in jobs && Due(jobs[k], now) ::
                      && c.nextRunAt <= jobs[k].nextRunAt
                      && (c.nextRunAt == jobs[k].nextRunAt ==> c.createdAt <= jobs[k].createdAt))
                && IsNext(jobs, c.id, now)
    {
      if forall k | k in jobs :: !Due(jobs[k], now) {
        return None;
      }
      NextExists(jobs, now);
      var id :| id in jobs.Keys && IsNext(jobs, id, now);
      NextIsFirst(jobs, id, now);
      candidate := Some(jobs[id]);
    }

    /** The second statement of a claim: a conditional UPDATE that re-checks eligibility at the instant of the first. */
    method ClaimCandidate(candidate: Job, worker: WorkerId, lease: Time, exec: ExecId, now: Time)
      returns (job: Option<Job>)
      requires Valid()
      modifies this
      ensures Valid()
      ensures View() == ClaimDb(old(View()), candidate.id, candidate.attempts, worker, lease, exec, now)
      ensures job.Some? <==> candidate.id in old(jobs) && Due(old(jobs)[candidate.id], now)
      ensures job.None? ==> jobs == old(jobs)
      ensures job.Some? ==>
                && job.value == old(jobs)[candidate.id].(
                     status := Running, attempts := candidate.attempts + 1, startedAt := Some(now),
                     leaseOwner := Some(worker), leaseExpiresAt := Some(now + lease), executionId := Some(exec),
                     errorMessage := None, updatedAt := now)
                && jobs == old(jobs)[candidate.id := job.value]
      ensures audit == old(audit) && records == old(records)
    {
      if candidate.id !in jobs || !Due(jobs[candidate.id], now) {
        return None;
      }
      var row := jobs[candidate.id].(
        status := Running, attempts := candidate.attempts + 1, startedAt := Some(now), leaseOwner := Some(worker),
        leaseExpiresAt := Some(now + lease), executionId := Some(exec), errorMessage := None, updatedAt := now);
      jobs := jobs[candidate.id := row];
      job := Some(row);
    }

    /** Both halves with nothing in between: a job is claimed exactly when one is eligible, and it is first in line. */
    method ClaimNextJob(worker: WorkerId, lease: Time, exec: ExecId, now: Time) returns (job: Option<Job>)
      requires Valid()
      modifies this
      ensures Valid()
      ensures job.None? <==> forall k :: k in old(jobs) ==> !Due(old(jobs)[k], now)
      ensures job.None? ==> View() == old(View())
      ensures job.Some? ==>
                var c := job.value;
                && c.id in old(jobs) && Due(old(jobs)[c.id], now)
                && (forall k | k in old(jobs) && Due(old(jobs)[k], now) ::
                      && old(jobs)[c.id].nextRunAt <= old(jobs)[k].nextRunAt
                      && (old(jobs)[c.id].nextRunAt == old(jobs)[k].nextRunAt ==>
                            old(jobs)[c.id].createdAt <= old(jobs)[k].createdAt))
                && jobs == old(jobs)[c.id := c]
      ensures job.Some? ==>
                && IsNext(old(jobs), job.value.id, now)
                && View() == ClaimDb(old(View()), job.value.id, old(jobs)[job.value.id].attempts, worker, lease,
                                     exec, now)
                && job.value == jobs[job.value.id]
                && Fenced(job.value, worker, Some(exec))
                && job.value.leaseExpiresAt == Some(now + lease)
                && job.value.attempts == old(jobs)[job.value.id].attempts + 1
    {
      var candidate := SelectCandidate(now);
      if candidate.None? {
        return None;
      }
      job := ClaimCandidate(candidate.value, worker, lease, exec, now);
    }

    method HeartbeatJob(id: JobId, worker: WorkerId, exec: Option<ExecId>, lease: Time, now: Time)
      returns (alive: bool)
      requires Valid()
      modifies this
      ensures Valid() && View() == HeartbeatDb(old(View()), id, worker, exec, lease, now)
      ensures alive <==> CanExtend(old(View()), id, worker, exec, now)
      ensures alive <==>
                id in old(jobs) &&
                var j := old(jobs)[id];
                && j.status == Running && j.leaseOwner == Some(worker) && j.executionId == exec
                && j.leaseExpiresAt.Some? && now <= j.leaseExpiresAt.value
      ensures jobs == if alive then
                        old(jobs)[id := old(jobs)[id].(leaseExpiresAt := Some(now + lease), updatedAt := now)]
                      else old(jobs)
      ensures audit == old(audit) && records == old(records)
    {
      alive := CanExtend(View(), id, worker, exec, now);
      if alive {
        jobs := jobs[id := jobs[id].(leaseExpiresAt := Some(now + lease), updatedAt := now)];
      }
    }

    /**
     * Two UPDATEs in sequence. Together they change each expired row exactly once, requeueing it or
     * failing it by its attempts, touch no other row, and count what they changed.
     */
    method RecoverExpiredJobs(now: Time) returns (count: nat)
      requires Valid()
      modifies this
      ensures Valid() && View() == SweepDb(old(View()), now)
      ensures count == |ExpiredRows(old(jobs), now)|
      ensures ExpiredRows(jobs, now) == {}
      ensures jobs.Keys == old(jobs).Keys && audit == old(audit) && records == old(records)
      ensures forall k | k in old(jobs) ::
                var j := old(jobs)[k];
                jobs[k] ==
                  if j.status != Running || j.leaseExpiresAt.None? || now <= j.leaseExpiresAt.value then j
                  else if j.attempts < j.maxAttempts then
                    j.(status := Queued, nextRunAt := now, leaseOwner := None, leaseExpiresAt := None,
                       executionId := None, errorMessage := Some("Worker lease expired; job recovered."),
                       updatedAt := now)
                  else
                    j.(status := Failed, failedAt := Some(now), leaseOwner := None, leaseExpiresAt := None,
                       executionId := None, updatedAt := now,
                       errorMessage := Some("Worker lease expired after the maximum number of attempts."))
    {
      TwoUpdatesMakeASweep(View(), now);
      SweepLeavesNoneExpired(View(), now);
      var recovered := |Matched(jobs, ToRequeue, now)|;
      jobs := RequeueUpdate(jobs, now);
      var terminal := |Matched(jobs, ToFail, now)|;
      jobs := FailUpdate(jobs, now);
      count := recovered + terminal;
    }

    method RequestJobRun(id: JobId, now: Time) returns (r: Result<Job, RunRequestError>)
      requires Valid() && id in jobs
      modifies this
      ensures Valid() && View() == RequestRunDb(old(View()), id, now)
      ensures match old(jobs)[id].status
              case Completed => r == Failure(AlreadyCompleted)
              case Running => r == Failure(AlreadyRunning)
              case _ => r == Success(jobs[id]) && Due(jobs[id], now)
      ensures r.Failure? ==> jobs == old(jobs) && audit == old(audit)
      ensures r.Success? ==>
                var j := old(jobs)[id];
                && r.value == j.(status := Queued, nextRunAt := now, errorMessage := None, leaseOwner := None,
                                 leaseExpiresAt := None, executionId := None, updatedAt := now,
                                 failedAt := if j.status == Failed then None else j.failedAt,
                                 attempts := if j.status == Failed then 0 else j.attempts)
                && jobs == old(jobs)[id := r.value] && audit == old(audit) + [RunRequested(id)]
      ensures records == old(records)
    {
      var job := jobs[id];
      if job.status == Completed {
        return Failure(AlreadyCompleted);
      }
      if job.status == Running {
        return Failure(AlreadyRunning);
      }
      if job.status == Failed {
        job := job.(status := Queued, failedAt := None, attempts := 0);
      }
      job := job.(nextRunAt := now, errorMessage := None);
      job := job.(leaseOwner := None, leaseExpiresAt := None, executionId := None, updatedAt := now);
      jobs := jobs[id := job];
      audit := audit + [RunRequested(id)];
      r := Success(job);
    }

    /** `held` is the worker's copy of the row; the fence compares the row with its execution id. */
    method CompleteJob(held: Job, worker: WorkerId, now: Time) returns (completed: bool)
      requires Valid()
      modifies this
      ensures Valid() && View() == CompleteDb(old(View()), held.id, worker, held.executionId, now)
      ensures completed <==> CanClose(old(View()), held.id, worker, held.executionId)
      ensures completed <==>
                held.id in old(jobs) &&
                var j := old(jobs)[held.id];
                j.status == Running && j.leaseOwner == Some(worker) && j.executionId == held.executionId
      ensures records == old(records)
      ensures !completed ==> jobs == old(jobs) && audit == old(audit)
      ensures completed ==>
                && jobs == old(jobs)[held.id := old(jobs)[held.id].(
                     status := Completed, completedAt := Some(now), leaseOwner := None, leaseExpiresAt := None,
                     updatedAt := now)]
                && audit == old(audit) + [StatusUpdated(held.id, Completed, held.executionId)]
    {
      completed := CanClose(View(), held.id, worker, held.executionId);
      if completed {
        jobs := jobs[held.id := jobs[held.id].(status := Completed, completedAt := Some(now), leaseOwner := None,
                                                leaseExpiresAt := None, updatedAt := now)];
        audit := audit + [StatusUpdated(held.id, Completed, held.executionId)];
      }
    }

    /** Reports `Queued` also when the fence kept the update out. */
    method FailJob(held: Job, worker: WorkerId, error: WorkError, retry: RetrySettings, now: Time)
      returns (outcome: Status)
      requires Valid()
      modifies this
      ensures Valid() && View() == FailDb(old(View()), held, worker, error, retry, now)
      ensures outcome == Failed <==>
                Terminal(held, error) && CanClose(old(View()), held.id, worker, held.executionId)
      ensures outcome == Failed || outcome == Queued
      ensures records == old(records)
      ensures var matched := held.id in old(jobs) && old(jobs)[held.id].status == Running &&
                             old(jobs)[held.id].leaseOwner == Some(worker) &&
                             old(jobs)[held.id].executionId == held.executionId;
              var terminal := error.kind != OtherError || held.maxAttempts <= held.attempts;
              && (outcome == Failed <==> matched && terminal)
              && (!matched ==> jobs == old(jobs) && audit == old(audit))
              && (matched && terminal ==>
                    && jobs == old(jobs)[held.id := old(jobs)[held.id].(
                         status := Failed, failedAt := Some(now), errorMessage := Some(error.message),
                         leaseOwner := None, leaseExpiresAt := None, updatedAt := now)]
                    && audit == old(audit) + [StatusUpdated(held.id, Failed, held.executionId)])
              && (matched && !terminal ==>
                    && jobs == old(jobs)[held.id := old(jobs)[held.id].(
                         status := Queued, errorMessage := Some(error.message), leaseOwner := None,
                         leaseExpiresAt := None, updatedAt := now,
                         nextRunAt := now + RetryDelay(held.attempts, retry.base, retry.maximum))]
                    && audit == old(audit) + [StatusUpdated(held.id, Queued, held.executionId)])
    {
      var terminal := !Retryable(error) || held.attempts >= held.maxAttempts;
      var matched := CanClose(View(), held.id, worker, held.executionId);
      if matched {
        var row := jobs[held.id].(errorMessage := Some(error.message), leaseOwner := None,
                                  leaseExpiresAt := None, updatedAt := now);
        if terminal {
          row := row.(status := Failed, failedAt := Some(now));
        } else {
          row := row.(status := Queued,
                      nextRunAt := now + RetryDelay(held.attempts, retry.base, retry.maximum));
        }
        jobs := jobs[held.id := row];
        audit := audit + [StatusUpdated(held.id, if terminal then Failed else Queued, held.executionId)];
      }
      outcome := if terminal && matched then Failed else Queued;
    }

    /** The lookup before the insert; other workers may insert between the two. */
    method FindRecord(job: JobId) returns (existing: Option<Record>)
      ensures existing.None? <==> !HasRecord(records, job)
      ensures existing.Some? ==> existing.value in records && existing.value.jobId == Some(job)
    {
      existing := None;
      for i := 0 to |records|
        invariant existing.None? <==> forall k :: 0 <= k < i ==> records[k].jobId != Some(job)
        invariant existing.Some? ==> existing.value in records && existing.value.jobId == Some(job)
      {
        if records[i].jobId == Some(job) && existing.None? {
          existing := Some(records[i]);
        }
      }
    }

    /** The insert itself: the unique index turns a second record of one job into an error. */
    method InsertRecord(jobId: Option<JobId>, payload: string) returns (r: Result<Record, WorkError>)
      requires UniqueRecords(records)
      modifies this
      ensures UniqueRecords(records) && jobs == old(jobs)
      ensures r.Failure? <==> jobId.Some? && HasRecord(old(records), jobId.value)
      ensures r.Failure? ==> r.error == INTEGRITY_ERROR && View() == old(View())
      ensures r.Success? ==>
                r.value == Record(jobId, payload) && View() == AppendRecord(old(View()), jobId, payload)
      ensures records == old(records) + (if r.Success? then [Record(jobId, payload)] else [])
      ensures audit == old(audit) + (if r.Success? then [RecordExtracted(jobId)] else [])
    {
      if jobId.Some? {
        var clash := FindRecord(jobId.value);
        if clash.Some? {
          return Failure(INTEGRITY_ERROR);
        }
      }
      var record := Record(jobId, payload);
      records := records + [record];
      audit := audit + [RecordExtracted(jobId)];
      r := Success(record);
    }

    /**
     * Lookup, then insert; `rival` is what another worker stores between the two. A record found is returned
     * and stays the only one; otherwise this one becomes it, unless the rival has beaten it to the job.
     */
    method CreateExtractedRecord(jobId: Option<JobId>, payload: string, rival: Option<Record>)
      returns (r: Result<Record, WorkError>)
      requires UniqueRecords(records)
      modifies this
      ensures UniqueRecords(records) && jobs == old(jobs)
      ensures var known := jobId.Some? && HasRecord(old(records), jobId.value);
              && (known ==> r.Success? && r.value in records && r.value.jobId == jobId && View() == old(View()))
              && (!known ==>
                    && (r.Failure? <==> jobId.Some? && rival.Some? && rival.value.jobId == jobId)
                    && (r.Failure? ==> r.error == INTEGRITY_ERROR && View() == Interfered(old(View()), rival))
                    && (r.Success? ==>
                          && r.value == Record(jobId, payload)
                          && View() == AppendRecord(Interfered(old(View()), rival), jobId, payload)))
      ensures r.Success? ==> r.value in records
      ensures var known := jobId.Some? && HasRecord(old(records), jobId.value);
              var refused := rival.None? ||
                             (rival.value.jobId.Some? && HasRecord(old(records), rival.value.jobId.value));
              var rivals := if refused then [] else [rival.value];
              && (known ==> records == old(records))
              && (!known ==> records == old(records) + rivals + (if r.Success? then [Record(jobId, payload)] else []))
    {
      if jobId.Some? {
        var existing := FindRecord(jobId.value);
        if existing.Some? {
          return Success(existing.value);
        }
      }
      if rival.Some? {
        var _ := InsertRecord(rival.value.jobId, rival.value.payload);
      }
      if jobId.Some? {
        RivalDecides(old(View()), rival, jobId.value);
      }
      r := InsertRecord(jobId, payload);
    }
  }
}
