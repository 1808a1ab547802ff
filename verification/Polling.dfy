/** A poll of the worker is a run of the protocol, so what is proved of all runs holds of it. */
module Polling {
  import opened Wrappers
  import opened Jobs
  import opened Protocol
  import opened Worker

  /** The run leads from s to s' and leaves the execution as it was, but for its work, lease and closing. */
  ghost predicate Reaches(s: Sys, steps: seq<Step>, s': Sys, exec: ExecId, work: Work) {
    && ValidRun(s, steps) && Run(s, steps) == s'
    && exec in s.execs && exec in s'.execs
    && s'.execs[exec].held == s.execs[exec].held && s'.execs[exec].worker == s.execs[exec].worker
    && s'.execs[exec].work == work
  }

  lemma ReachesInOne(s: Sys, step: Step, exec: ExecId)
    requires Enabled(s, step) && exec in s.execs
    requires var s' := Apply(s, step);
             && exec in s'.execs && s'.execs[exec].held == s.execs[exec].held
             && s'.execs[exec].worker == s.execs[exec].worker
    ensures Reaches(s, [step], Apply(s, step), exec, Apply(s, step).execs[exec].work)
  {
    assert [step][1..] == [];
  }

  lemma ReachesInTurn(
    s: Sys, first: seq<Step>, between: Sys, rest: seq<Step>, s': Sys, exec: ExecId, before: Work, after: Work)
    requires Reaches(s, first, between, exec, before) && Reaches(between, rest, s', exec, after)
    ensures Reaches(s, first + rest, s', exec, after)
  {
    RunsCompose(s, first, rest);
  }

  // ---- the handler ----

  lemma ExtractRun(s: Sys, exec: ExecId, calls: nat, result: Work) returns (s': Sys)
    requires exec in s.execs && s.execs[exec].work.Fresh? && calls <= s.extractionLimit && EndsExtraction(result)
    ensures Reaches(s, [Extract(exec, calls, result)], s', exec, result) && s'.db == s.db
  {
    var step := Extract(exec, calls, result);
    s' := Apply(s, step);
    ReachesInOne(s, step, exec);
  }

  lemma LookUpRun(s: Sys, exec: ExecId) returns (s': Sys)
    requires exec in s.execs && s.execs[exec].work.Extracted?
    ensures Reaches(s, [LookUpRecord(exec)], s', exec,
                    if HasRecord(s.db.records, s.execs[exec].held.id) then Stored else NoRecordSeen)
    ensures s'.db == s.db
  {
    s' := Apply(s, LookUpRecord(exec));
    ReachesInOne(s, LookUpRecord(exec), exec);
  }

  lemma InsertRun(s: Sys, exec: ExecId, payload: string) returns (s': Sys)
    requires exec in s.execs && s.execs[exec].work.NoRecordSeen?
    requires !HasRecord(s.db.records, s.execs[exec].held.id)
    ensures Reaches(s, [InsertRecord(exec, payload)], s', exec, Stored)
    ensures s'.db == AppendRecord(s.db, Some(s.execs[exec].held.id), payload)
  {
    s' := Apply(s, InsertRecord(exec, payload));
    ReachesInOne(s, InsertRecord(exec, payload), exec);
  }

  /** Storing a payload without a rival is a lookup, and an insert if it finds nothing. */
  lemma StoringRun(
    s: Sys, exec: ExecId, document: Document, payload: string, after: Db, trace: Trace)
    returns (steps: seq<Step>, s': Sys)
    requires exec in s.execs && s.execs[exec].work.Extracted? && document.rival.None?
    requires Storing(document, payload, s.db, after, s.execs[exec].held.id, trace)
    ensures Reaches(s, steps, s', exec, trace.work) && s'.db == after
  {
    var id := s.execs[exec].held.id;
    s' := LookUpRun(s, exec);
    steps := [LookUpRecord(exec)];
    if !HasRecord(s.db.records, id) {
      var between := s';
      s' := InsertRun(between, exec, payload);
      ReachesInTurn(s, steps, between, [InsertRecord(exec, payload)], s', exec, NoRecordSeen, Stored);
      steps := steps + [InsertRecord(exec, payload)];
    }
  }

  /** What the handler does, refusals and failures included. */
  lemma HandlerRun(s: Sys, exec: ExecId, document: Document, after: Db, trace: Trace)
    returns (steps: seq<Step>, s': Sys)
    requires exec in s.execs && s.execs[exec].work.Fresh? && document.rival.None?
    requires Handled(document, s.extractionLimit, s.db, after, s.execs[exec].held.id, trace)
    ensures Reaches(s, steps, s', exec, trace.work) && s'.db == after
  {
    if document.input.Some? || document.parse.Some? {
      return [], s;
    }
    if trace.extraction.Failure? {
      s' := ExtractRun(s, exec, trace.calls, trace.work);
      return [Extract(exec, trace.calls, trace.work)], s';
    }
    var between := ExtractRun(s, exec, trace.calls, Extracted);
    var rest;
    rest, s' := StoringRun(between, exec, document, trace.extraction.value, after, trace);
    steps := [Extract(exec, trace.calls, Extracted)] + rest;
    ReachesInTurn(s, [Extract(exec, trace.calls, Extracted)], between, rest, s', exec, Extracted, trace.work);
  }

  // ---- what reaches the table meanwhile ----

  lemma StrikeRun(s: Sys, exec: ExecId, now: Time) returns (s': Sys)
    requires exec in s.execs
    ensures Reaches(s, [Sweep(now)], s', exec, s.execs[exec].work) && s'.db == SweepDb(s.db, now)
  {
    s' := Apply(s, Sweep(now));
    ReachesInOne(s, Sweep(now), exec);
  }

  lemma BeatRun(s: Sys, exec: ExecId, lease: Time, now: Time) returns (s': Sys)
    requires exec in s.execs
    ensures var x := s.execs[exec];
            && Reaches(s, [Heartbeat(exec, lease, now)], s', exec, x.work)
            && s'.db == HeartbeatDb(s.db, x.held.id, x.worker, x.held.executionId, lease, now)
  {
    s' := Apply(s, Heartbeat(exec, lease, now));
    ReachesInOne(s, Heartbeat(exec, lease, now), exec);
  }

  lemma {:induction false} MeanwhileRun(s: Sys, exec: ExecId, lease: Time, beating: bool, during: seq<Disturbance>)
    returns (steps: seq<Step>, s': Sys)
    requires exec in s.execs
    ensures var x := s.execs[exec];
            && Reaches(s, steps, s', exec, x.work)
            && s'.db == Disturbed(s.db, x.held, x.worker, lease, beating, during)
    decreases |during|
  {
    if during == [] {
      return [], s;
    }
    var x := s.execs[exec];
    match during[0] {
      case Strike(now) =>
        var between := StrikeRun(s, exec, now);
        var rest;
        rest, s' := MeanwhileRun(between, exec, lease, beating, during[1..]);
        steps := [Sweep(now)] + rest;
        ReachesInTurn(s, [Sweep(now)], between, rest, s', exec, x.work, x.work);
      case Beat(now) =>
        if beating {
          var alive := CanExtend(s.db, x.held.id, x.worker, x.held.executionId, now);
          var between := BeatRun(s, exec, lease, now);
          var rest;
          rest, s' := MeanwhileRun(between, exec, lease, alive, during[1..]);
          steps := [Heartbeat(exec, lease, now)] + rest;
          ReachesInTurn(s, [Heartbeat(exec, lease, now)], between, rest, s', exec, x.work, x.work);
        } else {
          steps, s' := MeanwhileRun(s, exec, lease, false, during[1..]);
        }
    }
  }

  // ---- the close ----

  lemma CloseRun(
    s: Sys, exec: ExecId, failure: Option<WorkError>, retry: RetrySettings, now: Time) returns (step: Step, s': Sys)
    requires exec in s.execs
    requires failure.None? ==> s.execs[exec].work.Stored?
    requires failure.Some? ==> MayRaise(s.execs[exec].work, failure.value)
    ensures var x := s.execs[exec];
            && Reaches(s, [step], s', exec, x.work)
            && s'.db == CloseDb(s.db, x.held, x.worker, failure, retry, now)
  {
    step := if failure.None? then Complete(exec, now) else Fail(exec, failure.value, retry, now);
    s' := Apply(s, step);
    ReachesInOne(s, step, exec);
  }

  // ---- the poll ----

  lemma OpeningRun(s: Sys, poll: Poll, job: JobId) returns (s': Sys)
    requires poll.exec !in s.execs && RowsById(s.db)
    requires IsNext(SweepDb(s.db, poll.times.sweep).jobs, job, poll.times.claim)
    ensures var steps := [Sweep(poll.times.sweep),
                          Claim(job, poll.worker, poll.settings.leaseSeconds, poll.exec, poll.times.claim)];
            && ValidRun(s, steps) && Run(s, steps) == s'
    ensures s'.db == ClaimedDb(poll, s.db, job) && s'.extractionLimit == s.extractionLimit
    ensures job in s'.db.jobs && poll.exec in s'.execs
    ensures var x := s'.execs[poll.exec];
            x.held == s'.db.jobs[job] && x.held.id == job && x.worker == poll.worker && x.work == Fresh
  {
    var sweep := Sweep(poll.times.sweep);
    var claim := Claim(job, poll.worker, poll.settings.leaseSeconds, poll.exec, poll.times.claim);
    var swept := Apply(s, sweep);
    s' := Apply(swept, claim);
    assert [sweep][1..] == [] && [claim][1..] == [];
    assert Run(s, [sweep]) == swept && Run(swept, [claim]) == s';
    RunsCompose(s, [sweep], [claim]);
    assert [sweep] + [claim] == [sweep, claim];
  }

  /**
   * Whatever table the poll started from, the table it left is the one a run of the protocol leaves: sweep,
   * claim, extraction, record lookup and insert, with heartbeats and other sweeps, and complete or fail.
   */
  lemma PollIsARun(s: Sys, poll: Poll, after: Db, job: JobId, worked: Db, trace: Trace)
    returns (steps: seq<Step>)
    requires poll.exec !in s.execs && RowsById(s.db) && poll.document.rival.None?
    requires s.extractionLimit == poll.settings.extractionMaxAttempts
    requires Polled(poll, s.db, after, job, worked, trace)
    ensures ValidRun(s, steps) && Run(s, steps).db == after
  {
    var exec, lease := poll.exec, poll.settings.leaseSeconds;
    var claimed := OpeningRun(s, poll, job);
    var opening := [Sweep(poll.times.sweep), Claim(job, poll.worker, lease, exec, poll.times.claim)];
    var working, s1 := HandlerRun(claimed, exec, poll.document, worked, trace);
    var meanwhile, s2 := MeanwhileRun(s1, exec, lease, true, poll.times.during);
    HandlerFitsProtocol(poll.document, s.extractionLimit, claimed.db, worked, job, trace);
    var close, s3 := CloseRun(s2, exec, FailureOf(trace), poll.settings.retry, poll.times.close);
    ReachesInTurn(claimed, working, s1, meanwhile, s2, exec, trace.work, trace.work);
    ReachesInTurn(claimed, working + meanwhile, s2, [close], s3, exec, trace.work, trace.work);
    steps := opening + (working + meanwhile + [close]);
    RunsCompose(s, opening, working + meanwhile + [close]);
  }

  /** Hence a poll keeps what every run keeps. */
  lemma PollKeepsInv(s: Sys, poll: Poll, after: Db, job: JobId, worked: Db, trace: Trace)
    requires Inv(s)
    requires poll.exec !in s.execs && RowsById(s.db) && poll.document.rival.None?
    requires s.extractionLimit == poll.settings.extractionMaxAttempts
    requires Polled(poll, s.db, after, job, worked, trace)
    ensures exists s': Sys :: Inv(s') && s'.db == after
  {
    var steps := PollIsARun(s, poll, after, job, worked, trace);
    RunKeepsInv(s, steps);
  }
}
