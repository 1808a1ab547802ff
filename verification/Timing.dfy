/** Guarantees that speak of time: lease exclusion, heartbeats, backoff and bounded overtaking. */
module Timing {
  import opened Wrappers
  import opened Backoff
  import opened Jobs
  import opened Protocol
  import opened Guarantees
  import opened Queue
  import opened Clock

  predicate SelfClosed(x: Execution) {
    exists i :: 0 <= i < |x.closes| && !x.closes[i].how.Recovery?
  }

  /** The job's row names `exec` as its running owner, with the lease last granted to it. */
  ghost predicate Owns(w: World, exec: ExecId)
    requires exec in w.sys.execs
  {
    var x := w.sys.execs[exec];
    && Holds(w.sys, exec)
    && w.sys.db.jobs[x.held.id].leaseExpiresAt == Some(x.leaseTo)
  }

  ghost predicate IsCallBy(ev: Event, exec: ExecId) {
    ev.action.Do? && CallBy(ev.action.step, exec)
  }

  predicate IsBeat(ev: Event, exec: ExecId) {
    ev.action.Do? && ev.action.step.Heartbeat? && ev.action.step.exec == exec
  }

  // ---- lease exclusion ----

  lemma OtherwiseRecovered(x: Execution)
    requires !SelfClosed(x)
    ensures x.closes == [] || x.closes[0].how.Recovery?
  {
    if x.closes != [] {
      var first := x.closes[0];
    }
  }

  lemma UnexpiredLeaseOwns(w: World, exec: ExecId)
    requires Sound(w) && exec in w.sys.execs
    requires w.clock <= w.sys.execs[exec].leaseTo && !SelfClosed(w.sys.execs[exec])
    ensures Owns(w, exec) && w.sys.execs[exec].closes == []
  {
    assert ExecOk(w.sys, exec) && ClosesOk(w, exec);
    var x := w.sys.execs[exec];
    OtherwiseRecovered(x);
    assert RowLeased(w.sys, x.held.id);
  }

  /**
   * Until the lease last granted to it runs out, an execution that has not closed itself owns its job,
   * and no other open execution has that job, whatever all the others did in the meantime.
   */
  lemma LeaseExclusion(w: World, events: seq<Event>, exec: ExecId)
    requires Sound(w) && ValidHistory(w, events) && exec in After(w, events).sys.execs
    requires var w' := After(w, events);
             w'.clock <= w'.sys.execs[exec].leaseTo && !SelfClosed(w'.sys.execs[exec])
    ensures var w' := After(w, events);
            && Owns(w', exec)
            && (forall other | other in w'.sys.execs && w'.sys.execs[other].closes == [] &&
                  w'.sys.execs[other].held.id == w'.sys.execs[exec].held.id :: other == exec)
  {
    var w' := After(w, events);
    HistoryKeepsSound(w, events);
    UnexpiredLeaseOwns(w', exec);
    forall other | other in w'.sys.execs && w'.sys.execs[other].closes == []
                   && w'.sys.execs[other].held.id == w'.sys.execs[exec].held.id
      ensures other == exec
    {
      OneLeaseHolder(w'.sys, exec, other);
    }
  }

  /** Only its own calls close an execution otherwise than by recovery, or change the lease granted to it. */
  lemma OthersLeaveItsLease(w: World, ev: Event, exec: ExecId)
    requires Sound(w) && Allowed(w, ev) && exec in w.sys.execs && !IsCallBy(ev, exec)
    ensures var w' := Tick(w, ev);
            && exec in w'.sys.execs
            && w'.sys.execs[exec].leaseTo == w.sys.execs[exec].leaseTo
            && (SelfClosed(w'.sys.execs[exec]) ==> SelfClosed(w.sys.execs[exec]))
  {
    if ev.action.Do? {
      OtherStepsLeaveItsLease(w.sys, ev.action.step, exec);
    }
  }

  lemma OtherStepsLeaveItsLease(s: Sys, step: Step, exec: ExecId)
    requires Leases(s) && Enabled(s, step) && exec in s.execs && !CallBy(step, exec)
    ensures var s' := Apply(s, step);
            && exec in s'.execs
            && s'.execs[exec].leaseTo == s.execs[exec].leaseTo
            && (SelfClosed(s'.execs[exec]) ==> SelfClosed(s.execs[exec]))
  {
    if step.Sweep? {
      SweepLeavesItsLease(s, step, exec);
    } else if step.Complete? || step.Fail? || step.Heartbeat? {
      CallLeavesOthers(s, step, exec);
    } else {
      OtherHistory(s, step, exec);
      assert Apply(s, step).execs[exec].closes == s.execs[exec].closes;
    }
  }

  lemma SweepLeavesItsLease(s: Sys, step: Step, exec: ExecId)
    requires Leases(s) && Enabled(s, step) && exec in s.execs && step.Sweep?
    ensures exec in Apply(s, step).execs && Apply(s, step).execs[exec].leaseTo == s.execs[exec].leaseTo
    ensures SelfClosed(Apply(s, step).execs[exec]) ==> SelfClosed(s.execs[exec])
  {
    assert ExecOk(s, exec);
  }

  lemma CallLeavesOthers(s: Sys, step: Step, exec: ExecId)
    requires Enabled(s, step) && exec in s.execs
    requires (step.Complete? || step.Fail? || step.Heartbeat?) && !CallBy(step, exec)
    ensures exec in Apply(s, step).execs && Apply(s, step).execs[exec] == s.execs[exec]
  {
  }

  /** While its lease lasts, nobody but the execution itself can end its ownership. */
  lemma {:induction false} OnlyItsOwnerEndsALiveLease(w: World, events: seq<Event>, exec: ExecId)
    requires Sound(w) && ValidHistory(w, events) && exec in w.sys.execs && !SelfClosed(w.sys.execs[exec])
    requires forall i :: 0 <= i < |events| ==> !IsCallBy(events[i], exec)
    ensures var w' := After(w, events);
            && exec in w'.sys.execs
            && w'.sys.execs[exec].leaseTo == w.sys.execs[exec].leaseTo
            && (w'.clock <= w.sys.execs[exec].leaseTo ==> Owns(w', exec))
    decreases |events|
  {
    if events == [] {
      if w.clock <= w.sys.execs[exec].leaseTo { UnexpiredLeaseOwns(w, exec); }
    } else {
      OthersLeaveItsLease(w, events[0], exec);
      EventKeepsSound(w, events[0]);
      OnlyItsOwnerEndsALiveLease(Tick(w, events[0]), events[1..], exec);
    }
  }

  lemma LateHeartbeatFails(w: World, ev: Event, exec: ExecId)
    requires Sound(w) && Allowed(w, ev) && exec in w.sys.execs && IsBeat(ev, exec)
    requires w.sys.execs[exec].leaseTo < ev.action.step.now
    ensures Tick(w, ev).sys == w.sys
  {
    assert ExecOk(w.sys, exec);
    assert RowLeased(w.sys, w.sys.execs[exec].held.id);
  }

  lemma ClosingCallsKeepLease(w: World, ev: Event, exec: ExecId)
    requires Sound(w) && Allowed(w, ev) && exec in w.sys.execs && IsCallBy(ev, exec)
    requires !ev.action.step.Heartbeat?
    ensures exec in Tick(w, ev).sys.execs
    ensures Tick(w, ev).sys.execs[exec].leaseTo == w.sys.execs[exec].leaseTo
  {
  }

  /** Every heartbeat of the execution among the events reads its clock after `instant`. */
  predicate BeatsAfter(events: seq<Event>, exec: ExecId, instant: Time) {
    forall i :: 0 <= i < |events| && IsBeat(events[i], exec) ==> instant < events[i].action.step.now
  }

  /** Heartbeats that read their clock after the lease has run out never succeed, so the lease is never revived. */
  lemma {:induction false} ExpiredLeaseIsNeverRevived(w: World, events: seq<Event>, exec: ExecId)
    requires Sound(w) && ValidHistory(w, events) && exec in w.sys.execs
    requires BeatsAfter(events, exec, w.sys.execs[exec].leaseTo)
    ensures var w' := After(w, events);
            && exec in w'.sys.execs
            && w'.sys.execs[exec].leaseTo == w.sys.execs[exec].leaseTo
            && (forall ev | Allowed(w', ev) && IsBeat(ev, exec) && w'.sys.execs[exec].leaseTo < ev.action.step.now ::
                  Tick(w', ev).sys == w'.sys)
    decreases |events|
  {
    if events == [] {
      forall ev | Allowed(w, ev) && IsBeat(ev, exec) && w.sys.execs[exec].leaseTo < ev.action.step.now
        ensures Tick(w, ev).sys == w.sys
      {
        LateHeartbeatFails(w, ev, exec);
      }
    } else {
      var ev := events[0];
      if !IsCallBy(ev, exec) {
        OthersLeaveItsLease(w, ev, exec);
      } else if ev.action.step.Heartbeat? {
        LateHeartbeatFails(w, ev, exec);
      } else {
        ClosingCallsKeepLease(w, ev, exec);
      }
      EventKeepsSound(w, ev);
      assert forall i :: 0 <= i < |events[1..]| ==> events[1..][i] == events[i + 1];
      ExpiredLeaseIsNeverRevived(Tick(w, ev), events[1..], exec);
    }
  }

  // ---- heartbeat continuity ----

  /**
   * The execution does not close itself, and each beat reads its clock after the one before and takes effect
   * within `lease` of the instant that one read, asking for `lease` again.
   */
  ghost predicate Punctual(events: seq<Event>, exec: ExecId, lease: Time, last: Time) {
    events == [] ||
    if IsBeat(events[0], exec) then
      && events[0].action.step.lease == lease
      && last < events[0].action.step.now
      && events[0].at <= last + lease
      && Punctual(events[1..], exec, lease, events[0].action.step.now)
    else
      !IsCallBy(events[0], exec) && Punctual(events[1..], exec, lease, last)
  }

  function LastBeat(events: seq<Event>, exec: ExecId, last: Time): Time {
    if events == [] then last
    else LastBeat(events[1..], exec, if IsBeat(events[0], exec) then events[0].action.step.now else last)
  }

  /** Every heartbeat of the execution finds its lease alive and pushes the expiry out. */
  ghost predicate AllBeatsSucceed(w: World, events: seq<Event>, exec: ExecId)
    requires ValidHistory(w, events)
    decreases |events|
  {
    if events == [] then true
    else
      && (IsBeat(events[0], exec) ==>
            && exec in w.sys.execs
            && Owns(w, exec)
            && var w' := Tick(w, events[0]);
               exec in w'.sys.execs && Owns(w', exec) && w.sys.execs[exec].leaseTo < w'.sys.execs[exec].leaseTo)
      && AllBeatsSucceed(Tick(w, events[0]), events[1..], exec)
  }

  lemma TimelyBeatSucceeds(w: World, ev: Event, exec: ExecId, lease: Time, last: Time)
    requires Sound(w) && Allowed(w, ev) && exec in w.sys.execs && IsBeat(ev, exec)
    requires !SelfClosed(w.sys.execs[exec]) && w.sys.execs[exec].leaseTo == last + lease
    requires last < ev.action.step.now && ev.action.step.lease == lease && ev.at <= last + lease
    ensures Owns(w, exec)
    ensures var w' := Tick(w, ev);
            && exec in w'.sys.execs
            && w'.sys.execs[exec].leaseTo == ev.action.step.now + lease
            && w'.sys.execs[exec].closes == []
            && Owns(w', exec)
  {
    UnexpiredLeaseOwns(w, exec);
    assert ExecOk(w.sys, exec);
  }

  /**
   * A worker that beats at least once per lease keeps its job: every heartbeat succeeds, the expiry only
   * moves forward, and it owns the job until the last beat plus the lease.
   */
  lemma {:induction false} HeartbeatContinuity(w: World, events: seq<Event>, exec: ExecId, lease: Time, last: Time)
    requires Sound(w) && ValidHistory(w, events) && exec in w.sys.execs
    requires !SelfClosed(w.sys.execs[exec]) && w.sys.execs[exec].leaseTo == last + lease
    requires Punctual(events, exec, lease, last)
    ensures AllBeatsSucceed(w, events, exec)
    ensures var w' := After(w, events);
            var beat := LastBeat(events, exec, last);
            && last <= beat
            && exec in w'.sys.execs
            && w'.sys.execs[exec].leaseTo == beat + lease
            && (w'.clock <= beat + lease ==> Owns(w', exec))
    decreases |events|
  {
    if events == [] {
      if w.clock <= last + lease { UnexpiredLeaseOwns(w, exec); }
    } else {
      var ev := events[0];
      EventKeepsSound(w, ev);
      if IsBeat(ev, exec) {
        TimelyBeatSucceeds(w, ev, exec, lease, last);
        HeartbeatContinuity(Tick(w, ev), events[1..], exec, lease, ev.action.step.now);
      } else {
        OthersLeaveItsLease(w, ev, exec);
        HeartbeatContinuity(Tick(w, ev), events[1..], exec, lease, last);
      }
    }
  }

  // ---- the queue ----

  predicate IsRequestFor(ev: Event, id: JobId) {
    ev.action.Do? && ev.action.step.RequestRun? && ev.action.step.id == id
  }

  lemma QueuedRowStays(w: World, ev: Event, id: JobId)
    requires Sound(w) && Allowed(w, ev) && id in w.sys.db.jobs && w.sys.db.jobs[id].status == Queued
    requires !IsRequestFor(ev, id) && !IsClaimOf(w, ev, id)
    ensures id in Tick(w, ev).sys.db.jobs && Tick(w, ev).sys.db.jobs[id] == w.sys.db.jobs[id]
  {
    if ev.action.Do? {
      var step := ev.action.step;
      QueuedStaysPut(w.sys, step, id);
      StepPlace(w.sys, step, id, PlaceOf(w.sys.db.jobs[id]));
    }
  }

  lemma QueuedStaysPut(s: Sys, step: Step, id: JobId)
    requires Enabled(s, step) && id in s.db.jobs && s.db.jobs[id].status == Queued
    requires !(step.RequestRun? && step.id == id)
    ensures !Requeues(s, step, id)
  {
  }

  // ---- backoff ----

  /** The first claim of job `id` among the events, if there is one, captures an instant no earlier than `due`. */
  ghost predicate NextClaimNotBefore(w: World, events: seq<Event>, id: JobId, due: Time)
    requires ValidHistory(w, events)
    decreases |events|
  {
    events == [] ||
    if IsClaimOf(w, events[0], id) then due <= w.pending[events[0].action.ticket].now <= events[0].at
    else NextClaimNotBefore(Tick(w, events[0]), events[1..], id, due)
  }

  lemma {:induction false} QueuedJobWaits(w: World, events: seq<Event>, id: JobId)
    requires Sound(w) && ValidHistory(w, events)
    requires id in w.sys.db.jobs && w.sys.db.jobs[id].status == Queued
    requires forall i :: 0 <= i < |events| ==> !IsRequestFor(events[i], id)
    ensures NextClaimNotBefore(w, events, id, w.sys.db.jobs[id].nextRunAt)
    decreases |events|
  {
    if events != [] {
      if IsClaimOf(w, events[0], id) {
        assert w.pending[events[0].action.ticket].now <= w.clock;
      } else {
        QueuedRowStays(w, events[0], id);
        EventKeepsSound(w, events[0]);
        QueuedJobWaits(Tick(w, events[0]), events[1..], id);
      }
    }
  }

  lemma RetryableFailureRequeues(s: Sys, step: Step)
    requires Leases(s) && step.Fail? && Enabled(s, step) && Holds(s, step.exec)
    requires Retryable(step.error) && s.execs[step.exec].held.attempts < s.execs[step.exec].held.maxAttempts
    ensures var id := s.execs[step.exec].held.id;
            var row := Apply(s, step).db.jobs[id];
            && row.status == Queued
            && row.nextRunAt == step.now + RetryDelay(s.db.jobs[id].attempts, step.retry.base, step.retry.maximum)
  {
    assert ExecOk(s, step.exec);
    assert RowLeased(s, s.execs[step.exec].held.id);
  }

  /** After a retryable failure of attempt k dated t, the job is not claimed before t plus the delay of attempt k. */
  lemma {:induction false} RetryWaitsOutItsBackoff(w: World, ev: Event, events: seq<Event>)
    requires Sound(w) && Allowed(w, ev) && ev.action.Do? && ev.action.step.Fail?
    requires var step := ev.action.step;
             Holds(w.sys, step.exec) && Retryable(step.error) &&
             w.sys.execs[step.exec].held.attempts < w.sys.execs[step.exec].held.maxAttempts
    requires ValidHistory(Tick(w, ev), events)
    requires forall i :: 0 <= i < |events| ==>
               !IsRequestFor(events[i], w.sys.execs[ev.action.step.exec].held.id)
    ensures var step := ev.action.step;
            var id := w.sys.execs[step.exec].held.id;
            var row := w.sys.db.jobs[id];
            NextClaimNotBefore(Tick(w, ev), events, id,
              ev.action.step.now + RetryDelay(row.attempts, step.retry.base, step.retry.maximum))
  {
    var id := w.sys.execs[ev.action.step.exec].held.id;
    RetryableFailureRequeues(w.sys, ev.action.step);
    EventKeepsSound(w, ev);
    QueuedJobWaits(Tick(w, ev), events, id);
  }

  // ---- bounded overtaking ----

  /** A later date, or the same date and a later creation. */
  predicate StandsAfter(later: Job, earlier: Job) {
    earlier.nextRunAt < later.nextRunAt ||
    (earlier.nextRunAt == later.nextRunAt && earlier.createdAt < later.createdAt)
  }

  /** The queued jobs, job `id` included, that stand no later in line than it. */
  ghost function Ahead(w: World, id: JobId): set<JobId>
    requires id in w.sys.db.jobs
  {
    set k | k in w.sys.db.jobs && w.sys.db.jobs[k].status == Queued && !StandsAfter(w.sys.db.jobs[k], w.sys.db.jobs[id])
  }

  /** The claims of any job up to and including the first claim of job `id`. */
  ghost function ClaimsUpTo(w: World, events: seq<Event>, id: JobId): nat
    requires ValidHistory(w, events)
    decreases |events|
  {
    if events == [] then 0
    else if IsClaimOf(w, events[0], id) then 1
    else (if IsClaim(w, events[0]) then 1 else 0) + ClaimsUpTo(Tick(w, events[0]), events[1..], id)
  }

  lemma EventShrinksQueue(w: World, ev: Event, past: Time)
    requires WorldInv(w) && Allowed(w, ev) && DatedAfter(w, ev, past)
    ensures QueueShrinks(w.sys.db.jobs, Tick(w, ev).sys.db.jobs, past)
  {
    if ev.action.Do? {
      StepShrinksQueue(w, ev, past);
    } else if ev.action.Write? {
      WriteShrinksQueue(w, ev, past);
    }
  }

  /** Nobody joins the line ahead of the job, and whoever is claimed came from ahead of it and leaves. */
  lemma LineMovesUp(w: World, ev: Event, id: JobId)
    requires WorldInv(w) && Allowed(w, ev) && Safe(w, ev) && id in w.sys.db.jobs
    requires w.sys.db.jobs[id].status == Queued && DatedAfter(w, ev, w.sys.db.jobs[id].nextRunAt)
    requires !IsRequestFor(ev, id) && !IsClaimOf(w, ev, id)
    ensures id in Tick(w, ev).sys.db.jobs && Tick(w, ev).sys.db.jobs[id] == w.sys.db.jobs[id]
    ensures Ahead(Tick(w, ev), id) <= Ahead(w, id)
    ensures IsClaim(w, ev) ==> Ahead(Tick(w, ev), id) < Ahead(w, id)
  {
    var w' := Tick(w, ev);
    var due := w.sys.db.jobs[id].nextRunAt;
    QueuedRowStays(w, ev, id);
    EventKeepsInv(w, ev);
    EventShrinksQueue(w, ev, due);
    forall k | k in Ahead(w', id) ensures k in Ahead(w, id) {
      assert RowOk(w'.sys, k);
      assert Eligible(w'.sys.db.jobs[k], due);
    }
    if IsClaim(w, ev) {
      ClaimComesFromAhead(w, ev, id);
    }
  }

  lemma ClaimComesFromAhead(w: World, ev: Event, id: JobId)
    requires WorldInv(w) && Allowed(w, ev) && id in w.sys.db.jobs && IsClaim(w, ev)
    requires w.sys.db.jobs[id].status == Queued
    ensures w.pending[ev.action.ticket].id in Ahead(w, id)
    ensures id in Tick(w, ev).sys.db.jobs && w.pending[ev.action.ticket].id !in Ahead(Tick(w, ev), id)
  {
    assert PendingOk(w, ev.action.ticket);
    assert RowOk(w.sys, id);
  }

  lemma ProperSubsetIsSmaller<T>(a: set<T>, b: set<T>)
    requires a <= b
    ensures |a| <= |b| && (a < b ==> |a| < |b|)
  {
    assert b == a + (b - a);
    if a < b {
      var x :| x in b && x !in a;
      assert x in b - a;
    }
  }

  /**
   * At most as many claims are made before a queued job's own, its own included, as there are queued jobs
   * standing no later in line, as long as whatever is requeued, rerun or created is dated after the job's
   * date and after the instants captured by the claims under way.
   */
  lemma {:induction false} BoundedOvertaking(w: World, events: seq<Event>, id: JobId)
    requires WorldInv(w) && ValidHistory(w, events) && SafeHistory(w, events)
    requires id in w.sys.db.jobs && w.sys.db.jobs[id].status == Queued
    requires DatedAfterAll(w, events, w.sys.db.jobs[id].nextRunAt)
    requires forall i :: 0 <= i < |events| ==> !IsRequestFor(events[i], id)
    ensures ClaimsUpTo(w, events, id) <= |Ahead(w, id)|
    decreases |events|
  {
    assert id in Ahead(w, id);
    if events != [] && !IsClaimOf(w, events[0], id) {
      LineMovesUp(w, events[0], id);
      EventKeepsInv(w, events[0]);
      BoundedOvertaking(Tick(w, events[0]), events[1..], id);
      ProperSubsetIsSmaller(Ahead(Tick(w, events[0]), id), Ahead(w, id));
    }
  }

  /** So it is for a job that is due, when no statement that requeues is overtaken by another one. */
  lemma PromptOvertaking(w: World, events: seq<Event>, id: JobId)
    requires WorldInv(w) && ValidHistory(w, events) && PromptHistory(w, events)
    requires id in w.sys.db.jobs && w.sys.db.jobs[id].status == Queued && w.sys.db.jobs[id].nextRunAt <= w.clock
    requires forall i :: 0 <= i < |events| ==> !IsRequestFor(events[i], id)
    ensures ClaimsUpTo(w, events, id) <= |Ahead(w, id)|
  {
    PromptHistoryIsSafe(w, events);
    PromptHistoryIsDatedAfter(w, events, w.sys.db.jobs[id].nextRunAt);
    BoundedOvertaking(w, events, id);
  }

  // ---- who goes first ----

  /** Among the events job `later` is not claimed before job `earlier`. */
  ghost predicate WaitsFor(w: World, events: seq<Event>, later: JobId, earlier: JobId)
    requires ValidHistory(w, events)
    decreases |events|
  {
    events == [] || IsClaimOf(w, events[0], earlier) ||
    (!IsClaimOf(w, events[0], later) && WaitsFor(Tick(w, events[0]), events[1..], later, earlier))
  }

  lemma LaterIsNotClaimed(w: World, ev: Event, later: JobId, earlier: JobId)
    requires WorldInv(w) && Allowed(w, ev) && later in w.sys.db.jobs && earlier in w.sys.db.jobs
    requires w.sys.db.jobs[earlier].status == Queued
    requires var a, b := w.sys.db.jobs[earlier], w.sys.db.jobs[later];
             a.nextRunAt < b.nextRunAt || (a.nextRunAt == b.nextRunAt && a.createdAt < b.createdAt)
    ensures !IsClaimOf(w, ev, later)
  {
    assert RowLeased(w.sys, earlier);
    if ev.action.Write? {
      assert PendingOk(w, ev.action.ticket);
    }
  }

  /**
   * Of two queued jobs the one with the earlier date, or of one date the one created earlier, is claimed
   * first, as long as neither is requested and the claims under way are undisturbed.
   */
  lemma {:induction false} EarlierGoesFirst(w: World, events: seq<Event>, later: JobId, earlier: JobId)
    requires WorldInv(w) && ValidHistory(w, events) && SafeHistory(w, events)
    requires later in w.sys.db.jobs && w.sys.db.jobs[later].status == Queued
    requires earlier in w.sys.db.jobs && w.sys.db.jobs[earlier].status == Queued
    requires var a, b := w.sys.db.jobs[earlier], w.sys.db.jobs[later];
             a.nextRunAt < b.nextRunAt || (a.nextRunAt == b.nextRunAt && a.createdAt < b.createdAt)
    requires forall i :: 0 <= i < |events| ==> !IsRequestFor(events[i], later) && !IsRequestFor(events[i], earlier)
    ensures WaitsFor(w, events, later, earlier)
    decreases |events|
  {
    if events != [] && !IsClaimOf(w, events[0], earlier) {
      LaterIsNotClaimed(w, events[0], later, earlier);
      QueuedRowStays(w, events[0], later);
      QueuedRowStays(w, events[0], earlier);
      EventKeepsInv(w, events[0]);
      EarlierGoesFirst(Tick(w, events[0]), events[1..], later, earlier);
    }
  }
}
