/**
 * The same protocol statement by statement, against one clock. A claim is a read of a candidate and a
 * conditional UPDATE that writes the attempt count seen by the read plus one. Every statement uses an
 * instant its worker captured at any time before; other statements may take effect in between.
 */
module Clock {
  import opened Wrappers
  import opened Backoff
  import opened Jobs
  import opened Protocol
  import opened Guarantees
  import opened Queue

  /** A claim between its read and its write: the instant it captured and what it read. */
  datatype Pending = Pending(id: JobId, attempts: int, now: Time)

  datatype World = World(sys: Sys, clock: Time, pending: map<nat, Pending>)

  datatype Action =
    | Read(ticket: nat, candidate: JobId, captured: Time)
    | Write(ticket: nat, worker: WorkerId, lease: Time, exec: ExecId)
    | Do(step: Step)

  /** `at` is when the statement takes effect. */
  datatype Event = Event(at: Time, action: Action)

  /** A step takes its instant off the clock some time before it takes effect. A job is created with any dates. */
  predicate Captured(step: Step, at: Time) {
    match step
    case Claim(_, _, _, _, _) => false
    case Heartbeat(_, _, now) => now <= at
    case Sweep(now) => now <= at
    case RequestRun(_, now) => now <= at
    case Complete(_, now) => now <= at
    case Fail(_, _, retry, now) => now <= at && retry.base >= 0.0 && retry.maximum >= 0.0
    case _ => true
  }

  ghost predicate Allowed(w: World, ev: Event) {
    && w.clock <= ev.at
    && match ev.action
       case Read(ticket, candidate, captured) =>
         ticket !in w.pending && captured <= ev.at && IsNext(w.sys.db.jobs, candidate, captured)
       case Write(ticket, _, _, exec) =>
         ticket in w.pending && exec !in w.sys.execs && w.pending[ticket].id in w.sys.db.jobs
       case Do(step) => Captured(step, ev.at) && Enabled(w.sys, step)
  }

  ghost function Tick(w: World, ev: Event): World
    requires Allowed(w, ev)
  {
    match ev.action
    case Read(ticket, candidate, captured) =>
      World(w.sys, ev.at, w.pending[ticket := Pending(candidate, w.sys.db.jobs[candidate].attempts, captured)])
    case Write(ticket, worker, lease, exec) =>
      var p := w.pending[ticket];
      World(ClaimSys(w.sys, p.id, p.attempts, worker, lease, exec, p.now), ev.at, w.pending - {ticket})
    case Do(step) =>
      World(Apply(w.sys, step), ev.at, w.pending)
  }

  ghost predicate ValidHistory(w: World, events: seq<Event>)
    decreases |events|
  {
    events == [] || (Allowed(w, events[0]) && ValidHistory(Tick(w, events[0]), events[1..]))
  }

  ghost function After(w: World, events: seq<Event>): World
    requires ValidHistory(w, events)
    decreases |events|
  {
    if events == [] then w else After(Tick(w, events[0]), events[1..])
  }

  // ---- what holds whenever the clocks are read ----

  /** A recovery happened after the lease it ended; nothing is dated in the future. */
  ghost predicate ClosesOk(w: World, exec: ExecId)
    requires exec in w.sys.execs
  {
    var x := w.sys.execs[exec];
    forall i :: 0 <= i < |x.closes| ==>
      && x.closes[i].at <= w.clock
      && (x.closes[i].how.Recovery? ==> x.leaseTo < x.closes[i].at)
  }

  /** Fencing, records and lease times: kept by every history, stale claims and late statements included. */
  ghost predicate Sound(w: World) {
    && Leases(w.sys)
    && (forall e :: e in w.sys.execs ==> ClosesOk(w, e))
    && (forall t :: t in w.pending ==> w.pending[t].now <= w.clock)
  }

  /** What a step may do to an execution's closing history: only an open one is closed, by recovery after its lease. */
  ghost predicate HistoryGrows(x: Execution, x': Execution, now: Time) {
    || (x'.closes == x.closes && (x'.leaseTo == x.leaseTo || x.closes == []))
    || (x.closes == [] && x'.leaseTo == x.leaseTo && |x'.closes| == 1 && x'.closes[0].at == now &&
        (x'.closes[0].how.Recovery? ==> x.leaseTo < now))
  }

  lemma SweepHistory(s: Sys, step: Step, exec: ExecId)
    requires Leases(s) && Enabled(s, step) && exec in s.execs && step.Sweep?
    ensures exec in Apply(s, step).execs && HistoryGrows(s.execs[exec], Apply(s, step).execs[exec], step.now)
  {
    assert ExecOk(s, exec);
    assert RowLeased(s, s.execs[exec].held.id);
  }

  lemma CallHistory(s: Sys, step: Step, exec: ExecId)
    requires Leases(s) && Enabled(s, step) && exec in s.execs
    requires step.Complete? || step.Fail? || step.Heartbeat?
    ensures exec in Apply(s, step).execs && HistoryGrows(s.execs[exec], Apply(s, step).execs[exec], step.now)
  {
    assert ExecOk(s, step.exec);
    assert RowLeased(s, s.execs[step.exec].held.id);
  }

  lemma OtherHistory(s: Sys, step: Step, exec: ExecId)
    requires Enabled(s, step) && exec in s.execs
    requires step.Create? || step.Claim? || step.RequestRun? || IsWork(step)
    ensures exec in Apply(s, step).execs
    ensures Apply(s, step).execs[exec].closes == s.execs[exec].closes
    ensures Apply(s, step).execs[exec].leaseTo == s.execs[exec].leaseTo
  {
    if IsWork(step) { WorkEffect(s, step); }
  }

  lemma ClosesCarryOver(w: World, w': World, exec: ExecId, now: Time)
    requires exec in w.sys.execs && ClosesOk(w, exec) && exec in w'.sys.execs
    requires w.clock <= w'.clock && now <= w'.clock
    requires HistoryGrows(w.sys.execs[exec], w'.sys.execs[exec], now)
    ensures ClosesOk(w', exec)
  {
  }

  lemma DoKeepsCloses(w: World, ev: Event, exec: ExecId)
    requires Sound(w) && Allowed(w, ev) && ev.action.Do? && exec in w.sys.execs
    ensures exec in Tick(w, ev).sys.execs && ClosesOk(Tick(w, ev), exec)
  {
    assert ClosesOk(w, exec);
    var step := ev.action.step;
    if step.Sweep? {
      SweepHistory(w.sys, step, exec);
    } else if step.Complete? || step.Fail? || step.Heartbeat? {
      CallHistory(w.sys, step, exec);
    } else {
      OtherHistory(w.sys, step, exec);
    }
    var dated := step.Sweep? || step.Complete? || step.Fail? || step.Heartbeat?;
    ClosesCarryOver(w, Tick(w, ev), exec, if dated then step.now else w.clock);
  }

  lemma EventKeepsCloses(w: World, ev: Event, exec: ExecId)
    requires Sound(w) && Allowed(w, ev) && exec in Tick(w, ev).sys.execs
    ensures ClosesOk(Tick(w, ev), exec)
  {
    if ev.action.Do? {
      ExecutionsStay(w.sys, ev.action.step);
      DoKeepsCloses(w, ev, exec);
    } else if exec in w.sys.execs {
      assert ClosesOk(w, exec);
    }
  }

  lemma EventKeepsLeases(w: World, ev: Event)
    requires Leases(w.sys) && Allowed(w, ev)
    ensures Leases(Tick(w, ev).sys)
  {
    match ev.action
    case Read(_, _, _) =>
    case Write(ticket, worker, lease, exec) =>
      var p := w.pending[ticket];
      ClaimSysKeepsLeases(w.sys, p.id, p.attempts, worker, lease, exec, p.now);
    case Do(step) => StepKeepsLeases(w.sys, step);
  }

  lemma EventKeepsSound(w: World, ev: Event)
    requires Sound(w) && Allowed(w, ev)
    ensures Sound(Tick(w, ev))
  {
    var w' := Tick(w, ev);
    EventKeepsLeases(w, ev);
    forall e | e in w'.sys.execs ensures ClosesOk(w', e) {
      EventKeepsCloses(w, ev, e);
    }
  }

  /**
   * Fencing does not depend on the clocks: in any history, however late the statements and however stale
   * the counts claims write, each execution is closed at most once, each running row is leased to one open
   * execution, no job gets a second record, and completed jobs have theirs.
   */
  lemma {:induction false} HistoryKeepsSound(w: World, events: seq<Event>)
    requires Sound(w) && ValidHistory(w, events)
    ensures Sound(After(w, events))
    ensures w.clock <= After(w, events).clock
    decreases |events|
  {
    if events != [] {
      EventKeepsSound(w, events[0]);
      HistoryKeepsSound(Tick(w, events[0]), events[1..]);
    }
  }

  lemma EventIsLater(w: World, ev: Event)
    requires Allowed(w, ev)
    ensures Later(w.sys, Tick(w, ev).sys)
  {
    if ev.action.Do? { StepIsLater(w.sys, ev.action.step); }
  }

  /** Nor is anything taken back: completed rows, records, audit entries and closing histories stay as they are. */
  lemma {:induction false} HistoryIsLater(w: World, events: seq<Event>)
    requires ValidHistory(w, events)
    ensures Later(w.sys, After(w, events).sys)
    decreases |events|
  {
    if events != [] {
      EventIsLater(w, events[0]);
      HistoryIsLater(Tick(w, events[0]), events[1..]);
      LaterIsTransitive(w.sys, Tick(w, events[0]).sys, After(w, events).sys);
    }
  }

  // ---- the two-phase claim refines the atomic one ----

  /** If a pending claim's candidate could still be claimed, it is as the claim read it and still first in line. */
  ghost predicate PendingOk(w: World, ticket: nat)
    requires ticket in w.pending
  {
    var p := w.pending[ticket];
    && p.id in w.sys.db.jobs
    && (Eligible(w.sys.db.jobs[p.id], p.now) ==>
          && w.sys.db.jobs[p.id].attempts == p.attempts
          && IsNext(w.sys.db.jobs, p.id, p.now))
  }

  ghost predicate WorldInv(w: World) {
    && Sound(w)
    && Counts(w.sys)
    && (forall t :: t in w.pending ==> PendingOk(w, t))
  }

  /** Whatever this event puts in the queue is dated after `past`. */
  ghost predicate DatedAfter(w: World, ev: Event, past: Time) {
    ev.action.Do? ==>
      && (ev.action.step.Create? ==> past < ev.action.step.nextRunAt)
      && (forall id :: Requeues(w.sys, ev.action.step, id) ==> past < RequeueDate(w.sys, ev.action.step, id))
  }

  ghost predicate DatedAfterAll(w: World, events: seq<Event>, past: Time)
    requires ValidHistory(w, events)
    decreases |events|
  {
    events == [] || (DatedAfter(w, events[0], past) && DatedAfterAll(Tick(w, events[0]), events[1..], past))
  }

  /** Whatever this event puts in the queue is dated after the instants captured by the claims under way. */
  ghost predicate Safe(w: World, ev: Event) {
    forall t :: t in w.pending ==> DatedAfter(w, ev, w.pending[t].now)
  }

  ghost predicate SafeHistory(w: World, events: seq<Event>)
    requires ValidHistory(w, events)
    decreases |events|
  {
    events == [] || (Safe(w, events[0]) && SafeHistory(Tick(w, events[0]), events[1..]))
  }

  /** Seen from a past instant, the queue only shrinks: whatever is eligible then is an untouched old row. */
  ghost predicate QueueShrinks(jobs: map<JobId, Job>, jobs': map<JobId, Job>, past: Time) {
    && (forall k :: k in jobs ==> k in jobs')
    && (forall k :: k in jobs' && Eligible(jobs'[k], past) ==> k in jobs && jobs[k] == jobs'[k])
  }

  lemma StepShrinksQueue(w: World, ev: Event, past: Time)
    requires Leases(w.sys) && Allowed(w, ev) && ev.action.Do? && DatedAfter(w, ev, past)
    ensures QueueShrinks(w.sys.db.jobs, Tick(w, ev).sys.db.jobs, past)
  {
    var s, step := w.sys, ev.action.step;
    var s' := Apply(s, step);
    forall k | k in s'.db.jobs && Eligible(s'.db.jobs[k], past)
      ensures k in s.db.jobs && s.db.jobs[k] == s'.db.jobs[k]
    {
      if k !in s.db.jobs {
        OnlyCreateAdds(s, step, k);
      } else {
        EligibleIsOldOrRequeued(s, step, k, past);
      }
    }
    StepIsLater(s, step);
    assert forall k :: k in s.db.jobs ==> LaterRow(s, s', k);
  }

  lemma OnlyCreateAdds(s: Sys, step: Step, k: JobId)
    requires Enabled(s, step) && k in Apply(s, step).db.jobs && k !in s.db.jobs
    ensures step.Create? && Apply(s, step).db.jobs[k].nextRunAt == step.nextRunAt
  {
  }

  lemma WriteShrinksQueue(w: World, ev: Event, past: Time)
    requires Allowed(w, ev) && ev.action.Write?
    ensures QueueShrinks(w.sys.db.jobs, Tick(w, ev).sys.db.jobs, past)
  {
  }

  lemma PendingSurvives(w: World, w': World, ticket: nat)
    requires ticket in w.pending && PendingOk(w, ticket)
    requires ticket in w'.pending && w'.pending[ticket] == w.pending[ticket]
    requires QueueShrinks(w.sys.db.jobs, w'.sys.db.jobs, w.pending[ticket].now)
    ensures PendingOk(w', ticket)
  {
  }

  /** The atomic step, if any, that an event amounts to. */
  ghost function Abstraction(w: World, ev: Event): seq<Step>
    requires Allowed(w, ev)
  {
    match ev.action
    case Read(_, _, _) => []
    case Write(ticket, worker, lease, exec) =>
      var p := w.pending[ticket];
      if Eligible(w.sys.db.jobs[p.id], p.now) then [Claim(p.id, worker, lease, exec, p.now)] else []
    case Do(step) => [step]
  }

  /**
   * A two-phase claim that succeeds has the effect of one atomic claim at the instant it captured: the
   * attempt count it writes is not stale and its candidate is still first in line. One that fails
   * changes nothing. Every other event is its own atomic step.
   */
  lemma EventRefines(w: World, ev: Event)
    requires WorldInv(w) && Allowed(w, ev)
    ensures ValidRun(w.sys, Abstraction(w, ev))
    ensures Run(w.sys, Abstraction(w, ev)) == Tick(w, ev).sys
  {
    var steps := Abstraction(w, ev);
    if ev.action.Write? {
      assert PendingOk(w, ev.action.ticket);
    }
    if steps != [] {
      assert steps[1..] == [];
    }
  }

  lemma EventKeepsPending(w: World, ev: Event, ticket: nat)
    requires WorldInv(w) && Allowed(w, ev) && Safe(w, ev) && ticket in Tick(w, ev).pending
    ensures PendingOk(Tick(w, ev), ticket)
  {
    var w' := Tick(w, ev);
    if ticket in w.pending {
      assert PendingOk(w, ticket);
      if ev.action.Do? {
        StepShrinksQueue(w, ev, w.pending[ticket].now);
      } else if ev.action.Write? {
        WriteShrinksQueue(w, ev, w.pending[ticket].now);
      }
      PendingSurvives(w, w', ticket);
    }
  }

  lemma EventKeepsCounts(w: World, ev: Event)
    requires WorldInv(w) && Allowed(w, ev)
    ensures Counts(Tick(w, ev).sys)
  {
    EventRefines(w, ev);
    RunKeepsInv(w.sys, Abstraction(w, ev));
  }

  lemma EventKeepsInv(w: World, ev: Event)
    requires WorldInv(w) && Allowed(w, ev) && Safe(w, ev)
    ensures WorldInv(Tick(w, ev))
  {
    var w' := Tick(w, ev);
    EventKeepsSound(w, ev);
    EventKeepsCounts(w, ev);
    forall t | t in w'.pending ensures PendingOk(w', t) {
      EventKeepsPending(w, ev, t);
    }
  }

  ghost function AbstractRun(w: World, events: seq<Event>): seq<Step>
    requires ValidHistory(w, events)
    decreases |events|
  {
    if events == [] then [] else Abstraction(w, events[0]) + AbstractRun(Tick(w, events[0]), events[1..])
  }

  /**
   * Refinement: as long as whatever returns to the queue is dated after the instants captured by the claims
   * under way, every interleaving of two-phase claims and other statements is a run of the protocol with
   * atomic claims, so every guarantee proved of such runs carries over.
   */
  lemma {:induction false} TwoPhaseClaimsRefineAtomicOnes(w: World, events: seq<Event>)
    requires WorldInv(w) && ValidHistory(w, events) && SafeHistory(w, events)
    ensures ValidRun(w.sys, AbstractRun(w, events))
    ensures Run(w.sys, AbstractRun(w, events)) == After(w, events).sys
    decreases |events|
  {
    if events != [] {
      EventRefines(w, events[0]);
      EventKeepsInv(w, events[0]);
      TwoPhaseClaimsRefineAtomicOnes(Tick(w, events[0]), events[1..]);
      RunsCompose(w.sys, Abstraction(w, events[0]), AbstractRun(Tick(w, events[0]), events[1..]));
    }
  }

  // ---- statements that read the clock in time ----

  /** What dates a return to the queue is read off the clock after every earlier statement has taken effect. */
  predicate Prompt(w: World, ev: Event) {
    ev.action.Do? ==>
      match ev.action.step
      case Create(_, _, nextRunAt, _) => w.clock < nextRunAt
      case Sweep(now) => w.clock < now
      case RequestRun(_, now) => w.clock < now
      case Fail(_, _, _, now) => w.clock < now
      case _ => true
  }

  ghost predicate PromptHistory(w: World, events: seq<Event>)
    requires ValidHistory(w, events)
    decreases |events|
  {
    events == [] || (Prompt(w, events[0]) && PromptHistory(Tick(w, events[0]), events[1..]))
  }

  lemma RequeuedLater(w: World, ev: Event, id: JobId)
    requires Allowed(w, ev) && Prompt(w, ev) && ev.action.Do? && Requeues(w.sys, ev.action.step, id)
    ensures w.clock < RequeueDate(w.sys, ev.action.step, id)
  {
    var step := ev.action.step;
    if step.Fail? {
      var attempts := w.sys.execs[step.exec].held.attempts;
      DelayBoundedAndMonotone(attempts, attempts, step.retry.base, step.retry.maximum);
    }
  }

  lemma PromptIsDatedAfter(w: World, ev: Event, past: Time)
    requires Allowed(w, ev) && Prompt(w, ev) && past <= w.clock
    ensures DatedAfter(w, ev, past)
  {
    if ev.action.Do? {
      forall id | Requeues(w.sys, ev.action.step, id) ensures past < RequeueDate(w.sys, ev.action.step, id) {
        RequeuedLater(w, ev, id);
      }
    }
  }

  lemma {:induction false} PromptHistoryIsDatedAfter(w: World, events: seq<Event>, past: Time)
    requires ValidHistory(w, events) && PromptHistory(w, events) && past <= w.clock
    ensures DatedAfterAll(w, events, past)
    decreases |events|
  {
    if events != [] {
      PromptIsDatedAfter(w, events[0], past);
      PromptHistoryIsDatedAfter(Tick(w, events[0]), events[1..], past);
    }
  }

  /** So the refinement applies to histories in which no statement that requeues is overtaken by another one. */
  lemma {:induction false} PromptHistoryIsSafe(w: World, events: seq<Event>)
    requires Sound(w) && ValidHistory(w, events) && PromptHistory(w, events)
    ensures SafeHistory(w, events)
    decreases |events|
  {
    if events != [] {
      forall t | t in w.pending ensures DatedAfter(w, events[0], w.pending[t].now) {
        PromptIsDatedAfter(w, events[0], w.pending[t].now);
      }
      EventKeepsSound(w, events[0]);
      PromptHistoryIsSafe(Tick(w, events[0]), events[1..]);
    }
  }

  // ---- claims as events ----

  /** This event is the successful second half of a claim of job `id`. */
  ghost predicate IsClaimOf(w: World, ev: Event, id: JobId)
    requires Allowed(w, ev)
  {
    && ev.action.Write?
    && w.pending[ev.action.ticket].id == id
    && Eligible(w.sys.db.jobs[id], w.pending[ev.action.ticket].now)
  }

  ghost predicate IsClaim(w: World, ev: Event)
    requires Allowed(w, ev)
  {
    ev.action.Write? && IsClaimOf(w, ev, w.pending[ev.action.ticket].id)
  }

  ghost function ClaimsBy(w: World, ev: Event, id: JobId): nat
    requires Allowed(w, ev)
  {
    if IsClaimOf(w, ev, id) then 1 else 0
  }

  ghost function RerunsBy(w: World, ev: Event, id: JobId): nat {
    if ev.action.Do? && Reruns(w.sys, ev.action.step, id) then 1 else 0
  }

  ghost function SinceRerun(w: World, ev: Event, id: JobId, before: nat): nat
    requires Allowed(w, ev)
  {
    if RerunsBy(w, ev, id) > 0 then 0 else before + ClaimsBy(w, ev, id)
  }

  /** The successful claims of job `id` in a history. */
  ghost function ClaimsIn(w: World, events: seq<Event>, id: JobId): nat
    requires ValidHistory(w, events)
    decreases |events|
  {
    if events == [] then 0
    else ClaimsBy(w, events[0], id) + ClaimsIn(Tick(w, events[0]), events[1..], id)
  }

  /** The reruns of job `id` in a history. */
  ghost function RerunsIn(w: World, events: seq<Event>, id: JobId): nat
    requires ValidHistory(w, events)
    decreases |events|
  {
    if events == [] then 0
    else RerunsBy(w, events[0], id) + RerunsIn(Tick(w, events[0]), events[1..], id)
  }

  /** The successful claims of job `id` after its last rerun in the history, on top of `before` if there is none. */
  ghost function ClaimsSince(w: World, events: seq<Event>, id: JobId, before: nat): nat
    requires ValidHistory(w, events)
    decreases |events|
  {
    if events == [] then before
    else ClaimsSince(Tick(w, events[0]), events[1..], id, SinceRerun(w, events[0], id, before))
  }

  lemma {:induction false} ClaimsCompose(first: seq<Step>, rest: seq<Step>, id: JobId)
    ensures Claims(first + rest, id) == Claims(first, id) + Claims(rest, id)
  {
    if first == [] {
      assert first + rest == rest;
    } else {
      assert (first + rest)[0] == first[0] && (first + rest)[1..] == first[1..] + rest;
      ClaimsCompose(first[1..], rest, id);
    }
  }

  lemma {:induction false} RerunsCompose(s: Sys, first: seq<Step>, rest: seq<Step>, id: JobId)
    requires ValidRun(s, first) && ValidRun(Run(s, first), rest) && ValidRun(s, first + rest)
    ensures RerunCount(s, first + rest, id) == RerunCount(s, first, id) + RerunCount(Run(s, first), rest, id)
    decreases |first|
  {
    if first == [] {
      assert first + rest == rest;
    } else {
      assert (first + rest)[0] == first[0] && (first + rest)[1..] == first[1..] + rest;
      RerunsCompose(Apply(s, first[0]), first[1..], rest, id);
    }
  }

  lemma {:induction false} ClaimsSinceCompose(s: Sys, first: seq<Step>, rest: seq<Step>, id: JobId, before: nat)
    requires ValidRun(s, first) && ValidRun(Run(s, first), rest) && ValidRun(s, first + rest)
    ensures ClaimsSinceRerun(s, first + rest, id, before) ==
            ClaimsSinceRerun(Run(s, first), rest, id, ClaimsSinceRerun(s, first, id, before))
    decreases |first|
  {
    if first == [] {
      assert first + rest == rest;
    } else {
      assert (first + rest)[0] == first[0] && (first + rest)[1..] == first[1..] + rest;
      var since := if Reruns(s, first[0], id) then 0
                   else if first[0].Claim? && first[0].id == id then before + 1
                   else before;
      ClaimsSinceCompose(Apply(s, first[0]), first[1..], rest, id, since);
    }
  }

  lemma AbstractionCounts(w: World, ev: Event, id: JobId, before: nat)
    requires Allowed(w, ev) && ValidRun(w.sys, Abstraction(w, ev))
    ensures Claims(Abstraction(w, ev), id) == ClaimsBy(w, ev, id)
    ensures RerunCount(w.sys, Abstraction(w, ev), id) == RerunsBy(w, ev, id)
    ensures ClaimsSinceRerun(w.sys, Abstraction(w, ev), id, before) == SinceRerun(w, ev, id, before)
  {
    var steps := Abstraction(w, ev);
    if steps != [] {
      assert steps[1..] == [];
    }
  }

  /** The abstract run counts what happened in the history. */
  lemma {:induction false} HistoryCounts(w: World, events: seq<Event>, id: JobId, before: nat)
    requires WorldInv(w) && ValidHistory(w, events) && SafeHistory(w, events)
    requires ValidRun(w.sys, AbstractRun(w, events))
    ensures Claims(AbstractRun(w, events), id) == ClaimsIn(w, events, id)
    ensures RerunCount(w.sys, AbstractRun(w, events), id) == RerunsIn(w, events, id)
    ensures ClaimsSinceRerun(w.sys, AbstractRun(w, events), id, before) == ClaimsSince(w, events, id, before)
    decreases |events|
  {
    if events != [] {
      var ev, w' := events[0], Tick(w, events[0]);
      EventRefines(w, ev);
      EventKeepsInv(w, ev);
      TwoPhaseClaimsRefineAtomicOnes(w', events[1..]);
      AbstractionCounts(w, ev, id, before);
      var first, rest := Abstraction(w, ev), AbstractRun(w', events[1..]);
      ClaimsCompose(first, rest, id);
      RerunsCompose(w.sys, first, rest, id);
      ClaimsSinceCompose(w.sys, first, rest, id, before);
      HistoryCounts(w', events[1..], id, SinceRerun(w, ev, id, before));
    }
  }

  /** An empty system whose clock reads `clock`. */
  ghost function Genesis(limit: nat, clock: Time): World {
    World(Start(limit), clock, map[])
  }

  /**
   * So the attempt limit holds although the claim never checks it and writes a count it read earlier:
   * the row counts the successful claims since the last rerun, and each series has at most `max_attempts`.
   */
  lemma {:induction false} TwoPhaseAttemptAccounting(limit: nat, clock: Time, events: seq<Event>, id: JobId)
    requires ValidHistory(Genesis(limit, clock), events) && SafeHistory(Genesis(limit, clock), events)
    requires id in After(Genesis(limit, clock), events).sys.db.jobs
    ensures var w, j := Genesis(limit, clock), After(Genesis(limit, clock), events).sys.db.jobs[id];
            && j.attempts == ClaimsSince(w, events, id, 0) <= j.maxAttempts
            && ClaimsIn(w, events, id) <= (1 + RerunsIn(w, events, id)) * j.maxAttempts
  {
    InvInit(limit);
    var w := Genesis(limit, clock);
    TwoPhaseClaimsRefineAtomicOnes(w, events);
    HistoryCounts(w, events, id, 0);
    AttemptAccounting(limit, AbstractRun(w, events), id);
    AttemptsWithinLimit(limit, AbstractRun(w, events), id);
  }

  // ---- a statement that takes effect late ----

  const NEW_JOB: Event := Event(6.0, Do(Create(0, 2, 5.0, 5.0)))
  const READ_B: Event := Event(8.5, Read(0, 0, 8.0))
  const READ_A: Event := Event(10.5, Read(1, 0, 10.0))
  const WRITE_B: Event := Event(11.0, Write(0, "b", 1.0, 1))
  const LATE_SWEEP: Event := Event(12.0, Do(Sweep(9.5)))
  const WRITE_A: Event := Event(13.0, Write(1, "a", 1.0, 2))

  /** A and B have read the same job, and B's update has taken effect. */
  ghost predicate ClaimedByB(w: World) {
    && Sound(w)
    && w.clock == 11.0
    && w.pending == map[1 := Pending(0, 0, 10.0)]
    && 0 in w.sys.db.jobs && 1 in w.sys.execs && w.sys.execs.Keys == {1}
    && var j := w.sys.db.jobs[0];
       && j.status == Running && j.attempts == 1 && j.maxAttempts == 2
       && j.leaseExpiresAt == Some(9.0) && j.executionId == Some(1)
       && TallyOf(w.sys, 0) == Tally(1, 0, 1, 0)
  }

  lemma BothReadThenBClaims()
    ensures var w0 := Genesis(1, 0.0);
            && Allowed(w0, NEW_JOB)
            && var w1 := Tick(w0, NEW_JOB);
            && Allowed(w1, READ_B)
            && var w2 := Tick(w1, READ_B);
            && Allowed(w2, READ_A)
            && var w3 := Tick(w2, READ_A);
            && Allowed(w3, WRITE_B)
            && ClaimedByB(Tick(w3, WRITE_B))
  {
    var w0 := Genesis(1, 0.0);
    var w1 := Tick(w0, NEW_JOB);
    var w2 := Tick(w1, READ_B);
    var w3 := Tick(w2, READ_A);
    InvInit(1);
    EventKeepsSound(w0, NEW_JOB);
    EventKeepsSound(w1, READ_B);
    EventKeepsSound(w2, READ_A);
    EventKeepsSound(w3, WRITE_B);
  }

  lemma SweepThenAClaims(w: World)
    requires ClaimedByB(w)
    ensures Allowed(w, LATE_SWEEP) && !Safe(w, LATE_SWEEP)
    ensures var w' := Tick(w, LATE_SWEEP);
            && Allowed(w', WRITE_A)
            && var w'' := Tick(w', WRITE_A);
            && 2 in w''.sys.execs && 0 in w''.sys.db.jobs
            && w''.sys.db.jobs[0].attempts == 1 && TallyOf(w''.sys, 0).claims == 2
            && Sound(w'') && !Counts(w''.sys)
  {
    assert RowLeased(w.sys, 0);
    assert Requeues(w.sys, LATE_SWEEP.action.step, 0) && 1 in w.pending;
    assert RequeueDate(w.sys, LATE_SWEEP.action.step, 0) == 9.5;
    var w' := Tick(w, LATE_SWEEP);
    var w'' := Tick(w', WRITE_A);
    EventKeepsSound(w, LATE_SWEEP);
    EventKeepsSound(w', WRITE_A);
    assert !RowCounted(w''.sys, 0);
  }

  /**
   * An advancing clock alone does not do. All instants differ here, but the sweep reads its clock at 9.5 and
   * takes effect at 12, after B's claim of 8 took effect at 11 with a lease to 9. It requeues the job with a
   * date before A's captured instant 10, so A's update matches and records the second claim as the first.
   */
  lemma LateSweepMakesClaimStale()
    ensures var w0 := Genesis(1, 0.0);
            && Allowed(w0, NEW_JOB)
            && var w1 := Tick(w0, NEW_JOB);
            && Allowed(w1, READ_B)
            && var w2 := Tick(w1, READ_B);
            && Allowed(w2, READ_A)
            && var w3 := Tick(w2, READ_A);
            && Allowed(w3, WRITE_B)
            && var w4 := Tick(w3, WRITE_B);
            && Allowed(w4, LATE_SWEEP) && !Safe(w4, LATE_SWEEP)
            && var w5 := Tick(w4, LATE_SWEEP);
            && Allowed(w5, WRITE_A)
            && var w6 := Tick(w5, WRITE_A);
            && 2 in w6.sys.execs && 0 in w6.sys.db.jobs
            && w6.sys.db.jobs[0].attempts == 1 && TallyOf(w6.sys, 0).claims == 2
            && Sound(w6) && !Counts(w6.sys)
  {
    BothReadThenBClaims();
    var w3 := Tick(Tick(Tick(Genesis(1, 0.0), NEW_JOB), READ_B), READ_A);
    SweepThenAClaims(Tick(w3, WRITE_B));
  }
}
