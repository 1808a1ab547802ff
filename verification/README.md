# Verified model of VendorOps AI

A Dafny model of three parts of VendorOps AI and proofs of what they promise. Check it with
`dafny verify dfyconfig.toml`.

**Durable job leases.** Any number of workers share one job table. A job is claimed by
compare-and-set, leased, kept alive by heartbeats, recovered when its lease runs out, and closed or
rescheduled with exponential backoff under an (owner, execution id) fence.

- `Jobs` holds the rows and what each database statement does to them. `Store` and `Worker` are the
  operations and the worker as the source performs them, statement by statement on mutable tables,
  proved against the functions of `Jobs`.
- `Protocol` is the step relation over jobs, records, audit log and executions, zombies included, with
  arbitrary instants and an atomic claim. `Guarantees` proves what holds over all of its runs.
- `Queue` follows a job's place in the queue through a run and proves exactly when a claim made in two
  statements is stale.
- `Clock` splits the claim into its read and its conditional write, which saves an attempt count read
  earlier, and lets every statement take effect any time after it read its clock. Fencing and records hold
  in all such histories. Those in which whatever returns to the queue is dated after the instants of the
  claims under way are runs of `Protocol`. `Timing` proves lease exclusion, heartbeat continuity, backoff
  and bounded overtaking.
- `Backoff`, `Delays` and `Retry` are the delays, what they add up to over a run, and the nested retry loop.
- `Polling` proves that a poll of `Worker` is a run of `Protocol`. `Outcomes` spells out what becomes of a
  document: the state of its job, the rows in the error log and the record.

**The agent's policy gate and execution engine.** `Json` is the canonical JSON printer and the proof that
it is injective; `JsonReader` a reader written from the grammar that reads back what it prints;
`Authorization` the gate and the approvals bound to the fingerprint; `Registry` the discovery of tools;
`Execution` the engine with its idempotency receipts.

**Upload names.** `Text` and `Naming` follow a file name through sanitising, object key and parser
dispatch.

Five findings, each with its exact condition:

- A claim can write a stale attempt count (`Queue.TiedClockMakesClaimStale`). Its update matches if and only
  if the job is queued with its last requeue dated no later than the instant the claim captured; it is stale
  if and only if, besides, the claims since the last rerun are not as many as it read
  (`Queue.ClaimIsStaleExactly`). An advancing clock does not prevent it, since a sweep that reads its clock
  before the claim and takes effect after it dates its requeue too early
  (`Clock.LateSweepMakesClaimStale`); statements that read their clock after all earlier ones have taken
  effect do (`Clock.PromptHistoryIsSafe`). On PostgreSQL the claim locks the row it reads
  (app/workers/durable.py:56-57), which rules it out; the finding concerns the other dialects.
- The delays that a job's failures impose are bounded by `base * (2^attempts - 1)`. With the n failures in
  place of the attempts the bound can fail, since a recovered attempt uses up a number without a delay
  (`Delays.RecoveredAttemptRaisesDelay`); below the cap it holds if and only if every attempt up to the last
  failure failed (`Delays.FailuresCountExactly`).
- Two tools have one identity if and only if their names and versions are equal or one name, continued with
  `@`, runs into the other's version (`Authorization.IdentitiesCollideExactly`); two different names can
  collide if and only if one continues the other with `@` (`Authorization.NamesCollideExactly`). An approval
  binds the identity, so it can be moved to another tool
  (`Authorization.ApprovalCanMoveToAnotherTool`). The tool executed is the approved one, name and version,
  if and only if the approved request's action was its own tool's name
  (`Authorization.AllowedWriteWasApproved`): nothing checks that when the approval is given.
- An adapter exception outside `Exception` leaves calls without a receipt and the key free to run again
  (`Execution.AbandonedKeyRunsAgain`). The calls made are those recorded if and only if no invocation ends
  that way (`Execution.AllSideEffectsReportedExactly`).
- Workspace ids that are not safe names already can share object keys (`Naming.UnsafeIdsCanShareKeys`),
  although `app/storage/keying.py` says that a key cannot cross workspace boundaries. Two keys are equal
  if and only if their cleaned segments are, and cleaning leaves an id alone if and only if it is a safe name.

## Model

| member | source | states |
|---|---|---|
| `Protocol.StepKeepsLeases` | app/workers/durable.py:41-255 | every operation of any worker keeps the fence and the records, whatever counts the rows hold: each running row is leased to exactly one open execution, no execution is closed twice, completed jobs have a record, records are unique |
| `Protocol.StepKeepsInv` | app/workers/durable.py:41-255 | and with atomic claims it keeps the attempt counts within limits and equal to the claims since the last rerun |
| `Protocol.RunKeepsInv` | app/workers/durable.py:41-255 | so does every run, whatever the interleaving and whatever instants the workers see |
| `Protocol.RunIsLater` | app/workers/durable.py:180-255 | completed rows, audit entries, records and closing histories are never taken back |
| `Guarantees.CallsTakeEffectExactlyWhileOpen` | app/workers/durable.py:87-97 | complete and fail take effect if and only if the execution has not been closed, even after its lease; a heartbeat if and only if it is open and its lease has not run out |
| `Guarantees.ClosedOnceAndFenced` | app/workers/durable.py:180-255 | an execution is closed at most once in any run, by itself or by recovery, and its later heartbeat, complete and fail calls change nothing although the row may keep its execution id |
| `Guarantees.OneLeaseHolder` | app/workers/durable.py:63-75 | two open executions never have the same job |
| `Guarantees.TransitionTable` | app/workers/durable.py:19-24 | the table allows queued to running, and running to queued, completed and failed, and nothing else |
| `Guarantees.StatusChange` | app/workers/durable.py:19-24 | every status change except the rerun of a failed job is in the transition table and lowers `2 * (max_attempts - attempts)` (plus 1 when running, 0 when terminal) |
| `Guarantees.StatusChangesBounded` | app/workers/durable.py:19-24 | in any run a job changes status at most `2 * max_attempts` times, and that often plus once more for every rerun |
| `Guarantees.JobsComeToRest` | app/workers/durable.py:19-24 | between reruns it does so at most `2 * max_attempts` times |
| `Guarantees.FailedLeftOnlyByRequest` | app/workers/durable.py:149-159 | no run without a run request on a failed job makes it leave FAILED |
| `Guarantees.CompletedIsFinal` | app/workers/durable.py:152-155 | a completed row never changes again in any run |
| `Guarantees.AttemptsWithinLimit` | app/workers/durable.py:107-140 | queued jobs have an attempt left and running ones are within the limit, though the claim never checks `max_attempts` |
| `Guarantees.AttemptAccounting` | app/workers/durable.py:63-75 | `attempts` is the number of claims since creation or the last rerun; a job is claimed at most `max_attempts * (1 + reruns)` times |
| `Guarantees.ExactlyOneRecord` | app/db/repositories.py:164-203 | at most one record per job under retries and zombies, the first is never replaced, and a completed job has one |
| `Guarantees.RecordsComeFromInserts` | app/db/repositories.py:172-184 | every record added in a run is the payload of one of its inserts, stored for the job of that execution |
| `Guarantees.ConflictIsRetried` | app/db/models.py:361 | an insert loses against the unique index if and only if the job has its record, and then changes nothing; by `Worker.HandlerFitsProtocol` its execution can only report a retryable error; otherwise the payload is stored |
| `Guarantees.AuditIsFaithful` | app/workers/durable.py:198-253 | over every run the `job.status_updated` entries name exactly the executions that closed themselves, once each, with the true outcome |
| `Guarantees.AuditOfAnyRun` | app/workers/durable.py:198-253 | so they do in every run from the empty system |
| `Guarantees.ExtractorCallsBounded` | app/pipeline/document_pipeline.py:142-149 | extractor calls of a job are at most `(1 + reruns) * max_attempts * extraction_max_attempts`, the bound of one round being that of `Worker.DocumentWorker.RunDocument` |
| `Guarantees.ExhaustedExtractionIsTerminal` | app/workers/document_jobs.py:86-98 | an extraction the pipeline gives up on, which by `Worker.HandlerFitsProtocol` surfaces as a PipelineError, fails the job at once, attempts left or not |
| `Clock.EventRefines` | app/workers/durable.py:45-80 | while claims under way are undisturbed, a two-phase claim that matches equals one atomic claim at the instant it captured: the count it writes is not stale and the row is still first in line; one that does not changes nothing |
| `Clock.HistoryKeepsSound` | app/workers/durable.py:41-255 | in every history of two-phase claims and statements that take effect late, stale claims included, the fence, the records and the lease times hold |
| `Clock.HistoryIsLater` | app/workers/durable.py:41-255 | and nothing is taken back: completed rows, records, audit entries, closing histories |
| `Clock.EventKeepsInv` | app/workers/durable.py:45-80 | claims under way stay undisturbed while whatever returns to the queue is dated after the instants they captured |
| `Clock.TwoPhaseClaimsRefineAtomicOnes` | app/workers/durable.py:41-80 | under that condition every interleaving of two-phase claims with all other statements, late ones included, is a run of the protocol with atomic claims |
| `Clock.PromptHistoryIsSafe` | app/workers/durable.py:45-54 | the condition holds when each statement that requeues or creates a job reads its clock after every earlier statement took effect |
| `Clock.LateSweepMakesClaimStale` | app/workers/durable.py:104-121 | with all instants different, a sweep that takes effect later than a claim it dates before makes the claim write a stale count |
| `Clock.HistoryCounts` | app/workers/durable.py:63-75 | under that condition claims and reruns counted over the events of a two-phase history are those of the atomic run it refines |
| `Clock.TwoPhaseAttemptAccounting` | app/workers/durable.py:63-75 | and `attempts` is the number of successful claims since the last rerun, with at most `max_attempts * (1 + reruns)` claims of a job |
| `Timing.LeaseExclusion` | app/workers/durable.py:87-121 | in every history, until the lease last granted to it runs out, an execution that has not closed itself owns the row and no other open execution has the job |
| `Timing.OnlyItsOwnerEndsALiveLease` | app/workers/durable.py:107-121 | no claim, recovery, run request or other worker takes a job under a live lease |
| `Timing.ExpiredLeaseIsNeverRevived` | app/workers/durable.py:89-97 | no heartbeat that reads its clock after the lease has run out ever succeeds |
| `Timing.HeartbeatContinuity` | app/workers/document_jobs.py:53-65 | with every beat taking effect within a lease of the instant the last one read, every heartbeat succeeds, the expiry only moves forward, and the job is owned until the last beat plus the lease |
| `Timing.QueuedJobWaits` | app/workers/durable.py:46-50 | a queued job that is not requested is not claimed before its `next_run_at` |
| `Timing.RetryWaitsOutItsBackoff` | app/workers/durable.py:230-235 | after a retryable failure of attempt k dated t, and as long as no run request makes the job due at once, the next claim is no earlier than `t + retry_delay(k)` |
| `Timing.BoundedOvertaking` | app/workers/durable.py:51-58 | without a run request for it, the claims up to and including a queued job's own are at most the queued jobs that stand no later in line, if whatever is requeued or created is dated after its date and the instants of the claims under way |
| `Timing.PromptOvertaking` | app/workers/durable.py:51-58 | so it is for a job that is due when each statement that requeues or creates a job reads its clock after every earlier one took effect |
| `Timing.EarlierGoesFirst` | app/workers/durable.py:54 | of two queued jobs the one with the earlier `next_run_at`, or of one date the one created earlier, is claimed first, while neither is requested and the claims under way are undisturbed |
| `Queue.HistoryTellsPlace` | app/workers/durable.py:46-50 | a job is queued if and only if it was not claimed since its last requeue, and its `next_run_at` is the date of that requeue |
| `Queue.ClaimIsStaleExactly` | app/workers/durable.py:63-75 | the update of a claim matches if and only if the job is queued with its last requeue dated by the captured instant; it writes a stale count if and only if, besides, the claims since the last rerun differ from the count it read |
| `Queue.StaleWithoutRerun` | app/workers/durable.py:63-75 | without a rerun in between: stale if and only if the job was claimed meanwhile and is back with a date no later than the captured instant |
| `Queue.ClaimIsExactUnlessRequeuedInThePast` | app/workers/durable.py:45-75 | if no requeue of this job is dated by the captured instant, a write that matches finds the row as it was read, however all other steps are dated |
| `Queue.TiedClockMakesClaimStale` | app/workers/durable.py:63-75 | with one instant shared by four statements the claim writes a stale count and breaks attempt accounting |
| `Store.NextExists` | app/workers/durable.py:51-58 | if any job is due, one that is due has no job before it in date, nor in creation among those of its date |
| `Store.SweepLeavesNoneExpired` | app/workers/durable.py:102-146 | no expired lease is left by a sweep, and a second one at the same instant changes nothing |
| `Store.TwoUpdatesMakeASweep` | app/workers/durable.py:105-146 | the two updates in sequence change and count each expired row exactly once; rows just requeued are not touched again |
| `Store.NewJobTakesItsTurn` | app/db/repositories.py:82-113 | a new job is due from its `next_run_at` on, leaves first in line whoever was and is not later than it, and is first itself if and only if it is due and no eligible job is earlier |
| `Store.Database.SelectCandidate` | app/workers/durable.py:46-61 | answers nothing if and only if no job is queued, due and free; else one with the least date, and the least creation time among those of that date |
| `Store.Database.ClaimCandidate` | app/workers/durable.py:62-80 | succeeds if and only if the row is eligible now, writing the count of the candidate it was given plus one |
| `Store.Database.ClaimNextJob` | app/workers/durable.py:41-80 | undisturbed, it claims a job if and only if one is due: that of the least date and, for one date, the least creation time; it adds one attempt and changes no other row |
| `Store.Database.HeartbeatJob` | app/workers/durable.py:83-99 | extends the lease if and only if the row is running under this owner and execution and has not expired |
| `Store.Database.RecoverExpiredJobs` | app/workers/durable.py:102-146 | requeues or fails exactly the expired rows, leaves none, and returns their number |
| `Store.Database.RequestJobRun` | app/workers/durable.py:149-177 | refuses completed and running jobs; otherwise the job is eligible at once, with fresh attempts if it had failed |
| `Store.Database.CompleteJob` | app/workers/durable.py:180-207 | completes and reports if and only if the fence matches; the lease's expiry plays no part |
| `Store.Database.FailJob` | app/workers/durable.py:210-255 | fails or reschedules under the fence; answers FAILED if and only if the failure was terminal and the fence matched |
| `Store.Database.FindRecord` | app/db/repositories.py:164-171 | finds a record of the job if there is one |
| `Store.Database.InsertRecord` | app/db/repositories.py:172-203 | fails, retryably and without effect, if and only if the job already has a record; else the record with its payload is added at the end |
| `Store.Database.CreateExtractedRecord` | app/db/repositories.py:154-203 | a stored record is returned unchanged; otherwise the table gains the other worker's record, if it got in, and then this one with its payload, unless the other record is for the same job, and then the insert fails |
| `Worker.ExtractDocument` | app/pipeline/document_pipeline.py:98-149 | the payload or exception of the first attempt that is not retried, with a retryable row for each attempt before it; exhaustion otherwise |
| `Worker.HandlerFitsProtocol` | app/pipeline/document_pipeline.py:172-248 | the handler ends without an error only with the job's record in place, in a PipelineError after an extraction it gives up on, and in a retryable error after an insert conflict |
| `Worker.ExhaustionIsFinal` | app/pipeline/document_pipeline.py:123-248 | an exhausted extraction of n attempts logs n - 1 retryable rows and a final one, stores nothing, and is never retried |
| `Worker.ConflictEscapes` | app/pipeline/document_pipeline.py:172-248 | the insert conflicts if and only if another worker stored the job's record after the lookup; the error passes the pipeline unlogged and the worker takes it for retryable |
| `Worker.ConflictIsRequeuedOrFailed` | app/workers/document_jobs.py:85-114 | after a conflict the job is put back while it has an attempt left and failed otherwise, with one worker row that says which |
| `Worker.DocumentWorker.RunDocument` | app/pipeline/document_pipeline.py:98-248 | for every document, rival insert included, the handler ends as `Handled` says: result, error rows, record and how far it came |
| `Outcomes.UnparsableDocument` | app/pipeline/document_pipeline.py:215-248 | a document that cannot be parsed fails its job at once, whatever attempts are left, with the parser's message and one final parse row |
| `Outcomes.RefusedInput` | app/workers/document_jobs.py:85-114 | an input that is refused fails its job unless the error is neither a pipeline error nor a ValueError; the worker logs it unless it is a pipeline error |
| `Outcomes.ParserRaises` | app/workers/document_jobs.py:85-114 | another exception of the parser: a ValueError fails the job with a final extract row, the rest is retried with a worker row |
| `Outcomes.ExtractorRaises` | app/pipeline/document_pipeline.py:142-248 | the same of the extractor, after one retryable row for each attempt before |
| `Outcomes.ExtractionExhausted` | app/pipeline/document_pipeline.py:215-248 | an exhausted extraction fails the job with its message, n - 1 retryable rows and a final one |
| `Outcomes.ValidationRaises` | app/pipeline/document_pipeline.py:185-248 | the same of the validation insert, the record staying stored |
| `Outcomes.DocumentCompletes` | app/workers/document_jobs.py:126-128 | a document that validates completes its job and logs only the attempts that were retried |
| `Outcomes.CompletionStoresPayload` | app/pipeline/document_pipeline.py:172-184 | a completed job that had no record holds the payload of the first attempt that returned one |
| `Worker.DocumentWorker.CloseJob` | app/workers/document_jobs.py:85-128 | completes or fails under the fence and logs what the pipeline did not; a terminal failure that the fence keeps out is logged as retryable |
| `Worker.KeptPollClosesItsJob` | app/workers/document_jobs.py:67-143 | a poll that keeps its lease, heartbeats and other workers' sweeps included, spends one attempt and closes its job: completed if and only if no error, with the record; failed if and only if not retryable or no attempt left; else due after its backoff |
| `Worker.LostPollClosesNothing` | app/workers/document_jobs.py:126-138 | a poll whose lease a sweep found expired closes nothing: the job is back in the queue or failed by its attempts |
| `Worker.PollTouchesOneRow` | app/workers/document_jobs.py:67-143 | every other row changes only by the sweeps |
| `Worker.DisturbedRow` | app/workers/document_jobs.py:53-65 | heartbeats and sweeps in any order leave the row held exactly as long as no sweep finds the lease, as extended by the beats before the first that fails, expired |
| `Worker.DocumentWorker.Await` | app/workers/document_jobs.py:53-65 | the heartbeat loop, ending with the first beat that fails, and the sweeps meanwhile do to the table what `Disturbed` says |
| `Worker.DocumentWorker.RunOnce` | app/workers/document_jobs.py:67-143 | the poll runs if and only if a job is eligible after its sweep; then table and error log end as `Polled` and `PollRows` say, with heartbeats, other workers' sweeps and a rival's insert in between |
| `Polling.PollIsARun` | app/workers/document_jobs.py:67-143 | from any state with that table, a poll without a rival leaves the table that a run of the protocol leaves: sweep, claim, extraction, lookup, insert, heartbeats and sweeps, complete or fail |
| `Polling.PollKeepsInv` | app/workers/document_jobs.py:67-143 | so a poll keeps what every run keeps |
| `Backoff.DelayBoundedAndMonotone` | app/workers/durable.py:31-32 | the delay never shrinks with the attempt and never exceeds the cap |
| `Backoff.FirstDelay` | app/workers/durable.py:31-32 | the first attempt waits the base, or the cap if that is less |
| `Backoff.DelayDoublesUntilCapped` | app/workers/durable.py:31-32 | the delay doubles from attempt to attempt until the cap holds for good |
| `Backoff.TotalDelayBound` | app/workers/durable.py:31-32 | the delays of attempts 1 to n add up to at most `n * maximum` and at most `base * (2^n - 1)` |
| `Delays.TotalImposedDelay` | app/workers/durable.py:221-235 | over any run without a rerun, the delays a job's failures impose are at most `failures * maximum` and at most `base * (2^attempts - 1)` |
| `Delays.DelaysWithinAttempts` | app/workers/durable.py:221-235 | together with the worth of the attempts over before the run they are at most the worth of those over after it |
| `Delays.FailuresCountExactly` | app/workers/durable.py:221-235 | n failures of a job impose at most `base * (2^n - 1)` if every attempt up to the last failure failed, and below the cap only then |
| `Delays.RecoveredAttemptRaisesDelay` | app/workers/durable.py:102-121 | a job whose first attempt was recovered waits `2 * base` for its only failure |
| `Retry.RetryAsync` | app/observability/retry.py:19-55 | stops at the first outcome that is not retryable, calls at most `attempts` times, calls back exactly between calls with doubling delays |
| `Backoff.GeometricIsProduct` | app/observability/retry.py:36-51 | k doubling delays add up to `base * (2^k - 1)` |
| `Json.PrintPrefix` | app/agent/authorization.py:38 | no text of one value is a prefix of another's continuation: equal texts up to the end of a value mean equal values, brackets, escapes and numbers included |
| `Json.CanonDecidesSame` | app/agent/authorization.py:38 | sorting keys throughout identifies exactly the values that are equal as dictionaries |
| `Json.EncodeIsFaithful` | app/agent/authorization.py:38 | equal canonical texts if and only if equal values, whatever the insertion order of keys |
| `Json.CanonAscends` | app/agent/authorization.py:38 | the keys of every object printed ascend in dictionary order |
| `Json.EscapeForm` | app/agent/authorization.py:38 | which of the four forms each character takes; the output is ASCII with lower-case codes |
| `JsonReader.ReadBack` | app/agent/authorization.py:38 | a reader after RFC 8259, sections 4 to 7, reads every printed value back |
| `Ordering.BeforeIsLexicographic` | app/agent/tool_registry.py:117 | strings are ordered as in a dictionary: a proper prefix first, else the smaller character at the first difference |
| `Authorization.PreimageIsFaithful` | app/agent/authorization.py:28-39 | the fingerprint's preimages are equal if and only if organization, workspace, actor, action, tool identity, payload and resource all are |
| `Authorization.PreimageText` | app/agent/authorization.py:28-39 | the preimage to the letter: `{"action":` and the action, then the other six members in key order |
| `Authorization.IdentitiesCollideExactly` | app/agent/tool_registry.py:55-57 | two tools have one identity if and only if name and version are equal or one name, continued with `@`, runs into the other's version |
| `Authorization.NamesCollideExactly` | app/agent/tool_registry.py:55-57 | two different names have colliding versions if and only if one continues the other with `@` |
| `Authorization.IdentityDeterminesTool` | app/agent/tool_registry.py:55-57 | an identity determines name and version among names that cannot collide |
| `Authorization.IdentitiesCanCollide` | app/agent/tool_registry.py:55-57 | two different tools with one identity |
| `Authorization.ApprovalBindsExactAction` | app/agent/authorization.py:52-61 | an approval is valid for a request if and only if it was given for that very action, is filed under its organization and workspace, and has not expired |
| `Authorization.DecisionNamesFirstObjection` | app/agent/authorization.py:96-142 | a request is allowed if and only if none of the eight grounds for denial, each stated on its own, objects; otherwise the decision names the first that does; it carries the fingerprint, and the approval id only when allowed |
| `Authorization.RiskIsRefusedExactly` | app/agent/authorization.py:85-116 | maximum LOW admits LOW only, MEDIUM also MEDIUM, HIGH everything but CRITICAL, and a tool within its maximum is never refused for its risk |
| `Authorization.AllowedWriteWasApproved` | app/agent/authorization.py:106-142 | an allowed write carries an approval of that action, tools compared by identity; tool name and version are the approved ones if and only if the approved action was its own tool's name |
| `Authorization.ApprovalCanMoveToAnotherTool` | app/agent/authorization.py:52-61 | an approval for action `a` on one tool lets the gate allow it on another with the same identity |
| `Registry.DiscoveryIsUnique` | app/agent/tool_registry.py:110-117 | a discovery has one answer however the registry is enumerated |
| `Registry.VisibleExactly` | app/agent/tool_registry.py:97-116 | a tool is visible if and only if its capabilities are held, its side effect is asked for and its risk is within the maximum |
| `Registry.RiskHidesExactly` | app/agent/tool_registry.py:98-116 | the same ladder of risks for discovery; within the maximum risk hides nothing |
| `Registry.RegistrationOrderIsForgotten` | app/agent/tool_registry.py:78-81 | the same tools registered in another order give the same registry |
| `Registry.AllowedIsDiscovered` | app/agent/authorization.py:106-142 | a registered tool that the gate allows is discovered with the shared capabilities and the policy's risk ceiling |
| `Registry.ReadsAllowedExactlyWhenDiscovered` | app/agent/authorization.py:106-142 | for a read not tied to a resource, asked for by name, allowed if and only if discovered |
| `Registry.ToolRegistry.Register` | app/agent/tool_registry.py:78-81 | refuses exactly the identities that are taken, changing nothing; otherwise adds the tool |
| `Registry.ToolRegistry.Get` | app/agent/tool_registry.py:83-88 | finds the tool of that identity or reports it unknown |
| `Registry.ToolRegistry.Discover` | app/agent/tool_registry.py:90-117 | exactly the visible tools, in ascending dictionary order of identity |
| `Execution.AttemptsMean` | app/agent/execution.py:138-172 | the loop ends at the first verified attempt, or at one that raises what it does not catch; otherwise all failed, the error is the last one's and the output that of the latest attempt that returned one |
| `Execution.ReceiptMeaning` | app/agent/execution.py:107-185 | what SUCCEEDED, FAILED and REJECTED receipts say about every attempt; rejected and invalid requests made no call |
| `Execution.ErrorTexts` | app/agent/execution.py:107-172 | the error text of every failed attempt and of every refusal |
| `Execution.ArgumentsAreChecked` | app/agent/execution.py:97-100 | a key that strips to nothing is refused first, then a limit below one, without effect |
| `Execution.InvocationKeepsOk` | app/agent/execution.py:87-192 | each call keeps the two maps in one-to-one agreement and every side effect tied to the stored receipt of its key |
| `Execution.RunKeepsOk` | app/agent/execution.py:87-192 | so does every sequence of calls |
| `Execution.AnyRunIsOk` | app/agent/execution.py:87-192 | in particular from a new engine on |
| `Execution.FirstReceiptIsFinal` | app/agent/execution.py:102-104 | a stored receipt is never changed; whoever presents its key later gets it and causes no further side effect |
| `Execution.KeyAnswersForFirstRequest` | app/agent/execution.py:102-104 | the receipt returned for a known key names the presented request's fingerprint if and only if the first request under the key had it, whoever presents it |
| `Execution.KeyAnswersForSameAction` | app/agent/execution.py:102-104 | with the real fingerprint: if and only if both ask for the same action |
| `Execution.CallsOfOneKeyComeFromOneInvocation` | app/agent/execution.py:141-147 | all adapter calls for a key whose invocations left a receipt come from the one whose receipt is stored, as many as it says |
| `Execution.AbandonedMeaning` | app/agent/execution.py:141-172 | an invocation without a receipt made calls, the last of which raised outside `Exception` |
| `Execution.SideEffectsAreConserved` | app/agent/execution.py:141-192 | adapter calls in total equal the attempts recorded in the stored receipts and the calls of invocations ended by an exception outside `Exception` |
| `Execution.AllSideEffectsReportedExactly` | app/agent/execution.py:141-192 | they equal the recorded attempts if and only if no invocation ended that way |
| `Execution.AbandonedKeyRunsAgain` | app/agent/execution.py:141-172 | after such an end the same key reaches the adapter again |
| `Execution.EveryWriteWasApproved` | app/agent/execution.py:106-123 | in any run every adapter call of a write tool carries an approval of that action; its tool is the approved one, name and version, if and only if the approved action was its own tool's name |
| `Execution.ExecutionEngine.Execute` | app/agent/execution.py:87-185 | the method does to maps, calls and answer what the specification `Executed` says, empty keys and bad limits included |
| `Execution.ExecutionEngine.RunAttempts` | app/agent/execution.py:138-174 | the loop logs one call per attempt and ends as `Attempts` says, which `AttemptsMean` explains |
| `Execution.FilingIsOneToOne` | app/agent/execution.py:190-192 | filing a receipt keeps the two maps in one-to-one agreement if and only if key and id are both new or belong together already |
| `Naming.SanitizeJoinsTheWords` | app/ingestion/storage.py:90-96 | the chain of passes equals splitting the last path component into runs of letters, digits, dots and dashes and joining them with single underscores; it fails if and only if that is empty, `.` or `..` |
| `Naming.TrailingDotsAreIgnored` | app/ingestion/storage.py:91 | trailing slashes and `.` components are not part of a file name |
| `Naming.SanitizedNamesAreFixed` | app/ingestion/storage.py:90-96 | the names sanitising produces are exactly the names it leaves alone |
| `Naming.SafeNamesAreKept` | app/storage/keying.py:24-28 | a key segment is left alone if and only if it is a safe name |
| `Naming.SegmentIsStripped` | app/storage/keying.py:24-28 | white space around a segment is dropped |
| `Naming.SegmentOfRuns` | app/storage/keying.py:24-28 | a run of unsafe characters between safe text becomes one underscore |
| `Naming.UuidsAreKept` | app/storage/keying.py:24-28 | a UUID stands in a key as it is |
| `Naming.KeyErrorsExactly` | app/storage/keying.py:11-28 | a key is refused if and only if, without white space around it, nothing but at most two dots is left of an argument; the error names the first such argument |
| `Naming.KeySplitsIntoSafeSegments` | app/storage/keying.py:12-21 | every key splits on `/` into the two fixed labels and safe segments, none empty, `.` or `..` |
| `Naming.KeysAgreeOnlyOnSegments` | app/storage/keying.py:12-21 | two keys are equal if and only if their cleaned segments are |
| `Naming.KeysStayInTheirWorkspace` | app/storage/keying.py:12-21 | a key lies under a workspace's prefix if and only if it was made for an id that cleans to that workspace |
| `Naming.SafeIdsNeverShareKeys` | app/storage/keying.py:12-28 | two different workspace ids that are safe names never share a key |
| `Naming.UnsafeIdsCanShareKeys` | app/storage/keying.py:12-28 | two different workspace ids with the same key for every valid artifact id and file name |
| `Naming.SanitizedNameEndsTheKey` | app/ingestion/storage.py:52-61 | a sanitised name is carried unchanged as the last segment of the key |
| `Naming.AcceptedExactlyByEnding` | app/ingestion/storage.py:29-39 | an upload is accepted if and only if its cleaned name has something before `.csv`, `.eml`, `.pdf` or `.txt`, in any case |
| `Naming.UploadErrorsExactly` | app/ingestion/storage.py:29-39 | no name or an empty one, an unsafe one (the words come to nothing, `.` or `..`), and an unsupported ending are refused as such, in this order |
| `Naming.UnsupportedEnding` | app/ingestion/storage.py:33-38 | an unsupported ending is reported from the last dot on, in lower case |
| `Naming.UnsupportedWithoutEnding` | app/ingestion/storage.py:33-38 | a name that ends in a dot or has none after its first character is refused with an empty ending |
| `Naming.AcceptedUploadReachesItsParser` | app/parsers/dispatcher.py:10-25 | an accepted upload stored under its key in any directory is dispatched, and the parser's file type is the recorded one |
| `Naming.DispatchedByEnding` | app/parsers/dispatcher.py:15-25 | each of the four endings, in any case, goes to its own parser, and any other to none |
| `Naming.ReadUploadBytes` | app/ingestion/storage.py:75-87 | returns everything before the first empty read if it keeps to the limit and fails otherwise, on any stream, even an endless one |
| `Naming.OneMoreRead` | app/ingestion/storage.py:75-87 | the bytes returned are those of the reads, one read after the other |

## Left out

- Clock.TwoPhaseClaimsRefineAtomicOnes: the condition is sufficient; per claim the exact one is that of `Queue.ClaimIsStaleExactly`.
- Guarantees.ExactlyOneRecord: speaks of jobs run by the default handler; a custom handler may complete a job without a record.
- Timing.HeartbeatContinuity: takes the stop flag as unset; after a stop the worker ceases to beat while its work goes on.
- Worker.DocumentWorker.RunOnce: what reaches the table while the handler works is heartbeats, other workers' sweeps and one insert; all interleavings are the subject of `Protocol` and `Clock`.
- Polling.PollIsARun: a poll without a rival's insert, since the rival is another execution's step.
- Naming.AcceptedUploadReachesItsParser: the file exists and the storage root has no symbolic links; suffixes follow Python 3.11 to 3.13, and `lower` is modelled for the ASCII strings it meets here.
- Jobs with `max_attempts` below 1, which the settings rule out. Paths are POSIX paths.
- Sessions, dialects, `SKIP LOCKED` and isolation levels. The claim and the record insert are split into their statements; `request_job_run`, a read followed by a write through the ORM, is one atomic step.
- Deletion of job rows, and with it `fresh is None` in `_run_document`.
- `update_processing_job_status` and `manage_job_status=True`, which the worker does not use and which bypass the fence.
- Validation findings, which are appended again on each attempt; the error log's own audit entries; ids, details and timestamps of log rows.
- SHA-256 is an arbitrary function; the gate and the engine work for any fingerprint function, and the theorems about the real one, `Hashed`, assume no collision between the two texts at hand. uuid4 draws an unused id.
- Times and delays are real numbers; rounding, time zones and clock resolution are not modelled.
- Payloads with floats, with keys that are not strings, with `default=str` values or with lone surrogates.
- Tool descriptions, schemas, resource types and the checks of `__post_init__`; schema validation is an arbitrary outcome per call. `ToolRegistry.all` and `PolicyGate.enforce` add only an easy case each.
- The `ExecutionResult` kept beside a receipt, and adapters that change a payload or re-enter the engine.
- Parsers, extractors, file system and S3 access, API routes, frontend, logging and migrations.
- Login, role tables, vendor cases, intake classification, validation rules, reports and analytics: easy or small finite claims.
