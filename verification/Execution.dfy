/**
 * The execution engine of app/agent/execution.py: authorised tool calls with retries, verification and
 * permanent idempotency receipts. What the adapter does on each attempt is arbitrary.
 */
module Execution {
  import opened Wrappers
  import opened Ordering
  import opened Authorization
  import opened Text
  import Json

  /**
   * What one attempt comes to: the execute call, the output schema and the verification, in that order.
   * `Aborted` is an exception outside `Exception`, which the engine does not catch.
   */
  datatype Try =
    | ExecuteRaised(message: string)
    | OutputInvalid(produced: Json.Value, message: string)
    | VerifyRaised(produced: Json.Value, message: string)
    | Unverified(produced: Json.Value, reason: Option<string>)
    | Verified(produced: Json.Value, verification: Json.Value)
    | Aborted

  predicate Fails(t: Try) {
    !t.Verified? && !t.Aborted?
  }

  predicate HasOutput(t: Try) {
    !t.ExecuteRaised? && !t.Aborted?
  }

  type Adapter = nat -> Try

  function ErrorOf(t: Try): string
    requires Fails(t)
  {
    match t
    case Unverified(_, reason) =>
      if reason.Some? then reason.value else "external action could not be verified"
    case ExecuteRaised(message) => message
    case OutputInvalid(_, message) => message
    case VerifyRaised(_, message) => message
  }

  function ReasonText(reason: Reason): string {
    match reason
    case Authorized => "authorized"
    case ActionMismatch => "authorization action must match the registered tool name"
    case CapabilityNotAllowed => "required capability is not allowed by policy"
    case CapabilityMissing => "actor is missing a required capability"
    case RiskTooHigh => "tool risk exceeds policy maximum"
    case ResourceIdRequired => "resource-scoped action requires resource_id"
    case ResourceOutOfScope => "resource is outside the allowed policy scope"
    case WriteNotAllowed => "write action is not explicitly allowed; approval is required for writes"
    case ApprovalRequired => "valid approval for the exact action is required"
  }

  datatype ExecutionStatus = Succeeded | Failed | Rejected

  type ReceiptId = nat

  datatype Receipt = Receipt(
    executionId: ReceiptId,
    organizationId: string,
    workspaceId: string,
    actorId: string,
    toolIdentity: string,
    actionFingerprint: string,
    idempotencyKey: string,
    status: ExecutionStatus,
    attempts: nat,
    output: Option<Json.Value>,
    error: Option<string>,
    createdAt: Time,
    completedAt: Option<Time>)

  /** One `adapter.execute` call: the side effect. `receipt` is the invocation it belongs to. */
  datatype Call = Call(receipt: ReceiptId, key: string, request: Request, approval: Option<Approval>, at: Time)

  datatype EngineError = EmptyKey | TooFewAttempts | Interrupted

  // ---- the attempts of one invocation ----

  datatype Ending = Confirmed | Exhausted | Abandoned

  datatype Outcome = Outcome(
    ending: Ending,
    attempts: nat,
    output: Option<Json.Value>,
    verification: Json.Value,
    error: Option<string>)

  /** The loop from attempt `done + 1` on, with the output and error of the attempts before. */
  function Attempts(adapter: Adapter, done: nat, max: nat, output: Option<Json.Value>, error: Option<string>): Outcome
    requires done <= max
    decreases max - done
  {
    if done == max then Outcome(Exhausted, max, output, Json.Null, error)
    else
      match adapter(done + 1)
      case Verified(produced, verification) => Outcome(Confirmed, done + 1, Some(produced), verification, None)
      case Aborted => Outcome(Abandoned, done + 1, output, Json.Null, error)
      case ExecuteRaised(message) => Attempts(adapter, done + 1, max, output, Some(message))
      case t => Attempts(adapter, done + 1, max, Some(t.produced), Some(ErrorOf(t)))
  }

  /** The output of the latest of the first n attempts whose execute call returned, if any did. */
  ghost predicate LatestOutput(adapter: Adapter, n: nat, output: Option<Json.Value>) {
    if output.None? then forall i: nat :: 1 <= i <= n ==> !HasOutput(adapter(i))
    else exists k: nat :: IsLatest(adapter, n, k) && adapter(k).produced == output.value
  }

  ghost predicate IsLatest(adapter: Adapter, n: nat, k: nat) {
    1 <= k <= n && HasOutput(adapter(k)) && forall i: nat :: k < i <= n ==> !HasOutput(adapter(i))
  }

  ghost predicate AllFailed(adapter: Adapter, n: nat) {
    forall i: nat :: 1 <= i <= n ==> Fails(adapter(i))
  }

  ghost predicate Means(adapter: Adapter, max: nat, o: Outcome) {
    match o.ending
    case Confirmed =>
      && 1 <= o.attempts <= max
      && AllFailed(adapter, o.attempts - 1)
      && adapter(o.attempts).Verified?
      && o.output == Some(adapter(o.attempts).produced)
      && o.verification == adapter(o.attempts).verification
    case Exhausted =>
      && o.attempts == max
      && AllFailed(adapter, max)
      && LatestOutput(adapter, max, o.output)
      && (max > 0 ==> o.error == Some(ErrorOf(adapter(max))))
    case Abandoned =>
      && 1 <= o.attempts <= max
      && AllFailed(adapter, o.attempts - 1)
      && adapter(o.attempts).Aborted?
  }

  lemma LatestOutputStep(adapter: Adapter, n: nat, output: Option<Json.Value>)
    requires LatestOutput(adapter, n, output) && Fails(adapter(n + 1))
    ensures adapter(n + 1).ExecuteRaised? ==> LatestOutput(adapter, n + 1, output)
    ensures !adapter(n + 1).ExecuteRaised? ==> LatestOutput(adapter, n + 1, Some(adapter(n + 1).produced))
  {
    if adapter(n + 1).ExecuteRaised? && output.Some? {
      var k: nat :| IsLatest(adapter, n, k) && adapter(k).produced == output.value;
      assert IsLatest(adapter, n + 1, k);
    }
    if !adapter(n + 1).ExecuteRaised? {
      assert IsLatest(adapter, n + 1, n + 1);
    }
  }

  lemma OneMoreFailed(adapter: Adapter, n: nat)
    requires AllFailed(adapter, n) && Fails(adapter(n + 1))
    ensures AllFailed(adapter, n + 1)
  {
  }

  lemma EndMeans(
    adapter: Adapter, done: nat, max: nat, output: Option<Json.Value>, error: Option<string>)
    requires done < max && AllFailed(adapter, done) && !Fails(adapter(done + 1))
    ensures Means(adapter, max, Attempts(adapter, done, max, output, error))
  {
  }

  lemma AttemptsStep(
    adapter: Adapter, done: nat, max: nat, output: Option<Json.Value>, error: Option<string>)
    requires done < max && Fails(adapter(done + 1))
    ensures var t := adapter(done + 1);
            Attempts(adapter, done, max, output, error) ==
            Attempts(adapter, done + 1, max, if t.ExecuteRaised? then output else Some(t.produced), Some(ErrorOf(t)))
  {
  }

  /**
   * A confirmed outcome is the first verified attempt. After an exhausted one all attempts failed: the error
   * is the last attempt's, the output that of the latest attempt whose execute call returned, maybe an
   * earlier one. An abandoned one ends with the first attempt that was aborted.
   */
  lemma {:induction false} AttemptsMean(
    adapter: Adapter, done: nat, max: nat, output: Option<Json.Value>, error: Option<string>)
    requires done <= max && AllFailed(adapter, done) && LatestOutput(adapter, done, output)
    requires done > 0 ==> error == Some(ErrorOf(adapter(done)))
    ensures Means(adapter, max, Attempts(adapter, done, max, output, error))
    decreases max - done
  {
    if done < max {
      var t := adapter(done + 1);
      if !Fails(t) {
        EndMeans(adapter, done, max, output, error);
      } else {
        OneMoreFailed(adapter, done);
        LatestOutputStep(adapter, done, output);
        AttemptsStep(adapter, done, max, output, error);
        AttemptsMean(adapter, done + 1, max, if t.ExecuteRaised? then output else Some(t.produced), Some(ErrorOf(t)));
      }
    }
  }

  // ---- one invocation ----

  /** The arguments of one `execute` call, its opaque outcomes included; `id` is the uuid it would draw. */
  datatype Invocation = Invocation(
    id: ReceiptId,
    request: Request,
    approval: Option<Approval>,
    invalidInput: Option<string>,
    adapter: Adapter,
    key: string,
    maxAttempts: int,
    now: Time,
    completedAt: Time)

  datatype Engine = Engine(executions: map<ReceiptId, Receipt>, receipts: map<string, Receipt>, calls: seq<Call>)

  /** `not key.strip()` */
  predicate Blank(key: string) {
    forall i :: 0 <= i < |key| ==> IsSpace(key[i])
  }

  function NewReceipt(
    fingerprint: Fingerprinter, inv: Invocation, status: ExecutionStatus, attempts: nat, output: Option<Json.Value>,
    error: Option<string>, completedAt: Option<Time>): Receipt
  {
    var r := inv.request;
    Receipt(inv.id, r.organizationId, r.workspaceId, r.actorId, r.tool.Identity(), fingerprint(r), inv.key,
            status, attempts, output, error, inv.now, completedAt)
  }

  function ConfirmedOutput(o: Outcome): Json.Value
    requires o.output.Some?
  {
    Json.Obj([Keyed("result", o.output.value), Keyed("verification", o.verification)])
  }

  /** The gate and the input check let the invocation through to the adapter. */
  predicate Starts(fingerprint: Fingerprinter, policy: Policy, inv: Invocation) {
    Authorize(fingerprint, policy, inv.request, inv.approval, inv.now).allowed && inv.invalidInput.None?
  }

  function Tried(inv: Invocation): Outcome
    requires inv.maxAttempts >= 1
  {
    Attempts(inv.adapter, 0, inv.maxAttempts, None, None)
  }

  /** An exception that the engine does not catch ends the invocation. */
  predicate Abandons(fingerprint: Fingerprinter, policy: Policy, inv: Invocation)
    requires inv.maxAttempts >= 1
  {
    Starts(fingerprint, policy, inv) && Tried(inv).ending == Abandoned
  }

  /** The adapter calls of an invocation whose key is new. */
  function CallsMade(fingerprint: Fingerprinter, policy: Policy, inv: Invocation): nat
    requires inv.maxAttempts >= 1
  {
    if Starts(fingerprint, policy, inv) then Tried(inv).attempts else 0
  }

  /** The receipt of an invocation whose key is new and that is not abandoned. */
  function ReceiptFor(fingerprint: Fingerprinter, policy: Policy, inv: Invocation): Receipt
    requires inv.maxAttempts >= 1 && !Abandons(fingerprint, policy, inv)
  {
    var decision := Authorize(fingerprint, policy, inv.request, inv.approval, inv.now);
    if !decision.allowed then NewReceipt(fingerprint, inv, Rejected, 0, None, Some(ReasonText(decision.reason)), None)
    else if inv.invalidInput.Some? then NewReceipt(fingerprint, inv, Failed, 0, None, inv.invalidInput, None)
    else
      var o := Tried(inv);
      if o.ending == Confirmed && o.output.Some? then
        NewReceipt(fingerprint, inv, Succeeded, o.attempts, Some(ConfirmedOutput(o)), None, Some(inv.completedAt))
      else
        NewReceipt(fingerprint, inv, Failed, o.attempts, o.output, o.error, Some(inv.completedAt))
  }

  function CallOf(inv: Invocation): Call {
    Call(inv.id, inv.key, inv.request, inv.approval, inv.now)
  }

  function Repeat(c: Call, n: nat): (calls: seq<Call>)
    ensures |calls| == n && forall i :: 0 <= i < n ==> calls[i] == c
  {
    seq(n, _ => c)
  }

  /** A receipt is filed under its id and under its key. */
  function Filed(e: Engine, receipt: Receipt): Engine {
    e.(executions := e.executions[receipt.executionId := receipt],
       receipts := e.receipts[receipt.idempotencyKey := receipt])
  }

  function Executed(fingerprint: Fingerprinter, policy: Policy, e: Engine, inv: Invocation)
    : (Engine, Result<Receipt, EngineError>)
  {
    if Blank(inv.key) then (e, Failure(EmptyKey))
    else if inv.maxAttempts < 1 then (e, Failure(TooFewAttempts))
    else if inv.key in e.receipts then (e, Success(e.receipts[inv.key]))
    else
      var logged := e.(calls := e.calls + Repeat(CallOf(inv), CallsMade(fingerprint, policy, inv)));
      if Abandons(fingerprint, policy, inv) then (logged, Failure(Interrupted))
      else
        var receipt := ReceiptFor(fingerprint, policy, inv);
        (Filed(logged, receipt), Success(receipt))
  }

  /** The invocation gets as far as the gate. */
  predicate Proceeds(e: Engine, inv: Invocation) {
    !Blank(inv.key) && inv.maxAttempts >= 1 && inv.key !in e.receipts
  }

  /** It does, and leaves a receipt behind. */
  predicate Settles(fingerprint: Fingerprinter, policy: Policy, e: Engine, inv: Invocation) {
    Proceeds(e, inv) && !Abandons(fingerprint, policy, inv)
  }

  /**
   * What a receipt says. SUCCEEDED after n attempts: 1 to n - 1 failed and n executed, passed its schema and
   * was verified. FAILED for an authorised, valid input: all attempts failed. Anything else made no call.
   */
  lemma ReceiptMeaning(fingerprint: Fingerprinter, policy: Policy, inv: Invocation)
    requires inv.maxAttempts >= 1 && !Abandons(fingerprint, policy, inv)
    ensures var r := ReceiptFor(fingerprint, policy, inv);
            var decision := Authorize(fingerprint, policy, inv.request, inv.approval, inv.now);
            var allowed := decision.allowed;
            && (r.status == Rejected <==> !allowed)
            && (r.status == Rejected ==> r.error == Some(ReasonText(decision.reason)))
            && r.attempts == CallsMade(fingerprint, policy, inv)
            && (r.attempts == 0 <==> !allowed || inv.invalidInput.Some?)
            && (allowed && inv.invalidInput.Some? ==>
                  r.status == Failed && r.error == inv.invalidInput && r.output.None?)
            && (r.status == Succeeded ==>
                  && allowed && inv.invalidInput.None?
                  && 1 <= r.attempts <= inv.maxAttempts
                  && AllFailed(inv.adapter, r.attempts - 1)
                  && inv.adapter(r.attempts).Verified?
                  && r.error.None?
                  && r.output == Some(Json.Obj([Keyed("result", inv.adapter(r.attempts).produced),
                                                Keyed("verification", inv.adapter(r.attempts).verification)])))
            && (r.status == Failed && r.attempts > 0 ==>
                  && r.attempts == inv.maxAttempts
                  && AllFailed(inv.adapter, inv.maxAttempts)
                  && r.error == Some(ErrorOf(inv.adapter(inv.maxAttempts)))
                  && LatestOutput(inv.adapter, inv.maxAttempts, r.output))
            && (allowed && inv.invalidInput.None? && r.status == Failed ==> r.attempts > 0)
  {
    AttemptsMean(inv.adapter, 0, inv.maxAttempts, None, None);
  }

  lemma ReceiptNamesItsRequest(fingerprint: Fingerprinter, policy: Policy, inv: Invocation)
    requires inv.maxAttempts >= 1 && !Abandons(fingerprint, policy, inv)
    ensures var receipt, r := ReceiptFor(fingerprint, policy, inv), inv.request;
            && receipt.executionId == inv.id && receipt.idempotencyKey == inv.key
            && receipt.organizationId == r.organizationId && receipt.workspaceId == r.workspaceId
            && receipt.actorId == r.actorId && receipt.toolIdentity == r.tool.Identity()
            && receipt.actionFingerprint == fingerprint(r)
            && receipt.createdAt == inv.now
            && receipt.completedAt == (if Starts(fingerprint, policy, inv) then Some(inv.completedAt) else None)
  {
  }

  /** An abandoned invocation has made calls, the last of which raised what the engine does not catch. */
  lemma AbandonedMeaning(fingerprint: Fingerprinter, policy: Policy, inv: Invocation)
    requires inv.maxAttempts >= 1 && Abandons(fingerprint, policy, inv)
    ensures var n := CallsMade(fingerprint, policy, inv);
            1 <= n <= inv.maxAttempts && AllFailed(inv.adapter, n - 1) && inv.adapter(n).Aborted?
  {
    AttemptsMean(inv.adapter, 0, inv.maxAttempts, None, None);
  }

  /** The error of a failed attempt, and of a request that was refused. */
  lemma ErrorTexts(fingerprint: Fingerprinter, policy: Policy, inv: Invocation, t: Try)
    requires inv.maxAttempts >= 1 && Fails(t)
    ensures ErrorOf(t) ==
            match t
            case Unverified(_, None) => "external action could not be verified"
            case Unverified(_, Some(text)) => text
            case ExecuteRaised(text) => text
            case OutputInvalid(_, text) => text
            case VerifyRaised(_, text) => text
    ensures !Authorize(fingerprint, policy, inv.request, inv.approval, inv.now).allowed ==>
              ReceiptFor(fingerprint, policy, inv).error ==
              match Authorize(fingerprint, policy, inv.request, inv.approval, inv.now).reason
              case Authorized => None
              case ActionMismatch => Some("authorization action must match the registered tool name")
              case CapabilityNotAllowed => Some("required capability is not allowed by policy")
              case CapabilityMissing => Some("actor is missing a required capability")
              case RiskTooHigh => Some("tool risk exceeds policy maximum")
              case ResourceIdRequired => Some("resource-scoped action requires resource_id")
              case ResourceOutOfScope => Some("resource is outside the allowed policy scope")
              case WriteNotAllowed =>
                Some("write action is not explicitly allowed; approval is required for writes")
              case ApprovalRequired => Some("valid approval for the exact action is required")
  {
  }

  /** What is asked of the arguments: a key that is not blank, then at least one attempt. */
  lemma ArgumentsAreChecked(fingerprint: Fingerprinter, policy: Policy, e: Engine, inv: Invocation)
    ensures var (e', r) := Executed(fingerprint, policy, e, inv);
            && (r == Failure(EmptyKey) <==> Strip(inv.key, IsSpace) == "")
            && (r == Failure(TooFewAttempts) <==> Strip(inv.key, IsSpace) != "" && inv.maxAttempts < 1)
            && (r in {Failure(EmptyKey), Failure(TooFewAttempts)} ==> e' == e)
  {
    BlankIsStripped(inv.key);
  }

  lemma BlankIsStripped(key: string)
    ensures Blank(key) <==> Strip(key, IsSpace) == ""
  {
    if Blank(key) {
      assert key + "" == key && "" + key + "" == key;
      StripOuter(key, "", "", IsSpace);
    } else {
      var i :| 0 <= i < |key| && !IsSpace(key[i]);
      StripKeepsOthers(key, i);
    }
  }

  /** A character that is no white space survives stripping. */
  lemma {:induction false} StripKeepsOthers(key: string, i: nat)
    requires i < |key| && !IsSpace(key[i])
    ensures Strip(key, IsSpace) != ""
  {
    if IsSpace(key[0]) {
      StripKeepsOthers(key[1..], i - 1);
    }
  }

  // ---- whole runs ----

  /** The id of an invocation that has left no trace yet. */
  ghost predicate Fresh(e: Engine, id: ReceiptId) {
    id !in e.executions && forall c :: c in e.calls ==> c.receipt != id
  }

  ghost predicate ValidInvocations(e: Engine, fingerprint: Fingerprinter, policy: Policy, invs: seq<Invocation>)
    decreases |invs|
  {
    invs != [] ==>
    && Fresh(e, invs[0].id)
    && ValidInvocations(Executed(fingerprint, policy, e, invs[0]).0, fingerprint, policy, invs[1..])
  }

  function RunAll(e: Engine, fingerprint: Fingerprinter, policy: Policy, invs: seq<Invocation>): Engine
    decreases |invs|
  {
    if invs == [] then e else RunAll(Executed(fingerprint, policy, e, invs[0]).0, fingerprint, policy, invs[1..])
  }

  /** The calls of one invocation. */
  function CallsBy(calls: seq<Call>, id: ReceiptId): nat {
    if calls == [] then 0
    else CallsBy(calls[..|calls| - 1], id) + (if calls[|calls| - 1].receipt == id then 1 else 0)
  }

  /** The calls for one key. */
  function CallsFor(calls: seq<Call>, key: string): nat {
    if calls == [] then 0
    else CallsFor(calls[..|calls| - 1], key) + (if calls[|calls| - 1].key == key then 1 else 0)
  }

  /**
   * The two maps hold the same receipts one to one; every call was authorised; a call whose invocation left
   * a receipt was made for that receipt's key and action, and such calls are as many as the receipt says.
   */
  ghost predicate EngineOk(fingerprint: Fingerprinter, policy: Policy, e: Engine) {
    && MapsAgree(e)
    && (forall c :: c in e.calls ==> CallOk(fingerprint, policy, e, c))
    && (forall id :: id in e.executions ==> CallsBy(e.calls, id) == e.executions[id].attempts)
  }

  /** Every receipt is in both maps. */
  ghost predicate MapsAgree(e: Engine) {
    && (forall key :: key in e.receipts ==> ReceiptOk(e, key))
    && (forall id :: id in e.executions ==> ExecutionOk(e, id))
  }

  ghost predicate ReceiptOk(e: Engine, key: string)
    requires key in e.receipts
  {
    var r := e.receipts[key];
    r.idempotencyKey == key && r.executionId in e.executions && e.executions[r.executionId] == r
  }

  ghost predicate ExecutionOk(e: Engine, id: ReceiptId)
    requires id in e.executions
  {
    var r := e.executions[id];
    r.executionId == id && r.idempotencyKey in e.receipts && e.receipts[r.idempotencyKey] == r
  }

  ghost predicate CallOk(fingerprint: Fingerprinter, policy: Policy, e: Engine, c: Call) {
    && Authorize(fingerprint, policy, c.request, c.approval, c.at).allowed
    && (c.receipt in e.executions ==>
          && e.executions[c.receipt].idempotencyKey == c.key
          && e.executions[c.receipt].actionFingerprint == fingerprint(c.request))
  }

  /**
   * Filing keeps the maps in agreement exactly when key and id are both new or belong together already: the
   * early return for a known key and a fresh id for every receipt are what it takes.
   */
  lemma FilingIsOneToOne(e: Engine, receipt: Receipt)
    requires MapsAgree(e)
    ensures var key, id := receipt.idempotencyKey, receipt.executionId;
            MapsAgree(Filed(e, receipt)) <==>
              if key in e.receipts then e.receipts[key].executionId == id else id !in e.executions
  {
    var key, id := receipt.idempotencyKey, receipt.executionId;
    var e' := Filed(e, receipt);
    if key in e.receipts && e.receipts[key].executionId != id {
      assert ReceiptOk(e, key);
      assert !ExecutionOk(e', e.receipts[key].executionId);
    } else if key !in e.receipts && id in e.executions {
      assert ExecutionOk(e, id);
      assert !ReceiptOk(e', e.executions[id].idempotencyKey);
    } else {
      forall k | k in e'.receipts ensures ReceiptOk(e', k) {
        if k != key { assert ReceiptOk(e, k); }
      }
      forall i | i in e'.executions ensures ExecutionOk(e', i) {
        if i != id { assert ExecutionOk(e, i); }
      }
    }
  }

  const IDLE: Engine := Engine(map[], map[], [])

  lemma IdleIsOk(fingerprint: Fingerprinter, policy: Policy)
    ensures EngineOk(fingerprint, policy, IDLE)
  {
  }

  lemma RepeatGrows(calls: seq<Call>, c: Call, n: nat)
    requires n > 0
    ensures var longer := calls + Repeat(c, n);
            longer != [] && longer[..|longer| - 1] == calls + Repeat(c, n - 1) && longer[|longer| - 1] == c
  {
  }

  lemma {:induction false} CallsByRepeat(calls: seq<Call>, c: Call, n: nat, id: ReceiptId)
    ensures CallsBy(calls + Repeat(c, n), id) == CallsBy(calls, id) + if c.receipt == id then n else 0
  {
    if n == 0 {
      assert calls + Repeat(c, n) == calls;
    } else {
      RepeatGrows(calls, c, n);
      CallsByRepeat(calls, c, n - 1, id);
    }
  }

  lemma {:induction false} CallsForRepeat(calls: seq<Call>, c: Call, n: nat, key: string)
    ensures CallsFor(calls + Repeat(c, n), key) == CallsFor(calls, key) + if c.key == key then n else 0
  {
    if n == 0 {
      assert calls + Repeat(c, n) == calls;
    } else {
      RepeatGrows(calls, c, n);
      CallsForRepeat(calls, c, n - 1, key);
    }
  }

  lemma {:induction false} NoCallsByFresh(calls: seq<Call>, id: ReceiptId)
    requires forall c :: c in calls ==> c.receipt != id
    ensures CallsBy(calls, id) == 0
  {
    if calls != [] {
      assert calls[|calls| - 1] in calls;
      NoCallsByFresh(calls[..|calls| - 1], id);
    }
  }

  /** What one invocation does to the maps and to the log. */
  lemma InvocationEffect(fingerprint: Fingerprinter, policy: Policy, e: Engine, inv: Invocation)
    ensures var e' := Executed(fingerprint, policy, e, inv).0;
            && (!Proceeds(e, inv) ==> e' == e)
            && (Proceeds(e, inv) ==>
                  e'.calls == e.calls + Repeat(CallOf(inv), CallsMade(fingerprint, policy, inv)))
            && (!Settles(fingerprint, policy, e, inv) ==>
                  e'.receipts == e.receipts && e'.executions == e.executions)
            && (Settles(fingerprint, policy, e, inv) ==>
                  var receipt := ReceiptFor(fingerprint, policy, inv);
                  && e'.receipts == e.receipts[inv.key := receipt]
                  && e'.executions == e.executions[inv.id := receipt])
  {
  }

  lemma InvocationFiles(fingerprint: Fingerprinter, policy: Policy, e: Engine, inv: Invocation)
    requires MapsAgree(e) && Fresh(e, inv.id)
    ensures MapsAgree(Executed(fingerprint, policy, e, inv).0)
  {
    InvocationEffect(fingerprint, policy, e, inv);
    if Settles(fingerprint, policy, e, inv) {
      var receipt := ReceiptFor(fingerprint, policy, inv);
      ReceiptNamesItsRequest(fingerprint, policy, inv);
      FilingIsOneToOne(e, receipt);
      SameMapsAgree(Filed(e, receipt), Executed(fingerprint, policy, e, inv).0);
    } else {
      SameMapsAgree(e, Executed(fingerprint, policy, e, inv).0);
    }
  }

  lemma SameMapsAgree(e: Engine, e': Engine)
    requires MapsAgree(e) && e'.receipts == e.receipts && e'.executions == e.executions
    ensures MapsAgree(e')
  {
    forall key | key in e'.receipts ensures ReceiptOk(e', key) { assert ReceiptOk(e, key); }
    forall id | id in e'.executions ensures ExecutionOk(e', id) { assert ExecutionOk(e, id); }
  }

  lemma InvocationCallsOk(
    fingerprint: Fingerprinter, policy: Policy, e: Engine, inv: Invocation, c: Call)
    requires EngineOk(fingerprint, policy, e) && Fresh(e, inv.id)
    requires c in Executed(fingerprint, policy, e, inv).0.calls
    ensures CallOk(fingerprint, policy, Executed(fingerprint, policy, e, inv).0, c)
  {
    InvocationEffect(fingerprint, policy, e, inv);
    if c in e.calls {
      assert CallOk(fingerprint, policy, e, c);
    } else {
      assert c == CallOf(inv) && CallsMade(fingerprint, policy, inv) > 0;
      if Settles(fingerprint, policy, e, inv) {
        ReceiptNamesItsRequest(fingerprint, policy, inv);
      }
    }
  }

  lemma InvocationCounted(
    fingerprint: Fingerprinter, policy: Policy, e: Engine, inv: Invocation, id: ReceiptId)
    requires EngineOk(fingerprint, policy, e) && Fresh(e, inv.id)
    requires id in Executed(fingerprint, policy, e, inv).0.executions
    ensures var e' := Executed(fingerprint, policy, e, inv).0;
            CallsBy(e'.calls, id) == e'.executions[id].attempts
  {
    InvocationEffect(fingerprint, policy, e, inv);
    if Proceeds(e, inv) {
      CallsByRepeat(e.calls, CallOf(inv), CallsMade(fingerprint, policy, inv), id);
    }
    if id == inv.id {
      NoCallsByFresh(e.calls, id);
      ReceiptMeaning(fingerprint, policy, inv);
    }
  }

  lemma InvocationKeepsOk(fingerprint: Fingerprinter, policy: Policy, e: Engine, inv: Invocation)
    requires EngineOk(fingerprint, policy, e) && Fresh(e, inv.id)
    ensures EngineOk(fingerprint, policy, Executed(fingerprint, policy, e, inv).0)
  {
    var e' := Executed(fingerprint, policy, e, inv).0;
    InvocationFiles(fingerprint, policy, e, inv);
    forall c | c in e'.calls ensures CallOk(fingerprint, policy, e', c) {
      InvocationCallsOk(fingerprint, policy, e, inv, c);
    }
    forall id | id in e'.executions ensures CallsBy(e'.calls, id) == e'.executions[id].attempts {
      InvocationCounted(fingerprint, policy, e, inv, id);
    }
  }

  lemma {:induction false} RunKeepsOk(e: Engine, fingerprint: Fingerprinter, policy: Policy, invs: seq<Invocation>)
    requires EngineOk(fingerprint, policy, e) && ValidInvocations(e, fingerprint, policy, invs)
    ensures EngineOk(fingerprint, policy, RunAll(e, fingerprint, policy, invs))
    decreases |invs|
  {
    if invs != [] {
      InvocationKeepsOk(fingerprint, policy, e, invs[0]);
      RunKeepsOk(Executed(fingerprint, policy, e, invs[0]).0, fingerprint, policy, invs[1..]);
    }
  }

  /** From a new engine on, every sequence of calls keeps its books in order. */
  lemma AnyRunIsOk(fingerprint: Fingerprinter, policy: Policy, invs: seq<Invocation>)
    requires ValidInvocations(IDLE, fingerprint, policy, invs)
    ensures EngineOk(fingerprint, policy, RunAll(IDLE, fingerprint, policy, invs))
  {
    IdleIsOk(fingerprint, policy);
    RunKeepsOk(IDLE, fingerprint, policy, invs);
  }

  /** The receipts of `e` are still there in `later`, with no call dropped from the log. */
  ghost predicate Extends(e: Engine, later: Engine) {
    && (forall key :: key in e.receipts ==> key in later.receipts && later.receipts[key] == e.receipts[key])
    && e.calls <= later.calls
  }

  lemma InvocationExtends(fingerprint: Fingerprinter, policy: Policy, e: Engine, inv: Invocation)
    ensures Extends(e, Executed(fingerprint, policy, e, inv).0)
  {
    InvocationEffect(fingerprint, policy, e, inv);
  }

  lemma {:induction false} RunExtends(e: Engine, fingerprint: Fingerprinter, policy: Policy, invs: seq<Invocation>)
    ensures Extends(e, RunAll(e, fingerprint, policy, invs))
    decreases |invs|
  {
    if invs != [] {
      InvocationExtends(fingerprint, policy, e, invs[0]);
      RunExtends(Executed(fingerprint, policy, e, invs[0]).0, fingerprint, policy, invs[1..]);
    }
  }

  /** A key that has its receipt causes no more calls. */
  lemma {:induction false} SettledKeyIsQuiet(
    e: Engine, fingerprint: Fingerprinter, policy: Policy, invs: seq<Invocation>, key: string)
    requires key in e.receipts
    ensures CallsFor(RunAll(e, fingerprint, policy, invs).calls, key) == CallsFor(e.calls, key)
    decreases |invs|
  {
    if invs != [] {
      var inv := invs[0];
      InvocationEffect(fingerprint, policy, e, inv);
      if Proceeds(e, inv) {
        CallsForRepeat(e.calls, CallOf(inv), CallsMade(fingerprint, policy, inv), key);
      }
      SettledKeyIsQuiet(Executed(fingerprint, policy, e, inv).0, fingerprint, policy, invs[1..], key);
    }
  }

  /**
   * Idempotency over any run: a stored receipt is never changed; whoever presents its key again, with
   * whatever request, gets that receipt and causes no further side effect under the key.
   */
  lemma FirstReceiptIsFinal(
    e: Engine, fingerprint: Fingerprinter, policy: Policy, invs: seq<Invocation>, again: Invocation)
    requires again.key in e.receipts && !Blank(again.key) && again.maxAttempts >= 1
    ensures var later := RunAll(e, fingerprint, policy, invs);
            && CallsFor(later.calls, again.key) == CallsFor(e.calls, again.key)
            && Executed(fingerprint, policy, later, again) == (later, Success(e.receipts[again.key]))
  {
    RunExtends(e, fingerprint, policy, invs);
    SettledKeyIsQuiet(e, fingerprint, policy, invs, again.key);
  }

  /**
   * So a key answers for whatever is presented with it, another tenant's request included: the receipt is
   * the first request's, and names the fingerprint of the one presented exactly when the two are equal.
   */
  lemma KeyAnswersForFirstRequest(
    e: Engine, fingerprint: Fingerprinter, policy: Policy, first: Invocation, invs: seq<Invocation>, again: Invocation)
    requires Settles(fingerprint, policy, e, first) && again.key == first.key && again.maxAttempts >= 1
    ensures var later := RunAll(Executed(fingerprint, policy, e, first).0, fingerprint, policy, invs);
            var answer := Executed(fingerprint, policy, later, again).1;
            && answer == Success(ReceiptFor(fingerprint, policy, first))
            && (answer.value.actionFingerprint == fingerprint(again.request) <==>
                  fingerprint(first.request) == fingerprint(again.request))
  {
    var e' := Executed(fingerprint, policy, e, first).0;
    InvocationEffect(fingerprint, policy, e, first);
    FirstReceiptIsFinal(e', fingerprint, policy, invs, again);
    ReceiptNamesItsRequest(fingerprint, policy, first);
  }

  /** With the gate's own fingerprint: exactly when the request presented asks for the first one's action. */
  lemma KeyAnswersForSameAction(
    e: Engine, sha: string -> string, policy: Policy, first: Invocation, invs: seq<Invocation>, again: Invocation)
    requires Settles(Hashed(sha), policy, e, first) && again.key == first.key && again.maxAttempts >= 1
    requires WellFormedRequest(first.request) && WellFormedRequest(again.request)
    requires NoCollision(sha, first.request, again.request)
    ensures var later := RunAll(Executed(Hashed(sha), policy, e, first).0, Hashed(sha), policy, invs);
            var answer := Executed(Hashed(sha), policy, later, again).1;
            && answer.Success?
            && (answer.value.actionFingerprint == Hashed(sha)(again.request) <==>
                  SameAction(first.request, again.request))
  {
    KeyAnswersForFirstRequest(e, Hashed(sha), policy, first, invs, again);
    PreimageIsFaithful(first.request, again.request);
  }

  /** The invocation of this call left a receipt. */
  predicate Settled(e: Engine, c: Call) {
    c.receipt in e.executions
  }

  /**
   * All settled `adapter.execute` calls for one key come from the one invocation whose receipt is stored, and
   * are as many as it says.
   */
  lemma CallsOfOneKeyComeFromOneInvocation(
    e: Engine, fingerprint: Fingerprinter, policy: Policy, invs: seq<Invocation>, c: Call, d: Call)
    requires EngineOk(fingerprint, policy, e) && ValidInvocations(e, fingerprint, policy, invs)
    requires var later := RunAll(e, fingerprint, policy, invs);
             c in later.calls && d in later.calls && c.key == d.key && Settled(later, c) && Settled(later, d)
    ensures var later := RunAll(e, fingerprint, policy, invs);
            && c.key in later.receipts
            && c.receipt == d.receipt == later.receipts[c.key].executionId
            && CallsBy(later.calls, c.receipt) == later.receipts[c.key].attempts
  {
    var later := RunAll(e, fingerprint, policy, invs);
    RunKeepsOk(e, fingerprint, policy, invs);
    assert CallOk(fingerprint, policy, later, c) && CallOk(fingerprint, policy, later, d);
    assert ExecutionOk(later, c.receipt) && ExecutionOk(later, d.receipt);
  }

  // ---- conservation ----

  ghost function TotalAttempts(receipts: map<string, Receipt>): nat
    decreases |receipts|
  {
    if receipts.Keys == {} then 0
    else
      var key :| key in receipts;
      receipts[key].attempts + TotalAttempts(receipts - {key})
  }

  lemma {:induction false} TotalWithout(receipts: map<string, Receipt>, key: string)
    requires key in receipts
    ensures TotalAttempts(receipts) == receipts[key].attempts + TotalAttempts(receipts - {key})
    decreases |receipts|
  {
    var first :|
      first in receipts && TotalAttempts(receipts) == receipts[first].attempts + TotalAttempts(receipts - {first});
    if first != key {
      TotalWithout(receipts - {first}, key);
      TotalWithout(receipts - {key}, first);
      assert receipts - {first} - {key} == receipts - {key} - {first};
    }
  }

  lemma TotalGrows(receipts: map<string, Receipt>, key: string, r: Receipt)
    requires key !in receipts
    ensures TotalAttempts(receipts[key := r]) == TotalAttempts(receipts) + r.attempts
  {
    TotalWithout(receipts[key := r], key);
    assert receipts[key := r] - {key} == receipts;
  }

  /** The calls of an invocation that is abandoned. */
  function LostBy(fingerprint: Fingerprinter, policy: Policy, e: Engine, inv: Invocation): nat {
    if Proceeds(e, inv) && Abandons(fingerprint, policy, inv) then CallsMade(fingerprint, policy, inv) else 0
  }

  /** The calls of the run's abandoned invocations. */
  function LostCalls(e: Engine, fingerprint: Fingerprinter, policy: Policy, invs: seq<Invocation>): nat
    decreases |invs|
  {
    if invs == [] then 0
    else
      LostBy(fingerprint, policy, e, invs[0]) +
      LostCalls(Executed(fingerprint, policy, e, invs[0]).0, fingerprint, policy, invs[1..])
  }

  ghost predicate NoneAbandoned(e: Engine, fingerprint: Fingerprinter, policy: Policy, invs: seq<Invocation>)
    decreases |invs|
  {
    invs != [] ==>
    && !(Proceeds(e, invs[0]) && Abandons(fingerprint, policy, invs[0]))
    && NoneAbandoned(Executed(fingerprint, policy, e, invs[0]).0, fingerprint, policy, invs[1..])
  }

  lemma InvocationConserves(fingerprint: Fingerprinter, policy: Policy, e: Engine, inv: Invocation)
    ensures var e' := Executed(fingerprint, policy, e, inv).0;
            |e'.calls| + TotalAttempts(e.receipts) ==
            |e.calls| + TotalAttempts(e'.receipts) + LostBy(fingerprint, policy, e, inv)
  {
    InvocationEffect(fingerprint, policy, e, inv);
    if Settles(fingerprint, policy, e, inv) {
      ReceiptMeaning(fingerprint, policy, inv);
      TotalGrows(e.receipts, inv.key, ReceiptFor(fingerprint, policy, inv));
    }
  }

  /** The calls a run makes are the attempts its receipts record, and those of its abandoned invocations. */
  lemma {:induction false} SideEffectsAreConserved(
    e: Engine, fingerprint: Fingerprinter, policy: Policy, invs: seq<Invocation>)
    ensures var later := RunAll(e, fingerprint, policy, invs);
            |later.calls| + TotalAttempts(e.receipts) ==
            |e.calls| + TotalAttempts(later.receipts) + LostCalls(e, fingerprint, policy, invs)
    decreases |invs|
  {
    if invs != [] {
      InvocationConserves(fingerprint, policy, e, invs[0]);
      SideEffectsAreConserved(Executed(fingerprint, policy, e, invs[0]).0, fingerprint, policy, invs[1..]);
    }
  }

  lemma {:induction false} NothingLostExactly(
    e: Engine, fingerprint: Fingerprinter, policy: Policy, invs: seq<Invocation>)
    ensures LostCalls(e, fingerprint, policy, invs) == 0 <==> NoneAbandoned(e, fingerprint, policy, invs)
    decreases |invs|
  {
    if invs != [] {
      if Proceeds(e, invs[0]) && Abandons(fingerprint, policy, invs[0]) {
        AbandonedMeaning(fingerprint, policy, invs[0]);
      }
      NothingLostExactly(Executed(fingerprint, policy, e, invs[0]).0, fingerprint, policy, invs[1..]);
    }
  }

  /** No side effect goes unreported exactly when no invocation was ended by an exception outside `Exception`. */
  lemma AllSideEffectsReportedExactly(
    fingerprint: Fingerprinter, policy: Policy, invs: seq<Invocation>)
    ensures var later := RunAll(IDLE, fingerprint, policy, invs);
            |later.calls| == TotalAttempts(later.receipts) <==> NoneAbandoned(IDLE, fingerprint, policy, invs)
  {
    SideEffectsAreConserved(IDLE, fingerprint, policy, invs);
    NothingLostExactly(IDLE, fingerprint, policy, invs);
  }

  /** Such a call leaves its key free: the same key, presented again, reaches the adapter again. */
  lemma AbandonedKeyRunsAgain(
    fingerprint: Fingerprinter, policy: Policy, e: Engine, inv: Invocation, again: Invocation)
    requires Proceeds(e, inv) && Abandons(fingerprint, policy, inv)
    requires again.key == inv.key && again.maxAttempts >= 1
    ensures var e' := Executed(fingerprint, policy, e, inv).0;
            && Proceeds(e', again)
            && CallsFor(e'.calls, inv.key) == CallsFor(e.calls, inv.key) + CallsMade(fingerprint, policy, inv)
            && CallsMade(fingerprint, policy, inv) >= 1
  {
    InvocationEffect(fingerprint, policy, e, inv);
    CallsForRepeat(e.calls, CallOf(inv), CallsMade(fingerprint, policy, inv), inv.key);
    AbandonedMeaning(fingerprint, policy, inv);
  }

  /**
   * From the approver's desk to the side effect: in any run, every adapter call of a write tool carries an
   * approval, and whatever request that approval was given for is the action that was executed. The tools
   * have one identity; they have one name and version exactly when that action was named after its tool.
   */
  lemma EveryWriteWasApproved(
    e: Engine, sha: string -> string, policy: Policy, invs: seq<Invocation>, c: Call, approved: Request)
    requires EngineOk(Hashed(sha), policy, e) && ValidInvocations(e, Hashed(sha), policy, invs)
    requires policy.requireApprovalForWrites
    requires c in RunAll(e, Hashed(sha), policy, invs).calls && c.request.tool.sideEffect == Write
    requires c.approval.Some? ==> c.approval.value.fingerprint == Hashed(sha)(approved)
    requires WellFormedRequest(approved) && WellFormedRequest(c.request) && NoCollision(sha, approved, c.request)
    ensures c.approval.Some? && SameAction(approved, c.request)
    ensures approved.tool.name == c.request.tool.name && approved.tool.version == c.request.tool.version <==>
            approved.action == approved.tool.name
  {
    RunKeepsOk(e, Hashed(sha), policy, invs);
    assert CallOk(Hashed(sha), policy, RunAll(e, Hashed(sha), policy, invs), c);
    AllowedWriteWasApproved(sha, policy, c.approval, approved, c.request, c.at);
  }

  // ---- the engine itself ----

  class ExecutionEngine {
    const fingerprint: Fingerprinter
    const policy: Policy
    var executions: map<ReceiptId, Receipt>
    var receipts: map<string, Receipt>
    ghost var calls: seq<Call>

    constructor (fingerprint: Fingerprinter, policy: Policy)
      ensures this.fingerprint == fingerprint && this.policy == policy && View() == IDLE
    {
      this.fingerprint, this.policy := fingerprint, policy;
      executions, receipts, calls := map[], map[], [];
    }

    ghost function View(): Engine
      reads this
    {
      Engine(executions, receipts, calls)
    }

    method Store(receipt: Receipt)
      modifies this`executions, this`receipts
      ensures View() == Filed(old(View()), receipt)
      ensures var isNew := receipt.executionId !in old(executions) && receipt.idempotencyKey !in old(receipts);
              MapsAgree(old(View())) && isNew ==> MapsAgree(View())
    {
      if MapsAgree(View()) { FilingIsOneToOne(View(), receipt); }
      receipts := receipts[receipt.idempotencyKey := receipt];
      executions := executions[receipt.executionId := receipt];
    }

    /** The attempts of one invocation, each logged as a side effect when it is made. */
    method RunAttempts(inv: Invocation) returns (o: Outcome)
      requires inv.maxAttempts >= 1
      modifies this`calls
      ensures o == Attempts(inv.adapter, 0, inv.maxAttempts, None, None)
      ensures calls == old(calls) + Repeat(CallOf(inv), o.attempts)
    {
      var attempts := 0;
      var output: Option<Json.Value> := None;
      var lastError: Option<string> := None;
      while attempts < inv.maxAttempts
        invariant 0 <= attempts <= inv.maxAttempts
        invariant calls == old(calls) + Repeat(CallOf(inv), attempts)
        invariant Attempts(inv.adapter, attempts, inv.maxAttempts, output, lastError) ==
                  Attempts(inv.adapter, 0, inv.maxAttempts, None, None)
      {
        attempts := attempts + 1;
        calls := calls + [CallOf(inv)];
        match inv.adapter(attempts) {
          case Verified(produced, verification) =>
            return Outcome(Confirmed, attempts, Some(produced), verification, None);
          case Aborted =>
            return Outcome(Abandoned, attempts, output, Json.Null, lastError);
          case ExecuteRaised(message) =>
            lastError := Some(message);
          case t =>
            output := Some(t.produced);
            lastError := Some(ErrorOf(t));
        }
      }
      o := Outcome(Exhausted, attempts, output, Json.Null, lastError);
    }

    /** Gate, input check and attempts of an invocation with a new key: its calls, its receipt unless abandoned. */
    method Perform(inv: Invocation) returns (receipt: Option<Receipt>)
      requires inv.maxAttempts >= 1
      modifies this`calls
      ensures receipt.None? <==> Abandons(fingerprint, policy, inv)
      ensures receipt.Some? ==> receipt.value == ReceiptFor(fingerprint, policy, inv)
      ensures calls == old(calls) + Repeat(CallOf(inv), CallsMade(fingerprint, policy, inv))
    {
      var decision := Authorize(fingerprint, policy, inv.request, inv.approval, inv.now);
      if !decision.allowed {
        return Some(NewReceipt(fingerprint, inv, Rejected, 0, None, Some(ReasonText(decision.reason)), None));
      }
      if inv.invalidInput.Some? {
        return Some(NewReceipt(fingerprint, inv, Failed, 0, None, inv.invalidInput, None));
      }
      var o := RunAttempts(inv);
      if o.ending == Abandoned {
        return None;
      }
      if o.ending == Confirmed && o.output.Some? {
        var confirmed := Some(ConfirmedOutput(o));
        return Some(NewReceipt(fingerprint, inv, Succeeded, o.attempts, confirmed, None, Some(inv.completedAt)));
      }
      receipt := Some(NewReceipt(fingerprint, inv, Failed, o.attempts, o.output, o.error, Some(inv.completedAt)));
    }

    method Execute(inv: Invocation) returns (r: Result<Receipt, EngineError>)
      modifies this
      ensures (View(), r) == Executed(fingerprint, policy, old(View()), inv)
    {
      if Blank(inv.key) {
        return Failure(EmptyKey);
      }
      if inv.maxAttempts < 1 {
        return Failure(TooFewAttempts);
      }
      if inv.key in receipts {
        return Success(receipts[inv.key]);
      }
      var receipt := Perform(inv);
      if receipt.None? {
        return Failure(Interrupted);
      }
      Store(receipt.value);
      r := Success(receipt.value);
    }

    method GetReceipt(key: string) returns (r: Option<Receipt>)
      ensures r == if key in receipts then Some(receipts[key]) else None
    {
      r := if key in receipts then Some(receipts[key]) else None;
    }
  }
}
