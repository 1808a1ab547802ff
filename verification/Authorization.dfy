/**
 * Tool definitions, authorization requests and the deny-by-default policy gate of
 * app/agent/authorization.py. SHA-256 is an unknown function `sha` of the canonical text.
 */
module Authorization {
  import opened Wrappers
  import opened Ordering
  import Json

  datatype SideEffect = Read | Write

  datatype Risk = Low | Medium | High | Critical

  datatype Scope = Tenant | Workspace | Resource

  datatype Tool = Tool(
    name: string,
    version: string,
    sideEffect: SideEffect,
    risk: Risk,
    requiredCapabilities: set<string>,
    scope: Scope)
  {
    function Identity(): string {
      IdentityOf(name, version)
    }
  }

  function IdentityOf(name: string, version: string): string {
    name + "@" + version
  }

  function Rank(risk: Risk): nat {
    match risk
    case Low => 0
    case Medium => 1
    case High => 2
    case Critical => 3
  }

  /** The risks a policy or a discovery admits under a maximum. */
  function RisksUpTo(maximum: Risk): set<Risk> {
    match maximum
    case Low => {Low}
    case Medium => {Low, Medium}
    case High => {Low, Medium, High}
    case Critical => {Low, Medium, High, Critical}
  }

  /** The rank orders the risks LOW, MEDIUM, HIGH, CRITICAL, each admitting itself and those before it. */
  lemma RankOrdersRisks(risk: Risk, maximum: Risk)
    ensures Rank(risk) <= Rank(maximum) <==> risk in RisksUpTo(maximum)
  {
  }

  datatype Request = Request(
    organizationId: string,
    workspaceId: string,
    actorId: string,
    action: string,
    tool: Tool,
    payload: seq<Keyed<Json.Value>>,
    capabilities: set<string>,
    resourceId: Option<string>)

  type Time = real

  // ---- the fingerprint ----

  function OptionalText(s: Option<string>): Json.Value {
    match s
    case None => Json.Null
    case Some(text) => Json.Str(text)
  }

  function CanonicalValue(r: Request): Json.Value {
    Json.Obj([
      Keyed("organization_id", Json.Str(r.organizationId)),
      Keyed("workspace_id", Json.Str(r.workspaceId)),
      Keyed("actor_id", Json.Str(r.actorId)),
      Keyed("action", Json.Str(r.action)),
      Keyed("tool", Json.Str(r.tool.Identity())),
      Keyed("input_payload", Json.Obj(r.payload)),
      Keyed("resource_id", OptionalText(r.resourceId))])
  }

  function Preimage(r: Request): string {
    Json.Encode(CanonicalValue(r))
  }

  type Fingerprinter = Request -> string

  /** The fingerprint the gate uses: the digest of the canonical text. */
  function Hashed(sha: string -> string): Fingerprinter {
    (r: Request) => sha(Preimage(r))
  }

  ghost predicate WellFormedRequest(r: Request) {
    Json.WellFormed(Json.Obj(r.payload))
  }

  /** The two requests ask for the same action, payloads compared as dictionaries. */
  ghost predicate SameAction(a: Request, b: Request) {
    && a.organizationId == b.organizationId
    && a.workspaceId == b.workspaceId
    && a.actorId == b.actorId
    && a.action == b.action
    && a.tool.Identity() == b.tool.Identity()
    && Json.Same(Json.Obj(a.payload), Json.Obj(b.payload))
    && a.resourceId == b.resourceId
  }

  /** The keys of the canonical dictionary have pairwise different lengths. */
  lemma CanonicalKeys(r: Request)
    ensures var ms := CanonicalValue(r).members;
            && |ms| == 7
            && |ms[0].key| == 15 && |ms[1].key| == 12 && |ms[2].key| == 8 && |ms[3].key| == 6
            && |ms[4].key| == 4 && |ms[5].key| == 13 && |ms[6].key| == 11
  {
  }

  lemma CanonicalWellFormed(r: Request)
    requires WellFormedRequest(r)
    ensures Json.WellFormed(CanonicalValue(r))
  {
    CanonicalKeys(r);
  }

  lemma SameKeySet(a: Request, b: Request)
    ensures Json.Keys(CanonicalValue(a).members) == Json.Keys(CanonicalValue(b).members)
  {
    var ms, ns := CanonicalValue(a).members, CanonicalValue(b).members;
    assert forall i :: 0 <= i < 7 ==> ms[i].key == ns[i].key;
    forall key ensures key in Json.Keys(ms) <==> key in Json.Keys(ns) {
      if key in Json.Keys(ms) {
        var i :| 0 <= i < 7 && ms[i].key == key;
        assert ns[i] in ns;
      }
      if key in Json.Keys(ns) {
        var i :| 0 <= i < 7 && ns[i].key == key;
        assert ms[i] in ms;
      }
    }
  }

  lemma MemberwiseSame(a: Request, b: Request)
    ensures Json.Same(CanonicalValue(a), CanonicalValue(b)) <==>
            forall i :: 0 <= i < 7 ==>
              Json.Same(CanonicalValue(a).members[i].value, CanonicalValue(b).members[i].value)
  {
    SameKeySet(a, b);
    CanonicalKeys(a);
    CanonicalKeys(b);
    var ms, ns := CanonicalValue(a).members, CanonicalValue(b).members;
    assert forall i :: 0 <= i < 7 ==> ms[i].key == ns[i].key;
    assert forall i, j :: 0 <= i < 7 && 0 <= j < 7 && ms[i].key == ns[j].key ==> i == j;
  }

  lemma CanonicalParts(r: Request)
    ensures var ms := CanonicalValue(r).members;
            && ms[0].value == Json.Str(r.organizationId)
            && ms[1].value == Json.Str(r.workspaceId)
            && ms[2].value == Json.Str(r.actorId)
            && ms[3].value == Json.Str(r.action)
            && ms[4].value == Json.Str(r.tool.Identity())
            && ms[5].value == Json.Obj(r.payload)
            && ms[6].value == OptionalText(r.resourceId)
  {
  }

  lemma SameText(a: string, b: string)
    ensures Json.Same(Json.Str(a), Json.Str(b)) <==> a == b
  {
  }

  lemma SameOptionalText(a: Option<string>, b: Option<string>)
    ensures Json.Same(OptionalText(a), OptionalText(b)) <==> a == b
  {
  }

  lemma SameParts(a: Request, b: Request)
    ensures SameAction(a, b) <==>
            forall i :: 0 <= i < 7 ==>
              Json.Same(CanonicalValue(a).members[i].value, CanonicalValue(b).members[i].value)
  {
    CanonicalParts(a);
    CanonicalParts(b);
    SameText(a.organizationId, b.organizationId);
    SameText(a.workspaceId, b.workspaceId);
    SameText(a.actorId, b.actorId);
    SameText(a.action, b.action);
    SameText(a.tool.Identity(), b.tool.Identity());
    SameOptionalText(a.resourceId, b.resourceId);
    var ms, ns := CanonicalValue(a).members, CanonicalValue(b).members;
    assert SameAction(a, b) <==>
      && Json.Same(ms[0].value, ns[0].value) && Json.Same(ms[1].value, ns[1].value)
      && Json.Same(ms[2].value, ns[2].value) && Json.Same(ms[3].value, ns[3].value)
      && Json.Same(ms[4].value, ns[4].value) && Json.Same(ms[5].value, ns[5].value)
      && Json.Same(ms[6].value, ns[6].value);
  }

  /** The fingerprint's preimage names the action exactly: equal texts, equal actions, and conversely. */
  lemma PreimageIsFaithful(a: Request, b: Request)
    requires WellFormedRequest(a) && WellFormedRequest(b)
    ensures Preimage(a) == Preimage(b) <==> SameAction(a, b)
  {
    CanonicalWellFormed(a);
    CanonicalWellFormed(b);
    Json.EncodeIsFaithful(CanonicalValue(a), CanonicalValue(b));
    MemberwiseSame(a, b);
    SameParts(a, b);
  }

  // ---- the preimage spelled out ----

  /** The canonical dictionary in dictionary order of its keys. */
  function SortedCanonical(r: Request): seq<Keyed<Json.Value>> {
    [Keyed("action", Json.Str(r.action)),
     Keyed("actor_id", Json.Str(r.actorId)),
     Keyed("input_payload", Json.Canon(Json.Obj(r.payload))),
     Keyed("organization_id", Json.Str(r.organizationId)),
     Keyed("resource_id", OptionalText(r.resourceId)),
     Keyed("tool", Json.Str(r.tool.Identity())),
     Keyed("workspace_id", Json.Str(r.workspaceId))]
  }

  lemma FirstCharacterDecides(a: string, b: string)
    requires a != "" && b != "" && a[0] < b[0]
    ensures Before(a, b)
  {
  }

  lemma ActionBeforeActor()
    ensures Before("action", "actor_id")
  {
    var a, b := "action", "actor_id";
    assert SmallerAt(a, b, 3);
    BeforeIsLexicographic(a, b);
  }

  lemma SortedCanonicalAscends(r: Request)
    ensures StrictlySorted(SortedCanonical(r))
  {
    ActionBeforeActor();
    var ms := SortedCanonical(r);
    forall i, j | 0 <= i < j < |ms| ensures Before(ms[i].key, ms[j].key) {
      if j > 1 { FirstCharacterDecides(ms[i].key, ms[j].key); }
    }
  }

  lemma CanonOfText(text: string, optional: Option<string>)
    ensures Json.Canon(Json.Str(text)) == Json.Str(text)
    ensures Json.Canon(OptionalText(optional)) == OptionalText(optional)
  {
  }

  lemma SameMembers(r: Request, x: Keyed<Json.Value>)
    ensures x in SortedCanonical(r) <==> x in Json.CanonMembers(CanonicalValue(r).members)
  {
    var ms, ns := CanonicalValue(r).members, SortedCanonical(r);
    var canon := Json.CanonMembers(ms);
    CanonOfText(r.organizationId, r.resourceId);
    CanonOfText(r.workspaceId, r.resourceId);
    CanonOfText(r.actorId, r.resourceId);
    CanonOfText(r.action, r.resourceId);
    CanonOfText(r.tool.Identity(), r.resourceId);
    assert canon == [ns[3], ns[6], ns[1], ns[0], ns[5], ns[2], ns[4]];
  }

  lemma CanonicalSorted(r: Request)
    ensures Json.Canon(CanonicalValue(r)) == Json.Obj(SortedCanonical(r))
  {
    var canon := Json.CanonMembers(CanonicalValue(r).members);
    CanonicalKeys(r);
    SortOrders(canon);
    SortedCanonicalAscends(r);
    forall x ensures x in Sort(canon) <==> x in SortedCanonical(r) {
      SortKeepsElements(canon, x);
      SameMembers(r, x);
    }
    StrictOrderIsUnique(Sort(canon), SortedCanonical(r));
  }

  predicate PlainKey(key: string) {
    forall i :: 0 <= i < |key| ==> Json.Plain(key[i])
  }

  /** The text of the members after the first, their keys being plain. */
  function MembersText(ms: seq<Keyed<Json.Value>>): string {
    if ms == [] then "}"
    else ",\"" + ms[0].key + "\":" + Json.Print(ms[0].value) + MembersText(ms[1..])
  }

  lemma QuotedKey(opening: char, key: string)
    requires PlainKey(key)
    ensures [opening] + Json.Quote(key) + [':'] == [opening] + "\"" + key + "\":"
  {
    Json.PlainQuote(key);
    assert [opening] + (['"'] + key + ['"']) + [':'] == [opening] + "\"" + key + "\":";
  }

  lemma {:induction false} PrintedMembers(ms: seq<Keyed<Json.Value>>)
    requires forall i :: 0 <= i < |ms| ==> PlainKey(ms[i].key)
    ensures Json.PrintMembers(ms) == MembersText(ms)
  {
    if ms != [] {
      QuotedKey(',', ms[0].key);
      PrintedMembers(ms[1..]);
    }
  }

  function Opening(key: string): string {
    ['{'] + "\"" + key + "\":"
  }

  lemma OpeningOfAction()
    ensures Opening("action") == "{\"action\":"
  {
  }

  lemma PrintedObject(ms: seq<Keyed<Json.Value>>)
    requires ms != [] && PlainKey(ms[0].key)
    ensures Json.Print(Json.Obj(ms)) == Opening(ms[0].key) + Json.Print(ms[0].value) + Json.PrintMembers(ms[1..])
  {
    QuotedKey('{', ms[0].key);
  }

  lemma LabelsArePlain()
    ensures PlainKey("action") && PlainKey("actor_id") && PlainKey("input_payload") && PlainKey("organization_id")
    ensures PlainKey("resource_id") && PlainKey("tool") && PlainKey("workspace_id")
  {
  }

  ghost predicate PlainKeys(ms: seq<Keyed<Json.Value>>) {
    forall i :: 0 <= i < |ms| ==> PlainKey(ms[i].key)
  }

  lemma SortedKeys(r: Request)
    ensures |SortedCanonical(r)| == 7
    ensures SortedCanonical(r)[0] == Keyed("action", Json.Str(r.action))
    ensures PlainKeys(SortedCanonical(r))
  {
    LabelsArePlain();
  }

  lemma PrintedAction(ms: seq<Keyed<Json.Value>>, action: string)
    requires |ms| == 7 && ms[0] == Keyed("action", Json.Str(action)) && PlainKeys(ms)
    ensures Json.Print(Json.Obj(ms)) == "{\"action\":" + Json.Quote(action) + MembersText(ms[1..])
  {
    PrintedObject(ms);
    PrintedMembers(ms[1..]);
    OpeningOfAction();
  }

  /** An absent resource is printed as `null`, a present one as a string. */
  lemma ResourceText(resource: Option<string>)
    ensures Json.Print(OptionalText(resource)) ==
            if resource.None? then "null" else Json.Quote(resource.value)
  {
  }

  /** The preimage of a request, to the letter: `{"action":`, the action, and the other members in key order. */
  lemma PreimageText(r: Request)
    ensures Preimage(r) == "{\"action\":" + Json.Quote(r.action) + MembersText(SortedCanonical(r)[1..])
  {
    CanonicalSorted(r);
    SortedKeys(r);
    PrintedAction(SortedCanonical(r), r.action);
  }

  // ---- tool identities ----

  lemma IdentitySplits(a: Tool, b: Tool)
    requires a.Identity() == b.Identity() && |a.name| == |b.name|
    ensures a.name == b.name && a.version == b.version
  {
    assert a.name == a.Identity()[..|a.name|] && b.name == b.Identity()[..|b.name|];
    assert a.version == a.Identity()[|a.name| + 1..] && b.version == b.Identity()[|b.name| + 1..];
  }

  /** The name of `b` goes on where that of `a` ends, and takes up the front of `a`'s version. */
  ghost predicate Overlaps(a: Tool, b: Tool) {
    exists middle: string :: b.name == IdentityOf(a.name, middle) && a.version == IdentityOf(middle, b.version)
  }

  lemma OverlapCollides(a: Tool, b: Tool)
    requires Overlaps(a, b)
    ensures a.Identity() == b.Identity()
  {
    var middle: string :| b.name == IdentityOf(a.name, middle) && a.version == IdentityOf(middle, b.version);
    assert a.name + "@" + (middle + "@" + b.version) == (a.name + "@" + middle) + "@" + b.version;
  }

  lemma ShorterNameOverlaps(a: Tool, b: Tool)
    requires a.Identity() == b.Identity() && |a.name| < |b.name|
    ensures Overlaps(a, b)
  {
    var m, n := |a.name|, |b.name|;
    var middle := b.name[m + 1..];
    assert b.name == b.Identity()[..n] && a.name == a.Identity()[..m] && a.Identity()[m] == '@';
    assert b.name == IdentityOf(a.name, middle);
    assert a.version == a.Identity()[m + 1..] && b.version == b.Identity()[n + 1..] && b.Identity()[n] == '@';
    assert middle == b.Identity()[m + 1..n];
    assert a.version == IdentityOf(middle, b.version);
  }

  /** Two tools have one identity exactly when name and version are equal or one name runs into the other's version. */
  lemma IdentitiesCollideExactly(a: Tool, b: Tool)
    ensures a.Identity() == b.Identity() <==>
            (a.name == b.name && a.version == b.version) || Overlaps(a, b) || Overlaps(b, a)
  {
    if a.Identity() == b.Identity() {
      if |a.name| < |b.name| {
        ShorterNameOverlaps(a, b);
      } else if |b.name| < |a.name| {
        ShorterNameOverlaps(b, a);
      } else {
        IdentitySplits(a, b);
      }
    }
    if Overlaps(a, b) { OverlapCollides(a, b); }
    if Overlaps(b, a) { OverlapCollides(b, a); }
  }

  /** `longer` goes on after `shorter` with an `@`. */
  predicate Extends(longer: string, shorter: string) {
    shorter + "@" <= longer
  }

  predicate CanCollide(m: string, n: string) {
    Extends(m, n) || Extends(n, m)
  }

  lemma OverlapExtends(a: Tool, b: Tool)
    requires Overlaps(a, b)
    ensures Extends(b.name, a.name)
  {
    var middle: string :| b.name == IdentityOf(a.name, middle) && a.version == IdentityOf(middle, b.version);
    assert b.name[..|a.name| + 1] == a.name + "@";
  }

  lemma ExtensionCollides(longer: string, shorter: string, version: string)
    requires Extends(longer, shorter)
    ensures IdentityOf(shorter, IdentityOf(longer[|shorter| + 1..], version)) == IdentityOf(longer, version)
  {
    var middle := longer[|shorter| + 1..];
    assert longer == shorter + "@" + middle;
    assert shorter + "@" + (middle + "@" + version) == (shorter + "@" + middle) + "@" + version;
  }

  /** Two different names have colliding versions exactly when one goes on after the other with an `@`. */
  lemma NamesCollideExactly(m: string, n: string)
    requires m != n
    ensures (exists v: string, w: string :: IdentityOf(m, v) == IdentityOf(n, w)) <==> CanCollide(m, n)
  {
    if v: string, w: string :| IdentityOf(m, v) == IdentityOf(n, w) {
      var a, b := Tool(m, v, Read, Low, {}, Tenant), Tool(n, w, Read, Low, {}, Tenant);
      IdentitiesCollideExactly(a, b);
      if Overlaps(a, b) { OverlapExtends(a, b); } else { OverlapExtends(b, a); }
    }
    if Extends(m, n) { ExtensionCollides(m, n, "1"); }
    if Extends(n, m) { ExtensionCollides(n, m, "1"); }
  }

  lemma ExtensionHasAtSign(longer: string, shorter: string)
    requires Extends(longer, shorter)
    ensures '@' in longer
  {
    assert longer[|shorter|] == '@';
  }

  lemma PlainNamesCannotCollide(m: string, n: string)
    requires '@' !in m && '@' !in n
    ensures !CanCollide(m, n)
  {
    if Extends(m, n) {
      ExtensionHasAtSign(m, n);
    } else if Extends(n, m) {
      ExtensionHasAtSign(n, m);
    }
  }

  /** Hence an identity determines name and version among tools with names that cannot collide, `@` or not. */
  lemma IdentityDeterminesTool(a: Tool, b: Tool)
    requires !CanCollide(a.name, b.name)
    ensures a.Identity() == b.Identity() <==> a.name == b.name && a.version == b.version
  {
    IdentitiesCollideExactly(a, b);
    if Overlaps(a, b) {
      OverlapExtends(a, b);
    } else if Overlaps(b, a) {
      OverlapExtends(b, a);
    }
  }

  /** Names with an `@` can collide: nothing in a tool definition rules them out. */
  lemma IdentitiesCanCollide()
    ensures var a := Tool("a@b", "c", Read, Low, {}, Tenant);
            var b := Tool("a", "b@c", Read, Low, {}, Tenant);
            a.Identity() == b.Identity() && a.name != b.name && a.version != b.version
  {
    assert "a@b" + "@" + "c" == "a@b@c";
    assert "a" + "@" + "b@c" == "a@b@c";
    assert |"a@b"| == 3 && |"a"| == 1 && |"c"| == 1 && |"b@c"| == 3;
  }

  // ---- approvals and the gate ----

  datatype Approval = Approval(
    approvalId: string,
    organizationId: string,
    workspaceId: string,
    fingerprint: string,
    expiresAt: Option<Time>)

  predicate IsValidFor(fingerprint: Fingerprinter, approval: Approval, r: Request, now: Time) {
    if approval.organizationId != r.organizationId then false
    else if approval.workspaceId != r.workspaceId then false
    else if approval.fingerprint != fingerprint(r) then false
    else if approval.expiresAt.Some? && now >= approval.expiresAt.value then false
    else true
  }

  datatype Policy = Policy(
    allowedCapabilities: set<string>,
    maxRisk: Risk,
    writableActions: set<string>,
    requireApprovalForWrites: bool,
    allowedResourceIds: Option<set<string>>)

  datatype Reason =
    | Authorized
    | ActionMismatch
    | CapabilityNotAllowed
    | CapabilityMissing
    | RiskTooHigh
    | ResourceIdRequired
    | ResourceOutOfScope
    | WriteNotAllowed
    | ApprovalRequired

  datatype Decision = Decision(allowed: bool, reason: Reason, fingerprint: string, approvalId: Option<string>)

  /** The gate's checks in order; `approved` says whether a valid approval is at hand. */
  function Verdict(policy: Policy, r: Request, approved: bool): Reason {
    if r.action != r.tool.name then ActionMismatch
    else if r.tool.requiredCapabilities - policy.allowedCapabilities != {} then CapabilityNotAllowed
    else if r.tool.requiredCapabilities - r.capabilities != {} then CapabilityMissing
    else if Rank(r.tool.risk) > Rank(policy.maxRisk) then RiskTooHigh
    else if r.tool.scope == Resource && (r.resourceId.None? || r.resourceId.value == "") then ResourceIdRequired
    else if r.tool.scope == Resource && policy.allowedResourceIds.Some? &&
            r.resourceId.value !in policy.allowedResourceIds.value then ResourceOutOfScope
    else if r.tool.sideEffect == Write && r.action !in policy.writableActions then WriteNotAllowed
    else if r.tool.sideEffect == Write && policy.requireApprovalForWrites && !approved then ApprovalRequired
    else Authorized
  }

  function Authorize(
    fingerprint: Fingerprinter, policy: Policy, r: Request, approval: Option<Approval>, now: Time): Decision
  {
    var verdict := Verdict(policy, r, approval.Some? && IsValidFor(fingerprint, approval.value, r, now));
    var granted := verdict == Authorized;
    Decision(granted, verdict, fingerprint(r),
             if granted && approval.Some? then Some(approval.value.approvalId) else None)
  }

  /** No two of the texts at hand have the same digest. */
  predicate NoCollision(sha: string -> string, a: Request, b: Request) {
    sha(Preimage(a)) == sha(Preimage(b)) ==> Preimage(a) == Preimage(b)
  }

  /**
   * An approval given for `approved` is valid for `presented` exactly when that is the same action, in the
   * tenant the approval is filed under, and the approval has not expired: not another payload, resource,
   * actor, workspace, organization or tool.
   */
  lemma ApprovalBindsExactAction(
    sha: string -> string, approval: Approval, approved: Request, presented: Request, now: Time)
    requires WellFormedRequest(approved) && WellFormedRequest(presented) && NoCollision(sha, approved, presented)
    requires approval.fingerprint == Hashed(sha)(approved)
    ensures IsValidFor(Hashed(sha), approval, presented, now) <==>
              && SameAction(approved, presented)
              && approval.organizationId == presented.organizationId
              && approval.workspaceId == presented.workspaceId
              && (approval.expiresAt.Some? ==> now < approval.expiresAt.value)
  {
    PreimageIsFaithful(approved, presented);
  }

  /** Each ground for denial on its own, whatever the others say. */
  predicate Objects(reason: Reason, policy: Policy, r: Request, approved: bool) {
    match reason
    case Authorized => false
    case ActionMismatch => r.action != r.tool.name
    case CapabilityNotAllowed => !(r.tool.requiredCapabilities <= policy.allowedCapabilities)
    case CapabilityMissing => !(r.tool.requiredCapabilities <= r.capabilities)
    case RiskTooHigh => r.tool.risk !in RisksUpTo(policy.maxRisk)
    case ResourceIdRequired => r.tool.scope == Resource && r.resourceId in {None, Some("")}
    case ResourceOutOfScope =>
      r.tool.scope == Resource && policy.allowedResourceIds.Some? && r.resourceId.Some? &&
      r.resourceId.value !in policy.allowedResourceIds.value
    case WriteNotAllowed => r.tool.sideEffect == Write && r.action !in policy.writableActions
    case ApprovalRequired => r.tool.sideEffect == Write && policy.requireApprovalForWrites && !approved
  }

  function Precedence(reason: Reason): nat {
    match reason
    case Authorized => 0
    case ActionMismatch => 1
    case CapabilityNotAllowed => 2
    case CapabilityMissing => 3
    case RiskTooHigh => 4
    case ResourceIdRequired => 5
    case ResourceOutOfScope => 6
    case WriteNotAllowed => 7
    case ApprovalRequired => 8
  }

  lemma SubsetAsDifference<T>(a: set<T>, b: set<T>)
    ensures a <= b <==> a - b == {}
  {
    if a - b == {} {
      forall x | x in a ensures x in b {
        assert x !in a - b;
      }
    }
  }

  lemma DenialHasGround(policy: Policy, r: Request, approved: bool)
    requires Verdict(policy, r, approved) != Authorized
    ensures Objects(Verdict(policy, r, approved), policy, r, approved)
  {
    RankOrdersRisks(r.tool.risk, policy.maxRisk);
    SubsetAsDifference(r.tool.requiredCapabilities, policy.allowedCapabilities);
    SubsetAsDifference(r.tool.requiredCapabilities, r.capabilities);
  }

  lemma ObjectionIsHeard(reason: Reason, policy: Policy, r: Request, approved: bool)
    requires Objects(reason, policy, r, approved)
    ensures Verdict(policy, r, approved) != Authorized
    ensures Precedence(Verdict(policy, r, approved)) <= Precedence(reason)
  {
    RankOrdersRisks(r.tool.risk, policy.maxRisk);
    SubsetAsDifference(r.tool.requiredCapabilities, policy.allowedCapabilities);
    SubsetAsDifference(r.tool.requiredCapabilities, r.capabilities);
  }

  /**
   * Deny by default: a request is allowed exactly when nothing objects to it; otherwise the decision names
   * the objection of highest precedence. The fingerprint is reported either way, the approval only of an
   * allowed request.
   */
  lemma DecisionNamesFirstObjection(
    fingerprint: Fingerprinter, policy: Policy, r: Request, approval: Option<Approval>, now: Time)
    ensures var d := Authorize(fingerprint, policy, r, approval, now);
            var approved := approval.Some? && IsValidFor(fingerprint, approval.value, r, now);
            && (d.allowed <==> forall reason: Reason :: !Objects(reason, policy, r, approved))
            && (d.allowed <==> d.reason == Authorized)
            && (!d.allowed ==> Objects(d.reason, policy, r, approved))
            && (forall reason: Reason | Objects(reason, policy, r, approved) ::
                  Precedence(d.reason) <= Precedence(reason))
            && d.fingerprint == fingerprint(r)
            && (d.allowed && approval.Some? ==> d.approvalId == Some(approval.value.approvalId))
            && (!d.allowed || approval.None? ==> d.approvalId == None)
  {
    var approved := approval.Some? && IsValidFor(fingerprint, approval.value, r, now);
    var verdict := Verdict(policy, r, approved);
    if verdict != Authorized {
      DenialHasGround(policy, r, approved);
    }
    forall reason: Reason | Objects(reason, policy, r, approved)
      ensures verdict != Authorized && Precedence(verdict) <= Precedence(reason)
    {
      ObjectionIsHeard(reason, policy, r, approved);
    }
  }

  /**
   * Maximum LOW admits LOW only, MEDIUM also MEDIUM, HIGH everything but CRITICAL, and a tool within its
   * maximum is never refused for its risk.
   */
  lemma RiskIsRefusedExactly(
    fingerprint: Fingerprinter, policy: Policy, r: Request, approval: Option<Approval>, now: Time)
    ensures var d := Authorize(fingerprint, policy, r, approval, now);
            && (d.allowed && policy.maxRisk == Low ==> r.tool.risk == Low)
            && (d.allowed && policy.maxRisk == Medium ==> r.tool.risk == Low || r.tool.risk == Medium)
            && (d.allowed && policy.maxRisk == High ==> r.tool.risk != Critical)
            && (r.tool.risk == Low || policy.maxRisk == Critical ==> d.reason != RiskTooHigh)
            && (r.tool.risk == policy.maxRisk ==> d.reason != RiskTooHigh)
            && (r.tool.risk == Medium && policy.maxRisk == High ==> d.reason != RiskTooHigh)
  {
    RankOrdersRisks(r.tool.risk, policy.maxRisk);
  }

  lemma AllowedFacts(
    fingerprint: Fingerprinter, policy: Policy, r: Request, approval: Option<Approval>, now: Time)
    requires Authorize(fingerprint, policy, r, approval, now).allowed
    ensures r.action == r.tool.name
    ensures r.tool.requiredCapabilities <= policy.allowedCapabilities * r.capabilities
    ensures r.tool.risk in RisksUpTo(policy.maxRisk)
    ensures r.tool.scope == Resource ==>
              && r.resourceId.Some? && r.resourceId.value != ""
              && (policy.allowedResourceIds.Some? ==> r.resourceId.value in policy.allowedResourceIds.value)
    ensures r.tool.sideEffect == Write ==> r.action in policy.writableActions
    ensures r.tool.sideEffect == Write && policy.requireApprovalForWrites ==>
              approval.Some? && IsValidFor(fingerprint, approval.value, r, now)
  {
    RankOrdersRisks(r.tool.risk, policy.maxRisk);
    SubsetAsDifference(r.tool.requiredCapabilities, policy.allowedCapabilities);
    SubsetAsDifference(r.tool.requiredCapabilities, r.capabilities);
  }

  /**
   * A write the gate lets through under a policy that requires approvals was approved as it stands, except
   * that tools are compared by identity. The tool is the approved one, name and version, exactly when the
   * approval was given for an action named after its own tool, which nothing checks when it is given.
   */
  lemma AllowedWriteWasApproved(
    sha: string -> string, policy: Policy, approval: Option<Approval>, approved: Request, presented: Request, now: Time)
    requires Authorize(Hashed(sha), policy, presented, approval, now).allowed
    requires presented.tool.sideEffect == Write && policy.requireApprovalForWrites
    requires approval.Some? ==> approval.value.fingerprint == Hashed(sha)(approved)
    requires WellFormedRequest(approved) && WellFormedRequest(presented) && NoCollision(sha, approved, presented)
    ensures approval.Some? && SameAction(approved, presented)
    ensures approved.tool.name == presented.tool.name && approved.tool.version == presented.tool.version <==>
            approved.action == approved.tool.name
    ensures presented.action in policy.writableActions
  {
    AllowedFacts(Hashed(sha), policy, presented, approval, now);
    PreimageIsFaithful(approved, presented);
    if approved.action == approved.tool.name {
      IdentitySplits(approved.tool, presented.tool);
    }
  }

  /** An approval serves any request for the same action that passes the other checks, whatever tool it names. */
  lemma ApprovalServesSameAction(
    sha: string -> string, policy: Policy, approval: Approval, approved: Request, presented: Request, now: Time)
    requires WellFormedRequest(approved) && WellFormedRequest(presented) && SameAction(approved, presented)
    requires IsValidFor(Hashed(sha), approval, approved, now)
    requires Verdict(policy, presented, true) == Authorized
    ensures Authorize(Hashed(sha), policy, presented, Some(approval), now).allowed
  {
    PreimageIsFaithful(approved, presented);
  }

  function ActionA(tool: Tool): Request {
    Request("o", "w", "u", "a", tool, [], {}, None)
  }

  lemma SameIdentityIsSameAction(a: Tool, b: Tool)
    requires a.Identity() == b.Identity()
    ensures SameAction(ActionA(a), ActionA(b)) && WellFormedRequest(ActionA(a)) && WellFormedRequest(ActionA(b))
  {
  }

  lemma ApprovedWriteIsAllowed(policy: Policy, r: Request)
    requires r.action == r.tool.name && r.tool.requiredCapabilities == {} && r.tool.risk == Low
    requires r.tool.scope != Resource && r.action in policy.writableActions
    ensures Verdict(policy, r, true) == Authorized
  {
    RankOrdersRisks(r.tool.risk, policy.maxRisk);
    assert r.tool.requiredCapabilities - policy.allowedCapabilities == {};
    assert r.tool.requiredCapabilities - r.capabilities == {};
  }

  /** An approval given for action "a" on one tool lets the gate allow it on another: names and versions differ. */
  lemma ApprovalCanMoveToAnotherTool(
    sha: string -> string, policy: Policy, approval: Approval, a: Tool, b: Tool, now: Time)
    requires a == Tool("a@b", "c", Write, Low, {}, Tenant) && b == Tool("a", "b@c", Write, Low, {}, Tenant)
    requires IsValidFor(Hashed(sha), approval, ActionA(a), now) && ActionA(b).action in policy.writableActions
    ensures Authorize(Hashed(sha), policy, ActionA(b), Some(approval), now).allowed
    ensures a.name != b.name && a.version != b.version
  {
    IdentitiesCanCollide();
    assert a.Identity() == b.Identity();
    SameIdentityIsSameAction(a, b);
    ApprovedWriteIsAllowed(policy, ActionA(b));
    ApprovalServesSameAction(sha, policy, approval, ActionA(a), ActionA(b), now);
  }
}
