/** The tool registry of app/agent/tool_registry.py and its agreement with the policy gate. */
module Registry {
  import opened Wrappers
  import opened Ordering
  import opened Authorization

  datatype RegistryError = AlreadyRegistered(identity: string) | UnknownTool(identity: string)

  /** What a discovery asks for; `None` and the empty set of side effects both mean all of them. */
  datatype Filter = Filter(capabilities: set<string>, sideEffects: Option<set<SideEffect>>, maxRisk: Option<Risk>)

  predicate Visible(tool: Tool, f: Filter) {
    && tool.requiredCapabilities <= f.capabilities
    && (f.sideEffects.None? || f.sideEffects.value == {} || tool.sideEffect in f.sideEffects.value)
    && Rank(tool.risk) <= Rank(if f.maxRisk.Some? then f.maxRisk.value else Critical)
  }

  /** In strict dictionary order of identity. */
  ghost predicate SortedByIdentity(found: seq<Tool>) {
    forall i, j :: 0 <= i < j < |found| ==> Precedes(found[i].Identity(), found[j].Identity())
  }

  /** What makes a registered tool visible: its capabilities, its side effect if any are named, and its risk. */
  lemma VisibleExactly(tool: Tool, f: Filter)
    ensures Visible(tool, f) <==>
              && (forall c :: c in tool.requiredCapabilities ==> c in f.capabilities)
              && (f.sideEffects.Some? && f.sideEffects.value != {} ==> tool.sideEffect in f.sideEffects.value)
              && (f.maxRisk.Some? ==> tool.risk in RisksUpTo(f.maxRisk.value))
  {
    RankOrdersRisks(tool.risk, if f.maxRisk.Some? then f.maxRisk.value else Critical);
  }

  /** Maximum LOW shows LOW only, MEDIUM also MEDIUM, HIGH everything but CRITICAL; within it risk hides nothing. */
  lemma RiskHidesExactly(tool: Tool, f: Filter)
    ensures Visible(tool, f) && f.maxRisk == Some(Low) ==> tool.risk == Low
    ensures Visible(tool, f) && f.maxRisk == Some(Medium) ==> tool.risk == Low || tool.risk == Medium
    ensures Visible(tool, f) && f.maxRisk == Some(High) ==> tool.risk != Critical
    ensures f.maxRisk in {None, Some(Critical), Some(tool.risk)} || tool.risk == Low ||
            (tool.risk == Medium && f.maxRisk == Some(High)) ==>
              (Visible(tool, f) <==> Visible(tool, f.(maxRisk := None)))
  {
    VisibleExactly(tool, f);
    VisibleExactly(tool, f.(maxRisk := None));
  }

  /** The answer to a discovery: the visible tools, in strict order of identity. */
  ghost predicate IsDiscovery(tools: map<string, Tool>, f: Filter, found: seq<Tool>) {
    && SortedByIdentity(found)
    && forall t :: t in found <==> t.Identity() in tools && tools[t.Identity()] == t && Visible(t, f)
  }

  function KeyedTools(tools: seq<Tool>): (keyed: seq<Keyed<Tool>>)
    ensures |keyed| == |tools|
    ensures forall i :: 0 <= i < |tools| ==> keyed[i] == Keyed(tools[i].Identity(), tools[i])
  {
    seq(|tools|, i requires 0 <= i < |tools| => Keyed(tools[i].Identity(), tools[i]))
  }

  function Values(keyed: seq<Keyed<Tool>>): (tools: seq<Tool>)
    ensures |tools| == |keyed| && forall i :: 0 <= i < |keyed| ==> tools[i] == keyed[i].value
  {
    seq(|keyed|, i requires 0 <= i < |keyed| => keyed[i].value)
  }

  lemma KeyedMember(tools: seq<Tool>, t: Tool)
    ensures t in tools <==> Keyed(t.Identity(), t) in KeyedTools(tools)
  {
    if t in tools {
      var i :| 0 <= i < |tools| && tools[i] == t;
      assert KeyedTools(tools)[i] == Keyed(t.Identity(), t);
    }
    if Keyed(t.Identity(), t) in KeyedTools(tools) {
      var i :| 0 <= i < |tools| && KeyedTools(tools)[i] == Keyed(t.Identity(), t);
      assert tools[i] == t;
    }
  }

  lemma IdentitiesAscend(tools: seq<Tool>)
    ensures SortedByIdentity(tools) <==> StrictlySorted(KeyedTools(tools))
  {
    forall i, j | 0 <= i < j < |tools|
      ensures Before(KeyedTools(tools)[i].key, KeyedTools(tools)[j].key) <==>
              Precedes(tools[i].Identity(), tools[j].Identity())
    {
      BeforeIsLexicographic(tools[i].Identity(), tools[j].Identity());
    }
  }

  /** A discovery has one answer, however the matching tools were enumerated. */
  lemma DiscoveryIsUnique(tools: map<string, Tool>, f: Filter, a: seq<Tool>, b: seq<Tool>)
    requires IsDiscovery(tools, f, a) && IsDiscovery(tools, f, b)
    ensures a == b
  {
    var ka, kb := KeyedTools(a), KeyedTools(b);
    IdentitiesAscend(a);
    IdentitiesAscend(b);
    forall x ensures x in ka <==> x in kb {
      if x in ka {
        var i :| 0 <= i < |ka| && ka[i] == x;
        assert a[i] in a && a[i] in b;
        KeyedMember(b, a[i]);
      }
      if x in kb {
        var i :| 0 <= i < |kb| && kb[i] == x;
        assert b[i] in b && b[i] in a;
        KeyedMember(a, b[i]);
      }
    }
    StrictOrderIsUnique(ka, kb);
    forall i | 0 <= i < |a| ensures a[i] == b[i] {
      assert ka[i] == kb[i];
    }
  }

  /** Keyed by identity, the values sort by identity and are the same tools. */
  lemma SortedValues(visible: seq<Tool>)
    requires forall i, j :: 0 <= i < j < |visible| ==> visible[i].Identity() != visible[j].Identity()
    ensures var found := Values(Sort(KeyedTools(visible)));
            SortedByIdentity(found) && forall t :: t in found <==> t in visible
  {
    var sorted := Sort(KeyedTools(visible));
    var found := Values(sorted);
    SortOrders(KeyedTools(visible));
    forall i | 0 <= i < |sorted| ensures sorted[i] == Keyed(found[i].Identity(), found[i]) {
      SortKeepsElements(KeyedTools(visible), sorted[i]);
    }
    assert KeyedTools(found) == sorted;
    IdentitiesAscend(found);
    forall t ensures t in found <==> t in visible {
      KeyedMember(visible, t);
      KeyedMember(found, t);
      SortKeepsElements(KeyedTools(visible), Keyed(t.Identity(), t));
    }
  }

  lemma SortingDiscovers(tools: map<string, Tool>, f: Filter, visible: seq<Tool>)
    requires forall i, j :: 0 <= i < j < |visible| ==> visible[i].Identity() != visible[j].Identity()
    requires forall t :: t in visible <==> t.Identity() in tools && tools[t.Identity()] == t && Visible(t, f)
    ensures IsDiscovery(tools, f, Values(Sort(KeyedTools(visible))))
  {
    SortedValues(visible);
  }

  // ---- registration order ----

  function RegisterAll(tools: seq<Tool>): map<string, Tool> {
    if tools == [] then map[]
    else RegisterAll(tools[..|tools| - 1])[tools[|tools| - 1].Identity() := tools[|tools| - 1]]
  }

  ghost predicate DistinctIdentities(tools: seq<Tool>) {
    forall i, j :: 0 <= i < j < |tools| ==> tools[i].Identity() != tools[j].Identity()
  }

  lemma {:induction false} RegisteredTools(tools: seq<Tool>, t: Tool)
    requires DistinctIdentities(tools)
    ensures t in tools <==> t.Identity() in RegisterAll(tools) && RegisterAll(tools)[t.Identity()] == t
    ensures forall id :: id in RegisterAll(tools) ==> RegisterAll(tools)[id].Identity() == id
  {
    if tools != [] {
      var front, last := tools[..|tools| - 1], tools[|tools| - 1];
      RegisteredTools(front, t);
      assert tools == front + [last];
      if t in front {
        var i :| 0 <= i < |front| && front[i] == t;
        assert tools[i].Identity() != last.Identity();
      }
    }
  }

  /** Registering the same tools in another order gives the same registry, hence the same discoveries. */
  lemma RegistrationOrderIsForgotten(first: seq<Tool>, second: seq<Tool>)
    requires DistinctIdentities(first) && DistinctIdentities(second)
    requires forall t :: t in first <==> t in second
    ensures RegisterAll(first) == RegisterAll(second)
  {
    var a, b := RegisterAll(first), RegisterAll(second);
    forall id | id in a ensures id in b && b[id] == a[id] {
      RegisteredTools(first, a[id]);
      RegisteredTools(second, a[id]);
    }
    forall id | id in b ensures id in a {
      RegisteredTools(second, b[id]);
      RegisteredTools(first, b[id]);
    }
  }

  // ---- agreement with the gate ----

  /** The discovery an actor is entitled to under a policy. */
  function Entitlement(policy: Policy, r: Request): Filter {
    Filter(policy.allowedCapabilities * r.capabilities, None, Some(policy.maxRisk))
  }

  /** Whatever the gate lets an actor do, the actor can discover. */
  lemma AllowedIsDiscovered(
    fingerprint: Fingerprinter, policy: Policy, r: Request, approval: Option<Approval>, now: Time,
    tools: map<string, Tool>, found: seq<Tool>)
    requires Authorize(fingerprint, policy, r, approval, now).allowed
    requires r.tool.Identity() in tools && tools[r.tool.Identity()] == r.tool
    requires IsDiscovery(tools, Entitlement(policy, r), found)
    ensures r.tool in found
  {
    AllowedFacts(fingerprint, policy, r, approval, now);
    assert Visible(r.tool, Entitlement(policy, r));
  }

  /** For a read that is not tied to a resource, asked for under its own name, the two answers coincide. */
  lemma ReadsAllowedExactlyWhenDiscovered(
    fingerprint: Fingerprinter, policy: Policy, r: Request, approval: Option<Approval>, now: Time,
    tools: map<string, Tool>, found: seq<Tool>)
    requires r.tool.sideEffect == Read && r.tool.scope != Resource && r.action == r.tool.name
    requires r.tool.Identity() in tools && tools[r.tool.Identity()] == r.tool
    requires IsDiscovery(tools, Entitlement(policy, r), found)
    ensures Authorize(fingerprint, policy, r, approval, now).allowed <==> r.tool in found
  {
    if Authorize(fingerprint, policy, r, approval, now).allowed {
      AllowedIsDiscovered(fingerprint, policy, r, approval, now, tools, found);
    }
    if r.tool in found {
      assert Visible(r.tool, Entitlement(policy, r));
      assert r.tool.requiredCapabilities - policy.allowedCapabilities == {};
      assert r.tool.requiredCapabilities - r.capabilities == {};
    }
  }

  class ToolRegistry {
    var tools: map<string, Tool>

    constructor ()
      ensures tools == map[]
    {
      tools := map[];
    }

    ghost predicate Valid()
      reads this
    {
      forall id :: id in tools ==> tools[id].Identity() == id
    }

    method Register(tool: Tool) returns (r: Result<(), RegistryError>)
      requires Valid()
      modifies this
      ensures Valid()
      ensures r.Failure? <==> tool.Identity() in old(tools)
      ensures r.Failure? ==> r.error == AlreadyRegistered(tool.Identity()) && tools == old(tools)
      ensures r.Success? ==> tools == old(tools)[tool.Identity() := tool]
    {
      if tool.Identity() in tools {
        return Failure(AlreadyRegistered(tool.Identity()));
      }
      tools := tools[tool.Identity() := tool];
      r := Success(());
    }

    method Get(name: string, version: string) returns (r: Result<Tool, RegistryError>)
      requires Valid()
      ensures r.Success? <==> name + "@" + version in tools
      ensures r.Success? ==> r.value.Identity() == name + "@" + version && r.value == tools[r.value.Identity()]
      ensures r.Failure? ==> r.error == UnknownTool(name + "@" + version)
    {
      var identity := name + "@" + version;
      if identity in tools {
        return Success(tools[identity]);
      }
      r := Failure(UnknownTool(identity));
    }

    /** Collects the visible tools in the order the table yields them, then sorts. */
    method Discover(f: Filter) returns (found: seq<Tool>)
      requires Valid()
      ensures IsDiscovery(tools, f, found)
      ensures forall i, j :: 0 <= i < j < |found| ==> Precedes(found[i].Identity(), found[j].Identity())
      ensures forall t :: t in found ==>
                f.maxRisk.Some? ==> t.risk in RisksUpTo(f.maxRisk.value)
    {
      var remaining := tools.Keys;
      var visible: seq<Tool> := [];
      while remaining != {}
        invariant remaining <= tools.Keys
        invariant forall i, j :: 0 <= i < j < |visible| ==> visible[i].Identity() != visible[j].Identity()
        invariant forall t :: t in visible <==>
                    t.Identity() in tools && t.Identity() !in remaining && tools[t.Identity()] == t && Visible(t, f)
        decreases remaining
      {
        var id :| id in remaining;
        remaining := remaining - {id};
        if Visible(tools[id], f) {
          visible := visible + [tools[id]];
        }
      }
      SortingDiscovers(tools, f, visible);
      found := Values(Sort(KeyedTools(visible)));
      forall t | t in found && f.maxRisk.Some? ensures t.risk in RisksUpTo(f.maxRisk.value) {
        VisibleExactly(t, f);
      }
    }
  }
}
