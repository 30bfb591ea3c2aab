/** The gate's exact condition and the meaning of its outcome, in terms of the plan's tasks,
    the plan's requirements and the policy's own lists. */
module AuthorizationGate {
  import opened Wrappers
  import opened SortedNames
  import opened PlanWalks
  import opened PlanNodes
  import opened Authorization

  /** Some task of the plan, at any depth, declares the capability. */
  ghost predicate NeedsCapability(report: DryRun, name: string)
  {
    report.Ready? && exists n :: Stands(n, report.graph) && n.PlannedTask? && name in n.capabilities
  }

  ghost predicate NeedsPermission(report: DryRun, name: string)
  {
    report.Ready? && exists n :: Stands(n, report.graph) && n.PlannedTask? && name in n.permissions
  }

  predicate Registered(name: string)
  {
    || name == "simulate" || name == "read.local_evidence" || name == "read.external_api"
    || name == "write.experiment_draft" || name == "execute.local" || name == "execute.oci" || name == "execute.gpu"
    || name == "execute.mps" || name == "execute.native" || name == "train.simulated" || name == "process.native"
  }

  predicate HexDigest(s: string)
  {
    |s| == 64 && forall c :: c in s ==> '0' <= c <= '9' || 'a' <= c <= 'f'
  }

  ghost predicate SemanticDigest(s: string)
  {
    exists hex :: HexDigest(hex) && (s == "sha256:" + hex || s == "jcs-sha256:" + hex)
  }

  lemma DigestShapeMeans(s: string)
    ensures DigestShape(s) <==> SemanticDigest(s)
  {
    if DigestShape(s) {
      if |s| == 71 {
        assert s == "sha256:" + s[7..] && HexDigest(s[7..]);
      } else {
        assert s == "jcs-sha256:" + s[11..] && HexDigest(s[11..]);
      }
    }
    if hex :| HexDigest(hex) && (s == "sha256:" + hex || s == "jcs-sha256:" + hex) {
      assert forall i :: 0 <= i < 64 ==> hex[i] in hex;
      if s == "sha256:" + hex {
        assert s[..7] == "sha256:" && s[7..] == hex;
      } else {
        assert s[..11] == "jcs-sha256:" && s[11..] == hex;
      }
    }
  }

  /** No name twice, and every one well formed and asked for by the plan. */
  ghost predicate GrantsFit(grants: seq<string>, needed: iset<string>)
  {
    && (forall i, j :: 0 <= i < j < |grants| ==> grants[i] != grants[j])
    && (forall name :: name in grants ==> Identifier(name) && name in needed)
  }

  /** No requirement decided twice, and every one a requirement of the plan. */
  predicate DecisionsFit(decisions: seq<RequirementDecision>, requirements: seq<string>)
  {
    && (forall i, j :: 0 <= i < j < |decisions| ==> decisions[i].id != decisions[j].id)
    && (forall d :: d in decisions ==> d.id != "" && d.id in requirements)
  }

  lemma NeedsAre(report: DryRun)
    requires report.Ready?
    ensures forall name :: name in Whole(report.graph).capabilities <==> NeedsCapability(report, name)
    ensures forall name :: name in Whole(report.graph).permissions <==> NeedsPermission(report, name)
  {
    forall name
      ensures name in Whole(report.graph).capabilities <==> NeedsCapability(report, name)
      ensures name in Whole(report.graph).permissions <==> NeedsPermission(report, name)
    {
      AccessIsDeclared(report.graph, name);
    }
  }

  lemma RegisteredIs()
    ensures forall name :: name in KNOWN_PLAN_CAPABILITIES <==> Registered(name)
  {
  }

  lemma GrantsMean(grants: seq<string>, have: set<string>, needed: iset<string>)
    requires forall name :: name in have <==> name in needed
    ensures Identifiers(grants) && Distinct(grants) && Elements(grants) <= have <==> GrantsFit(grants, needed)
  {
    hide Identifier;
    assert forall i :: 0 <= i < |grants| ==> grants[i] in Elements(grants);
  }

  lemma DecisionsMean(decisions: seq<RequirementDecision>, requirements: seq<string>)
    ensures DecisionsOk(decisions) && DecisionMap(decisions).Keys <= Elements(requirements) <==>
            DecisionsFit(decisions, requirements)
  {
    DecisionMapEntries(decisions);
    hide DecisionMap;
    var m := DecisionMap(decisions);
    if DecisionsFit(decisions, requirements) {
      forall k | k in m
        ensures k in Elements(requirements)
      {
        var i :| 0 <= i < |decisions| && decisions[i].id == k;
        assert decisions[i] in decisions;
      }
    }
    if m.Keys <= Elements(requirements) {
      forall d | d in decisions
        ensures d.id in requirements
      {
        assert d.id in m.Keys;
      }
    }
  }

  ghost function NeededCapabilities(report: DryRun): iset<string>
  {
    iset name | NeedsCapability(report, name)
  }

  ghost function NeededPermissions(report: DryRun): iset<string>
  {
    iset name | NeedsPermission(report, name)
  }

  /** The gate evaluates a policy exactly when the plan is ready, all three digests are those
      of the plan, every capability the plan needs is registered, its requirements are
      distinct, and the policy grants and decides only what the plan asks for. */
  lemma EvaluatedExactly(report: DryRun, policy: Policy, digest: Payload -> string)
    ensures AuthorizePlan(report, policy, digest).Evaluated? <==>
            && report.Ready?
            && policy.spec == report.spec && policy.registry == report.registry && policy.plan == report.plan
            && SemanticDigest(policy.spec) && SemanticDigest(policy.registry) && SemanticDigest(policy.plan)
            && (forall name :: NeedsCapability(report, name) ==> Registered(name))
            && (forall i, j :: 0 <= i < j < |report.requirements| ==> report.requirements[i] != report.requirements[j])
            && GrantsFit(policy.capabilities, NeededCapabilities(report))
            && GrantsFit(policy.permissions, NeededPermissions(report))
            && DecisionsFit(policy.decisions, report.requirements)
  {
    if report.Ready? {
      PassesCheck(report, policy);
      hide Check, Decide, FactsOf;
      DigestShapeMeans(policy.spec);
      DigestShapeMeans(policy.registry);
      DigestShapeMeans(policy.plan);
      AccessMeans(report, policy);
      DecisionsMean(policy.decisions, report.requirements);
      hide DigestShape, SemanticDigest, Identifiers, Elements, DecisionsOk, DecisionMap, GrantsFit, DecisionsFit;
      hide Registered, NeedsCapability, NeedsPermission, Whole, NeededCapabilities, NeededPermissions;
    }
  }

  lemma PassesCheck(report: DryRun, policy: Policy)
    requires report.Ready?
    ensures Check(report, policy).None? <==>
            && policy.spec == report.spec && policy.registry == report.registry && policy.plan == report.plan
            && DigestShape(policy.spec) && DigestShape(policy.registry) && DigestShape(policy.plan)
            && Whole(report.graph).capabilities <= KNOWN_PLAN_CAPABILITIES && Distinct(report.requirements)
            && Identifiers(policy.capabilities) && Distinct(policy.capabilities)
            && Elements(policy.capabilities) <= Whole(report.graph).capabilities
            && Identifiers(policy.permissions) && Distinct(policy.permissions)
            && Elements(policy.permissions) <= Whole(report.graph).permissions
            && DecisionsOk(policy.decisions) && DecisionMap(policy.decisions).Keys <= Elements(report.requirements)
  {
    hide DigestShape, Identifiers, Distinct, Elements, DecisionsOk, DecisionMap, Whole;
  }

  lemma AccessMeans(report: DryRun, policy: Policy)
    requires report.Ready?
    ensures var access := Whole(report.graph);
            && (access.capabilities <= KNOWN_PLAN_CAPABILITIES <==>
                  forall name :: NeedsCapability(report, name) ==> Registered(name))
            && (Identifiers(policy.capabilities) && Distinct(policy.capabilities) &&
                  Elements(policy.capabilities) <= access.capabilities <==>
                  GrantsFit(policy.capabilities, NeededCapabilities(report)))
            && (Identifiers(policy.permissions) && Distinct(policy.permissions) &&
                  Elements(policy.permissions) <= access.permissions <==>
                  GrantsFit(policy.permissions, NeededPermissions(report)))
  {
    NeedsAre(report);
    RegisteredIs();
    hide Identifiers, Distinct, Elements, Whole, Registered, NeedsCapability, NeedsPermission, GrantsFit;
    var access := Whole(report.graph);
    GrantsMean(policy.capabilities, access.capabilities, NeededCapabilities(report));
    GrantsMean(policy.permissions, access.permissions, NeededPermissions(report));
  }

  // The outcome

  lemma SetListed(names: set<string>)
    ensures Ascending(SortedSet(names)) && forall n :: n in SortedSet(names) <==> n in names
  {
    hide Ascending;
    forall n
      ensures n in SortedSet(names) <==> n in names
    {
      ElementsAre(SortedSet(names), n);
    }
  }

  lemma AccessListed(f: Facts, digest: Payload -> string)
    ensures var o := Decide(f, digest);
            && o.spec == f.spec && o.registry == f.registry && o.plan == f.plan
            && Ascending(o.requiredCapabilities) && Ascending(o.requiredPermissions)
            && Ascending(o.missingCapabilities) && Ascending(o.missingPermissions)
            && (forall n :: n in o.requiredCapabilities <==> n in f.capabilities)
            && (forall n :: n in o.requiredPermissions <==> n in f.permissions)
            && (forall n :: n in o.missingCapabilities <==> n in f.capabilities && n !in f.grantedCapabilities)
            && (forall n :: n in o.missingPermissions <==> n in f.permissions && n !in f.grantedPermissions)
  {
    SetListed(f.capabilities);
    SetListed(f.permissions);
    SetListed(f.capabilities - f.grantedCapabilities);
    SetListed(f.permissions - f.grantedPermissions);
    hide Ascending, GatePayload, StatusOf, Having;
  }

  lemma RequirementsListed(f: Facts, decision: string)
    ensures Ascending(Having(f, decision))
    ensures forall id :: id in Having(f, decision) <==> id in f.requirements && Decision(f, id) == decision
  {
    HavingIs(f, decision);
    hide Ascending, Having, Decision;
    forall id
      ensures id in Having(f, decision) <==> id in f.requirements && Decision(f, id) == decision
    {
      ElementsAre(Having(f, decision), id);
    }
  }

  lemma DecisionRecorded(decisions: seq<RequirementDecision>, id: string, approved: bool)
    requires DecisionsOk(decisions)
    ensures id in DecisionMap(decisions) && DecisionMap(decisions)[id] == approved <==>
            RequirementDecision(id, approved) in decisions
  {
    DecisionMapEntries(decisions);
    hide DecisionMap, DecisionsOk;
  }

  /** What the plan needs and what of it the policy does not grant, each list ascending. */
  lemma OutcomeAccess(report: DryRun, policy: Policy, digest: Payload -> string)
    requires AuthorizePlan(report, policy, digest).Evaluated?
    ensures var o := AuthorizePlan(report, policy, digest).outcome;
            && o.spec == report.spec && o.registry == report.registry && o.plan == report.plan
            && Ascending(o.requiredCapabilities) && Ascending(o.requiredPermissions)
            && Ascending(o.missingCapabilities) && Ascending(o.missingPermissions)
            && (forall n :: n in o.requiredCapabilities <==> NeedsCapability(report, n))
            && (forall n :: n in o.requiredPermissions <==> NeedsPermission(report, n))
            && (forall n :: n in o.missingCapabilities <==> NeedsCapability(report, n) && n !in policy.capabilities)
            && (forall n :: n in o.missingPermissions <==> NeedsPermission(report, n) && n !in policy.permissions)
  {
    NeedsAre(report);
    var f := FactsOf(report, policy);
    AccessListed(f, digest);
    assert f.capabilities == Whole(report.graph).capabilities && f.permissions == Whole(report.graph).permissions;
    assert f.grantedCapabilities == Elements(policy.capabilities);
    assert f.grantedPermissions == Elements(policy.permissions);
    hide Check, Ascending, NeedsCapability, NeedsPermission, Whole, Decide, FactsOf;
  }

  /** Each requirement of the plan under the decision the policy records for it, and pending
      when it records none. */
  lemma OutcomeRequirements(report: DryRun, policy: Policy, digest: Payload -> string)
    requires AuthorizePlan(report, policy, digest).Evaluated?
    ensures var o := AuthorizePlan(report, policy, digest).outcome;
            && Ascending(o.approved) && Ascending(o.pending) && Ascending(o.denied)
            && (forall id :: id in o.approved <==> RequirementDecision(id, true) in policy.decisions)
            && (forall id :: id in o.denied <==> RequirementDecision(id, false) in policy.decisions)
            && (forall id :: id in o.pending <==>
                  && id in report.requirements && RequirementDecision(id, true) !in policy.decisions
                  && RequirementDecision(id, false) !in policy.decisions)
  {
    var f := FactsOf(report, policy);
    AcceptedDecisions(report, policy);
    RequirementsListed(f, "approved");
    RequirementsListed(f, "pending");
    RequirementsListed(f, "denied");
    assert f.decisions == DecisionMap(policy.decisions) && f.requirements == Elements(report.requirements);
    assert f.decisions.Keys <= f.requirements;
    var o := AuthorizePlan(report, policy, digest).outcome;
    assert o.approved == Having(f, "approved") && o.pending == Having(f, "pending") && o.denied == Having(f, "denied");
    hide Check, Ascending, AuthorizePlan, FactsOf, DecisionMap, DecisionsOk, Having;
    assert |"approved"| == 8 && |"pending"| == 7 && |"denied"| == 6;
    forall id
      ensures id in o.approved <==> RequirementDecision(id, true) in policy.decisions
      ensures id in o.denied <==> RequirementDecision(id, false) in policy.decisions
      ensures id in o.pending <==>
              && id in report.requirements && RequirementDecision(id, true) !in policy.decisions
              && RequirementDecision(id, false) !in policy.decisions
    {
      DecisionRecorded(policy.decisions, id, true);
      DecisionRecorded(policy.decisions, id, false);
    }
  }

  /** Denied when something needed is missing or denied; otherwise pending when something is
      undecided; otherwise authorized. The digested payload says the same, name by name. */
  lemma OutcomeStatus(report: DryRun, policy: Policy, digest: Payload -> string)
    requires AuthorizePlan(report, policy, digest).Evaluated?
    ensures var o := AuthorizePlan(report, policy, digest).outcome;
            && (o.status == Denied <==> o.missingCapabilities != [] || o.missingPermissions != [] || o.denied != [])
            && (o.status == Authorized <==>
                  o.missingCapabilities == [] && o.missingPermissions == [] && o.denied == [] && o.pending == [])
            && exists p :: o.decisionDigest == digest(p) && Describes(p, o)
  {
    var f := FactsOf(report, policy);
    var o := AuthorizePlan(report, policy, digest).outcome;
    PayloadDescribes(f, digest);
    hide Check, FactsOf, Describes;
    assert o.decisionDigest == digest(GatePayload(f));
  }

  ghost predicate Describes(p: Payload, o: Outcome)
  {
    && p.status == (match o.status
                    case Authorized => "authorized"
                    case Pending => "pending"
                    case Denied => "denied")
    && p.spec == o.spec && p.registry == o.registry && p.plan == o.plan
    && Marks(p.capabilities, o.requiredCapabilities, o.missingCapabilities)
    && Marks(p.permissions, o.requiredPermissions, o.missingPermissions)
    && Ascending(MarkedNames(p.requirements))
    && forall x :: x in p.requirements <==>
         || (x.0 in o.approved && x.1 == "approved")
         || (x.0 in o.pending && x.1 == "pending")
         || (x.0 in o.denied && x.1 == "denied")
  }

  function MarkedNames(q: seq<(string, string)>): (names: seq<string>)
    ensures |names| == |q| && forall i :: 0 <= i < |q| ==> names[i] == q[i].0
  {
    seq(|q|, i requires 0 <= i < |q| => q[i].0)
  }

  /** Each required name in order, marked missing or granted. */
  predicate Marks(marked: seq<(string, string)>, required: seq<string>, missing: seq<string>)
  {
    && |marked| == |required|
    && forall i :: 0 <= i < |marked| ==>
         marked[i].0 == required[i] && marked[i].1 == if required[i] in missing then "missing" else "granted"
  }

  lemma MarksAre(marked: seq<(string, string)>, required: set<string>, granted: set<string>)
    requires |marked| == |SortedSet(required)|
    requires forall i :: 0 <= i < |marked| ==>
               marked[i].0 == SortedSet(required)[i] &&
               marked[i].1 == if SortedSet(required)[i] in granted then "granted" else "missing"
    ensures Marks(marked, SortedSet(required), SortedSet(required - granted))
  {
    SetListed(required);
    SetListed(required - granted);
    hide Ascending, SortedSet;
  }

  lemma RequirementMarks(f: Facts, q: seq<(string, string)>)
    requires |q| == |SortedSet(f.requirements)|
    requires forall i :: 0 <= i < |q| ==>
               q[i].0 == SortedSet(f.requirements)[i] && q[i].1 == Decision(f, SortedSet(f.requirements)[i])
    ensures Ascending(MarkedNames(q))
    ensures forall x :: x in q <==> x.0 in f.requirements && x.1 == Decision(f, x.0)
  {
    SetListed(f.requirements);
    var names := SortedSet(f.requirements);
    hide Ascending, SortedSet, Decision;
    assert MarkedNames(q) == names;
    forall x: (string, string) | x.0 in f.requirements && x.1 == Decision(f, x.0)
      ensures x in q
    {
      var i :| 0 <= i < |names| && names[i] == x.0;
      assert q[i] == x;
    }
  }

  lemma PayloadDescribes(f: Facts, digest: Payload -> string)
    ensures Describes(GatePayload(f), Decide(f, digest))
  {
    RequirementsListed(f, "approved");
    RequirementsListed(f, "pending");
    RequirementsListed(f, "denied");
    hide Ascending, SortedSet, Labelled, Having, Marks, StatusOf;
    var p := GatePayload(f);
    RequirementMarks(f, p.requirements);
    MarksAre(p.capabilities, f.capabilities, f.grantedCapabilities);
    MarksAre(p.permissions, f.permissions, f.grantedPermissions);
  }

  /** Whoever wrote it, a report its validator accepts lists every name once and in order, has
      the status its lists imply, and claims authorization exactly when nothing is missing,
      denied or pending. */
  lemma AcceptedReportMeans(r: Report, digest: Payload -> string)
    requires SelfConsistent(r, digest)
    ensures Ascending(r.requiredCapabilities) && Ascending(r.requiredPermissions)
    ensures Ascending(r.missingCapabilities) && Ascending(r.missingPermissions)
    ensures Ascending(r.approved) && Ascending(r.pending) && Ascending(r.denied)
    ensures forall n :: n in r.missingCapabilities ==> n in r.requiredCapabilities
    ensures forall n :: n in r.missingPermissions ==> n in r.requiredPermissions
    ensures forall id :: !(id in r.approved && id in r.pending)
    ensures forall id :: !(id in r.approved && id in r.denied) && !(id in r.pending && id in r.denied)
    ensures r.status == Denied <==> r.missingCapabilities != [] || r.missingPermissions != [] || r.denied != []
    ensures r.authorized <==>
            r.missingCapabilities == [] && r.missingPermissions == [] && r.denied == [] && r.pending == []
    ensures r.authorized <==> r.status == Authorized
  {
    AscendingIff(r.requiredCapabilities);
    AscendingIff(r.requiredPermissions);
    AscendingIff(r.missingCapabilities);
    AscendingIff(r.missingPermissions);
    AscendingIff(r.approved);
    AscendingIff(r.pending);
    AscendingIff(r.denied);
    hide Ascending, InOrder, Distinct, ReportPayload;
    assert forall id :: id in r.missingCapabilities ==> id in Elements(r.missingCapabilities);
    assert forall id :: id in r.missingPermissions ==> id in Elements(r.missingPermissions);
    assert forall id :: id in r.approved ==> id in Elements(r.approved);
    assert forall id :: id in r.pending ==> id in Elements(r.pending);
  }
}
