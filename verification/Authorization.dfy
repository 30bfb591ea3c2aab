/** The plan-authorization gate, the report document built from its result, and the two
    separately written constructions of the digested decision payload. */
module Authorization {
  import opened Wrappers
  import opened SortedNames
  import PlanWalks

  datatype Status = Authorized | Pending | Denied

  /** A validated dry-run report: a ready plan with its digest triple, or a blocked one. */
  datatype DryRun =
    | Ready(spec: string, registry: string, plan: string, graph: PlanWalks.PlannedGraph, requirements: seq<string>)
    | Blocked

  datatype RequirementDecision = RequirementDecision(id: string, approved: bool)

  datatype Policy = Policy(
    spec: string,
    registry: string,
    plan: string,
    capabilities: seq<string>,
    permissions: seq<string>,
    decisions: seq<RequirementDecision>)

  datatype Payload = Payload(
    status: string,
    spec: string,
    registry: string,
    plan: string,
    capabilities: seq<(string, string)>,
    permissions: seq<(string, string)>,
    requirements: seq<(string, string)>)

  datatype Outcome = Outcome(
    status: Status,
    spec: string,
    registry: string,
    plan: string,
    decisionDigest: string,
    requiredCapabilities: seq<string>,
    requiredPermissions: seq<string>,
    missingCapabilities: seq<string>,
    missingPermissions: seq<string>,
    approved: seq<string>,
    pending: seq<string>,
    denied: seq<string>)

  datatype Refusal =
    | NotReady
    | BadDigest
    | BadGrants
    | BadDecisions
    | BindingMismatch
    | UnregisteredCapability
    | DuplicateRequirements
    | UnknownGrant
    | UnknownDecision

  datatype Gate = Evaluated(outcome: Outcome) | Refused(refusal: Refusal)

  const KNOWN_PLAN_CAPABILITIES: set<string> := {
    "simulate", "read.local_evidence", "read.external_api", "write.experiment_draft",
    "execute.local", "execute.oci", "execute.gpu", "execute.mps", "execute.native",
    "train.simulated", "process.native"}

  // Shapes

  predicate AlphaNumeric(c: char)
  {
    'a' <= c <= 'z' || 'A' <= c <= 'Z' || '0' <= c <= '9'
  }

  predicate Identifier(s: string)
  {
    && 1 <= |s| <= 128 && AlphaNumeric(s[0])
    && forall i :: 0 <= i < |s| ==> AlphaNumeric(s[i]) || s[i] in "._:-"
  }

  predicate Hex64(s: string)
  {
    |s| == 64 && forall i :: 0 <= i < 64 ==> '0' <= s[i] <= '9' || 'a' <= s[i] <= 'f'
  }

  predicate DigestShape(s: string)
  {
    (|s| == 71 && s[..7] == "sha256:" && Hex64(s[7..])) || (|s| == 75 && s[..11] == "jcs-sha256:" && Hex64(s[11..]))
  }

  predicate Identifiers(q: seq<string>)
  {
    forall i :: 0 <= i < |q| ==> Identifier(q[i])
  }

  // The loop over requirement decisions

  predicate DecisionsOk(values: seq<RequirementDecision>)
  {
    && (forall i :: 0 <= i < |values| ==> values[i].id != "")
    && (forall i, j :: 0 <= i < j < |values| ==> values[i].id != values[j].id)
  }

  function DecisionMap(values: seq<RequirementDecision>): map<string, bool>
  {
    if values == [] then map[]
    else DecisionMap(values[..|values|-1])[values[|values|-1].id := values[|values|-1].approved]
  }

  lemma {:induction false} DecisionAt(values: seq<RequirementDecision>, i: nat)
    requires i < |values|
    ensures values[i].id in DecisionMap(values)
    ensures DecisionsOk(values) ==> DecisionMap(values)[values[i].id] == values[i].approved
  {
    var init := values[..|values|-1];
    if i < |init| {
      DecisionAt(init, i);
      assert init[i] == values[i];
    }
  }

  lemma {:induction false} DecisionFrom(values: seq<RequirementDecision>, k: string) returns (i: nat)
    requires k in DecisionMap(values)
    ensures i < |values| && values[i].id == k
  {
    i := |values| - 1;
    if values[i].id != k {
      i := DecisionFrom(values[..|values|-1], k);
    }
  }

  /** The map holds exactly the decided ids, each with its decision. */
  lemma DecisionMapEntries(values: seq<RequirementDecision>)
    ensures forall i :: 0 <= i < |values| ==> values[i].id in DecisionMap(values)
    ensures forall k :: k in DecisionMap(values) ==> exists i :: 0 <= i < |values| && values[i].id == k
    ensures DecisionsOk(values) ==> forall i :: 0 <= i < |values| ==>
        DecisionMap(values)[values[i].id] == values[i].approved
  {
    var m := DecisionMap(values);
    hide DecisionMap, DecisionsOk;
    forall i | 0 <= i < |values|
      ensures values[i].id in m && (DecisionsOk(values) ==> m[values[i].id] == values[i].approved)
    {
      DecisionAt(values, i);
    }
    forall k | k in m
      ensures exists i :: 0 <= i < |values| && values[i].id == k
    {
      var i := DecisionFrom(values, k);
    }
  }

  /** What one more decision does, and that a refused prefix refuses the whole. */
  lemma DecisionsGrow(values: seq<RequirementDecision>, n: nat)
    requires n < |values| && DecisionsOk(values[..n])
    ensures DecisionsOk(values[..n + 1]) <==> values[n].id != "" && values[n].id !in DecisionMap(values[..n])
    ensures DecisionMap(values[..n + 1]) == DecisionMap(values[..n])[values[n].id := values[n].approved]
    ensures DecisionsOk(values) ==> DecisionsOk(values[..n + 1])
  {
    DecisionMapEntries(values[..n]);
    assert values[..n + 1][..n] == values[..n];
    hide DecisionMap;
    var m := DecisionMap(values[..n]);
    assert forall i :: 0 <= i < n ==> values[..n][i].id in m;
    if values[n].id in m {
      var i :| 0 <= i < |values[..n]| && values[..n][i].id == values[n].id;
      assert values[..n + 1][i].id == values[..n + 1][n].id;
    }
  }

  /** Collects the decisions, or refuses an empty or repeated requirement id. */
  method ValidatedDecisions(values: seq<RequirementDecision>) returns (r: Option<map<string, bool>>)
    ensures r.Some? <==> DecisionsOk(values)
    ensures r.Some? ==> r.value == DecisionMap(values)
  {
    var decisions: map<string, bool> := map[];
    assert DecisionsOk(values[..0]) && DecisionMap(values[..0]) == map[];
    hide DecisionsOk, DecisionMap;
    for n := 0 to |values|
      invariant DecisionsOk(values[..n]) && decisions == DecisionMap(values[..n])
    {
      DecisionsGrow(values, n);
      var value := values[n];
      if value.id == "" {
        return None;
      }
      if value.id in decisions {
        return None;
      }
      decisions := decisions[value.id := value.approved];
    }
    assert values[..|values|] == values;
    r := Some(decisions);
  }

  // The gate

  /** What the gate decides on: the access and requirements of the plan, and the policy. */
  datatype Facts = Facts(
    spec: string,
    registry: string,
    plan: string,
    capabilities: set<string>,
    permissions: set<string>,
    requirements: set<string>,
    grantedCapabilities: set<string>,
    grantedPermissions: set<string>,
    decisions: map<string, bool>)

  predicate FactsOk(f: Facts)
  {
    && f.grantedCapabilities <= f.capabilities && f.grantedPermissions <= f.permissions
    && f.decisions.Keys <= f.requirements
  }

  function Check(report: DryRun, policy: Policy): (r: Option<Refusal>)
  {
    if report.Blocked? then Some(NotReady)
    else if !DigestShape(policy.spec) || !DigestShape(policy.registry) || !DigestShape(policy.plan) then Some(BadDigest)
    else if !Identifiers(policy.capabilities) || !Distinct(policy.capabilities)
         || !Identifiers(policy.permissions) || !Distinct(policy.permissions) then Some(BadGrants)
    else if !DecisionsOk(policy.decisions) then Some(BadDecisions)
    else if policy.spec != report.spec || policy.registry != report.registry || policy.plan != report.plan
    then Some(BindingMismatch)
    else
      var access := PlanWalks.Whole(report.graph);
      if !(access.capabilities <= KNOWN_PLAN_CAPABILITIES) then Some(UnregisteredCapability)
      else if !Distinct(report.requirements) then Some(DuplicateRequirements)
      else if !(Elements(policy.capabilities) <= access.capabilities)
           || !(Elements(policy.permissions) <= access.permissions) then Some(UnknownGrant)
      else if !(DecisionMap(policy.decisions).Keys <= Elements(report.requirements)) then Some(UnknownDecision)
      else None
  }

  function FactsOf(report: DryRun, policy: Policy): (f: Facts)
    requires Check(report, policy).None?
    ensures FactsOk(f)
  {
    var access := PlanWalks.Whole(report.graph);
    Facts(report.spec, report.registry, report.plan, access.capabilities, access.permissions,
          Elements(report.requirements), Elements(policy.capabilities), Elements(policy.permissions),
          DecisionMap(policy.decisions))
  }

  function Decision(f: Facts, id: string): string
  {
    if id !in f.decisions then "pending" else if f.decisions[id] then "approved" else "denied"
  }

  function StatusText(s: Status): string
  {
    match s
    case Authorized => "authorized"
    case Pending => "pending"
    case Denied => "denied"
  }

  function Labelled(q: seq<string>, f: string -> string): (r: seq<(string, string)>)
    ensures |r| == |q| && forall i :: 0 <= i < |q| ==> r[i] == (q[i], f(q[i]))
  {
    seq(|q|, i requires 0 <= i < |q| => (q[i], f(q[i])))
  }

  ghost function MissingCapabilities(f: Facts): seq<string>
  {
    SortedSet(f.capabilities - f.grantedCapabilities)
  }

  ghost function MissingPermissions(f: Facts): seq<string>
  {
    SortedSet(f.permissions - f.grantedPermissions)
  }

  ghost function Having(f: Facts, decision: string): seq<string>
  {
    Select(SortedSet(f.requirements), id => Decision(f, id) == decision)
  }

  ghost function StatusOf(f: Facts): Status
  {
    if MissingCapabilities(f) != [] || MissingPermissions(f) != [] || Having(f, "denied") != [] then Denied
    else if Having(f, "pending") != [] then Pending
    else Authorized
  }

  /** The payload as the gate builds it, from grants and decisions. */
  ghost function GatePayload(f: Facts): Payload
  {
    Payload(StatusText(StatusOf(f)), f.spec, f.registry, f.plan,
            Labelled(SortedSet(f.capabilities), id => if id in f.grantedCapabilities then "granted" else "missing"),
            Labelled(SortedSet(f.permissions), id => if id in f.grantedPermissions then "granted" else "missing"),
            Labelled(SortedSet(f.requirements), id => Decision(f, id)))
  }

  ghost function Decide(f: Facts, digest: Payload -> string): Outcome
  {
    Outcome(StatusOf(f), f.spec, f.registry, f.plan, digest(GatePayload(f)),
            SortedSet(f.capabilities), SortedSet(f.permissions), MissingCapabilities(f), MissingPermissions(f),
            Having(f, "approved"), Having(f, "pending"), Having(f, "denied"))
  }

  ghost function AuthorizePlan(report: DryRun, policy: Policy, digest: Payload -> string): Gate
  {
    var refusal := Check(report, policy);
    if refusal.Some? then Refused(refusal.value) else Evaluated(Decide(FactsOf(report, policy), digest))
  }

  lemma HavingIs(f: Facts, decision: string)
    ensures Ascending(Having(f, decision))
    ensures Elements(Having(f, decision)) == set id | id in f.requirements && Decision(f, id) == decision
  {
    SelectAscending(SortedSet(f.requirements), id => Decision(f, id) == decision);
  }

  // The report document

  datatype Report = Report(
    status: Status,
    authorized: bool,
    spec: string,
    registry: string,
    plan: string,
    decisionDigest: string,
    requiredCapabilities: seq<string>,
    requiredPermissions: seq<string>,
    missingCapabilities: seq<string>,
    missingPermissions: seq<string>,
    approved: seq<string>,
    pending: seq<string>,
    denied: seq<string>)

  function FromResult(o: Outcome): Report
  {
    Report(o.status, o.status.Authorized?, o.spec, o.registry, o.plan, o.decisionDigest,
           o.requiredCapabilities, o.requiredPermissions, o.missingCapabilities, o.missingPermissions,
           o.approved, o.pending, o.denied)
  }

  predicate RequirementIds(q: seq<string>)
  {
    forall i :: 0 <= i < |q| ==> 1 <= |q[i]| <= 4096
  }

  /** The bounds of the document's fields. */
  predicate FieldsOk(r: Report)
  {
    && DigestShape(r.spec) && DigestShape(r.registry) && DigestShape(r.plan) && DigestShape(r.decisionDigest)
    && Identifiers(r.requiredCapabilities) && Identifiers(r.requiredPermissions)
    && Identifiers(r.missingCapabilities) && Identifiers(r.missingPermissions)
    && RequirementIds(r.approved) && RequirementIds(r.pending) && RequirementIds(r.denied)
  }

  predicate Normalized(r: Report)
  {
    && InOrder(r.requiredCapabilities) && InOrder(r.requiredPermissions)
    && InOrder(r.missingCapabilities) && InOrder(r.missingPermissions)
    && InOrder(r.approved) && InOrder(r.pending) && InOrder(r.denied)
    && Distinct(r.requiredCapabilities) && Distinct(r.requiredPermissions)
    && Distinct(r.missingCapabilities) && Distinct(r.missingPermissions)
    && Distinct(r.approved) && Distinct(r.pending) && Distinct(r.denied)
  }

  predicate Consistent(r: Report)
  {
    var denial := r.missingCapabilities != [] || r.missingPermissions != [] || r.denied != [];
    && Elements(r.missingCapabilities) <= Elements(r.requiredCapabilities)
    && Elements(r.missingPermissions) <= Elements(r.requiredPermissions)
    && Elements(r.approved) !! Elements(r.pending) && Elements(r.approved) !! Elements(r.denied)
    && Elements(r.pending) !! Elements(r.denied)
    && r.authorized == r.status.Authorized?
    && (r.status.Authorized? ==> !denial && r.pending == [])
    && (r.status.Pending? ==> !denial && r.pending != [])
    && (r.status.Denied? ==> denial)
  }

  function Marked(q: seq<string>, word: string): map<string, string>
  {
    map id | id in q :: word
  }

  function Merged(r: Report): map<string, string>
  {
    Marked(r.approved, "approved") + Marked(r.pending, "pending") + Marked(r.denied, "denied")
  }

  /** The payload as the document rebuilds it, from missing names and disposition lists. */
  ghost function ReportPayload(r: Report): Payload
  {
    var decisions := Merged(r);
    Payload(StatusText(r.status), r.spec, r.registry, r.plan,
            Labelled(r.requiredCapabilities,
              id => if id in Elements(r.missingCapabilities) then "missing" else "granted"),
            Labelled(r.requiredPermissions,
              id => if id in Elements(r.missingPermissions) then "missing" else "granted"),
            Labelled(SortedSet(decisions.Keys), id => if id in decisions then decisions[id] else ""))
  }

  /** The validator of the report document. */
  ghost predicate SelfConsistent(r: Report, digest: Payload -> string)
  {
    Normalized(r) && Consistent(r) && r.decisionDigest == digest(ReportPayload(r))
  }

  // The two constructions agree

  lemma LabelledSame(q: seq<string>, f: string -> string, g: string -> string)
    requires forall i :: 0 <= i < |q| ==> f(q[i]) == g(q[i])
    ensures Labelled(q, f) == Labelled(q, g)
  {
  }

  lemma MergedIs(f: Facts, digest: Payload -> string)
    ensures var m := Merged(FromResult(Decide(f, digest)));
            m.Keys == f.requirements && forall id :: id in m ==> m[id] == Decision(f, id)
  {
    HavingIs(f, "approved");
    HavingIs(f, "pending");
    HavingIs(f, "denied");
    var r := FromResult(Decide(f, digest));
    hide Having, StatusOf, MissingCapabilities, MissingPermissions, Elements;
    forall id
      ensures id in r.approved <==> id in f.requirements && Decision(f, id) == "approved"
      ensures id in r.pending <==> id in f.requirements && Decision(f, id) == "pending"
      ensures id in r.denied <==> id in f.requirements && Decision(f, id) == "denied"
    {
      ElementsAre(r.approved, id);
      ElementsAre(r.pending, id);
      ElementsAre(r.denied, id);
    }
  }

  lemma ElementsAre(q: seq<string>, id: string)
    ensures id in Elements(q) <==> id in q
  {
  }

  /** For every accepted input, rebuilding the payload from the report gives the payload the
      gate digested. */
  lemma PayloadsAgree(f: Facts, digest: Payload -> string)
    requires FactsOk(f)
    ensures ReportPayload(FromResult(Decide(f, digest))) == GatePayload(f)
  {
    var r := FromResult(Decide(f, digest));
    MergedIs(f, digest);
    hide Having, StatusOf, Merged;
    assert Elements(r.missingCapabilities) == f.capabilities - f.grantedCapabilities;
    assert Elements(r.missingPermissions) == f.permissions - f.grantedPermissions;
    LabelsAgree(f.capabilities, f.grantedCapabilities, r.missingCapabilities);
    LabelsAgree(f.permissions, f.grantedPermissions, r.missingPermissions);
    var m := Merged(r);
    forall i | 0 <= i < |SortedSet(m.Keys)|
      ensures SortedSet(m.Keys)[i] in m
    {
      assert SortedSet(m.Keys)[i] in Elements(SortedSet(m.Keys));
    }
    LabelledSame(SortedSet(m.Keys), id => if id in m then m[id] else "", id => Decision(f, id));
  }

  lemma LabelsAgree(required: set<string>, granted: set<string>, missing: seq<string>)
    requires Elements(missing) == required - granted
    ensures Labelled(SortedSet(required), id => if id in Elements(missing) then "missing" else "granted") ==
            Labelled(SortedSet(required), id => if id in granted then "granted" else "missing")
  {
    var q := SortedSet(required);
    forall i | 0 <= i < |q|
      ensures q[i] in Elements(missing) <==> q[i] !in granted
    {
      assert q[i] in Elements(q);
    }
    LabelledSame(q, id => if id in Elements(missing) then "missing" else "granted",
      id => if id in granted then "granted" else "missing");
  }

  lemma ConsistentStatus(f: Facts, digest: Payload -> string)
    ensures Consistent(FromResult(Decide(f, digest)))
  {
    HavingIs(f, "approved");
    HavingIs(f, "pending");
    HavingIs(f, "denied");
    hide GatePayload, Having, Ascending, Decision;
    assert |"approved"| == 8 && |"pending"| == 7 && |"denied"| == 6;
  }

  /** The report built from any result passes its own validator, digest included. */
  lemma ReportIsSelfConsistent(f: Facts, digest: Payload -> string)
    requires FactsOk(f)
    ensures SelfConsistent(FromResult(Decide(f, digest)), digest)
  {
    var r := FromResult(Decide(f, digest));
    PayloadsAgree(f, digest);
    HavingIs(f, "approved");
    HavingIs(f, "pending");
    HavingIs(f, "denied");
    hide ReportPayload, GatePayload, Having, Ascending;
    AscendingIff(r.requiredCapabilities);
    AscendingIff(r.requiredPermissions);
    AscendingIff(r.missingCapabilities);
    AscendingIff(r.missingPermissions);
    AscendingIff(r.approved);
    AscendingIff(r.pending);
    AscendingIff(r.denied);
    hide InOrder, Distinct;
    assert Normalized(r);
    ConsistentStatus(f, digest);
  }

  predicate PlanIds(report: DryRun)
  {
    report.Ready? ==>
      && (forall c :: c in PlanWalks.Whole(report.graph).capabilities ==> Identifier(c))
      && (forall c :: c in PlanWalks.Whole(report.graph).permissions ==> Identifier(c))
      && (forall i :: 0 <= i < |report.requirements| ==> report.requirements[i] != "")
  }

  /** The names a report lists are the names of the plan. */
  lemma ReportNames(f: Facts, digest: Payload -> string)
    requires FactsOk(f)
    ensures var r := FromResult(Decide(f, digest));
            && Elements(r.requiredCapabilities) == f.capabilities && Elements(r.requiredPermissions) == f.permissions
            && Elements(r.missingCapabilities) <= f.capabilities && Elements(r.missingPermissions) <= f.permissions
            && Elements(r.approved) + Elements(r.pending) + Elements(r.denied) == f.requirements
  {
    HavingIs(f, "approved");
    HavingIs(f, "pending");
    HavingIs(f, "denied");
    hide GatePayload, Having, StatusOf, Ascending, Elements;
  }

  lemma WithinBounds(f: Facts, digest: Payload -> string)
    requires FactsOk(f) && DigestShape(f.spec) && DigestShape(f.registry) && DigestShape(f.plan)
    requires forall p :: DigestShape(digest(p))
    requires forall c :: c in f.capabilities || c in f.permissions ==> Identifier(c)
    requires forall id :: id in f.requirements ==> id != ""
    ensures FieldsOk(FromResult(Decide(f, digest))) <==> forall id :: id in f.requirements ==> |id| <= 4096
  {
    var r := FromResult(Decide(f, digest));
    ReportNames(f, digest);
    assert r.spec == f.spec && r.registry == f.registry && r.plan == f.plan && DigestShape(r.decisionDigest);
    hide Decide, FromResult, DigestShape, Identifier, Elements;
    NamesAre(r.requiredCapabilities);
    NamesAre(r.requiredPermissions);
    NamesAre(r.missingCapabilities);
    NamesAre(r.missingPermissions);
    NamesAre(r.approved);
    NamesAre(r.pending);
    NamesAre(r.denied);
    hide Identifiers, RequirementIds;
  }

  lemma NamesAre(q: seq<string>)
    ensures Identifiers(q) <==> forall c :: c in Elements(q) ==> Identifier(c)
    ensures RequirementIds(q) <==> forall c :: c in Elements(q) ==> 1 <= |c| <= 4096
  {
    hide Identifier;
    assert forall i :: 0 <= i < |q| ==> q[i] in Elements(q);
  }

  lemma AcceptedFacts(report: DryRun, policy: Policy)
    requires Check(report, policy).None? && PlanIds(report)
    ensures var f := FactsOf(report, policy);
            && report.Ready? && DigestShape(f.spec) && DigestShape(f.registry) && DigestShape(f.plan)
            && (forall c :: c in f.capabilities || c in f.permissions ==> Identifier(c))
            && (forall id :: id in f.requirements ==> id != "")
            && (forall id :: id in f.requirements <==> id in report.requirements)
  {
    hide DigestShape, Identifier, DecisionsOk, DecisionMap, Distinct, PlanWalks.Whole;
  }

  /** Every result of the gate on a valid plan becomes an accepted report exactly when no
      requirement id of the plan is longer than the document allows. */
  lemma ResultBecomesReport(report: DryRun, policy: Policy, digest: Payload -> string)
    requires AuthorizePlan(report, policy, digest).Evaluated? && PlanIds(report)
    requires forall p :: DigestShape(digest(p))
    ensures var r := FromResult(AuthorizePlan(report, policy, digest).outcome);
            && SelfConsistent(r, digest)
            && (FieldsOk(r) <==> forall id :: id in report.requirements ==> |id| <= 4096)
  {
    hide SelfConsistent, FieldsOk, Decide, Check, FactsOf, DigestShape, Identifier, PlanIds;
    var f := FactsOf(report, policy);
    AcceptedFacts(report, policy);
    ReportIsSelfConsistent(f, digest);
    WithinBounds(f, digest);
  }

  // The payload determines the decision

  lemma LabelsDetermine(q: seq<string>, p: seq<string>, f: string -> string, g: string -> string)
    requires Labelled(q, f) == Labelled(p, g)
    ensures q == p && forall id :: id in q ==> f(id) == g(id)
  {
    assert |q| == |Labelled(q, f)| == |p|;
    forall i | 0 <= i < |q|
      ensures q[i] == p[i] && f(q[i]) == g(q[i])
    {
      assert Labelled(q, f)[i] == Labelled(p, g)[i];
    }
  }

  lemma MissingDetermined(required: seq<string>, a: seq<string>, b: seq<string>)
    requires Ascending(a) && Ascending(b) && Elements(a) <= Elements(required) && Elements(b) <= Elements(required)
    requires forall id :: id in required ==> (id in Elements(a) <==> id in Elements(b))
    ensures a == b
  {
    assert Elements(a) == Elements(b);
    AscendingUnique(a, b);
  }

  lemma StatusTextInjective(a: Status, b: Status)
    requires StatusText(a) == StatusText(b)
    ensures a == b
  {
    assert |StatusText(a)| == |StatusText(b)|;
  }

  lemma DispositionDetermined(r: Report, word: string)
    requires Consistent(r) && word in ["approved", "pending", "denied"]
    ensures var q := if word == "approved" then r.approved else if word == "pending" then r.pending else r.denied;
            Elements(q) == set id | id in Merged(r).Keys && Merged(r)[id] == word
  {
    assert "approved" != "pending" && "approved" != "denied" && "pending" != "denied" by {
      assert |"approved"| == 8 && |"pending"| == 7 && |"denied"| == 6;
    }
  }

  lemma SameMerged(a: Report, b: Report)
    requires Consistent(a) && Consistent(b) && Normalized(a) && Normalized(b) && Merged(a) == Merged(b)
    ensures a.approved == b.approved && a.pending == b.pending && a.denied == b.denied
  {
    DispositionDetermined(a, "approved");
    DispositionDetermined(b, "approved");
    DispositionDetermined(a, "pending");
    DispositionDetermined(b, "pending");
    DispositionDetermined(a, "denied");
    DispositionDetermined(b, "denied");
    AscendingIff(a.approved);
    AscendingIff(b.approved);
    AscendingIff(a.pending);
    AscendingIff(b.pending);
    AscendingIff(a.denied);
    AscendingIff(b.denied);
    hide Merged, Consistent, Elements, Ascending, InOrder, Distinct;
    assert |"approved"| == 8 && |"pending"| == 7 && |"denied"| == 6;
    AscendingUnique(a.approved, b.approved);
    AscendingUnique(a.pending, b.pending);
    AscendingUnique(a.denied, b.denied);
  }

  lemma MergedDetermined(a: Report, b: Report)
    requires ReportPayload(a).requirements == ReportPayload(b).requirements
    ensures Merged(a) == Merged(b)
  {
    var m, n := Merged(a), Merged(b);
    hide Merged;
    var p, q := SortedSet(m.Keys), SortedSet(n.Keys);
    LabelsDetermine(p, q, id => if id in m then m[id] else "", id => if id in n then n[id] else "");
    assert m.Keys == Elements(p) == Elements(q) == n.Keys;
    forall id | id in m
      ensures m[id] == n[id]
    {
      assert id in Elements(p);
    }
  }

  /** Two valid reports with the same payload are the same report. */
  lemma PayloadDeterminesReport(a: Report, b: Report, digest: Payload -> string)
    requires SelfConsistent(a, digest) && SelfConsistent(b, digest) && ReportPayload(a) == ReportPayload(b)
    ensures a == b
  {
    MergedDetermined(a, b);
    SameMerged(a, b);
    StatusTextInjective(a.status, b.status);
    CapabilitiesDetermined(a, b);
    PermissionsDetermined(a, b);
    assert a.authorized == b.authorized && a.decisionDigest == b.decisionDigest;
    assert a.spec == b.spec && a.registry == b.registry && a.plan == b.plan;
  }

  lemma CapabilitiesDetermined(a: Report, b: Report)
    requires Normalized(a) && Normalized(b) && Consistent(a) && Consistent(b)
    requires ReportPayload(a).capabilities == ReportPayload(b).capabilities
    ensures a.requiredCapabilities == b.requiredCapabilities && a.missingCapabilities == b.missingCapabilities
  {
    hide Merged;
    LabelsDetermine(a.requiredCapabilities, b.requiredCapabilities,
                    id => if id in Elements(a.missingCapabilities) then "missing" else "granted",
                    id => if id in Elements(b.missingCapabilities) then "missing" else "granted");
    assert |"missing"| == |"granted"| == 7 && "missing"[0] == 'm' && "granted"[0] == 'g';
    AscendingIff(a.missingCapabilities);
    AscendingIff(b.missingCapabilities);
    MissingDetermined(a.requiredCapabilities, a.missingCapabilities, b.missingCapabilities);
  }

  lemma PermissionsDetermined(a: Report, b: Report)
    requires Normalized(a) && Normalized(b) && Consistent(a) && Consistent(b)
    requires ReportPayload(a).permissions == ReportPayload(b).permissions
    ensures a.requiredPermissions == b.requiredPermissions && a.missingPermissions == b.missingPermissions
  {
    hide Merged;
    LabelsDetermine(a.requiredPermissions, b.requiredPermissions,
                    id => if id in Elements(a.missingPermissions) then "missing" else "granted",
                    id => if id in Elements(b.missingPermissions) then "missing" else "granted");
    assert |"missing"| == |"granted"| == 7 && "missing"[0] == 'm' && "granted"[0] == 'g';
    AscendingIff(a.missingPermissions);
    AscendingIff(b.missingPermissions);
    MissingDetermined(a.requiredPermissions, a.missingPermissions, b.missingPermissions);
  }

  /** Two gate results with the same payload are the same decision in every field. */
  lemma PayloadDeterminesDecision(f: Facts, g: Facts, digest: Payload -> string)
    requires FactsOk(f) && FactsOk(g) && GatePayload(f) == GatePayload(g)
    ensures Decide(f, digest) == Decide(g, digest)
  {
    PayloadsAgree(f, digest);
    PayloadsAgree(g, digest);
    ReportIsSelfConsistent(f, digest);
    ReportIsSelfConsistent(g, digest);
    hide GatePayload, ReportPayload, SelfConsistent, StatusOf;
    PayloadDeterminesReport(FromResult(Decide(f, digest)), FromResult(Decide(g, digest)), digest);
  }

  // Status

  function Rank(s: Status): nat
  {
    match s
    case Denied => 0
    case Pending => 1
    case Authorized => 2
  }

  lemma NoneHaving(f: Facts, decision: string)
    ensures Having(f, decision) == [] <==> forall id :: id in f.requirements ==> Decision(f, id) != decision
  {
    HavingIs(f, decision);
    var q := Having(f, decision);
    hide Having, Decision;
    if q == [] {
      forall id | id in f.requirements
        ensures Decision(f, id) != decision
      {
        assert id !in Elements(q);
      }
    } else {
      assert q[0] in Elements(q);
    }
  }

  lemma NoneMissing(required: set<string>, granted: set<string>)
    ensures SortedSet(required - granted) == [] <==> required <= granted
  {
    var q := SortedSet(required - granted);
    if q == [] {
      assert required - granted == Elements([]) == {};
      forall n | n in required
        ensures n in granted
      {
        assert n !in required - granted;
      }
    } else {
      assert q[0] in Elements(q);
    }
  }

  /** Authorized means everything required is granted and every requirement is approved;
      pending means that only decisions are still missing. */
  lemma StatusMeans(f: Facts)
    ensures StatusOf(f).Authorized? <==>
            f.capabilities <= f.grantedCapabilities && f.permissions <= f.grantedPermissions &&
            forall id :: id in f.requirements ==> id in f.decisions && f.decisions[id]
    ensures StatusOf(f).Denied? <==>
            !(f.capabilities <= f.grantedCapabilities) || !(f.permissions <= f.grantedPermissions) ||
            exists id :: id in f.requirements && id in f.decisions && !f.decisions[id]
  {
    NoneMissing(f.capabilities, f.grantedCapabilities);
    NoneMissing(f.permissions, f.grantedPermissions);
    NoneHaving(f, "denied");
    NoneHaving(f, "pending");
    hide Having;
    assert |"approved"| == 8 && |"pending"| == 7 && |"denied"| == 6;
  }

  /** The same plan under a policy that grants at least as much, approves at least what was
      approved and denies nothing that was not denied. */
  predicate MoreGenerous(f: Facts, g: Facts)
  {
    && g.capabilities == f.capabilities && g.permissions == f.permissions && g.requirements == f.requirements
    && f.grantedCapabilities <= g.grantedCapabilities && f.grantedPermissions <= g.grantedPermissions
    && forall id :: id in f.requirements ==>
         && (id in f.decisions && f.decisions[id] ==> id in g.decisions && g.decisions[id])
         && (id in g.decisions && !g.decisions[id] ==> id in f.decisions && !f.decisions[id])
  }

  /** More grants or approvals never lower the status. */
  lemma StatusIsMonotone(f: Facts, g: Facts)
    requires MoreGenerous(f, g)
    ensures Rank(StatusOf(f)) <= Rank(StatusOf(g))
  {
    StatusMeans(f);
    StatusMeans(g);
    hide StatusOf;
  }

  lemma DecisionsCompare(p: seq<RequirementDecision>, q: seq<RequirementDecision>)
    requires DecisionsOk(p) && DecisionsOk(q)
    requires forall d :: d in p && d.approved ==> d in q
    requires forall d :: d in q && !d.approved ==> d in p
    ensures var m, n := DecisionMap(p), DecisionMap(q);
            && (forall id :: id in m && m[id] ==> id in n && n[id])
            && (forall id :: id in n && !n[id] ==> id in m && !m[id])
  {
    DecisionMapEntries(p);
    DecisionMapEntries(q);
    var m, n := DecisionMap(p), DecisionMap(q);
    hide DecisionMap, DecisionsOk;
    forall id | id in m && m[id]
      ensures id in n && n[id]
    {
      var i :| 0 <= i < |p| && p[i].id == id;
      assert p[i] in q;
    }
    forall id | id in n && !n[id]
      ensures id in m && !m[id]
    {
      var i :| 0 <= i < |q| && q[i].id == id;
      assert q[i] in p;
    }
  }

  lemma AcceptedDecisions(report: DryRun, policy: Policy)
    requires Check(report, policy).None?
    ensures DecisionsOk(policy.decisions)
  {
    hide DecisionsOk, DigestShape, Identifier, Distinct, DecisionMap, PlanWalks.Whole;
  }

  /** At the gate: on one plan, a policy with more grants and approvals is never worse off. */
  lemma MorePolicyNeverLowersStatus(report: DryRun, p: Policy, q: Policy, digest: Payload -> string)
    requires AuthorizePlan(report, p, digest).Evaluated? && AuthorizePlan(report, q, digest).Evaluated?
    requires Elements(p.capabilities) <= Elements(q.capabilities) && Elements(p.permissions) <= Elements(q.permissions)
    requires forall d :: d in p.decisions && d.approved ==> d in q.decisions
    requires forall d :: d in q.decisions && !d.approved ==> d in p.decisions
    ensures Rank(AuthorizePlan(report, p, digest).outcome.status) <=
        Rank(AuthorizePlan(report, q, digest).outcome.status)
  {
    hide Check, DecisionsOk, DecisionMap, GatePayload, StatusOf, Having, PlanWalks.Whole, Elements;
    var f, g := FactsOf(report, p), FactsOf(report, q);
    AcceptedDecisions(report, p);
    AcceptedDecisions(report, q);
    DecisionsCompare(p.decisions, q.decisions);
    assert Check(report, p).None? && Check(report, q).None?;
    assert f.decisions == DecisionMap(p.decisions) && g.decisions == DecisionMap(q.decisions);
    assert f.requirements == g.requirements && f.capabilities == g.capabilities && f.permissions == g.permissions;
    assert f.grantedCapabilities <= g.grantedCapabilities && f.grantedPermissions <= g.grantedPermissions;
    assert MoreGenerous(f, g);
    hide FactsOf, MoreGenerous;
    StatusIsMonotone(f, g);
  }
}
