/** Compilation of workflow plans and their validation (`fmr/workflow.py`). */
module Plans {
  import opened Ids
  import opened Results
  import opened Graph
  import opened Sorting

  type Sha = string

  datatype Kind = Internal | Model | HumanGate | Assembly

  datatype StepStatus = Ready | Blocked | AwaitingApproval | WaitingOnDependencies

  datatype StepBody = StepBody(
    id: Id, position: int, kind: Kind, capability: string, mandatory: bool,
    dependsOn: seq<Id>, consumes: seq<string>, produces: seq<string>,
    status: StepStatus, blockers: seq<string>, job: Option<Job>)

  datatype Step = Step(body: StepBody, sha: Sha)

  datatype PlanStatus = PlanBlocked | PlanReadyWithGates | PlanReady

  /** A workflow request: its input references, and everything the model does not inspect. */
  datatype Request = Request(references: set<string>, details: string)

  /** The model job of a step: what its route and its engine run are computed from. */
  datatype Job = Job(request: Request, workflowId: string, stepId: Id, capability: string)

  datatype PlanBody = PlanBody(
    workflowId: string, requestSha: Sha, request: Request, blueprintId: string, blueprintVersion: string,
    status: PlanStatus, steps: seq<Step>, missing: seq<string>)

  datatype Plan = Plan(body: PlanBody, sha: Sha)

  /** The digest, as one uninterpreted function for each kind of payload. */
  datatype Digests = Digests(
    ofStep: StepBody -> Sha, ofRequest: Request -> Sha, ofPlan: PlanBody -> Sha,
    ofSeed: (Sha, string, string) -> string)

  ghost predicate Injective(h: Digests)
  {
    && (forall a, b | h.ofStep(a) == h.ofStep(b) :: a == b)
    && (forall a, b | h.ofRequest(a) == h.ofRequest(b) :: a == b)
    && (forall a, b | h.ofPlan(a) == h.ofPlan(b) :: a == b)
  }

  // ---------------------------------------------------------------- step lists

  function StepIds(steps: seq<Step>): (ids: seq<Id>)
    ensures |ids| == |steps|
    ensures forall i | 0 <= i < |steps| :: ids[i] == steps[i].body.id
  {
    seq(|steps|, i requires 0 <= i < |steps| => steps[i].body.id)
  }

  /** A declared key with its listed dependencies. */
  type Edges = seq<(Id, seq<Id>)>

  function StepEdges(steps: seq<Step>): (e: Edges)
    ensures |e| == |steps|
    ensures forall i | 0 <= i < |steps| :: e[i] == (steps[i].body.id, steps[i].body.dependsOn)
  {
    seq(|steps|, i requires 0 <= i < |steps| => (steps[i].body.id, steps[i].body.dependsOn))
  }

  ghost predicate DistinctKeys(e: Edges)
  {
    forall i, j | 0 <= i < j < |e| :: e[i].0 != e[j].0
  }

  /** `dict` assignment in list order: a repeated key keeps its last dependencies. */
  function Dependencies(e: Edges): Graph
  {
    if e == [] then map[]
    else
      var (id, dependsOn) := e[|e| - 1];
      Dependencies(e[..|e| - 1])[id := set d | d in dependsOn]
  }

  lemma {:induction false} DependenciesLookup(e: Edges)
    ensures forall k :: k in Dependencies(e) <==> exists i :: 0 <= i < |e| && e[i].0 == k
    ensures DistinctKeys(e) ==>
              forall i | 0 <= i < |e| :: e[i].0 in Dependencies(e) && Dependencies(e)[e[i].0] == Elements(e[i].1)
  {
    if e != [] {
      DependenciesLookup(e[..|e| - 1]);
    }
  }

  /** With distinct keys the listing order is immaterial. */
  lemma DependenciesSame(a: Edges, b: Edges)
    requires DistinctKeys(a) && DistinctKeys(b)
    requires forall x :: x in a <==> x in b
    ensures Dependencies(a) == Dependencies(b)
  {
    DependenciesLookup(a);
    DependenciesLookup(b);
    forall k ensures k in Dependencies(a) <==> k in Dependencies(b) {
      if k in Dependencies(a) {
        var i :| 0 <= i < |a| && a[i].0 == k;
        assert a[i] in b;
      }
      if k in Dependencies(b) {
        var i :| 0 <= i < |b| && b[i].0 == k;
        assert b[i] in a;
      }
    }
    forall k | k in Dependencies(a) ensures Dependencies(a)[k] == Dependencies(b)[k] {
      var i :| 0 <= i < |a| && a[i].0 == k;
      assert a[i] in b;
      var j :| 0 <= j < |b| && b[j] == a[i];
    }
  }

  predicate PositionLe(a: Step, b: Step)
  {
    a.body.position <= b.body.position
  }

  /** `sorted(steps, key=position)`. */
  function ByPosition(steps: seq<Step>): (r: seq<Step>)
    ensures |r| == |steps|
  {
    SortBy(steps, PositionLe)
  }

  // ---------------------------------------------------------------- validation

  datatype Issue =
    | RequestHash
    | NoSteps
    | DuplicateStep
    | StepHash(id: Id)
    | NotTopological
    | CyclicSteps
    | PlanHash

  ghost predicate StepHashesMatch(h: Digests, steps: seq<Step>)
  {
    forall i | 0 <= i < |steps| :: steps[i].sha == h.ofStep(steps[i].body)
  }

  /** What an accepted plan promises. */
  ghost predicate ValidPlan(h: Digests, plan: Plan)
  {
    var steps := plan.body.steps;
    && plan.body.requestSha == h.ofRequest(plan.body.request)
    && steps != []
    && Distinct(StepIds(steps))
    && StepHashesMatch(h, steps)
    && IsTopologicalOrder(Dependencies(StepEdges(steps)), StepIds(ByPosition(steps)))
    && plan.sha == h.ofPlan(plan.body)
  }

  lemma DistinctExtend(s: seq<Id>, x: Id)
    ensures Distinct(s + [x]) <==> Distinct(s) && x !in s
  {
    var t := s + [x];
    if Distinct(t) {
      forall i, j | 0 <= i < j < |s| ensures s[i] != s[j] { assert t[i] != t[j]; }
      forall i | 0 <= i < |s| ensures s[i] != x { assert t[i] != t[|s|]; }
    }
  }

  ghost function HashIssues(h: Digests, steps: seq<Step>): set<Issue>
  {
    set i | 0 <= i < |steps| && steps[i].sha != h.ofStep(steps[i].body) :: StepHash(steps[i].body.id)
  }

  ghost function ScanIssues(h: Digests, steps: seq<Step>): set<Issue>
  {
    HashIssues(h, steps) + if Distinct(StepIds(steps)) then {} else {DuplicateStep}
  }

  lemma HashIssuesExtend(h: Digests, steps: seq<Step>, step: Step)
    ensures HashIssues(h, steps + [step]) ==
            HashIssues(h, steps) + if step.sha != h.ofStep(step.body) then {StepHash(step.body.id)} else {}
  {
    var all := steps + [step];
    forall x | x in HashIssues(h, steps) ensures x in HashIssues(h, all) {
      var i :| 0 <= i < |steps| && steps[i].sha != h.ofStep(steps[i].body) && x == StepHash(steps[i].body.id);
      assert all[i] == steps[i];
    }
    assert all[|steps|] == step;
  }

  lemma ScanStep(h: Digests, steps: seq<Step>, step: Step)
    ensures StepIds(steps + [step]) == StepIds(steps) + [step.body.id]
    ensures Elements(StepIds(steps + [step])) == Elements(StepIds(steps)) + {step.body.id}
    ensures Dependencies(StepEdges(steps + [step])) ==
            Dependencies(StepEdges(steps))[step.body.id := Elements(step.body.dependsOn)]
    ensures ScanIssues(h, steps + [step]) ==
            ScanIssues(h, steps)
            + (if step.body.id in Elements(StepIds(steps)) then {DuplicateStep} else {})
            + (if step.sha != h.ofStep(step.body) then {StepHash(step.body.id)} else {})
  {
    hide HashIssues, Distinct;
    assert StepIds(steps + [step]) == StepIds(steps) + [step.body.id];
    assert StepEdges(steps + [step]) == StepEdges(steps) + [(step.body.id, step.body.dependsOn)];
    assert StepEdges(steps + [step])[..|steps|] == StepEdges(steps);
    HashIssuesExtend(h, steps, step);
    DistinctExtend(StepIds(steps), step.body.id);
  }

  lemma NothingScanned(h: Digests)
    ensures Dependencies(StepEdges([])) == map[] && ScanIssues(h, []) == {}
  {
  }

  /** The loop over the steps: identifiers seen, dependencies and step hashes. */
  method ScanSteps(h: Digests, steps: seq<Step>) returns (issues: set<Issue>, dependencies: Graph)
    ensures dependencies == Dependencies(StepEdges(steps))
    ensures issues == ScanIssues(h, steps)
  {
    hide Dependencies, HashIssues, ScanIssues, Distinct;
    issues, dependencies := {}, map[];
    NothingScanned(h);
    var ids: set<Id> := {};
    for n := 0 to |steps|
      invariant ids == Elements(StepIds(steps[..n]))
      invariant dependencies == Dependencies(StepEdges(steps[..n]))
      invariant issues == ScanIssues(h, steps[..n])
    {
      var step := steps[n];
      assert steps[..n + 1] == steps[..n] + [step];
      ScanStep(h, steps[..n], step);
      if step.body.id in ids {
        issues := issues + {DuplicateStep};
      }
      ids := ids + {step.body.id};
      dependencies := dependencies[step.body.id := set d | d in step.body.dependsOn];
      if step.sha != h.ofStep(step.body) {
        issues := issues + {StepHash(step.body.id)};
      }
    }
    assert steps[..|steps|] == steps;
  }

  lemma ScanClean(h: Digests, steps: seq<Step>)
    ensures ScanIssues(h, steps) == {} <==> Distinct(StepIds(steps)) && StepHashesMatch(h, steps)
  {
    if Distinct(StepIds(steps)) && StepHashesMatch(h, steps) {
      assert HashIssues(h, steps) == {};
    } else if !Distinct(StepIds(steps)) {
      assert DuplicateStep in ScanIssues(h, steps);
    } else {
      var i :| 0 <= i < |steps| && steps[i].sha != h.ofStep(steps[i].body);
      assert StepHash(steps[i].body.id) in ScanIssues(h, steps);
    }
  }

  /** What the steps of a plan say about its order. */
  ghost function OrderIssues(steps: seq<Step>): set<Issue>
  {
    var g := Dependencies(StepEdges(steps));
    if exists k | k in g :: Unresolvable(g, k) then {CyclicSteps}
    else if IsTopologicalOrder(g, StepIds(ByPosition(steps))) then {}
    else {NotTopological}
  }

  /** Everything validation reports. */
  ghost function PlanIssues(h: Digests, plan: Plan): set<Issue>
  {
    (if plan.body.requestSha != h.ofRequest(plan.body.request) then {RequestHash} else {})
    + if plan.body.steps == [] then {NoSteps}
      else
        ScanIssues(h, plan.body.steps) + OrderIssues(plan.body.steps)
        + if plan.sha != h.ofPlan(plan.body) then {PlanHash} else {}
  }

  /** Nothing is reported exactly about the plans that keep every promise. */
  lemma NoIssuesIff(h: Digests, plan: Plan)
    ensures PlanIssues(h, plan) == {} <==> ValidPlan(h, plan)
  {
    var steps := plan.body.steps;
    var g := Dependencies(StepEdges(steps));
    ScanClean(h, steps);
    if IsTopologicalOrder(g, StepIds(ByPosition(steps))) {
      TopologicalOrderSound(g, StepIds(ByPosition(steps)));
    }
    hide ScanIssues, IsTopologicalOrder, StepHashesMatch, Distinct, ByPosition;
    assert OrderIssues(steps) == {} <==> IsTopologicalOrder(g, StepIds(ByPosition(steps)));
  }

  method ValidatePlan(h: Digests, plan: Plan) returns (issues: set<Issue>)
    ensures issues == PlanIssues(h, plan)
    ensures issues == {} <==> ValidPlan(h, plan)
  {
    hide ValidPlan, ScanIssues;
    NoIssuesIff(h, plan);
    issues := {};
    var body := plan.body;
    if body.requestSha != h.ofRequest(body.request) {
      issues := issues + {RequestHash};
    }
    if body.steps == [] {
      return issues + {NoSteps};
    }
    var found, dependencies := ScanSteps(h, body.steps);
    issues := issues + found;
    var order := TopologicalOrder(dependencies);
    var positions := StepIds(ByPosition(body.steps));
    match order {
      case Ok(o) =>
        if IsTopologicalOrder(dependencies, positions) { TopologicalOrderUnique(dependencies, o, positions); }
        if positions != o { issues := issues + {NotTopological}; }
      case Err(_) =>
        issues := issues + {CyclicSteps};
    }
    if plan.sha != h.ofPlan(body) {
      issues := issues + {PlanHash};
    }
  }

  /** Re-hashing the plan does not hide a step whose body was edited under its old hash. */
  lemma EditedStepIsRejected(h: Digests, plan: Plan, i: nat, body: StepBody, sha: Sha)
    requires Injective(h) && ValidPlan(h, plan)
    requires i < |plan.body.steps| && body != plan.body.steps[i].body
    ensures !ValidPlan(h, Plan(plan.body.(steps := plan.body.steps[i := plan.body.steps[i].(body := body)]), sha))
  {
    var edited := plan.body.steps[i := plan.body.steps[i].(body := body)];
    assert edited[i].sha == h.ofStep(plan.body.steps[i].body) && edited[i].body == body;
  }

  // ---------------------------------------------------------------- compilation

  datatype BlueprintStep = BlueprintStep(
    id: Id, kind: Kind, capability: string, mandatory: bool,
    dependsOn: seq<Id>, consumes: seq<string>, produces: seq<string>)

  datatype Blueprint = Blueprint(id: string, version: string, steps: seq<BlueprintStep>)

  datatype RouteStatus = Selected | NoRoute | UnsupportedFamily | AmbiguousFamily

  datatype Route = Route(status: RouteStatus, missing: seq<string>)

  datatype CompileError =
    EmptyBlueprint | DuplicateSteps | DuplicateDependency | SelfDependency | UnknownDependency | CyclicBlueprint

  const SOURCE_VALIDATION := "source_validation"

  function BlueprintIds(steps: seq<BlueprintStep>): (ids: seq<Id>)
    ensures |ids| == |steps|
    ensures forall i | 0 <= i < |steps| :: ids[i] == steps[i].id
  {
    seq(|steps|, i requires 0 <= i < |steps| => steps[i].id)
  }

  function BlueprintEdges(steps: seq<BlueprintStep>): (e: Edges)
    ensures |e| == |steps|
    ensures forall i | 0 <= i < |steps| :: e[i] == (steps[i].id, steps[i].dependsOn)
  {
    seq(|steps|, i requires 0 <= i < |steps| => (steps[i].id, steps[i].dependsOn))
  }

  function BlueprintGraph(steps: seq<BlueprintStep>): Graph
  {
    Dependencies(BlueprintEdges(steps))
  }

  /** What a blueprint must satisfy: every key resolvable covers self, unknown and cyclic dependencies. */
  ghost predicate ValidBlueprint(b: Blueprint)
  {
    && b.steps != []
    && Distinct(BlueprintIds(b.steps))
    && (forall i | 0 <= i < |b.steps| :: Distinct(b.steps[i].dependsOn))
    && (forall k | k in BlueprintGraph(b.steps) :: !Unresolvable(BlueprintGraph(b.steps), k))
  }

  /** The fault that an error names. */
  ghost predicate Faulty(b: Blueprint, error: CompileError)
  {
    var steps := b.steps;
    match error
    case EmptyBlueprint => steps == []
    case DuplicateSteps => exists i, j | 0 <= i < j < |steps| :: steps[i].id == steps[j].id
    case DuplicateDependency => exists i | 0 <= i < |steps| :: !Distinct(steps[i].dependsOn)
    case SelfDependency => exists i | 0 <= i < |steps| :: steps[i].id in steps[i].dependsOn
    case UnknownDependency => exists i, d | 0 <= i < |steps| :: d in steps[i].dependsOn && d !in BlueprintIds(steps)
    case CyclicBlueprint =>
      && (forall i, j | 0 <= i < j < |steps| :: steps[i].id != steps[j].id)
      && KnownDependencies(b)
      && exists k | k in BlueprintGraph(steps) :: Unresolvable(BlueprintGraph(steps), k)
  }

  /** The loop over the steps: identifiers and listed dependencies must not repeat. */
  method CheckIdentifiers(b: Blueprint) returns (fault: Option<CompileError>)
    ensures fault.None? <==>
            && b.steps != [] && Distinct(BlueprintIds(b.steps))
            && forall i | 0 <= i < |b.steps| :: Distinct(b.steps[i].dependsOn)
    ensures fault.Some? ==> Faulty(b, fault.value)
  {
    var steps := b.steps;
    ghost var ids := BlueprintIds(steps);
    if steps == [] {
      return Some(EmptyBlueprint);
    }
    var seen: set<Id> := {};
    for n := 0 to |steps|
      invariant forall id :: id in seen <==> exists i | 0 <= i < n :: steps[i].id == id
      invariant forall i, j | 0 <= i < j < n :: steps[i].id != steps[j].id
      invariant forall i | 0 <= i < n :: Distinct(steps[i].dependsOn)
    {
      if steps[n].id in seen {
        assert exists i | 0 <= i < n :: ids[i] == ids[n];
        return Some(DuplicateSteps);
      }
      seen := seen + {steps[n].id};
      if !Distinct(steps[n].dependsOn) {
        return Some(DuplicateDependency);
      }
    }
    fault := None;
  }

  /** Every dependency must be another step of the blueprint. */
  ghost predicate KnownDependencies(b: Blueprint)
  {
    && (forall i | 0 <= i < |b.steps| :: b.steps[i].id !in b.steps[i].dependsOn)
    && forall i, d | 0 <= i < |b.steps| && d in b.steps[i].dependsOn :: d in BlueprintIds(b.steps)
  }

  method CheckDependencies(b: Blueprint) returns (fault: Option<CompileError>)
    requires Distinct(BlueprintIds(b.steps))
    ensures fault.None? <==> KnownDependencies(b)
    ensures fault.Some? ==> Faulty(b, fault.value)
    ensures fault.Some? ==>
              exists k | k in BlueprintGraph(b.steps) :: Unresolvable(BlueprintGraph(b.steps), k)
  {
    hide BlueprintGraph, Unresolvable, Distinct;
    var steps := b.steps;
    var ids := BlueprintIds(steps);
    for n := 0 to |steps|
      invariant forall i | 0 <= i < n :: steps[i].id !in steps[i].dependsOn
      invariant forall i, d | 0 <= i < n && d in steps[i].dependsOn :: d in ids
    {
      if steps[n].id in steps[n].dependsOn {
        BadEdge(b, n, steps[n].id);
        return Some(SelfDependency);
      }
      if exists d | d in steps[n].dependsOn :: d !in ids {
        var d :| d in steps[n].dependsOn && d !in ids;
        BadEdge(b, n, d);
        return Some(UnknownDependency);
      }
    }
    fault := None;
  }

  lemma CyclicIsFaulty(b: Blueprint)
    requires Distinct(BlueprintIds(b.steps)) && KnownDependencies(b)
    requires exists k | k in BlueprintGraph(b.steps) :: Unresolvable(BlueprintGraph(b.steps), k)
    ensures Faulty(b, CyclicBlueprint)
  {
    hide BlueprintGraph, Unresolvable, KnownDependencies;
    forall i, j | 0 <= i < j < |b.steps| ensures b.steps[i].id != b.steps[j].id {
      assert BlueprintIds(b.steps)[i] != BlueprintIds(b.steps)[j];
    }
  }

  /** Checks a blueprint and returns the order in which its steps are compiled. */
  method ValidateBlueprint(b: Blueprint) returns (r: Result<seq<Id>, CompileError>)
    ensures r.Ok? <==> ValidBlueprint(b)
    ensures r.Ok? ==> IsTopologicalOrder(BlueprintGraph(b.steps), r.value)
    ensures r.Err? ==> Faulty(b, r.error)
  {
    hide BlueprintGraph, Unresolvable, IsTopologicalOrder, Distinct, Faulty, KnownDependencies;
    var fault := CheckIdentifiers(b);
    if fault.Some? {
      return Err(fault.value);
    }
    fault := CheckDependencies(b);
    if fault.Some? {
      return Err(fault.value);
    }
    var order := TopologicalOrder(BlueprintGraph(b.steps));
    if order.Err? {
      CyclicIsFaulty(b);
      return Err(CyclicBlueprint);
    }
    r := Ok(order.value);
  }

  lemma BadEdge(b: Blueprint, n: nat, d: Id)
    requires n < |b.steps| && Distinct(BlueprintIds(b.steps))
    requires d in b.steps[n].dependsOn && (d == b.steps[n].id || d !in BlueprintIds(b.steps))
    ensures b.steps[n].id in BlueprintGraph(b.steps) && Unresolvable(BlueprintGraph(b.steps), b.steps[n].id)
  {
    var g := BlueprintGraph(b.steps);
    var edges := BlueprintEdges(b.steps);
    DependenciesLookup(edges);
    BlueprintKeys(b.steps);
    hide Dependencies, Unresolvable;
    forall i, j | 0 <= i < j < |edges| ensures edges[i].0 != edges[j].0 {
      assert BlueprintIds(b.steps)[i] != BlueprintIds(b.steps)[j];
    }
    assert edges[n].0 == b.steps[n].id;
    EdgeUnresolvable(g, b.steps[n].id, d);
  }

  lemma EdgeUnresolvable(g: Graph, k: Id, d: Id)
    requires k in g && d in g[k]
    requires d == k || d !in g
    ensures Unresolvable(g, k)
  {
    var p := [k, d];
    assert PathFrom(g, k, p);
    assert d == k ==> p[0] == p[1];
  }

  /** Everything a compilation is given, and the workflow id it derives. */
  datatype Compilation = Compilation(h: Digests, req: Request, b: Blueprint, route: Job -> Route)
  {
    function RequestSha(): Sha { h.ofRequest(req) }

    function WorkflowId(): string { h.ofSeed(RequestSha(), b.id, b.version) }

    function JobFor(step: BlueprintStep): Job { Job(req, WorkflowId(), step.id, step.capability) }

    /** The blockers a route decision puts on a model step. */
    function RouteBlockers(decision: Route): (blockers: set<string>)
      ensures decision.status == Selected <==> blockers == {}
    {
      if decision.status == Selected then {}
      else
        var found := set m | m in decision.missing;
        match decision.status
        case UnsupportedFamily => found + {"route_status:unsupported_family"}
        case AmbiguousFamily => found + {"route_status:ambiguous_family"}
        case _ => if found == {} then {"no_executable_provider"} else found
    }

    function StepBlockers(step: BlueprintStep): set<string>
    {
      match step.kind
      case Internal =>
        if step.capability == SOURCE_VALIDATION && req.references == {} then {"missing_input_reference"} else {}
      case Model => RouteBlockers(route(JobFor(step)))
      case _ => {}
    }

    function Body(step: BlueprintStep, position: nat): StepBody
    {
      var blockers := StepBlockers(step);
      var status :=
        if blockers != {} then Blocked
        else match step.kind
          case HumanGate => AwaitingApproval
          case Assembly => WaitingOnDependencies
          case _ => Ready;
      StepBody(step.id, position, step.kind, step.capability, step.mandatory, step.dependsOn, step.consumes,
               step.produces, status, Sorted(blockers), if step.kind == Model then Some(JobFor(step)) else None)
    }

    /** `compiled` is step `position` of the plan, made from the blueprint step of that name. */
    ghost predicate Compiles(compiled: Step, position: nat, id: Id)
    {
      exists step | step in b.steps ::
        step.id == id && compiled.body == Body(step, position) && compiled.sha == h.ofStep(compiled.body)
    }

    ghost predicate CompiledSteps(order: seq<Id>, steps: seq<Step>)
    {
      && |steps| <= |order|
      && forall i | 0 <= i < |steps| :: Compiles(steps[i], i, order[i])
    }
  }

  /** The blockers of the mandatory steps. */
  ghost function MandatoryBlockers(steps: seq<Step>): set<string>
  {
    set i, x | 0 <= i < |steps| && steps[i].body.mandatory && x in steps[i].body.blockers :: x
  }

  ghost predicate MandatoryBlocked(steps: seq<Step>)
  {
    exists i :: 0 <= i < |steps| && steps[i].body.mandatory && steps[i].body.status == Blocked
  }

  lemma MandatoryBlockersExtend(steps: seq<Step>, step: Step)
    ensures MandatoryBlockers(steps + [step]) ==
            MandatoryBlockers(steps) + if step.body.mandatory then Elements(step.body.blockers) else {}
  {
    var all := steps + [step];
    assert all[|steps|] == step;
    forall x | x in MandatoryBlockers(steps) ensures x in MandatoryBlockers(all) {
      var i :| 0 <= i < |steps| && steps[i].body.mandatory && x in steps[i].body.blockers;
      assert all[i] == steps[i];
    }
  }

  lemma CompiledIds(c: Compilation, order: seq<Id>, steps: seq<Step>)
    requires c.CompiledSteps(order, steps) && |steps| == |order|
    ensures StepIds(steps) == order
    ensures StepHashesMatch(c.h, steps)
    ensures forall i | 0 <= i < |steps| :: steps[i].body.position == i
  {
    forall i | 0 <= i < |steps|
      ensures StepIds(steps)[i] == order[i] && steps[i].body.position == i && steps[i].sha == c.h.ofStep(steps[i].body)
    {
      assert c.Compiles(steps[i], i, order[i]);
    }
  }

  lemma BlueprintStepUnique(b: Blueprint, x: BlueprintStep, y: BlueprintStep)
    requires Distinct(BlueprintIds(b.steps)) && x in b.steps && y in b.steps && x.id == y.id
    ensures x == y
  {
    var i :| 0 <= i < |b.steps| && b.steps[i] == x;
    var j :| 0 <= j < |b.steps| && b.steps[j] == y;
    assert BlueprintIds(b.steps)[i] == BlueprintIds(b.steps)[j];
  }

  lemma CompiledEdges(c: Compilation, order: seq<Id>, steps: seq<Step>)
    requires ValidBlueprint(c.b) && Elements(order) == Elements(BlueprintIds(c.b.steps))
    requires c.CompiledSteps(order, steps) && |steps| == |order|
    ensures forall x :: x in StepEdges(steps) <==> x in BlueprintEdges(c.b.steps)
  {
    var compiled, source := StepEdges(steps), BlueprintEdges(c.b.steps);
    forall i | 0 <= i < |steps| ensures compiled[i] in source {
      assert c.Compiles(steps[i], i, order[i]);
      var step :| step in c.b.steps && step.id == order[i] && steps[i].body == c.Body(step, i);
      var j :| 0 <= j < |c.b.steps| && c.b.steps[j] == step;
      assert source[j] == compiled[i];
    }
    forall j | 0 <= j < |source| ensures source[j] in compiled {
      assert BlueprintIds(c.b.steps)[j] in Elements(order);
      var i :| 0 <= i < |order| && order[i] == source[j].0;
      assert c.Compiles(steps[i], i, order[i]);
      var step :| step in c.b.steps && step.id == order[i] && steps[i].body == c.Body(step, i);
      BlueprintStepUnique(c.b, step, c.b.steps[j]);
      assert compiled[i] == source[j];
    }
  }

  /** The compiled steps have the dependencies of the blueprint, whatever order it lists them in. */
  lemma CompiledGraph(c: Compilation, order: seq<Id>, steps: seq<Step>)
    requires ValidBlueprint(c.b) && IsTopologicalOrder(BlueprintGraph(c.b.steps), order)
    requires c.CompiledSteps(order, steps) && |steps| == |order|
    ensures Dependencies(StepEdges(steps)) == BlueprintGraph(c.b.steps)
  {
    var compiled, source := StepEdges(steps), BlueprintEdges(c.b.steps);
    CompiledIds(c, order, steps);
    TopologicalOrderSound(BlueprintGraph(c.b.steps), order);
    BlueprintKeys(c.b.steps);
    CompiledEdges(c, order, steps);
    assert DistinctKeys(source) by {
      forall i, j | 0 <= i < j < |source| ensures source[i].0 != source[j].0 {
        assert BlueprintIds(c.b.steps)[i] != BlueprintIds(c.b.steps)[j];
      }
    }
    assert DistinctKeys(compiled) by {
      forall i, j | 0 <= i < j < |compiled| ensures compiled[i].0 != compiled[j].0 {
        assert order[i] != order[j] && StepIds(steps)[i] == order[i] && StepIds(steps)[j] == order[j];
      }
    }
    DependenciesSame(compiled, source);
  }

  lemma BlueprintKeys(steps: seq<BlueprintStep>)
    ensures BlueprintGraph(steps).Keys == Elements(BlueprintIds(steps))
  {
    DependenciesLookup(BlueprintEdges(steps));
    forall k ensures k in BlueprintGraph(steps) <==> k in Elements(BlueprintIds(steps)) {
      if k in BlueprintIds(steps) {
        var i :| 0 <= i < |steps| && BlueprintIds(steps)[i] == k;
        assert BlueprintEdges(steps)[i].0 == k;
      }
      if k in BlueprintGraph(steps) {
        var i :| 0 <= i < |steps| && BlueprintEdges(steps)[i].0 == k;
        assert BlueprintIds(steps)[i] == k;
      }
    }
  }

  /** A compiled step is blocked exactly when it lists a blocker. */
  lemma BlockedIffBlockers(c: Compilation, order: seq<Id>, steps: seq<Step>)
    requires c.CompiledSteps(order, steps)
    ensures MandatoryBlocked(steps) <==> MandatoryBlockers(steps) != {}
  {
    forall i | 0 <= i < |steps| ensures steps[i].body.status == Blocked <==> steps[i].body.blockers != [] {
      assert c.Compiles(steps[i], i, order[i]);
      var step :| step in c.b.steps && steps[i].body == c.Body(step, i);
      BodyFields(c, step, i);
    }
    hide Compilation.Body, Compilation.StepBlockers, Compilation.CompiledSteps;
    if MandatoryBlocked(steps) {
      var i :| 0 <= i < |steps| && steps[i].body.mandatory && steps[i].body.status == Blocked;
      assert steps[i].body.blockers[0] in MandatoryBlockers(steps);
    }
  }

  lemma CompileExtend(c: Compilation, order: seq<Id>, steps: seq<Step>, step: BlueprintStep, compiled: Step)
    requires |steps| < |order| && c.CompiledSteps(order, steps)
    requires step in c.b.steps && step.id == order[|steps|]
    requires compiled.body == c.Body(step, |steps|) && compiled.sha == c.h.ofStep(compiled.body)
    ensures c.CompiledSteps(order, steps + [compiled])
  {
    hide Compilation.Body;
    assert c.Compiles(compiled, |steps|, order[|steps|]);
    hide Compilation.Compiles;
  }

  lemma BodyFields(c: Compilation, step: BlueprintStep, position: nat)
    ensures var body := c.Body(step, position);
            && body.mandatory == step.mandatory
            && Elements(body.blockers) == c.StepBlockers(step)
            && (body.status == Blocked <==> body.blockers != [])
  {
    hide Compilation.StepBlockers;
  }

  /** `by_id[id]`. */
  function StepNamed(steps: seq<BlueprintStep>, id: Id): (step: BlueprintStep)
    requires id in BlueprintIds(steps)
    ensures step in steps && step.id == id
  {
    var at := BlueprintIds(steps);
    if at[|at| - 1] == id then steps[|steps| - 1]
    else
      assert BlueprintIds(steps[..|steps| - 1]) == at[..|at| - 1];
      StepNamed(steps[..|steps| - 1], id)
  }

  lemma NothingCompiled(c: Compilation, order: seq<Id>)
    ensures c.CompiledSteps(order, []) && MandatoryBlockers([]) == {}
  {
  }

  /** The loop over the order: one compiled step a position, and the blockers of the mandatory ones. */
  method CompileSteps(c: Compilation, order: seq<Id>) returns (steps: seq<Step>, blockers: set<string>)
    requires forall i | 0 <= i < |order| :: order[i] in BlueprintIds(c.b.steps)
    ensures |steps| == |order| && c.CompiledSteps(order, steps)
    ensures blockers == MandatoryBlockers(steps)
  {
    hide Compilation.Body, Compilation.StepBlockers, Compilation.CompiledSteps, MandatoryBlockers;
    steps, blockers := [], {};
    assert c.CompiledSteps(order, []) && MandatoryBlockers([]) == {} by { NothingCompiled(c, order); }
    for position := 0 to |order|
      invariant |steps| == position
      invariant c.CompiledSteps(order, steps)
      invariant blockers == MandatoryBlockers(steps)
    {
      var step := StepNamed(c.b.steps, order[position]);
      var body := c.Body(step, position);
      var compiled := Step(body, c.h.ofStep(body));
      CompileExtend(c, order, steps, step, compiled);
      BodyFields(c, step, position);
      MandatoryBlockersExtend(steps, compiled);
      steps := steps + [compiled];
      if step.mandatory {
        blockers := blockers + c.StepBlockers(step);
      }
    }
  }

  /** What compilation promises of the plan body it builds. */
  ghost predicate CompiledBody(c: Compilation, body: PlanBody)
  {
    var steps, ids := body.steps, StepIds(body.steps);
    && IsTopologicalOrder(BlueprintGraph(c.b.steps), ids)
    && c.CompiledSteps(ids, steps)
    && Ascending(body.missing)
    && Elements(body.missing) == MandatoryBlockers(steps)
    && (body.status == PlanBlocked <==> body.missing != [])
    && (body.status == PlanBlocked <==> MandatoryBlocked(steps))
    && (body.status == PlanReadyWithGates <==> !MandatoryBlocked(steps) && HasGate(steps))
  }

  predicate HasGate(steps: seq<Step>)
  {
    exists i | 0 <= i < |steps| :: steps[i].body.kind == HumanGate
  }

  lemma CompiledBodyHolds(c: Compilation, order: seq<Id>, body: PlanBody)
    requires IsTopologicalOrder(BlueprintGraph(c.b.steps), order) && StepIds(body.steps) == order
    requires c.CompiledSteps(order, body.steps)
    requires body.missing == Sorted(MandatoryBlockers(body.steps))
    requires body.status == PlanBlocked <==>
             exists i | 0 <= i < |body.steps| :: body.steps[i].body.mandatory && body.steps[i].body.status == Blocked
    requires body.status == PlanReadyWithGates <==> body.status != PlanBlocked && HasGate(body.steps)
    ensures CompiledBody(c, body)
  {
    hide IsTopologicalOrder, Compilation.CompiledSteps, MandatoryBlockers;
    BlockedIffBlockers(c, order, body.steps);
  }

  lemma CompiledPlanValid(c: Compilation, order: seq<Id>, body: PlanBody)
    requires ValidBlueprint(c.b) && IsTopologicalOrder(BlueprintGraph(c.b.steps), order)
    requires |body.steps| == |order| && c.CompiledSteps(order, body.steps)
    requires body.request == c.req && body.requestSha == c.RequestSha()
    ensures StepIds(body.steps) == order
    ensures ValidPlan(c.h, Plan(body, c.h.ofPlan(body)))
  {
    TopologicalOrderSound(BlueprintGraph(c.b.steps), order);
    BlueprintKeys(c.b.steps);
    assert BlueprintIds(c.b.steps)[0] in Elements(order);
    CompiledIds(c, order, body.steps);
    CompiledGraph(c, order, body.steps);
    SortByFixed(body.steps, PositionLe);
  }

  /** Compiles a selected blueprint; what it returns, validation accepts. */
  method CompileSelected(c: Compilation) returns (r: Result<Plan, CompileError>)
    ensures r.Ok? <==> ValidBlueprint(c.b)
    ensures r.Err? ==> Faulty(c.b, r.error)
    ensures r.Ok? ==> CompiledBody(c, r.value.body)
    ensures r.Ok? ==> r.value.body.blueprintId == c.b.id && r.value.body.blueprintVersion == c.b.version
    ensures r.Ok? ==> r.value.body.request == c.req && r.value.body.workflowId == c.WorkflowId()
    ensures r.Ok? ==> ValidPlan(c.h, r.value)
  {
    hide ValidBlueprint, ValidPlan, IsTopologicalOrder, BlueprintGraph, Faulty;
    hide Compilation.CompiledSteps, MandatoryBlockers, CompiledBody;
    var valid := ValidateBlueprint(c.b);
    if valid.Err? {
      return Err(valid.error);
    }
    var order := valid.value;
    OrderDeclared(c.b, order);
    var steps, blockers := CompileSteps(c, order);
    var status :=
      if exists i | 0 <= i < |steps| :: steps[i].body.mandatory && steps[i].body.status == Blocked then PlanBlocked
      else if HasGate(steps) then PlanReadyWithGates
      else PlanReady;
    var body := PlanBody(c.WorkflowId(), c.RequestSha(), c.req, c.b.id, c.b.version, status, steps, Sorted(blockers));
    CompiledPlanValid(c, order, body);
    CompiledBodyHolds(c, order, body);
    r := Ok(Plan(body, c.h.ofPlan(body)));
  }

  lemma OrderDeclared(b: Blueprint, order: seq<Id>)
    requires IsTopologicalOrder(BlueprintGraph(b.steps), order)
    ensures forall i | 0 <= i < |order| :: order[i] in BlueprintIds(b.steps)
  {
    BlueprintKeys(b.steps);
    assert forall i | 0 <= i < |order| :: order[i] in Elements(order);
  }

  // ---------------------------------------------------------------- what a compiled plan says

  /** The job of a model step. */
  ghost function JobOf(c: Compilation, step: BlueprintStep): Job
  {
    Job(c.req, c.h.ofSeed(c.h.ofRequest(c.req), c.b.id, c.b.version), step.id, step.capability)
  }

  /** What a blueprint step lacks, from the request and the route of its job alone. */
  ghost predicate Lacks(c: Compilation, step: BlueprintStep, x: string)
  {
    match step.kind
    case Model =>
      var route := c.route(JobOf(c, step));
      && route.status != Selected
      && (|| x in route.missing
          || (route.status == UnsupportedFamily && x == "route_status:unsupported_family")
          || (route.status == AmbiguousFamily && x == "route_status:ambiguous_family")
          || (route.status == NoRoute && route.missing == [] && x == "no_executable_provider"))
    case Internal =>
      step.capability == "source_validation" && c.req.references == {} && x == "missing_input_reference"
    case _ => false
  }

  /** A step that cannot run as things are: an unrouted model step, or a source check without sources. */
  ghost predicate Stuck(c: Compilation, step: BlueprintStep)
  {
    match step.kind
    case Model => c.route(JobOf(c, step)).status != Selected
    case Internal => step.capability == "source_validation" && c.req.references == {}
    case _ => false
  }

  ghost predicate SameFields(step: BlueprintStep, body: StepBody)
  {
    && body.id == step.id && body.kind == step.kind && body.capability == step.capability
    && body.mandatory == step.mandatory && body.dependsOn == step.dependsOn
    && body.consumes == step.consumes && body.produces == step.produces
  }

  /** A compiled step carries its blueprint step, and says whether it is stuck and what it lacks. */
  ghost predicate Carries(c: Compilation, step: BlueprintStep, compiled: Step, position: nat)
  {
    var body := compiled.body;
    && compiled.sha == c.h.ofStep(body) && body.position == position && SameFields(step, body)
    && (body.status == Blocked <==> Stuck(c, step))
    && (body.status == AwaitingApproval <==> step.kind == HumanGate)
    && (body.status == WaitingOnDependencies <==> step.kind == Assembly)
    && Ascending(body.blockers) && (forall x :: x in body.blockers <==> Lacks(c, step, x))
    && body.job == if step.kind == Model then Some(JobOf(c, step)) else None
  }

  lemma BlockersAre(c: Compilation, step: BlueprintStep)
    ensures forall x :: x in c.StepBlockers(step) <==> Lacks(c, step, x)
    ensures c.StepBlockers(step) != {} <==> Stuck(c, step)
  {
    if step.kind == Model {
      var route := c.route(c.JobFor(step));
      if route.missing != [] {
        assert route.missing[0] in c.RouteBlockers(route) || route.status == Selected;
      }
    }
  }

  lemma InSorted(s: set<string>)
    ensures forall x :: x in Sorted(s) <==> x in s
  {
    forall x ensures x in Sorted(s) <==> x in s {
      assert x in Sorted(s) <==> x in Elements(Sorted(s));
    }
  }

  lemma StuckKinds(c: Compilation, step: BlueprintStep)
    ensures Stuck(c, step) ==> step.kind == Model || step.kind == Internal
  {
  }

  lemma BodyCarries(c: Compilation, step: BlueprintStep, compiled: Step, position: nat)
    requires compiled.body == c.Body(step, position) && compiled.sha == c.h.ofStep(compiled.body)
    ensures Carries(c, step, compiled, position)
  {
    hide Lacks, Stuck, Compilation.StepBlockers;
    BlockersAre(c, step);
    StuckKinds(c, step);
    InSorted(c.StepBlockers(step));
    assert c.JobFor(step) == JobOf(c, step);
    hide Compilation.JobFor, JobOf, Ascending;
  }

  lemma CarriedFacts(c: Compilation, step: BlueprintStep, compiled: Step, position: nat)
    requires Carries(c, step, compiled, position)
    ensures compiled.body.id == step.id && compiled.body.kind == step.kind
    ensures compiled.body.mandatory == step.mandatory
    ensures compiled.body.status == Blocked <==> Stuck(c, step)
    ensures forall x :: x in compiled.body.blockers <==> Lacks(c, step, x)
  {
  }

  ghost predicate Carrying(c: Compilation, compiled: Step, position: nat)
  {
    exists step | step in c.b.steps :: Carries(c, step, compiled, position)
  }

  /** The compiled steps carry exactly the blueprint's steps. */
  ghost predicate CarriesAll(c: Compilation, steps: seq<Step>)
  {
    && |steps| == |c.b.steps|
    && (forall i | 0 <= i < |steps| :: Carrying(c, steps[i], i))
    && forall step | step in c.b.steps :: exists i | 0 <= i < |steps| :: Carries(c, step, steps[i], i)
  }

  /**
   * Every blueprint step is compiled once; the plan is blocked exactly when a mandatory one is stuck, and
   * lists exactly what the mandatory ones lack.
   */
  lemma CompiledSays(c: Compilation, body: PlanBody)
    requires ValidBlueprint(c.b) && CompiledBody(c, body)
    ensures CarriesAll(c, body.steps)
    ensures body.status == PlanBlocked <==> exists step | step in c.b.steps :: step.mandatory && Stuck(c, step)
    ensures body.status == PlanReadyWithGates <==>
            body.status != PlanBlocked && exists step | step in c.b.steps :: step.kind == HumanGate
    ensures Ascending(body.missing)
    ensures forall x :: x in body.missing <==> exists step | step in c.b.steps :: step.mandatory && Lacks(c, step, x)
  {
    hide ValidBlueprint, Compilation.CompiledSteps, Stuck, Lacks, Ascending, IsTopologicalOrder, CarriesAll;
    hide MandatoryBlocked, MandatoryBlockers, HasGate;
    CompiledCarriesAll(c, body);
    BlockedSays(c, body.steps);
    GatesSay(c, body.steps);
    MissingSays(c, body.steps);
    forall x ensures x in body.missing <==> x in MandatoryBlockers(body.steps) {
      assert x in body.missing <==> x in Elements(body.missing);
    }
  }

  lemma CarrierOf(c: Compilation, steps: seq<Step>, i: nat) returns (step: BlueprintStep)
    requires CarriesAll(c, steps) && i < |steps|
    ensures step in c.b.steps && Carries(c, step, steps[i], i)
  {
    hide Carries;
    assert Carrying(c, steps[i], i);
    step :| step in c.b.steps && Carries(c, step, steps[i], i);
  }

  lemma CarriedAt(c: Compilation, steps: seq<Step>, step: BlueprintStep) returns (i: nat)
    requires CarriesAll(c, steps) && step in c.b.steps
    ensures i < |steps| && Carries(c, step, steps[i], i)
  {
    hide Carries;
    var k :| 0 <= k < |steps| && Carries(c, step, steps[k], k);
    i := k;
  }

  lemma BlockedSays(c: Compilation, steps: seq<Step>)
    requires CarriesAll(c, steps)
    ensures MandatoryBlocked(steps) <==> exists step | step in c.b.steps :: step.mandatory && Stuck(c, step)
  {
    hide Carries, CarriesAll, Stuck, Lacks;
    if step :| step in c.b.steps && step.mandatory && Stuck(c, step) {
      var i := CarriedAt(c, steps, step);
      CarriedFacts(c, step, steps[i], i);
    }
    if i :| 0 <= i < |steps| && steps[i].body.mandatory && steps[i].body.status == Blocked {
      var step := CarrierOf(c, steps, i);
      CarriedFacts(c, step, steps[i], i);
    }
  }

  lemma GatesSay(c: Compilation, steps: seq<Step>)
    requires CarriesAll(c, steps)
    ensures HasGate(steps) <==> exists step | step in c.b.steps :: step.kind == HumanGate
  {
    hide Carries, CarriesAll, Stuck, Lacks;
    if step :| step in c.b.steps && step.kind == HumanGate {
      var i := CarriedAt(c, steps, step);
      CarriedFacts(c, step, steps[i], i);
    }
    if i :| 0 <= i < |steps| && steps[i].body.kind == HumanGate {
      var step := CarrierOf(c, steps, i);
      CarriedFacts(c, step, steps[i], i);
    }
  }

  lemma MissingSays(c: Compilation, steps: seq<Step>)
    requires CarriesAll(c, steps)
    ensures forall x ::
              x in MandatoryBlockers(steps) <==> exists step | step in c.b.steps :: step.mandatory && Lacks(c, step, x)
  {
    hide Carries, CarriesAll, Stuck, Lacks;
    forall x
      ensures x in MandatoryBlockers(steps) <==> exists step | step in c.b.steps :: step.mandatory && Lacks(c, step, x)
    {
      if step :| step in c.b.steps && step.mandatory && Lacks(c, step, x) {
        var i := CarriedAt(c, steps, step);
        CarriedFacts(c, step, steps[i], i);
      }
      if i :| 0 <= i < |steps| && steps[i].body.mandatory && x in steps[i].body.blockers {
        var step := CarrierOf(c, steps, i);
        CarriedFacts(c, step, steps[i], i);
      }
    }
  }

  lemma CompiledStepsCarry(c: Compilation, ids: seq<Id>, steps: seq<Step>)
    requires c.CompiledSteps(ids, steps)
    ensures forall i | 0 <= i < |steps| :: Carrying(c, steps[i], i)
  {
    hide Carries, Compilation.Body;
    forall i | 0 <= i < |steps| ensures Carrying(c, steps[i], i) {
      assert c.Compiles(steps[i], i, ids[i]);
      var step :| step in c.b.steps && steps[i].body == c.Body(step, i) && steps[i].sha == c.h.ofStep(steps[i].body);
      BodyCarries(c, step, steps[i], i);
    }
  }

  lemma CompiledCarriesAll(c: Compilation, body: PlanBody)
    requires ValidBlueprint(c.b) && CompiledBody(c, body)
    ensures CarriesAll(c, body.steps)
  {
    hide Carries, Compilation.CompiledSteps, MandatoryBlocked, MandatoryBlockers, HasGate;
    var steps, ids, given := body.steps, StepIds(body.steps), BlueprintIds(c.b.steps);
    CompiledStepsCarry(c, ids, steps);
    BlueprintKeys(c.b.steps);
    TopologicalOrderSound(BlueprintGraph(c.b.steps), ids);
    assert Elements(ids) == Elements(given);
    assert Distinct(given);
    hide IsTopologicalOrder, BlueprintGraph;
    SameLength(ids, given);
    forall step | step in c.b.steps ensures exists i | 0 <= i < |steps| :: Carries(c, step, steps[i], i) {
      var k :| 0 <= k < |c.b.steps| && c.b.steps[k] == step;
      assert given[k] in Elements(ids);
      var i :| 0 <= i < |ids| && ids[i] == step.id;
      assert Carrying(c, steps[i], i);
      var other :| other in c.b.steps && Carries(c, other, steps[i], i);
      CarriedFacts(c, other, steps[i], i);
      BlueprintStepUnique(c.b, other, step);
    }
  }

  lemma {:induction false} DistinctSize(s: seq<Id>)
    requires Distinct(s)
    ensures |Elements(s)| == |s|
  {
    if s != [] {
      var front, last := s[..|s| - 1], s[|s| - 1];
      assert s == front + [last];
      DistinctExtend(front, last);
      DistinctSize(front);
      assert Elements(s) == Elements(front) + {last};
      assert last !in Elements(front);
    } else {
      assert Elements(s) == {};
    }
  }

  lemma SameLength(a: seq<Id>, b: seq<Id>)
    requires Distinct(a) && Distinct(b) && Elements(a) == Elements(b)
    ensures |a| == |b|
  {
    DistinctSize(a);
    DistinctSize(b);
  }

  /** Steps are listed by position, and those at one position in the order in which the plan holds them. */
  lemma PositionsSorted(steps: seq<Step>)
    ensures var sorted := ByPosition(steps);
            && (forall i, j | 0 <= i < j < |sorted| :: sorted[i].body.position <= sorted[j].body.position)
            && multiset(sorted) == multiset(steps)
            && forall i, j | 0 <= i < j < |steps| && steps[i].body.position <= steps[j].body.position ::
                 Precedes(sorted, steps[i], steps[j])
  {
    SortByOrdered(steps, PositionLe);
    SortByElements(steps, PositionLe);
    forall i: nat, j: nat | i < j < |steps| && steps[i].body.position <= steps[j].body.position
      ensures Precedes(ByPosition(steps), steps[i], steps[j])
    {
      SortByStable(steps, PositionLe, i, j);
    }
    hide SortBy, Precedes;
  }
}
