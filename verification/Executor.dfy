/** Execution of a validated plan in dependency order (`execute_workflow` in `fmr/workflow.py`). */
module Executor {
  import opened Ids
  import opened Results
  import opened Graph
  import opened Plans
  import opened Sorting

  datatype EngineState = EngineCompleted | EngineFailed | EngineBlocked

  datatype EngineResult = EngineResult(state: EngineState, errors: seq<string>, payload: string)

  datatype Answer = Returned(result: EngineResult) | Raised(error: string)

  datatype State = Completed | Approved | Rejected | Awaiting | Held | Failed

  datatype StepResult = StepResult(
    id: Id, stepSha: Sha, state: State, details: seq<string>, execution: Option<EngineResult>)

  /** A deterministic engine: what a model step gives for the inputs it consumes and its parents' results. */
  type Engine = (Step, map<string, string>, seq<StepResult>) -> Answer

  datatype Run = Run(approvals: map<Id, bool>, engine: Engine, inputs: map<string, string>)

  datatype ExecutionError =
    InvalidPlan(issues: set<Issue>) | MissingParent(id: Id) | EngineRaised(id: Id, error: string)

  type StepResults = map<Id, StepResult>

  predicate Accepted(s: State)
  {
    s == Completed || s == Approved
  }

  function Consumed(inputs: map<string, string>, names: seq<string>): map<string, string>
  {
    map n | n in inputs && n in names :: inputs[n]
  }

  /** `[results[parent] for parent in step["depends_on"]]`; `None` when a lookup fails. */
  function ParentResults(results: StepResults, parents: seq<Id>): (r: Option<seq<StepResult>>)
    ensures r.Some? <==> forall p | p in parents :: p in results
    ensures r.Some? ==> |r.value| == |parents| && forall i | 0 <= i < |parents| :: r.value[i] == results[parents[i]]
  {
    if forall p | p in parents :: p in results then
      Some(seq(|parents|, i requires 0 <= i < |parents| => results[parents[i]]))
    else None
  }

  function GateResult(step: Step, approvals: map<Id, bool>): StepResult
  {
    var id := step.body.id;
    if id !in approvals then StepResult(id, step.sha, Awaiting, ["approval_required"], None)
    else if approvals[id] then StepResult(id, step.sha, Approved, [], None)
    else StepResult(id, step.sha, Rejected, ["approval_rejected"], None)
  }

  function EngineStepResult(step: Step, e: EngineResult): StepResult
  {
    var state := match e.state
      case EngineCompleted => Completed
      case EngineFailed => Failed
      case EngineBlocked => Held;
    StepResult(step.body.id, step.sha, state, e.errors, Some(e))
  }

  /** The body of the loop: the result of one step, given the results so far. */
  function RunStep(step: Step, results: StepResults, run: Run): Result<StepResult, ExecutionError>
  {
    var parents := ParentResults(results, step.body.dependsOn);
    if parents.None? then Err(MissingParent(step.body.id))
    else if exists p | p in parents.value :: !Accepted(p.state) then
      Ok(StepResult(step.body.id, step.sha, Held, ["dependency_not_completed"], None))
    else if step.body.status == Blocked then
      Ok(StepResult(step.body.id, step.sha, Held, step.body.blockers, None))
    else match step.body.kind
      case HumanGate => Ok(GateResult(step, run.approvals))
      case Internal => Ok(StepResult(step.body.id, step.sha, Completed, [], None))
      case Assembly => Ok(StepResult(step.body.id, step.sha, Completed, [], None))
      case Model =>
        match run.engine(step, Consumed(run.inputs, step.body.consumes), parents.value)
        case Returned(e) => Ok(EngineStepResult(step, e))
        case Raised(error) => Err(EngineRaised(step.body.id, error))
  }

  /** The loop, in list order. */
  function RunSteps(steps: seq<Step>, run: Run): Result<StepResults, ExecutionError>
  {
    if steps == [] then Ok(map[])
    else
      var last := steps[|steps| - 1];
      match RunSteps(steps[..|steps| - 1], run)
      case Err(e) => Err(e)
      case Ok(results) =>
        match RunStep(last, results, run)
        case Err(e) => Err(e)
        case Ok(result) => Ok(results[last.body.id := result])
  }

  // ---------------------------------------------------------------- the order makes lookups succeed

  /** Distinct steps listed after everything they depend on. */
  ghost predicate Executable(steps: seq<Step>)
  {
    && Distinct(StepIds(steps))
    && forall i, d | 0 <= i < |steps| && d in steps[i].body.dependsOn :: d in StepIds(steps[..i])
  }

  lemma EdgesInclude(a: seq<Step>, b: seq<Step>)
    requires forall s | s in a :: s in b
    ensures forall x | x in StepEdges(a) :: x in StepEdges(b)
  {
    forall x | x in StepEdges(a) ensures x in StepEdges(b) {
      var i :| 0 <= i < |a| && StepEdges(a)[i] == x;
      assert a[i] in b;
      var j :| 0 <= j < |b| && b[j] == a[i];
      assert StepEdges(b)[j] == x;
    }
  }

  lemma TopologicalIsExecutable(steps: seq<Step>)
    requires IsTopologicalOrder(Dependencies(StepEdges(steps)), StepIds(steps))
    ensures Executable(steps)
  {
    var g, ids := Dependencies(StepEdges(steps)), StepIds(steps);
    TopologicalOrderSound(g, ids);
    DependenciesLookup(StepEdges(steps));
    hide IsTopologicalOrder, Dependencies;
    forall i, d | 0 <= i < |steps| && d in steps[i].body.dependsOn ensures d in StepIds(steps[..i]) {
      assert StepEdges(steps)[i].0 == ids[i] && d in g[ids[i]];
      assert StepIds(steps[..i]) == ids[..i];
    }
  }

  /** A validated plan, sorted by position, is executable. */
  lemma ValidPlanExecutable(h: Digests, plan: Plan)
    requires ValidPlan(h, plan)
    ensures Executable(ByPosition(plan.body.steps))
    ensures Dependencies(StepEdges(ByPosition(plan.body.steps))) == Dependencies(StepEdges(plan.body.steps))
  {
    var steps, sorted := plan.body.steps, ByPosition(plan.body.steps);
    TopologicalOrderSound(Dependencies(StepEdges(steps)), StepIds(sorted));
    SortByMembers(steps, PositionLe);
    EdgesInclude(steps, sorted);
    EdgesInclude(sorted, steps);
    DependenciesSame(StepEdges(sorted), StepEdges(steps));
    TopologicalIsExecutable(sorted);
  }

  lemma ExecutablePrefix(steps: seq<Step>, n: nat)
    requires Executable(steps) && n <= |steps|
    ensures Executable(steps[..n])
    ensures n < |steps| ==> steps[n].body.id !in StepIds(steps[..n])
  {
    var front := steps[..n];
    forall i, j | 0 <= i < j < n ensures StepIds(front)[i] != StepIds(front)[j] {
      assert StepIds(steps)[i] != StepIds(steps)[j];
    }
    forall i, d | 0 <= i < n && d in front[i].body.dependsOn ensures d in StepIds(front[..i]) {
      assert front[..i] == steps[..i];
    }
    if n < |steps| {
      forall i | 0 <= i < n ensures StepIds(front)[i] != steps[n].body.id {
        assert StepIds(steps)[i] != StepIds(steps)[n];
      }
    }
  }

  /** The result of a step is the loop body applied to its parents' results. */
  ghost predicate SolvesAt(step: Step, run: Run, results: StepResults)
  {
    && (forall d | d in step.body.dependsOn :: d in results)
    && step.body.id in results
    && RunStep(step, results, run) == Ok(results[step.body.id])
  }

  /** Results of a finished loop: one for every step, each solving its equation. */
  ghost predicate Solves(steps: seq<Step>, run: Run, results: StepResults)
  {
    && results.Keys == Elements(StepIds(steps))
    && forall i | 0 <= i < |steps| :: SolvesAt(steps[i], run, results)
  }

  /** A step's result depends on its parents' results only. */
  lemma RunStepLocal(step: Step, a: StepResults, b: StepResults, run: Run)
    requires forall d | d in step.body.dependsOn :: d in a && d in b && a[d] == b[d]
    ensures RunStep(step, a, run) == RunStep(step, b, run)
  {
    assert ParentResults(a, step.body.dependsOn).value == ParentResults(b, step.body.dependsOn).value;
  }

  lemma ParentsFound(step: Step, results: StepResults, run: Run)
    requires forall d | d in step.body.dependsOn :: d in results
    ensures RunStep(step, results, run).Err? ==> RunStep(step, results, run).error.EngineRaised?
  {
  }

  /** On an executable list no parent lookup fails, and the loop solves the step equations. */
  lemma {:induction false} RunStepsSolve(steps: seq<Step>, run: Run)
    requires Executable(steps)
    ensures RunSteps(steps, run).Err? ==> RunSteps(steps, run).error.EngineRaised?
    ensures RunSteps(steps, run).Ok? ==> Solves(steps, run, RunSteps(steps, run).value)
  {
    if steps != [] {
      var n := |steps| - 1;
      var front, last := steps[..n], steps[n];
      ExecutablePrefix(steps, n);
      RunStepsSolve(front, run);
      hide Executable, SolvesAt;
      if RunSteps(front, run).Ok? {
        var before := RunSteps(front, run).value;
        assert forall d | d in last.body.dependsOn :: d in before by {
          forall d | d in last.body.dependsOn ensures d in before { assert d in Elements(StepIds(front)); }
        }
        ParentsFound(last, before, run);
        hide RunStep;
        if RunSteps(steps, run).Ok? {
          SolvesExtend(steps, run, before, RunSteps(steps, run).value);
        }
      }
    }
  }

  /** The last step of a list: every other result stays what it was. */
  lemma SolvesExtend(steps: seq<Step>, run: Run, before: StepResults, after: StepResults)
    requires Executable(steps) && steps != []
    requires Solves(steps[..|steps| - 1], run, before)
    requires var last := steps[|steps| - 1];
             RunStep(last, before, run).Ok? && after == before[last.body.id := RunStep(last, before, run).value]
    ensures Solves(steps, run, after)
  {
    var n := |steps| - 1;
    var front, last := steps[..n], steps[n];
    ResultsExtend(steps, before, after);
    hide RunStep, SolvesAt;
    forall i | 0 <= i < |steps| ensures SolvesAt(steps[i], run, after) {
      ParentsListed(steps, i, n);
      if i < n {
        assert front[i] == steps[i] && StepIds(front)[i] == steps[i].body.id;
        assert SolvesAt(front[i], run, before);
        SolvesAtLater(steps[i], run, before, after);
      } else {
        SolvesAtLast(last, run, before, after);
      }
    }
  }

  /** What a step depends on is listed before any later cut. */
  lemma ParentsListed(steps: seq<Step>, i: nat, n: nat)
    requires Executable(steps) && i < |steps| && i <= n <= |steps|
    ensures forall d | d in steps[i].body.dependsOn :: d in StepIds(steps[..n])
  {
    forall d | d in steps[i].body.dependsOn ensures d in StepIds(steps[..n]) {
      var j :| 0 <= j < i && StepIds(steps[..i])[j] == d;
      assert StepIds(steps[..n])[j] == d;
    }
  }

  /** Recording the last step adds its identifier and changes no other result. */
  lemma ResultsExtend(steps: seq<Step>, before: StepResults, after: StepResults)
    requires Executable(steps) && steps != [] && before.Keys == Elements(StepIds(steps[..|steps| - 1]))
    requires var id := steps[|steps| - 1].body.id; id in after && after == before[id := after[id]]
    ensures after.Keys == Elements(StepIds(steps))
    ensures forall id | id in StepIds(steps[..|steps| - 1]) :: id in before && after[id] == before[id]
  {
    var n := |steps| - 1;
    var front, last := steps[..n], steps[n];
    assert StepIds(steps) == StepIds(front) + [last.body.id];
    forall id | id in StepIds(front) ensures id in before && id != last.body.id {
      assert id in Elements(StepIds(front));
      var i :| 0 <= i < n && StepIds(front)[i] == id;
      assert StepIds(steps)[i] == id;
    }
  }

  lemma SolvesAtLast(last: Step, run: Run, before: StepResults, after: StepResults)
    requires forall d | d in last.body.dependsOn :: d in before && d in after && after[d] == before[d]
    requires RunStep(last, before, run).Ok? && last.body.id in after
    requires after[last.body.id] == RunStep(last, before, run).value
    ensures SolvesAt(last, run, after)
  {
    RunStepLocal(last, before, after, run);
  }

  lemma SolvesAtLater(step: Step, run: Run, before: StepResults, after: StepResults)
    requires SolvesAt(step, run, before)
    requires forall d | d in step.body.dependsOn :: d in after && after[d] == before[d]
    requires step.body.id in after && after[step.body.id] == before[step.body.id]
    ensures SolvesAt(step, run, after)
  {
    RunStepLocal(step, before, after, run);
  }
}
