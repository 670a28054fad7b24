/** Whole executions: the executor's loop, what reaches the engine, reruns and approvals. */
module Execution {
  import opened Ids
  import opened Results
  import opened Graph
  import opened Plans
  import opened Sorting
  import opened Rerun
  import opened Executor

  datatype Overall = AllCompleted | AnyFailed | AnyHeld | AnyAwaiting

  datatype Outcome = Outcome(state: Overall, results: seq<StepResult>)

  /** Some mandatory step ended in one of the given states. */
  predicate MandatoryIn(steps: seq<Step>, results: StepResults, states: set<State>)
    requires forall i | 0 <= i < |steps| :: steps[i].body.id in results
  {
    exists i | 0 <= i < |steps| :: steps[i].body.mandatory && results[steps[i].body.id].state in states
  }

  function OverallState(steps: seq<Step>, results: StepResults): Overall
    requires forall i | 0 <= i < |steps| :: steps[i].body.id in results
  {
    if MandatoryIn(steps, results, {Failed, Rejected}) then AnyFailed
    else if MandatoryIn(steps, results, {Held}) then AnyHeld
    else if MandatoryIn(steps, results, {Awaiting}) then AnyAwaiting
    else AllCompleted
  }

  lemma ListedInResults(steps: seq<Step>, results: StepResults)
    requires results.Keys == Elements(StepIds(steps))
    ensures forall i | 0 <= i < |steps| :: steps[i].body.id in results
  {
    forall i | 0 <= i < |steps| ensures steps[i].body.id in results {
      assert StepIds(steps)[i] in Elements(StepIds(steps));
    }
  }

  /** The report of a finished loop: the overall state and the results in list order. */
  function Summary(steps: seq<Step>, results: StepResults): (out: Outcome)
    requires forall i | 0 <= i < |steps| :: steps[i].body.id in results
    ensures out.state == OverallState(steps, results) && |out.results| == |steps|
    ensures forall i | 0 <= i < |steps| :: out.results[i] == results[steps[i].body.id]
  {
    Outcome(OverallState(steps, results),
            seq(|steps|, i requires 0 <= i < |steps| => results[steps[i].body.id]))
  }

  /** What running a validated plan gives: an engine error, or a report on every step. */
  ghost function PlanOutcome(h: Digests, plan: Plan, run: Run): (r: Result<Outcome, ExecutionError>)
    requires ValidPlan(h, plan)
    ensures r.Err? ==> r.error.EngineRaised?
  {
    var sorted := ByPosition(plan.body.steps);
    ValidPlanExecutable(h, plan);
    RunStepsSolve(sorted, run);
    match RunSteps(sorted, run)
    case Err(e) => Err(e)
    case Ok(results) => ListedInResults(sorted, results); Ok(Summary(sorted, results))
  }

  /** The overall state is completed iff every mandatory step is completed or approved. */
  lemma CompletedMeansAccepted(h: Digests, plan: Plan, run: Run)
    requires ValidPlan(h, plan) && PlanOutcome(h, plan, run).Ok?
    ensures var sorted, out := ByPosition(plan.body.steps), PlanOutcome(h, plan, run).value;
            out.state == AllCompleted <==>
            forall i | 0 <= i < |out.results| :: sorted[i].body.mandatory ==> Accepted(out.results[i].state)
  {
    var sorted := ByPosition(plan.body.steps);
    ValidPlanExecutable(h, plan);
    RunStepsSolve(sorted, run);
    var results := RunSteps(sorted, run).value;
    ListedInResults(sorted, results);
    var out := PlanOutcome(h, plan, run).value;
    assert out == Summary(sorted, results);
    CompletedIff(sorted, results);
    assert forall i | 0 <= i < |sorted| :: out.results[i] == results[sorted[i].body.id];
  }

  /** Runs a plan in position order; a plan that validation refuses is refused. */
  method ExecuteWorkflow(h: Digests, plan: Plan, run: Run) returns (r: Result<Outcome, ExecutionError>)
    ensures !ValidPlan(h, plan) ==> r == Err(ExecutionError.InvalidPlan(PlanIssues(h, plan)))
    ensures ValidPlan(h, plan) ==> r == PlanOutcome(h, plan, run)
  {
    hide ValidPlan, PlanIssues, Executable, RunStep, RunSteps, SolvesAt;
    var issues := ValidatePlan(h, plan);
    if issues != {} {
      return Err(ExecutionError.InvalidPlan(issues));
    }
    var sorted := ByPosition(plan.body.steps);
    ValidPlanExecutable(h, plan);
    RunStepsSolve(sorted, run);
    var results: StepResults := map[];
    assert RunSteps(sorted[..0], run) == Ok(results) by { RunNothing(run); }
    for n := 0 to |sorted|
      invariant RunSteps(sorted[..n], run) == Ok(results)
    {
      RunStepsNext(sorted, n, run);
      var result := RunStep(sorted[n], results, run);
      if result.Err? {
        PrefixError(sorted, n + 1, run);
        return Err(result.error);
      }
      results := results[sorted[n].body.id := result.value];
    }
    assert sorted[..|sorted|] == sorted;
    ListedInResults(sorted, results);
    r := Ok(Summary(sorted, results));
  }

  lemma CompletedIff(steps: seq<Step>, results: StepResults)
    requires forall i | 0 <= i < |steps| :: steps[i].body.id in results
    ensures OverallState(steps, results) == AllCompleted <==>
            forall i | 0 <= i < |steps| :: steps[i].body.mandatory ==> Accepted(results[steps[i].body.id].state)
  {
  }

  lemma RunNothing(run: Run)
    ensures RunSteps([], run) == Ok(map[])
  {
  }

  lemma RunStepsNext(steps: seq<Step>, n: nat, run: Run)
    requires n < |steps| && RunSteps(steps[..n], run).Ok?
    ensures var results := RunSteps(steps[..n], run).value;
            RunSteps(steps[..n + 1], run) ==
            match RunStep(steps[n], results, run)
            case Err(e) => Err(e)
            case Ok(result) => Ok(results[steps[n].body.id := result])
  {
    assert steps[..n + 1][..n] == steps[..n];
  }

  lemma {:induction false} PrefixError(steps: seq<Step>, n: nat, run: Run)
    requires n <= |steps| && RunSteps(steps[..n], run).Err?
    ensures RunSteps(steps, run) == RunSteps(steps[..n], run)
  {
    if n < |steps| {
      var front := steps[..|steps| - 1];
      assert front[..n] == steps[..n];
      PrefixError(front, n, run);
    } else {
      assert steps[..n] == steps;
    }
  }

  // ---------------------------------------------------------------- what reaches the engine

  ghost predicate SolvesUpTo(steps: seq<Step>, n: nat, run: Run, results: StepResults)
    requires n <= |steps|
  {
    forall i | 0 <= i < n :: SolvesAt(steps[i], run, results)
  }

  /** The branch of the loop body that calls the engine. */
  ghost predicate ReachesEngine(step: Step, results: StepResults)
  {
    && step.body.kind == Model
    && step.body.status != Blocked
    && forall d | d in step.body.dependsOn :: d in results && Accepted(results[d].state)
  }

  /** `a` is a direct or indirect dependency of `k`. */
  ghost predicate Ancestor(g: Graph, k: Id, a: Id)
  {
    exists p :: PathFrom(g, k, p) && |p| >= 2 && p[|p| - 1] == a
  }

  /** The engine is called only in that branch: elsewhere the answer does not matter. */
  lemma OnlyThenTheEngine(step: Step, results: StepResults, run: Run, other: Engine)
    requires !ReachesEngine(step, results)
    ensures RunStep(step, results, run) == RunStep(step, results, run.(engine := other))
    ensures RunStep(step, results, run).Ok? ==> RunStep(step, results, run).value.execution.None?
  {
    var parents := ParentResults(results, step.body.dependsOn);
    if parents.Some? && step.body.kind == Model && step.body.status != Blocked {
      var d :| d in step.body.dependsOn && !Accepted(results[d].state);
      var i :| 0 <= i < |step.body.dependsOn| && step.body.dependsOn[i] == d;
      assert parents.value[i] in parents.value;
    }
  }

  lemma IndexOfStep(steps: seq<Step>, n: nat, id: Id) returns (i: nat)
    requires n <= |steps| && id in StepIds(steps[..n])
    ensures i < n && steps[i].body.id == id
  {
    i :| 0 <= i < n && StepIds(steps[..n])[i] == id;
  }

  lemma DependsOnIsEdge(steps: seq<Step>, i: nat)
    requires Distinct(StepIds(steps)) && i < |steps|
    ensures steps[i].body.id in Dependencies(StepEdges(steps))
    ensures Dependencies(StepEdges(steps))[steps[i].body.id] == Elements(steps[i].body.dependsOn)
  {
    DependenciesLookup(StepEdges(steps));
    assert StepEdges(steps)[i].0 == steps[i].body.id;
  }

  /** An accepted step has accepted parents. */
  lemma AcceptedParents(step: Step, run: Run, results: StepResults)
    requires SolvesAt(step, run, results) && Accepted(results[step.body.id].state)
    ensures forall d | d in step.body.dependsOn :: d in results && Accepted(results[d].state)
  {
    var parents := ParentResults(results, step.body.dependsOn).value;
    forall d | d in step.body.dependsOn ensures Accepted(results[d].state) {
      var i :| 0 <= i < |step.body.dependsOn| && step.body.dependsOn[i] == d;
      assert parents[i] in parents;
    }
  }

  lemma {:induction false} AcceptedAlongPath(steps: seq<Step>, i: nat, run: Run, results: StepResults, p: seq<Id>)
    requires Executable(steps) && i < |steps| && SolvesUpTo(steps, i + 1, run, results)
    requires Accepted(results[steps[i].body.id].state)
    requires PathFrom(Dependencies(StepEdges(steps)), steps[i].body.id, p)
    ensures p[|p| - 1] in results && Accepted(results[p[|p| - 1]].state)
    decreases |p|
  {
    if |p| > 1 {
      AcceptedParents(steps[i], run, results);
      hide RunStep, SolvesAt;
      DependsOnIsEdge(steps, i);
      assert p[1] in steps[i].body.dependsOn;
      var j := IndexOfStep(steps, i, p[1]);
      AcceptedAlongPath(steps, j, run, results, p[1..]);
    }
  }

  /** A model step is handed to the engine only once every ancestor is completed or approved. */
  lemma EngineAfterAncestors(steps: seq<Step>, n: nat, run: Run, results: StepResults, a: Id)
    requires Executable(steps) && n < |steps| && SolvesUpTo(steps, n, run, results)
    requires ReachesEngine(steps[n], results)
    requires Ancestor(Dependencies(StepEdges(steps)), steps[n].body.id, a)
    ensures a in results && Accepted(results[a].state)
  {
    hide RunStep, SolvesAt;
    var g := Dependencies(StepEdges(steps));
    var p :| PathFrom(g, steps[n].body.id, p) && |p| >= 2 && p[|p| - 1] == a;
    DependsOnIsEdge(steps, n);
    assert p[1] in steps[n].body.dependsOn;
    var j := IndexOfStep(steps, n, p[1]);
    AcceptedAlongPath(steps, j, run, results, p[1..]);
  }

  // ---------------------------------------------------------------- reruns

  /** Two runs that differ in nothing but the values of the changed inputs. */
  ghost predicate DifferOnlyIn(a: Run, b: Run, changed: set<string>)
  {
    && a.approvals == b.approvals
    && a.engine == b.engine
    && (forall n | n !in changed :: n in a.inputs <==> n in b.inputs)
    && (forall n | n !in changed && n in a.inputs :: a.inputs[n] == b.inputs[n])
  }

  lemma UntouchedStep(step: Step, a: Run, b: Run, changed: set<string>, results: StepResults)
    requires DifferOnlyIn(a, b, changed) && forall n | n in step.body.consumes :: n !in changed
    ensures RunStep(step, results, a) == RunStep(step, results, b)
  {
    assert Consumed(a.inputs, step.body.consumes) == Consumed(b.inputs, step.body.consumes);
  }

  /** A reusable step consumes no changed input, and all its parents are reusable. */
  lemma ReusableStep(steps: seq<Step>, i: nat, changed: set<string>)
    requires Executable(steps) && i < |steps| && steps[i].body.id !in Invalidated(steps, changed)
    ensures forall n | n in steps[i].body.consumes :: n !in changed
    ensures forall d | d in steps[i].body.dependsOn :: d !in Invalidated(steps, changed)
  {
    var g := Dependencies(StepEdges(steps));
    ConsumersDeclared(steps, changed);
    ReachingClosed(g, Consumers(steps, changed));
    forall n | n in steps[i].body.consumes ensures n !in changed {
      assert steps[i].body.id !in Consumers(steps, changed);
    }
    DependsOnIsEdge(steps, i);
    assert g[steps[i].body.id] * Invalidated(steps, changed) == {};
    forall d | d in steps[i].body.dependsOn ensures d !in Invalidated(steps, changed) {
      assert d !in g[steps[i].body.id] * Invalidated(steps, changed);
    }
  }

  /** Two executions that differ only in changed inputs agree on every reusable step. */
  lemma {:induction false} NonInterference(
    steps: seq<Step>, n: nat, a: Run, b: Run, changed: set<string>, ra: StepResults, rb: StepResults, i: nat)
    requires Executable(steps) && i < n <= |steps|
    requires SolvesUpTo(steps, n, a, ra) && SolvesUpTo(steps, n, b, rb)
    requires DifferOnlyIn(a, b, changed)
    requires steps[i].body.id !in Invalidated(steps, changed)
    ensures ra[steps[i].body.id] == rb[steps[i].body.id]
    decreases i
  {
    assert SolvesAt(steps[i], a, ra) && SolvesAt(steps[i], b, rb);
    ReusableStep(steps, i, changed);
    forall d | d in steps[i].body.dependsOn ensures ra[d] == rb[d] {
      var j := IndexOfStep(steps, i, d);
      NonInterference(steps, n, a, b, changed, ra, rb, j);
    }
    RunStepLocal(steps[i], ra, rb, a);
    UntouchedStep(steps[i], a, b, changed, rb);
  }

  /** The loop that recomputes the invalidated steps and copies the others from an earlier run. */
  function RerunSteps(steps: seq<Step>, run: Run, cached: StepResults, invalidated: set<Id>)
    : Result<StepResults, ExecutionError>
  {
    if steps == [] then Ok(map[])
    else
      var last := steps[|steps| - 1];
      match RerunSteps(steps[..|steps| - 1], run, cached, invalidated)
      case Err(e) => Err(e)
      case Ok(results) =>
        if last.body.id !in invalidated && last.body.id in cached then
          Ok(results[last.body.id := cached[last.body.id]])
        else
          match RunStep(last, results, run)
          case Err(e) => Err(e)
          case Ok(result) => Ok(results[last.body.id := result])
  }

  /** Whatever an earlier run left for a step that is not invalidated is copied as it is. */
  lemma {:induction false} ReusedAreCopied(
    steps: seq<Step>, run: Run, cached: StepResults, invalidated: set<Id>, i: nat)
    requires Distinct(StepIds(steps)) && i < |steps|
    requires steps[i].body.id !in invalidated && steps[i].body.id in cached
    requires RerunSteps(steps, run, cached, invalidated).Ok?
    ensures var results := RerunSteps(steps, run, cached, invalidated).value;
            steps[i].body.id in results && results[steps[i].body.id] == cached[steps[i].body.id]
  {
    hide RunStep;
    var n := |steps| - 1;
    if i < n {
      var front := steps[..n];
      assert StepIds(steps)[i] != StepIds(steps)[n];
      assert StepIds(front) == StepIds(steps)[..n];
      ReusedAreCopied(front, run, cached, invalidated, i);
    }
  }

  lemma RerunNothing(run: Run, cached: StepResults, invalidated: set<Id>)
    ensures RerunSteps([], run, cached, invalidated) == RunSteps([], run)
  {
  }

  lemma RerunStepsNext(front: seq<Step>, last: Step, run: Run, cached: StepResults, invalidated: set<Id>)
    requires RerunSteps(front, run, cached, invalidated) == RunSteps(front, run)
    requires RunSteps(front, run).Ok? && last.body.id !in invalidated && last.body.id in cached ==>
             RunStep(last, RunSteps(front, run).value, run) == Ok(cached[last.body.id])
    ensures RerunSteps(front + [last], run, cached, invalidated) == RunSteps(front + [last], run)
  {
    hide RunStep;
    assert (front + [last])[..|front|] == front;
  }

  /**
   * Recomputing only the invalidated steps, on top of any earlier run, gives what running
   * everything gives, engine errors included.
   */
  lemma {:induction false} RerunIsFullRun(
    steps: seq<Step>, n: nat, a: Run, b: Run, changed: set<string>, cached: StepResults)
    requires Executable(steps) && n <= |steps|
    requires Solves(steps, a, cached) && DifferOnlyIn(a, b, changed)
    ensures RerunSteps(steps[..n], b, cached, Invalidated(steps, changed)) == RunSteps(steps[..n], b)
  {
    hide Executable, Solves, DifferOnlyIn, RunStep, Invalidated, RunSteps, RerunSteps;
    if n == 0 {
      assert steps[..n] == [];
      RerunNothing(b, cached, Invalidated(steps, changed));
    } else {
      var front, last := steps[..n - 1], steps[n - 1];
      RerunIsFullRun(steps, n - 1, a, b, changed, cached);
      if RunSteps(front, b).Ok? && last.body.id !in Invalidated(steps, changed) {
        ReusedResult(steps, n - 1, a, b, changed, cached, RunSteps(front, b).value);
      }
      RerunStepsNext(front, last, b, cached, Invalidated(steps, changed));
      assert steps[..n] == front + [last];
    }
  }

  lemma ReusedResult(
    steps: seq<Step>, n: nat, a: Run, b: Run, changed: set<string>, cached: StepResults, results: StepResults)
    requires Executable(steps) && n < |steps|
    requires Solves(steps, a, cached) && DifferOnlyIn(a, b, changed)
    requires RunSteps(steps[..n], b) == Ok(results)
    requires steps[n].body.id !in Invalidated(steps, changed)
    ensures steps[n].body.id in cached && RunStep(steps[n], results, b) == Ok(cached[steps[n].body.id])
  {
    var last := steps[n];
    PrefixSolves(steps, n, b);
    assert SolvesUpTo(steps, n, a, cached);
    ReusableStep(steps, n, changed);
    assert SolvesAt(last, a, cached);
    forall d | d in last.body.dependsOn ensures d in results && cached[d] == results[d] {
      var j := IndexOfStep(steps, n, d);
      assert SolvesAt(steps[j], b, results);
      NonInterference(steps, n, a, b, changed, cached, results, j);
    }
    RunStepLocal(last, cached, results, b);
    UntouchedStep(last, a, b, changed, cached);
  }

  // ---------------------------------------------------------------- approvals

  /** `b` has every approval that `a` has. */
  ghost predicate KeepsApprovals(a: map<Id, bool>, b: map<Id, bool>)
  {
    forall id | id in a && a[id] :: id in b && b[id]
  }

  /** Adding approvals never changes the result of a step that was already completed or approved. */
  lemma {:induction false} ApprovalsAreMonotone(
    steps: seq<Step>, n: nat, a: Run, b: Run, ra: StepResults, rb: StepResults, i: nat)
    requires Executable(steps) && i < n <= |steps|
    requires SolvesUpTo(steps, n, a, ra) && SolvesUpTo(steps, n, b, rb)
    requires a.engine == b.engine && a.inputs == b.inputs && KeepsApprovals(a.approvals, b.approvals)
    requires steps[i].body.id in ra && Accepted(ra[steps[i].body.id].state)
    ensures steps[i].body.id in rb && rb[steps[i].body.id] == ra[steps[i].body.id]
    decreases i
  {
    assert SolvesAt(steps[i], a, ra) && SolvesAt(steps[i], b, rb);
    AcceptedParents(steps[i], a, ra);
    forall d | d in steps[i].body.dependsOn ensures ra[d] == rb[d] {
      var j := IndexOfStep(steps, i, d);
      ApprovalsAreMonotone(steps, n, a, b, ra, rb, j);
    }
    RunStepLocal(steps[i], ra, rb, a);
    AcceptedKept(steps[i], a, b, rb);
  }

  /** Results of a loop that has run the first `n` steps solve their equations. */
  lemma PrefixSolves(steps: seq<Step>, n: nat, run: Run)
    requires Executable(steps) && n <= |steps| && RunSteps(steps[..n], run).Ok?
    ensures SolvesUpTo(steps, n, run, RunSteps(steps[..n], run).value)
  {
    var results := RunSteps(steps[..n], run).value;
    ExecutablePrefix(steps, n);
    RunStepsSolve(steps[..n], run);
    hide SolvesAt, Executable;
    forall i | 0 <= i < n ensures SolvesAt(steps[i], run, results) {
      assert SolvesAt(steps[..n][i], run, results);
    }
  }

  /** With more approvals an accepted step finishes again. */
  lemma AcceptedFinishes(
    steps: seq<Step>, n: nat, a: Run, b: Run, ra: StepResults, rb: StepResults)
    requires Executable(steps) && n < |steps|
    requires SolvesUpTo(steps, n + 1, a, ra) && SolvesUpTo(steps, n, b, rb)
    requires a.engine == b.engine && a.inputs == b.inputs && KeepsApprovals(a.approvals, b.approvals)
    requires Accepted(ra[steps[n].body.id].state)
    ensures RunStep(steps[n], rb, b).Ok?
  {
    assert SolvesAt(steps[n], a, ra);
    AcceptedParents(steps[n], a, ra);
    forall d | d in steps[n].body.dependsOn ensures d in rb && ra[d] == rb[d] {
      var j := IndexOfStep(steps, n, d);
      ApprovalsAreMonotone(steps, n, a, b, ra, rb, j);
    }
    hide Executable;
    RunStepLocal(steps[n], ra, rb, a);
    AcceptedKept(steps[n], a, b, rb);
  }

  lemma AcceptedKept(step: Step, a: Run, b: Run, results: StepResults)
    requires a.engine == b.engine && a.inputs == b.inputs && KeepsApprovals(a.approvals, b.approvals)
    requires RunStep(step, results, a).Ok? && Accepted(RunStep(step, results, a).value.state)
    ensures RunStep(step, results, b) == RunStep(step, results, a)
  {
  }

  // ---------------------------------------------------------------- what this says of a plan

  /** A finished plan's report lists, by position, results that solve the step equations. */
  lemma OutcomeSolves(h: Digests, plan: Plan, run: Run) returns (results: StepResults)
    requires ValidPlan(h, plan) && PlanOutcome(h, plan, run).Ok?
    ensures var sorted, out := ByPosition(plan.body.steps), PlanOutcome(h, plan, run).value;
            && Executable(sorted) && Solves(sorted, run, results)
            && |out.results| == |sorted|
            && forall i | 0 <= i < |sorted| ::
                 sorted[i].body.id in results && out.results[i] == results[sorted[i].body.id]
  {
    var sorted := ByPosition(plan.body.steps);
    ValidPlanExecutable(h, plan);
    RunStepsSolve(sorted, run);
    results := RunSteps(sorted, run).value;
    ListedInResults(sorted, results);
  }

  /**
   * Two executions of a valid plan that differ only in changed inputs report the same for
   * every step that the rerun plan calls reusable.
   */
  lemma PlanNonInterference(h: Digests, plan: Plan, a: Run, b: Run, changed: set<string>, i: nat)
    requires ValidPlan(h, plan) && DifferOnlyIn(a, b, changed)
    requires PlanOutcome(h, plan, a).Ok? && PlanOutcome(h, plan, b).Ok?
    requires var sorted := ByPosition(plan.body.steps);
             i < |sorted| && sorted[i].body.id !in Invalidated(plan.body.steps, changed)
    ensures var x, y := PlanOutcome(h, plan, a).value, PlanOutcome(h, plan, b).value;
            i < |x.results| && i < |y.results| && x.results[i] == y.results[i]
  {
    hide RunStep, Executable, SolvesAt, ValidPlan, PlanOutcome;
    var sorted := ByPosition(plan.body.steps);
    ValidPlanExecutable(h, plan);
    InvalidatedByPosition(plan.body.steps, changed);
    var ra := OutcomeSolves(h, plan, a);
    var rb := OutcomeSolves(h, plan, b);
    NonInterference(sorted, |sorted|, a, b, changed, ra, rb, i);
  }

  lemma {:induction false} FirstError(steps: seq<Step>, run: Run) returns (n: nat)
    requires RunSteps(steps, run).Err?
    ensures n < |steps| && RunSteps(steps[..n], run).Ok?
    ensures var last := RunStep(steps[n], RunSteps(steps[..n], run).value, run);
            last.Err? && last.error == RunSteps(steps, run).error
  {
    hide RunStep;
    n := |steps| - 1;
    if RunSteps(steps[..n], run).Err? {
      var front := steps[..n];
      n := FirstError(front, run);
      assert front[..n] == steps[..n];
    }
  }

  /** After a change of inputs the engine can raise only in a step that the rerun plan invalidates. */
  lemma PlanRaisesWhereInvalidated(h: Digests, plan: Plan, a: Run, b: Run, changed: set<string>)
    requires ValidPlan(h, plan) && DifferOnlyIn(a, b, changed)
    requires PlanOutcome(h, plan, a).Ok? && PlanOutcome(h, plan, b).Err?
    ensures PlanOutcome(h, plan, b).error.id in Invalidated(plan.body.steps, changed)
  {
    hide RunStep, Executable, SolvesAt, ValidPlan;
    var sorted := ByPosition(plan.body.steps);
    ValidPlanExecutable(h, plan);
    InvalidatedByPosition(plan.body.steps, changed);
    var ra := OutcomeSolves(h, plan, a);
    RunStepsSolve(sorted, b);
    var n := FirstError(sorted, b);
    var results := RunSteps(sorted[..n], b).value;
    RaisingReachesEngine(sorted[n], results, b);
    if sorted[n].body.id !in Invalidated(sorted, changed) {
      ReusedResult(sorted, n, a, b, changed, ra, results);
    }
  }

  /** A step that carries an engine's answer has all its ancestors in the report, completed or approved. */
  lemma PlanEngineAfterAncestors(h: Digests, plan: Plan, run: Run, i: nat, a: Id) returns (j: nat)
    requires ValidPlan(h, plan) && PlanOutcome(h, plan, run).Ok?
    requires var out := PlanOutcome(h, plan, run).value; i < |out.results| && out.results[i].execution.Some?
    requires Ancestor(Dependencies(StepEdges(plan.body.steps)), ByPosition(plan.body.steps)[i].body.id, a)
    ensures var sorted, out := ByPosition(plan.body.steps), PlanOutcome(h, plan, run).value;
            && j < |sorted| && j < |out.results| && sorted[j].body.id == a
            && Accepted(out.results[j].state)
  {
    hide RunStep, Executable, ValidPlan, PlanOutcome;
    var sorted := ByPosition(plan.body.steps);
    ValidPlanExecutable(h, plan);
    var results := OutcomeSolves(h, plan, run);
    assert SolvesAt(sorted[i], run, results);
    if !ReachesEngine(sorted[i], results) {
      OnlyThenTheEngine(sorted[i], results, run, run.engine);
    }
    EngineAfterAncestors(sorted, i, run, results, a);
    assert sorted[..|sorted|] == sorted;
    j := IndexOfStep(sorted, |sorted|, a);
  }

  /** Between two executions of a valid plan, what was completed or approved survives added approvals. */
  lemma PlanApprovalsAreMonotone(h: Digests, plan: Plan, a: Run, b: Run, i: nat)
    requires ValidPlan(h, plan)
    requires PlanOutcome(h, plan, a).Ok? && PlanOutcome(h, plan, b).Ok?
    requires a.engine == b.engine && a.inputs == b.inputs && KeepsApprovals(a.approvals, b.approvals)
    requires var out := PlanOutcome(h, plan, a).value; i < |out.results| && Accepted(out.results[i].state)
    ensures var x, y := PlanOutcome(h, plan, a).value, PlanOutcome(h, plan, b).value;
            i < |y.results| && y.results[i] == x.results[i]
  {
    hide RunStep, Executable, SolvesAt, ValidPlan, PlanOutcome;
    var sorted := ByPosition(plan.body.steps);
    var ra := OutcomeSolves(h, plan, a);
    var rb := OutcomeSolves(h, plan, b);
    ApprovalsAreMonotone(sorted, |sorted|, a, b, ra, rb, i);
  }

  /** The engine was asked about a step with the inputs it names and its parents' results, and raised. */
  ghost predicate Raises(step: Step, results: StepResults, run: Run, error: string)
  {
    exists consumed, parents: seq<StepResult> ::
      && IsConsumed(run.inputs, step.body.consumes, consumed)
      && |parents| == |step.body.dependsOn|
      && (forall k | 0 <= k < |parents| ::
            step.body.dependsOn[k] in results && parents[k] == results[step.body.dependsOn[k]])
      && run.engine(step, consumed, parents) == Raised(error)
  }

  lemma RaisingReachesEngine(step: Step, results: StepResults, run: Run)
    requires RunStep(step, results, run).Err? && RunStep(step, results, run).error.EngineRaised?
    ensures ReachesEngine(step, results) && RunStep(step, results, run).error.id == step.body.id
    ensures Raises(step, results, run, RunStep(step, results, run).error.error)
  {
    ConsumedIs(run.inputs, step.body.consumes);
    hide IsConsumed, Consumed;
    var parents := ParentResults(results, step.body.dependsOn).value;
    forall d | d in step.body.dependsOn ensures Accepted(results[d].state) {
      var i :| 0 <= i < |step.body.dependsOn| && step.body.dependsOn[i] == d;
      assert parents[i] in parents;
    }
  }

  /** A step whose engine raises stops the run after all its ancestors were completed or approved. */
  lemma PlanRaisesAfterAncestors(h: Digests, plan: Plan, run: Run) returns (n: nat, results: StepResults)
    requires ValidPlan(h, plan) && PlanOutcome(h, plan, run).Err?
    ensures var sorted := ByPosition(plan.body.steps);
            && n < |sorted| && PlanOutcome(h, plan, run).error.id == sorted[n].body.id
            && RunSteps(sorted[..n], run) == Ok(results) && ReachesEngine(sorted[n], results)
            && Raises(sorted[n], results, run, PlanOutcome(h, plan, run).error.error)
            && forall a | Ancestor(Dependencies(StepEdges(plan.body.steps)), sorted[n].body.id, a) ::
                 a in results && Accepted(results[a].state)
  {
    hide RunStep, Executable, SolvesAt, ValidPlan, Raises;
    var sorted := ByPosition(plan.body.steps);
    var g := Dependencies(StepEdges(sorted));
    ValidPlanExecutable(h, plan);
    RunStepsSolve(sorted, run);
    n := FirstError(sorted, run);
    results := RunSteps(sorted[..n], run).value;
    RaisingReachesEngine(sorted[n], results, run);
    PrefixSolves(sorted, n, run);
    hide RunSteps, PlanOutcome, ReachesEngine, Ancestor;
    forall a | Ancestor(g, sorted[n].body.id, a) ensures a in results && Accepted(results[a].state) {
      EngineAfterAncestors(sorted, n, run, results, a);
    }
  }

  /** If adding approvals lets the engine raise, it raises in a step that was not accepted before. */
  lemma PlanApprovalsRaiseLater(h: Digests, plan: Plan, a: Run, b: Run) returns (n: nat)
    requires ValidPlan(h, plan)
    requires PlanOutcome(h, plan, a).Ok? && PlanOutcome(h, plan, b).Err?
    requires a.engine == b.engine && a.inputs == b.inputs && KeepsApprovals(a.approvals, b.approvals)
    ensures var sorted, out := ByPosition(plan.body.steps), PlanOutcome(h, plan, a).value;
            && n < |sorted| && n < |out.results|
            && PlanOutcome(h, plan, b).error.id == sorted[n].body.id && !Accepted(out.results[n].state)
  {
    hide RunStep, Executable, SolvesAt, ValidPlan;
    var sorted := ByPosition(plan.body.steps);
    ValidPlanExecutable(h, plan);
    var ra := OutcomeSolves(h, plan, a);
    RunStepsSolve(sorted, b);
    n := FirstError(sorted, b);
    var rb := RunSteps(sorted[..n], b).value;
    RaisingReachesEngine(sorted[n], rb, b);
    PrefixSolves(sorted, n, b);
    if Accepted(ra[sorted[n].body.id].state) {
      AcceptedFinishes(sorted, n, a, b, ra, rb);
    }
  }

  // ---------------------------------------------------------------- verdicts

  /** Every step that step `i` depends on is reported completed or approved. */
  ghost predicate ParentsAccepted(sorted: seq<Step>, results: seq<StepResult>, i: nat)
    requires i < |sorted| == |results|
  {
    forall j | 0 <= j < |sorted| && sorted[j].body.id in sorted[i].body.dependsOn ::
      results[j].state in {Completed, Approved}
  }

  /** The inputs that a step names, as far as they are given. */
  ghost predicate IsConsumed(inputs: map<string, string>, names: seq<string>, consumed: map<string, string>)
  {
    && (forall n :: n in consumed <==> n in inputs && n in names)
    && forall n | n in consumed :: consumed[n] == inputs[n]
  }

  /** The reported results of the steps that step `i` depends on, in the order in which it names them. */
  ghost predicate AreParents(sorted: seq<Step>, results: seq<StepResult>, i: nat, parents: seq<StepResult>)
    requires i < |sorted| == |results|
  {
    && |parents| == |sorted[i].body.dependsOn|
    && forall k | 0 <= k < |parents| ::
         exists j | 0 <= j < |sorted| :: sorted[j].body.id == sorted[i].body.dependsOn[k] && results[j] == parents[k]
  }

  /** The engine was asked about step `i` with the inputs it names and its parents' results, and answered `e`. */
  ghost predicate Answered(sorted: seq<Step>, results: seq<StepResult>, i: nat, run: Run, e: EngineResult)
    requires i < |sorted| == |results|
  {
    exists consumed, parents ::
      && IsConsumed(run.inputs, sorted[i].body.consumes, consumed) && AreParents(sorted, results, i, parents)
      && run.engine(sorted[i], consumed, parents) == Returned(e)
  }

  /** What a step that may proceed is reported as. */
  ghost predicate ProceedsAs(sorted: seq<Step>, results: seq<StepResult>, i: nat, run: Run)
    requires i < |sorted| == |results|
  {
    var step, r := sorted[i].body, results[i];
    match step.kind
    case HumanGate =>
      && r.execution.None?
      && (step.id in run.approvals && run.approvals[step.id] ==> r.state == Approved && r.details == [])
      && (step.id in run.approvals && !run.approvals[step.id] ==>
            r.state == Rejected && r.details == ["approval_rejected"])
      && (step.id !in run.approvals ==> r.state == Awaiting && r.details == ["approval_required"])
    case Model =>
      && r.execution.Some?
      && var e := r.execution.value;
         && Answered(sorted, results, i, run, e) && r.details == e.errors
         && (r.state == Completed <==> e.state == EngineCompleted)
         && (r.state == Failed <==> e.state == EngineFailed)
         && (r.state == Held <==> e.state == EngineBlocked)
    case _ => r.execution.None? && r.state == Completed && r.details == []
  }

  /** The report on a step, told from the plan, the decisions, the engine's answers and the rest of the report. */
  ghost predicate IsVerdict(sorted: seq<Step>, results: seq<StepResult>, i: nat, run: Run)
    requires i < |sorted| == |results|
  {
    var step, r := sorted[i], results[i];
    && r.id == step.body.id && r.stepSha == step.sha
    && if !ParentsAccepted(sorted, results, i) then
         r.state == Held && r.details == ["dependency_not_completed"] && r.execution.None?
       else if step.body.status == Blocked then
         r.state == Held && r.details == step.body.blockers && r.execution.None?
       else ProceedsAs(sorted, results, i, run)
  }

  lemma ReportedParents(steps: seq<Step>, results: StepResults, reported: seq<StepResult>, i: nat)
    requires Distinct(StepIds(steps)) && i < |steps| == |reported|
    requires results.Keys == Elements(StepIds(steps))
    requires forall j | 0 <= j < |steps| :: steps[j].body.id in results && reported[j] == results[steps[j].body.id]
    requires forall d | d in steps[i].body.dependsOn :: d in results
    ensures ParentsAccepted(steps, reported, i) <==>
            forall d | d in steps[i].body.dependsOn :: results[d].state == Completed || results[d].state == Approved
    ensures AreParents(steps, reported, i, ParentResults(results, steps[i].body.dependsOn).value)
  {
    var parents := steps[i].body.dependsOn;
    forall d | d in parents ensures exists j | 0 <= j < |steps| :: steps[j].body.id == d && reported[j] == results[d] {
      assert d in Elements(StepIds(steps));
      var j :| 0 <= j < |steps| && StepIds(steps)[j] == d;
    }
  }

  lemma ConsumedIs(inputs: map<string, string>, names: seq<string>)
    ensures IsConsumed(inputs, names, Consumed(inputs, names))
  {
  }

  lemma HeldByParent(step: Step, results: StepResults, run: Run, d: Id)
    requires RunStep(step, results, run).Ok? && d in step.body.dependsOn && d in results
    requires results[d].state != Completed && results[d].state != Approved
    ensures RunStep(step, results, run) ==
            Ok(StepResult(step.body.id, step.sha, Held, ["dependency_not_completed"], None))
  {
    var parents := ParentResults(results, step.body.dependsOn).value;
    var k :| 0 <= k < |parents| && step.body.dependsOn[k] == d;
    assert parents[k] in parents;
  }

  lemma HeldByBlockers(step: Step, results: StepResults, run: Run)
    requires RunStep(step, results, run).Ok? && step.body.status == Blocked
    requires forall d | d in step.body.dependsOn :: d in results && results[d].state in {Completed, Approved}
    ensures RunStep(step, results, run) ==
            Ok(StepResult(step.body.id, step.sha, Held, step.body.blockers, None))
  {
  }

  lemma StepProceeds(sorted: seq<Step>, results: StepResults, reported: seq<StepResult>, i: nat, run: Run)
    requires i < |sorted| == |reported| && sorted[i].body.status != Blocked
    requires RunStep(sorted[i], results, run) == Ok(reported[i])
    requires forall d | d in sorted[i].body.dependsOn :: d in results && results[d].state in {Completed, Approved}
    requires AreParents(sorted, reported, i, ParentResults(results, sorted[i].body.dependsOn).value)
    ensures reported[i].id == sorted[i].body.id && reported[i].stepSha == sorted[i].sha
    ensures ProceedsAs(sorted, reported, i, run)
  {
    ConsumedIs(run.inputs, sorted[i].body.consumes);
    hide AreParents, IsConsumed, Consumed;
    var parents := ParentResults(results, sorted[i].body.dependsOn).value;
    assert forall p | p in parents :: Accepted(p.state);
    if sorted[i].body.kind == Model {
      assert Answered(sorted, reported, i, run, reported[i].execution.value);
    }
    hide Answered;
  }

  lemma StepVerdict(steps: seq<Step>, results: StepResults, reported: seq<StepResult>, i: nat, run: Run)
    requires Distinct(StepIds(steps)) && i < |steps| == |reported|
    requires Solves(steps, run, results)
    requires forall j | 0 <= j < |steps| :: steps[j].body.id in results && reported[j] == results[steps[j].body.id]
    ensures IsVerdict(steps, reported, i, run)
  {
    hide ParentsAccepted, AreParents, ProceedsAs, RunStep, Distinct;
    assert SolvesAt(steps[i], run, results);
    ReportedParents(steps, results, reported, i);
    hide Solves, SolvesAt;
    assert reported[i] == results[steps[i].body.id];
    if d :| d in steps[i].body.dependsOn && results[d].state != Completed && results[d].state != Approved {
      HeldByParent(steps[i], results, run, d);
    } else if steps[i].body.status == Blocked {
      HeldByBlockers(steps[i], results, run);
    } else {
      StepProceeds(steps, results, reported, i, run);
    }
  }

  /**
   * What a finished execution reports for each step of a valid plan: a gate is approved, rejected or
   * waiting as it was decided, a model step ends as its engine answered, and whatever has a parent that
   * is not accepted is held.
   */
  lemma PlanVerdicts(h: Digests, plan: Plan, run: Run, i: nat)
    requires ValidPlan(h, plan) && PlanOutcome(h, plan, run).Ok? && i < |plan.body.steps|
    ensures var sorted, out := ByPosition(plan.body.steps), PlanOutcome(h, plan, run).value;
            |out.results| == |sorted| && IsVerdict(sorted, out.results, i, run)
  {
    var sorted := ByPosition(plan.body.steps);
    var results := OutcomeSolves(h, plan, run);
    hide PlanOutcome, ValidPlan, Solves, IsVerdict;
    StepVerdict(sorted, results, PlanOutcome(h, plan, run).value.results, i, run);
  }

  /** Only a gate waits for a decision or is rejected, and only a model step fails. */
  lemma OnlyGatesWait(sorted: seq<Step>, results: seq<StepResult>, i: nat, run: Run)
    requires i < |sorted| == |results| && IsVerdict(sorted, results, i, run)
    ensures results[i].state in {Approved, Awaiting, Rejected} ==> sorted[i].body.kind == HumanGate
    ensures results[i].state == Failed ==> sorted[i].body.kind == Model
    ensures results[i].execution.Some? ==> sorted[i].body.kind == Model
  {
    hide ParentsAccepted, Answered;
  }

  /** Some mandatory step is reported in a state. */
  ghost predicate Reported(sorted: seq<Step>, results: seq<StepResult>, state: State)
    requires |sorted| == |results|
  {
    exists i | 0 <= i < |sorted| :: sorted[i].body.mandatory && results[i].state == state
  }

  lemma MandatoryReported(steps: seq<Step>, results: StepResults, reported: seq<StepResult>, a: State, b: State)
    requires |steps| == |reported|
    requires forall j | 0 <= j < |steps| :: steps[j].body.id in results && reported[j] == results[steps[j].body.id]
    ensures MandatoryIn(steps, results, {a, b}) <==> Reported(steps, reported, a) || Reported(steps, reported, b)
  {
  }

  /** The overall state: failure first, then what is held, then what waits, each of some mandatory step. */
  lemma PlanPriority(h: Digests, plan: Plan, run: Run)
    requires ValidPlan(h, plan) && PlanOutcome(h, plan, run).Ok?
    ensures var sorted, out := ByPosition(plan.body.steps), PlanOutcome(h, plan, run).value;
            && |out.results| == |sorted|
            && var failed := Reported(sorted, out.results, Failed) || Reported(sorted, out.results, Rejected);
               var held, waits := Reported(sorted, out.results, Held), Reported(sorted, out.results, Awaiting);
               && (out.state == AnyFailed <==> failed)
               && (out.state == AnyHeld <==> !failed && held)
               && (out.state == AnyAwaiting <==> !failed && !held && waits)
               && (out.state == AllCompleted <==> !failed && !held && !waits)
  {
    hide ValidPlan, RunSteps, Executable, SolvesAt, Reported, MandatoryIn;
    var sorted := ByPosition(plan.body.steps);
    ValidPlanExecutable(h, plan);
    RunStepsSolve(sorted, run);
    var results := RunSteps(sorted, run).value;
    ListedInResults(sorted, results);
    var out := Summary(sorted, results);
    MandatoryReported(sorted, results, out.results, Failed, Rejected);
    MandatoryReported(sorted, results, out.results, Held, Held);
    MandatoryReported(sorted, results, out.results, Awaiting, Awaiting);
    assert {Held, Held} == {Held} && {Awaiting, Awaiting} == {Awaiting};
  }
}
