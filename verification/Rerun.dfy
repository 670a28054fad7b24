/** Which steps a change of inputs invalidates (`workflow_rerun_plan` in `fmr/workflow.py`). */
module Rerun {
  import opened Ids
  import opened Results
  import opened Graph
  import opened Plans
  import opened Sorting

  /** The declared keys with a dependency path to a seed. */
  ghost function Reaching(g: Graph, seeds: set<Id>): set<Id>
  {
    set k | k in g && exists p :: PathFrom(g, k, p) && p[|p| - 1] in seeds
  }

  /** Whatever depends on a member is a member. */
  ghost predicate ClosedUnderDependents(g: Graph, s: set<Id>)
  {
    forall k | k in g && g[k] * s != {} :: k in s
  }

  lemma ReachingClosed(g: Graph, seeds: set<Id>)
    requires seeds <= g.Keys
    ensures seeds <= Reaching(g, seeds) <= g.Keys
    ensures ClosedUnderDependents(g, Reaching(g, seeds))
  {
    forall k | k in seeds ensures k in Reaching(g, seeds) {
      assert PathFrom(g, k, [k]) && [k][|[k]| - 1] in seeds;
    }
    forall k | k in g && g[k] * Reaching(g, seeds) != {} ensures k in Reaching(g, seeds) {
      var d :| d in g[k] * Reaching(g, seeds);
      var p :| PathFrom(g, d, p) && p[|p| - 1] in seeds;
      PathPrepend(g, k, p);
      var q := [k] + p;
      assert q[|q| - 1] == p[|p| - 1];
    }
  }

  lemma {:induction false} PathStaysInside(g: Graph, s: set<Id>, p: seq<Id>)
    requires ClosedUnderDependents(g, s)
    requires IsPath(g, p) && p[|p| - 1] in s
    ensures p[0] in s
  {
    if |p| > 1 {
      PathStaysInside(g, s, p[1..]);
      assert p[1] in g[p[0]] * s;
    }
  }

  /** Reachability is the least closed set that holds the seeds. */
  lemma ReachingLeast(g: Graph, seeds: set<Id>, s: set<Id>)
    requires seeds <= s && ClosedUnderDependents(g, s)
    ensures Reaching(g, seeds) <= s
  {
    forall k | k in Reaching(g, seeds) ensures k in s {
      var p :| PathFrom(g, k, p) && p[|p| - 1] in seeds;
      PathStaysInside(g, s, p);
    }
  }

  /** Seeds invalidate independently of each other. */
  lemma ReachingUnion(g: Graph, a: set<Id>, b: set<Id>)
    ensures Reaching(g, a + b) == Reaching(g, a) + Reaching(g, b)
  {
    forall k ensures k in Reaching(g, a + b) <==> k in Reaching(g, a) + Reaching(g, b) {
      if k in Reaching(g, a + b) {
        var p :| PathFrom(g, k, p) && p[|p| - 1] in a + b;
        assert p[|p| - 1] in a || p[|p| - 1] in b;
      }
    }
  }

  /** One pass over the dependency dictionary, growing the set as it goes. */
  method Pass(g: Graph, ids: seq<Id>, impacted: set<Id>, ghost target: set<Id>)
    returns (grown: set<Id>, changed: bool)
    requires Elements(ids) == g.Keys
    requires ClosedUnderDependents(g, target) && impacted <= target
    ensures impacted <= grown <= target
    ensures changed ==> exists k :: k in grown && k !in impacted
    ensures !changed ==> grown == impacted && ClosedUnderDependents(g, impacted)
  {
    grown, changed := impacted, false;
    assert forall i | 0 <= i < |ids| :: ids[i] in Elements(ids);
    for n := 0 to |ids|
      invariant impacted <= grown <= target
      invariant changed ==> exists k :: k in grown && k !in impacted
      invariant !changed ==>
                  grown == impacted && forall i | 0 <= i < n :: ids[i] in impacted || g[ids[i]] * impacted == {}
    {
      var id := ids[n];
      if id !in grown && g[id] * grown != {} {
        grown := grown + {id};
        changed := true;
      }
    }
    if !changed {
      forall k | k in g && g[k] * impacted != {} ensures k in impacted {
        assert k in Elements(ids);
      }
    }
  }

  /**
   * The fixpoint loop: whatever order the passes take, it ends with exactly the steps
   * from which a seed is reachable.
   */
  method InvalidatedSteps(g: Graph, ids: seq<Id>, seeds: set<Id>) returns (impacted: set<Id>)
    requires Elements(ids) == g.Keys && seeds <= g.Keys
    ensures impacted == Reaching(g, seeds)
  {
    impacted := seeds;
    ReachingClosed(g, seeds);
    ghost var target := Reaching(g, seeds);
    var changed := true;
    while changed
      invariant seeds <= impacted <= target
      invariant !changed ==> ClosedUnderDependents(g, impacted)
      decreases target - impacted, changed
    {
      ghost var before := impacted;
      impacted, changed := Pass(g, ids, impacted, target);
      if changed {
        ghost var k :| k in impacted && k !in before;
        assert k in target - before && k !in target - impacted;
      }
    }
    ReachingLeast(g, seeds, impacted);
  }

  // ---------------------------------------------------------------- rerun plans

  /** The identifiers of the steps that consume a changed input. */
  function Consumers(steps: seq<Step>, changed: set<string>): (ids: set<Id>)
  {
    set i | 0 <= i < |steps| && exists name | name in steps[i].body.consumes :: name in changed
      :: steps[i].body.id
  }

  ghost function Invalidated(steps: seq<Step>, changed: set<string>): set<Id>
  {
    Reaching(Dependencies(StepEdges(steps)), Consumers(steps, changed))
  }

  lemma StepKeys(steps: seq<Step>)
    ensures Dependencies(StepEdges(steps)).Keys == Elements(StepIds(steps))
  {
    DependenciesLookup(StepEdges(steps));
    forall k ensures k in Dependencies(StepEdges(steps)) <==> k in Elements(StepIds(steps)) {
      if k in StepIds(steps) {
        var i :| 0 <= i < |steps| && StepIds(steps)[i] == k;
        assert StepEdges(steps)[i].0 == k;
      }
      if k in Dependencies(StepEdges(steps)) {
        var i :| 0 <= i < |steps| && StepEdges(steps)[i].0 == k;
        assert StepIds(steps)[i] == k;
      }
    }
  }

  lemma ConsumersDeclared(steps: seq<Step>, changed: set<string>)
    ensures Consumers(steps, changed) <= Dependencies(StepEdges(steps)).Keys
  {
    StepKeys(steps);
    forall id | id in Consumers(steps, changed) ensures id in Elements(StepIds(steps)) {
      var i :| 0 <= i < |steps| && steps[i].body.id == id;
      assert StepIds(steps)[i] == id;
    }
  }

  lemma ConsumersInclude(a: seq<Step>, b: seq<Step>, changed: set<string>)
    requires forall s | s in a :: s in b
    ensures Consumers(a, changed) <= Consumers(b, changed)
  {
    forall id | id in Consumers(a, changed) ensures id in Consumers(b, changed) {
      var i :| 0 <= i < |a| && a[i].body.id == id && exists name | name in a[i].body.consumes :: name in changed;
      assert a[i] in b;
      var j :| 0 <= j < |b| && b[j] == a[i];
    }
  }

  /** Sorting a plan by position changes nothing about what is invalidated. */
  lemma InvalidatedByPosition(steps: seq<Step>, changed: set<string>)
    requires Dependencies(StepEdges(ByPosition(steps))) == Dependencies(StepEdges(steps))
    ensures Invalidated(ByPosition(steps), changed) == Invalidated(steps, changed)
  {
    SortByMembers(steps, PositionLe);
    ConsumersInclude(steps, ByPosition(steps), changed);
    ConsumersInclude(ByPosition(steps), steps, changed);
  }

  /** Changing two groups of inputs invalidates what each of them invalidates, and no more. */
  lemma InvalidatedUnion(steps: seq<Step>, a: set<string>, b: set<string>)
    ensures Invalidated(steps, a + b) == Invalidated(steps, a) + Invalidated(steps, b)
  {
    forall id ensures id in Consumers(steps, a + b) <==> id in Consumers(steps, a) + Consumers(steps, b) {
      if id in Consumers(steps, a + b) {
        var i :| 0 <= i < |steps| && steps[i].body.id == id
                 && exists name | name in steps[i].body.consumes :: name in a + b;
        var name :| name in steps[i].body.consumes && name in a + b;
        assert name in a || name in b;
      }
      if id in Consumers(steps, a) {
        var i :| 0 <= i < |steps| && steps[i].body.id == id
          && exists name | name in steps[i].body.consumes :: name in a;
        var name :| name in steps[i].body.consumes && name in a;
        assert name in a + b;
      }
      if id in Consumers(steps, b) {
        var i :| 0 <= i < |steps| && steps[i].body.id == id
          && exists name | name in steps[i].body.consumes :: name in b;
        var name :| name in steps[i].body.consumes && name in b;
        assert name in a + b;
      }
    }
    assert Consumers(steps, a + b) == Consumers(steps, a) + Consumers(steps, b);
    ReachingUnion(Dependencies(StepEdges(steps)), Consumers(steps, a), Consumers(steps, b));
  }

  datatype RerunError = InvalidPlan(issues: set<Issue>) | BadChangedInputs

  /** Invalidated and reusable steps partition the plan. */
  method RerunPlan(h: Digests, plan: Plan, changedInputs: seq<string>)
    returns (r: Result<(seq<Id>, seq<Id>), RerunError>)
    ensures !ValidPlan(h, plan) ==> r == Err(InvalidPlan(PlanIssues(h, plan)))
    ensures ValidPlan(h, plan) && r.Err? ==> r == Err(BadChangedInputs)
    ensures r.Ok? <==> ValidPlan(h, plan) && changedInputs != [] && Distinct(changedInputs)
    ensures r.Ok? ==>
              var steps := plan.body.steps;
              && Ascending(r.value.0) && Ascending(r.value.1)
              && Elements(r.value.0) == Invalidated(steps, Elements(changedInputs))
              && Elements(r.value.1) == Elements(StepIds(steps)) - Elements(r.value.0)
  {
    hide ValidPlan, PlanIssues;
    var issues := ValidatePlan(h, plan);
    if issues != {} {
      return Err(InvalidPlan(issues));
    }
    if changedInputs == [] || !Distinct(changedInputs) {
      return Err(BadChangedInputs);
    }
    var steps := plan.body.steps;
    var changed := set c | c in changedInputs;
    assert changed == Elements(changedInputs);
    var dependencies := Dependencies(StepEdges(steps));
    StepKeys(steps);
    ConsumersDeclared(steps, changed);
    var impacted := InvalidatedSteps(dependencies, StepIds(steps), Consumers(steps, changed));
    var reusable := set id | id in StepIds(steps) && id !in impacted;
    assert reusable == Elements(StepIds(steps)) - impacted;
    r := Ok((Sorted(impacted), Sorted(reusable)));
  }

  /** Some step names a changed input among those it consumes, and `id` depends on it, or is it. */
  ghost predicate Affected(steps: seq<Step>, changed: set<string>, id: Id)
  {
    exists p: seq<Id>, i: nat, name ::
      && i < |steps| && PathFrom(Dependencies(StepEdges(steps)), id, p) && p[|p| - 1] == steps[i].body.id
      && name in steps[i].body.consumes && name in changed
  }

  /** A step is invalidated exactly when a dependency path leads from it to a consumer of a changed input. */
  lemma InvalidatedIff(steps: seq<Step>, changed: set<string>, id: Id)
    requires id in Dependencies(StepEdges(steps))
    ensures id in Invalidated(steps, changed) <==> Affected(steps, changed, id)
  {
    hide Dependencies;
    var g := Dependencies(StepEdges(steps));
    if id in Invalidated(steps, changed) {
      var p :| PathFrom(g, id, p) && p[|p| - 1] in Consumers(steps, changed);
      var i: nat :| i < |steps| && steps[i].body.id == p[|p| - 1]
                    && exists name | name in steps[i].body.consumes :: name in changed;
      var name :| name in steps[i].body.consumes && name in changed;
      assert Affected(steps, changed, id);
    }
    if Affected(steps, changed, id) {
      var p: seq<Id>, i: nat, name :|
        && i < |steps| && PathFrom(g, id, p) && p[|p| - 1] == steps[i].body.id
        && name in steps[i].body.consumes && name in changed;
      assert steps[i].body.id in Consumers(steps, changed);
    }
  }
}
