/** Handing a job over to the provider it was routed to (`provider_service.py`, `core/handoffs.py`). */
module Handoffs {
  import opened Results
  import opened Sorting
  import opened Ids
  import opened Routing

  datatype HandoffError =
    | InvalidDecision | NotRouted | AllRejected | UnknownPackage | WrongPackage | NotEligible | EmbeddedSecret
    | NoAdapter | AdapterRaised

  /** What an adapter's `compile` gives for a job: a payload, with or without an embedded secret, or an error. */
  datatype Payload = Payload(secrets: bool) | Raised

  datatype HandoffStatus = Ready | HandoffBlocked

  datatype Handoff = Handoff(target: Registered, unresolved: set<Blocker>, status: HandoffStatus)

  ghost predicate EligibleIn(d: Decision, ids: seq<string>)
  {
    exists e :: e in d.evaluations && e.Eligible() && e.Ids() == ids
  }

  function RegisteredIds(item: Registered): seq<string>
  {
    [item.provider.id, item.package.id]
  }

  /**
   * `compile_provider_handoff`: the decision must be the one that routing the job recomputes.
   * `secrets` says whether the payload or the references embed a secret.
   */
  function CompileHandoff(
    job: Job, d: Decision, target: Registered, secrets: bool, registry: seq<Registered>, policy: Policy):
    (r: Result<Handoff, HandoffError>)
  {
    if d != RouteJob(job, registry, policy) then Err(InvalidDecision)
    else if d.status != Selected && d.status != NoRoute then Err(NotRouted)
    else if d.status == Selected && d.selected.Some? && d.selected.value.Ids() != RegisteredIds(target) then
      Err(WrongPackage)
    else if d.status == NoRoute && !(exists e | e in d.evaluations :: e.Eligible() && e.Ids() == RegisteredIds(target))
    then Err(NotEligible)
    else if secrets then Err(EmbeddedSecret)
    else Ok(Handoff(target, d.missing, if d.missing == {} then Ready else HandoffBlocked))
  }

  function Eligibles(d: Decision): seq<Evaluation>
  {
    SortBy(Where(d.evaluations, (e: Evaluation) => e.Eligible()), IdRankLe)
  }

  /** `registry.package(provider_id, package_id)`. */
  function Lookup(registry: seq<Registered>, ids: seq<string>): Option<Registered>
  {
    if registry == [] then None
    else if RegisteredIds(registry[0]) == ids then Some(registry[0])
    else Lookup(registry[1..], ids)
  }

  /** The evaluation a handoff is prepared for. */
  function Target(d: Decision): Result<Evaluation, HandoffError>
  {
    match d.status
    case Selected => if d.selected.Some? then Ok(d.selected.value) else Err(NotRouted)
    case NoRoute => if Eligibles(d) == [] then Err(AllRejected) else Ok(Eligibles(d)[0])
    case _ => Err(NotRouted)
  }

  /**
   * `prepare_handoff`, with the installed plugins: `compile` answers for the adapter of a package that
   * has one, and `secrets` says whether the job's references embed a secret.
   */
  function PrepareHandoff(
    job: Job, compile: Registered -> Payload, secrets: bool, registry: seq<Registered>, policy: Policy)
    : Result<Handoff, HandoffError>
  {
    var d := RouteJob(job, registry, policy);
    var target := Target(d);
    if target.Err? then Err(target.error)
    else
      var found := Lookup(registry, target.value.Ids());
      if found.None? then Err(UnknownPackage)
      else if !found.value.adapter then Err(NoAdapter)
      else match compile(found.value)
        case Raised => Err(AdapterRaised)
        case Payload(embedded) => CompileHandoff(job, d, found.value, embedded || secrets, registry, policy)
  }

  // ---------------------------------------------------------------- readiness

  lemma BlockedTargetBlocks(job: Job, registry: seq<Registered>, policy: Policy, e: Evaluation)
    requires RouteJob(job, registry, policy).status == NoRoute
    requires e in RouteJob(job, registry, policy).evaluations && e.Eligible()
    ensures RouteJob(job, registry, policy).missing != {}
  {
    FirstReadyIsBest(job, registry, policy);
    hide Evaluations, Packages, Evaluate, SortBy, Fallback, RankLe;
    assert !e.Executable();
    assert e.blockers != [];
    assert e.blockers[0] in e.blockers;
    assert e.blockers[0] in AllBlockers(RouteJob(job, registry, policy).evaluations);
  }

  lemma SelectedMissesNothing(job: Job, registry: seq<Registered>, policy: Policy)
    requires RouteJob(job, registry, policy).status == Selected
    ensures RouteJob(job, registry, policy).missing == {}
  {
    FirstReadyIsBest(job, registry, policy);
  }

  /** A compiled handoff targets an eligible candidate, and is ready exactly when the job was routed. */
  lemma CompiledHandoffIsSound(
    job: Job, d: Decision, target: Registered, secrets: bool, registry: seq<Registered>, policy: Policy)
    requires CompileHandoff(job, d, target, secrets, registry, policy).Ok?
    ensures var h := CompileHandoff(job, d, target, secrets, registry, policy).value;
            && h.target == target && EligibleIn(d, RegisteredIds(target)) && h.unresolved == d.missing
            && (h.status == Ready <==> d.status == Selected)
            && (h.status == Ready <==> h.unresolved == {})
  {
    FirstReadyIsBest(job, registry, policy);
    hide RouteJob, RankLe;
    if d.status == Selected {
      SelectedMissesNothing(job, registry, policy);
      assert d.selected.value in d.evaluations;
    } else {
      var e :| e in d.evaluations && e.Eligible() && e.Ids() == RegisteredIds(target);
      BlockedTargetBlocks(job, registry, policy, e);
    }
  }

  lemma {:induction false} LookupFinds(registry: seq<Registered>, item: Registered)
    requires DistinctBy(registry, IdsOf) && item in registry
    ensures Lookup(registry, RegisteredIds(item)) == Some(item)
  {
    if registry[0] != item {
      var i :| 0 <= i < |registry| && registry[i] == item;
      assert IdsOf(registry[0]) != IdsOf(registry[i]);
      assert RegisteredIds(registry[0])[0] != RegisteredIds(item)[0]
        || RegisteredIds(registry[0])[1] != RegisteredIds(item)[1];
      assert registry[1..][i - 1] == item;
      forall j, k | 0 <= j < k < |registry[1..]| ensures IdsOf(registry[1..][j]) != IdsOf(registry[1..][k]) {
        assert IdsOf(registry[j + 1]) != IdsOf(registry[k + 1]);
      }
      LookupFinds(registry[1..], item);
    }
  }

  lemma EvaluatedIsRegistered(job: Job, registry: seq<Registered>, policy: Policy, e: Evaluation)
    requires e in RouteJob(job, registry, policy).evaluations
    ensures e.item in registry && job.classification == Family(e.item.package.family)
    ensures e == Evaluate(job, e.item, policy)
  {
    hide Evaluate, SortBy, AllBlockers, Fallback, ReadyOnes;
    var family := job.classification.id;
    var items := Packages(registry, family);
    var i :| 0 <= i < |items| && e == Evaluate(job, items[i], policy);
    EvaluatesItem(job, items[i], policy);
    SortByMembers(Where(registry, (item: Registered) => item.package.family == family), RegisteredLe);
    assert items[i] in items;
  }

  /** The target is the best-ranked candidate: among executable ones, or else among eligible ones. */
  lemma TargetIsBest(job: Job, registry: seq<Registered>, policy: Policy)
    ensures var d := RouteJob(job, registry, policy);
            var t := Target(d);
            && (t.Ok? <==>
                d.status == Selected || (d.status == NoRoute && exists e :: e in d.evaluations && e.Eligible()))
            && (t.Ok? ==> t.value in d.evaluations && t.value.Eligible())
            && (t.Ok? && d.status == Selected ==> forall e | e in d.evaluations && e.Executable() :: RankLe(t.value, e))
            && (t.Ok? && d.status == NoRoute ==> forall e | e in d.evaluations && e.Eligible() :: IdRankLe(t.value, e))
  {
    FirstReadyIsBest(job, registry, policy);
    RanksAreTotal();
    hide RouteJob, RankLe, IdRankLe, SortBy;
    var d := RouteJob(job, registry, policy);
    var eligible := Where(d.evaluations, (e: Evaluation) => e.Eligible());
    if eligible != [] {
      FirstIsLeast(eligible, IdRankLe);
      assert eligible[0] in eligible;
    } else {
      forall e | e in d.evaluations ensures !e.Eligible() {
        assert e in eligible <==> e in d.evaluations && e.Eligible();
      }
    }
  }

  /** The adapter of a package answers with a payload without secrets. */
  predicate Compiles(compile: Registered -> Payload, item: Registered)
  {
    item.adapter && compile(item) == Payload(false)
  }

  /**
   * A handoff is prepared exactly when there is a target, its own adapter is installed and compiles, and
   * no secret is embedded; it is for the registered package that ranks best, and ready exactly when that
   * was selected.
   */
  lemma PreparedIff(
    job: Job, compile: Registered -> Payload, secrets: bool, registry: seq<Registered>, policy: Policy)
    requires ValidRegistry(registry)
    ensures var d := RouteJob(job, registry, policy);
            var r := PrepareHandoff(job, compile, secrets, registry, policy);
            && (r.Ok? <==> !secrets && Target(d).Ok? && Compiles(compile, Target(d).value.item))
            && (r.Ok? ==> r.value.target == Target(d).value.item && r.value.target in registry)
            && (r.Ok? ==> (r.value.status == Ready <==> d.status == Selected))
  {
    TargetIsBest(job, registry, policy);
    FirstReadyIsBest(job, registry, policy);
    NoFamilyNoCandidates(job, registry, policy);
    hide RouteJob, RankLe, IdRankLe, Lookup, SortBy, Eligibles;
    var d := RouteJob(job, registry, policy);
    if Target(d).Ok? {
      var e := Target(d).value;
      EvaluatedIsRegistered(job, registry, policy, e);
      LookupFinds(registry, e.item);
      assert e.Ids() == RegisteredIds(e.item);
      if !secrets && Compiles(compile, e.item) {
        CompiledHandoffIsSound(job, d, e.item, false, registry, policy);
      }
    }
  }

  lemma ExecutableHasAdapter(job: Job, item: Registered, policy: Policy)
    ensures Evaluate(job, item, policy).blockers == [] ==> item.adapter && item.executor
  {
  }

  /** A selected package has its adapter; a package that only blocks may lack it. */
  lemma SelectedHasAdapter(job: Job, registry: seq<Registered>, policy: Policy)
    requires RouteJob(job, registry, policy).status == Selected
    ensures Target(RouteJob(job, registry, policy)).Ok?
    ensures Target(RouteJob(job, registry, policy)).value.item.adapter
  {
    FirstReadyIsBest(job, registry, policy);
    hide RankLe, Evaluate;
    var e := RouteJob(job, registry, policy).selected.value;
    EvaluatedIsRegistered(job, registry, policy, e);
    ExecutableHasAdapter(job, e.item, policy);
  }

  lemma NoFamilyNoCandidates(job: Job, registry: seq<Registered>, policy: Policy)
    ensures var d := RouteJob(job, registry, policy);
            d.status != Selected && d.status != NoRoute ==> d.evaluations == []
  {
  }

  // ---------------------------------------------------------------- a handoff that is not prepared

  const NO_CONSTRAINTS := Constraints(false, false, true, {}, {}, {})
  const BUDGET := Job(Family("budget"), None, {}, {}, {}, {}, None, {}, NO_CONSTRAINTS, {}, {}, None)
  const NO_POLICY := Policy(false, [], Weights(1, 1, 1, 1, 1, 1, 1, 1, 1, 1), {}, {}, {}, {}, {}, false)
  const FIRST := Registered(
    Provider("a", "1.0.0", Local, false, "MIT", true, {}, true),
    Manifest("a/budget", "1.0.0", "budget", {"*"}, {}, {}, {}, {}, {}, {}), true, false, true)
  const SECOND := Registered(
    FIRST.provider.(id := "b"), FIRST.package.(id := "b/budget"), true, true, false)

  lemma FirstAndSecond()
    ensures ValidRegistry([FIRST, SECOND])
    ensures var a, b := Evaluate(BUDGET, FIRST, NO_POLICY), Evaluate(BUDGET, SECOND, NO_POLICY);
            a.Eligible() && b.Eligible() && !a.Executable() && !b.Executable() && !IdRankLe(b, a)
  {
    assert "a"[0] != "b"[0];
    assert Sorted({}) == [];
    var a, b := Evaluate(BUDGET, FIRST, NO_POLICY), Evaluate(BUDGET, SECOND, NO_POLICY);
    assert NoProviderAdapter in a.blockers && NoProviderExecutor in b.blockers;
    assert a.score == b.score;
    assert !LeWords(b.Ids(), a.Ids());
  }

  lemma NeitherIsRoutable()
    ensures RouteJob(BUDGET, [FIRST, SECOND], NO_POLICY).status == NoRoute
    ensures forall e :: e in RouteJob(BUDGET, [FIRST, SECOND], NO_POLICY).evaluations <==>
                        e in [Evaluate(BUDGET, FIRST, NO_POLICY), Evaluate(BUDGET, SECOND, NO_POLICY)]
  {
    FirstAndSecond();
    hide Evaluate, IdRankLe, RankLe, ValidRegistry, RouteJob;
    var registry := [FIRST, SECOND];
    assert forall item :: OfFamily(BUDGET, registry, item) <==> item in registry;
    hide OfFamily;
    assert forall item :: !Routable(BUDGET, registry, NO_POLICY, item);
    SelectionIsBest(BUDGET, registry, NO_POLICY);
    hide Routable;
    assert FIRST in registry && SECOND in registry;
    forall e ensures e in RouteJob(BUDGET, registry, NO_POLICY).evaluations <==>
                     e in [Evaluate(BUDGET, FIRST, NO_POLICY), Evaluate(BUDGET, SECOND, NO_POLICY)]
    {
      EvaluatedIff(BUDGET, registry, NO_POLICY, e);
    }
  }

  /**
   * Two packages are eligible and only the second has an adapter: preparation raises on the first,
   * although the second would compile.
   */
  lemma MissingAdapterStops(compile: Registered -> Payload)
    requires Compiles(compile, SECOND)
    ensures var registry := [FIRST, SECOND];
            && Evaluate(BUDGET, SECOND, NO_POLICY) in RouteJob(BUDGET, registry, NO_POLICY).evaluations
            && Evaluate(BUDGET, SECOND, NO_POLICY).Eligible()
            && PrepareHandoff(BUDGET, compile, false, registry, NO_POLICY) == Err(NoAdapter)
  {
    hide RouteJob, Target, Lookup, IdRankLe, RankLe, CompileHandoff;
    var registry := [FIRST, SECOND];
    FirstAndSecond();
    NeitherIsRoutable();
    TargetIsBest(BUDGET, registry, NO_POLICY);
    EvaluatesItem(BUDGET, FIRST, NO_POLICY);
    hide Evaluate;
    var a, b := Evaluate(BUDGET, FIRST, NO_POLICY), Evaluate(BUDGET, SECOND, NO_POLICY);
    assert a in [a, b] && b in [a, b];
    assert Target(RouteJob(BUDGET, registry, NO_POLICY)).value == a;
    LookupFinds(registry, FIRST);
    assert a.Ids() == RegisteredIds(FIRST);
  }
}
