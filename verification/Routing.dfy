/** Choosing a provider package for a job (`core/routing.py`). */
module Routing {
  import opened Results
  import opened Ids
  import opened Sorting

  datatype Mode = Local | Remote | HandoffOnly

  datatype Constraints = Constraints(
    localOnly: bool, openSourceOnly: bool, networkAllowed: bool,
    allowed: set<string>, prohibited: set<string>, pinned: set<string>)

  datatype Classification = Family(id: string) | AmbiguousFamily | UnsupportedFamily

  /** `classification` is what the text of the job was classified as. */
  datatype Job = Job(
    classification: Classification, industry: Option<string>, deliverables: set<string>,
    data: set<string>, assumptions: set<string>, references: set<string>, template: Option<string>,
    formats: set<string>, constraints: Constraints, privacy: set<string>, licensing: set<string>,
    preferredMode: Option<Mode>)

  datatype Provider = Provider(
    id: string, version: string, mode: Mode, networkRequired: bool, license: string, openSource: bool,
    privacy: set<string>, deterministic: bool)

  datatype Manifest = Manifest(
    id: string, version: string, family: string, industries: set<string>, deliverables: set<string>,
    requiredData: set<string>, requiredAssumptions: set<string>, acceptedInputs: set<string>,
    formats: set<string>, checks: set<string>)

  datatype Registered = Registered(
    provider: Provider, package: Manifest, runtime: bool, adapter: bool, executor: bool)

  datatype Weights = Weights(
    family: int, industry: int, deliverables: int, readiness: int, format: int, local: int, mode: int,
    determinism: int, preference: int, validation: int)

  datatype Policy = Policy(
    requireLocal: bool, preferred: seq<string>, weights: Weights, allowed: set<string>,
    providerVersions: set<string>, packageVersions: set<string>, prohibitedModes: set<Mode>,
    templates: set<string>, requireTemplate: bool)

  datatype Reason =
    | LocalOnlyNeedsLocal | LocalOnlyForbidsNetwork | NetworkNotAllowed | OpenSourceOnly
    | PrivacyNotMet(missing: set<string>) | LicenseNotAllowed | ProviderNotAllowed | ProviderProhibited
    | VersionNotPinned
    | ProviderNotApproved | ProviderVersionNotApproved | PackageVersionNotApproved | ModeProhibited
    | TemplateRequired | TemplateNotApproved
    | FormatNotSupported(missing: set<string>) | DeliverableNotSupported(missing: set<string>)
    | IndustryNotSupported | RuntimeUnavailable

  datatype Blocker =
    | MissingData(name: string) | MissingAssumption(name: string) | NoSourceAdapter | NoProviderAdapter
    | NoProviderExecutor

  datatype Evaluation = Evaluation(item: Registered, rejected: seq<Reason>, blockers: seq<Blocker>, score: int)
  {
    predicate Eligible() { rejected == [] }

    predicate Executable() { rejected == [] && blockers == [] }

    function Ids(): seq<string> { [item.provider.id, item.package.id] }

    function Versions(): seq<string> { [item.provider.version, item.package.version] }
  }

  // ---------------------------------------------------------------- evaluating one package

  function Pin(id: string, version: string): string
  {
    id + "@" + version
  }

  function When(b: bool, reason: Reason): seq<Reason>
  {
    if b then [reason] else []
  }

  /** Where and how a provider runs. */
  function PlaceReasons(job: Job, item: Registered, policy: Policy): seq<Reason>
  {
    var p, c := item.provider, job.constraints;
    var local := c.localOnly || policy.requireLocal;
    When(local && p.mode != Local, LocalOnlyNeedsLocal)
    + When(local && p.networkRequired, LocalOnlyForbidsNetwork)
    + When(!c.networkAllowed && p.networkRequired, NetworkNotAllowed)
    + When(c.openSourceOnly && !p.openSource, OpenSourceOnly)
  }

  /** The terms a provider offers, and the lists it is on. */
  function TermReasons(job: Job, item: Registered): seq<Reason>
  {
    var p, c := item.provider, job.constraints;
    When(job.privacy - p.privacy != {}, PrivacyNotMet(job.privacy - p.privacy))
    + When(job.licensing != {} && p.license !in job.licensing, LicenseNotAllowed)
    + When(c.allowed != {} && p.id !in c.allowed, ProviderNotAllowed)
    + When(p.id in c.prohibited, ProviderProhibited)
    + When(c.pinned != {} && Pin(p.id, p.version) !in c.pinned, VersionNotPinned)
  }

  function JobReasons(job: Job, item: Registered, policy: Policy): seq<Reason>
  {
    PlaceReasons(job, item, policy) + TermReasons(job, item)
  }

  function PolicyReasons(job: Job, item: Registered, policy: Policy): seq<Reason>
  {
    var p, k := item.provider, item.package;
    When(policy.allowed != {} && p.id !in policy.allowed, ProviderNotApproved)
    + When(
        policy.providerVersions != {} && Pin(p.id, p.version) !in policy.providerVersions, ProviderVersionNotApproved)
    + When(policy.packageVersions != {} && Pin(k.id, k.version) !in policy.packageVersions, PackageVersionNotApproved)
    + When(p.mode in policy.prohibitedModes, ModeProhibited)
    + (if policy.requireTemplate && job.template.None? then [TemplateRequired]
       else
         When(job.template.Some? && policy.templates != {} && job.template.value !in policy.templates,
              TemplateNotApproved))
  }

  predicate IndustryMatches(job: Job, k: Manifest)
  {
    job.industry.None? || "*" in k.industries || job.industry.value in k.industries
  }

  function FitReasons(job: Job, item: Registered): seq<Reason>
  {
    var k := item.package;
    When(job.formats - k.formats != {}, FormatNotSupported(job.formats - k.formats))
    + When(job.deliverables - k.deliverables != {}, DeliverableNotSupported(job.deliverables - k.deliverables))
    + When(!IndustryMatches(job, k), IndustryNotSupported)
    + When(!item.runtime && item.provider.mode != HandoffOnly, RuntimeUnavailable)
  }

  function Rejections(job: Job, item: Registered, policy: Policy): seq<Reason>
  {
    JobReasons(job, item, policy) + PolicyReasons(job, item, policy) + FitReasons(job, item)
  }

  function Missing(names: seq<string>, data: bool): (r: seq<Blocker>)
    ensures |r| == |names|
  {
    seq(|names|, i requires 0 <= i < |names| => if data then MissingData(names[i]) else MissingAssumption(names[i]))
  }

  function Blockers(job: Job, item: Registered): seq<Blocker>
  {
    var k := item.package;
    Missing(Sorted(k.requiredData - job.data), true)
    + Missing(Sorted(k.requiredAssumptions - job.assumptions), false)
    + (if k.acceptedInputs * job.references == {} && k.acceptedInputs != {} then [NoSourceAdapter] else [])
    + (if item.adapter then [] else [NoProviderAdapter])
    + (if item.executor then [] else [NoProviderExecutor])
  }

  function PreferencePoints(preferred: seq<string>, id: string): (points: int)
    ensures points > 0 <==> id in preferred
  {
    if preferred == [] then 0
    else if preferred[0] == id then |preferred|
    else PreferencePoints(preferred[1..], id)
  }

  function Points(b: bool, weight: int): int
  {
    if b then weight else 0
  }

  function Score(job: Job, item: Registered, policy: Policy): int
  {
    var p, k, w := item.provider, item.package, policy.weights;
    w.family
    + (if !IndustryMatches(job, k) then 0
       else w.industry * (if job.industry.Some? && job.industry.value in k.industries then 2 else 1))
    + Points(job.deliverables <= k.deliverables, w.deliverables)
    + Points(k.requiredData <= job.data && k.requiredAssumptions <= job.assumptions, w.readiness)
    + Points(job.formats <= k.formats, w.format)
    + Points(p.mode == Local, w.local)
    + Points(job.preferredMode == Some(p.mode), w.mode)
    + Points(p.deterministic, w.determinism)
    + w.preference * PreferencePoints(policy.preferred, p.id)
    + Points(k.checks != {}, w.validation)
  }

  /** `_evaluate`. */
  function Evaluate(job: Job, item: Registered, policy: Policy): Evaluation
  {
    Evaluation(item, Rejections(job, item, policy), Blockers(job, item), Score(job, item, policy))
  }

  // ---------------------------------------------------------------- registries

  function IdsOf(item: Registered): (string, string)
  {
    (item.provider.id, item.package.id)
  }

  function RegisteredWords(item: Registered): seq<string>
  {
    [item.provider.id, item.package.id, item.package.version]
  }

  predicate RegisteredLe(a: Registered, b: Registered)
  {
    LeWords(RegisteredWords(a), RegisteredWords(b))
  }

  /** A registry: no provider twice, no package of a provider twice. */
  ghost predicate ValidRegistry(registry: seq<Registered>)
  {
    DistinctBy(registry, IdsOf)
  }

  /** `registry.packages(family)`. */
  function Packages(registry: seq<Registered>, family: string): seq<Registered>
  {
    SortBy(Where(registry, (item: Registered) => item.package.family == family), RegisteredLe)
  }

  function Evaluations(job: Job, items: seq<Registered>, policy: Policy): (r: seq<Evaluation>)
    ensures |r| == |items| && forall i | 0 <= i < |items| :: r[i] == Evaluate(job, items[i], policy)
  {
    seq(|items|, i requires 0 <= i < |items| => Evaluate(job, items[i], policy))
  }

  // ---------------------------------------------------------------- routing

  function RankWords(e: Evaluation): seq<string>
  {
    e.Ids() + e.Versions()
  }

  /** Higher scores first, then identifiers and versions. */
  predicate RankLe(a: Evaluation, b: Evaluation)
  {
    a.score > b.score || (a.score == b.score && LeWords(RankWords(a), RankWords(b)))
  }

  predicate IdRankLe(a: Evaluation, b: Evaluation)
  {
    a.score > b.score || (a.score == b.score && LeWords(a.Ids(), b.Ids()))
  }

  datatype Status = Selected | NoRoute | FamilyAmbiguous | FamilyUnsupported

  datatype Decision = Decision(
    status: Status, selected: Option<Evaluation>, evaluations: seq<Evaluation>, missing: set<Blocker>,
    fallback: seq<Evaluation>)

  function ReadyOnes(evaluations: seq<Evaluation>): seq<Evaluation>
  {
    SortBy(Where(evaluations, (e: Evaluation) => e.Executable()), RankLe)
  }

  function AllBlockers(evaluations: seq<Evaluation>): set<Blocker>
  {
    set e, b | e in evaluations && b in e.blockers :: b
  }

  function Fallback(evaluations: seq<Evaluation>, selected: Option<Evaluation>): seq<Evaluation>
  {
    SortBy(Where(evaluations, (e: Evaluation) =>
      e.Executable() && (selected.None? || e.item.package.id != selected.value.item.package.id)), IdRankLe)
  }

  /** `route_job`. */
  function RouteJob(job: Job, registry: seq<Registered>, policy: Policy): Decision
  {
    match job.classification
    case AmbiguousFamily => Decision(FamilyAmbiguous, None, [], {}, [])
    case UnsupportedFamily => Decision(FamilyUnsupported, None, [], {}, [])
    case Family(id) =>
      var evaluations := Evaluations(job, Packages(registry, id), policy);
      var ready := ReadyOnes(evaluations);
      if ready == [] then
        Decision(NoRoute, None, evaluations, AllBlockers(evaluations), Fallback(evaluations, None))
      else
        var chosen := ready[0];
        Decision(Selected, Some(chosen), evaluations, (set b | b in chosen.blockers),
          Fallback(evaluations, Some(chosen)))
  }

  // ---------------------------------------------------------------- the choice

  lemma RanksAreTotal()
    ensures TotalPreorder(RankLe) && TotalPreorder(IdRankLe) && TotalPreorder(RegisteredLe)
  {
    WordsPreorder(RegisteredLe, RegisteredWords);
    ScoredPreorder(RankLe, (e: Evaluation) => e.score, RankWords);
    ScoredPreorder(IdRankLe, (e: Evaluation) => e.score, (e: Evaluation) => e.Ids());
  }

  /** A registered package of the job's family. */
  predicate OfFamily(job: Job, registry: seq<Registered>, item: Registered)
  {
    item in registry && job.classification.Family? && item.package.family == job.classification.id
  }

  predicate Routable(job: Job, registry: seq<Registered>, policy: Policy, item: Registered)
  {
    OfFamily(job, registry, item) && Evaluate(job, item, policy).Executable()
  }

  /** Every registered package of the family is evaluated, and nothing else is. */
  lemma EvaluatedIff(job: Job, registry: seq<Registered>, policy: Policy, e: Evaluation)
    ensures e in RouteJob(job, registry, policy).evaluations <==>
            exists item :: OfFamily(job, registry, item) && e == Evaluate(job, item, policy)
  {
    hide Evaluate, RegisteredLe, SortBy, AllBlockers, Fallback, ReadyOnes;
    if job.classification.Family? {
      var p := (item: Registered) => item.package.family == job.classification.id;
      var items := Packages(registry, job.classification.id);
      SortByMembers(Where(registry, p), RegisteredLe);
      assert items == SortBy(Where(registry, p), RegisteredLe);
      assert forall item :: item in items <==> OfFamily(job, registry, item);
      var evaluations := Evaluations(job, items, policy);
      assert RouteJob(job, registry, policy).evaluations == evaluations;
      if item :| OfFamily(job, registry, item) && e == Evaluate(job, item, policy) {
        var i :| 0 <= i < |items| && items[i] == item;
        assert evaluations[i] == e;
      }
    }
  }

  /** The selection is executable and ranks before every executable evaluation; none is left out. */
  lemma FirstReadyIsBest(job: Job, registry: seq<Registered>, policy: Policy)
    ensures var d := RouteJob(job, registry, policy);
            && (d.selected.Some? ==> d.selected.value in d.evaluations && d.selected.value.Executable()
                                     && forall e | e in d.evaluations && e.Executable() :: RankLe(d.selected.value, e))
            && (d.status == NoRoute ==> forall e | e in d.evaluations :: !e.Executable())
            && (d.selected.Some? <==> d.status == Selected)
  {
    hide Evaluate, RankLe, SortBy, Packages, AllBlockers, Fallback;
    if job.classification.Family? {
      var evaluations := Evaluations(job, Packages(registry, job.classification.id), policy);
      var ready := Where(evaluations, (e: Evaluation) => e.Executable());
      RanksAreTotal();
      if ready != [] {
        FirstIsLeast(ready, RankLe);
      } else {
        forall e | e in evaluations ensures !e.Executable() {
          assert e in ready <==> e in evaluations && e.Executable();
        }
      }
    }
  }

  /**
   * A job of a known family is routed exactly when some registered package of the family is
   * executable, and then to one that ranks before every other such package.
   */
  lemma SelectionIsBest(job: Job, registry: seq<Registered>, policy: Policy)
    ensures var d := RouteJob(job, registry, policy);
            && (d.status == Selected <==> d.selected.Some?)
            && (d.status == Selected <==> exists item :: Routable(job, registry, policy, item))
            && (d.status == NoRoute <==>
                job.classification.Family? && forall item :: !Routable(job, registry, policy, item))
    ensures var chosen := RouteJob(job, registry, policy).selected;
            chosen.Some? ==>
              && (exists item :: Routable(job, registry, policy, item) && chosen.value == Evaluate(job, item, policy))
              && forall item | Routable(job, registry, policy, item) ::
                RankLe(chosen.value, Evaluate(job, item, policy))
  {
    hide Evaluate, RankLe, OfFamily;
    var d := RouteJob(job, registry, policy);
    if job.classification.Family? {
      FirstReadyIsBest(job, registry, policy);
      forall e ensures e in d.evaluations <==>
                       exists item :: OfFamily(job, registry, item) && e == Evaluate(job, item, policy)
      {
        EvaluatedIff(job, registry, policy, e);
      }
      assert d.status == NoRoute <==> d.selected.None?;
      hide RouteJob;
      if d.selected.Some? {
        var item :| OfFamily(job, registry, item) && d.selected.value == Evaluate(job, item, policy);
        assert Routable(job, registry, policy, item);
      }
    } else {
      NoFamily(job, registry);
    }
  }

  lemma NoFamily(job: Job, registry: seq<Registered>)
    requires !job.classification.Family?
    ensures forall item :: !OfFamily(job, registry, item)
  {
  }

  lemma RegisteredAntisymmetric(items: seq<Registered>)
    requires DistinctBy(items, IdsOf)
    ensures Antisymmetric(items, RegisteredLe)
  {
    forall a, b | a in items && b in items && RegisteredLe(a, b) && RegisteredLe(b, a) ensures a == b {
      LeWordsAntisymmetric(RegisteredWords(a), RegisteredWords(b));
      assert RegisteredWords(a)[0] == RegisteredWords(b)[0] && RegisteredWords(a)[1] == RegisteredWords(b)[1];
      hide LeWords;
      var i :| 0 <= i < |items| && items[i] == a;
      var j :| 0 <= j < |items| && items[j] == b;
      assert IdsOf(items[i]) == IdsOf(items[j]);
    }
  }

  lemma {:induction false} WhereDistinct(s: seq<Registered>, p: Registered -> bool)
    requires DistinctBy(s, IdsOf)
    ensures DistinctBy(Where(s, p), IdsOf)
  {
    if s != [] {
      DistinctFront(s, IdsOf);
      WhereDistinct(s[..|s| - 1], p);
      var w := Where(s, p);
      if p(s[|s| - 1]) {
        assert w[..|w| - 1] == Where(s[..|s| - 1], p);
        DistinctFront(w, IdsOf);
      }
    }
  }

  /** A family's packages are listed the same whatever the order of registration. */
  lemma PackagesPermuted(registry: seq<Registered>, other: seq<Registered>, family: string)
    requires ValidRegistry(registry) && multiset(registry) == multiset(other)
    ensures Packages(registry, family) == Packages(other, family)
  {
    hide SortBy, Where, DistinctBy, RegisteredLe;
    var p := (item: Registered) => item.package.family == family;
    var s, t := Where(registry, p), Where(other, p);
    assert Packages(registry, family) == SortBy(s, RegisteredLe) && Packages(other, family) == SortBy(t, RegisteredLe);
    RanksAreTotal();
    WherePermuted(registry, other, p);
    WhereDistinct(registry, p);
    SortByElements(s, RegisteredLe);
    SortByElements(t, RegisteredLe);
    SortByOrdered(s, RegisteredLe);
    SortByOrdered(t, RegisteredLe);
    DistinctPermuted(s, SortBy(s, RegisteredLe), IdsOf);
    RegisteredAntisymmetric(SortBy(s, RegisteredLe));
    OrderedUnique(SortBy(s, RegisteredLe), SortBy(t, RegisteredLe), RegisteredLe);
  }

  /** The whole decision is the same whatever the order of registration. */
  lemma RegistrationOrderDoesNotMatter(job: Job, registry: seq<Registered>, other: seq<Registered>, policy: Policy)
    requires ValidRegistry(registry) && multiset(registry) == multiset(other)
    ensures RouteJob(job, registry, policy) == RouteJob(job, other, policy)
  {
    hide Packages, Evaluations;
    if job.classification.Family? {
      PackagesPermuted(registry, other, job.classification.id);
    }
  }

  // ---------------------------------------------------------------- tighter constraints

  /** A list of names that stands for no restriction when empty. */
  ghost predicate Narrows(before: set<string>, after: set<string>)
  {
    before == {} || (after != {} && after <= before)
  }

  /** The same job under tighter constraints, privacy and licensing. */
  ghost predicate Tightens(job: Job, tight: Job)
  {
    var c, t := job.constraints, tight.constraints;
    && tight == job.(constraints := t, privacy := tight.privacy, licensing := tight.licensing)
    && (c.localOnly ==> t.localOnly) && (c.openSourceOnly ==> t.openSourceOnly)
      && (t.networkAllowed ==> c.networkAllowed)
    && Narrows(c.allowed, t.allowed) && c.prohibited <= t.prohibited && Narrows(c.pinned, t.pinned)
    && job.privacy <= tight.privacy && Narrows(job.licensing, tight.licensing)
  }

  lemma NoReasonsIff(job: Job, item: Registered, policy: Policy)
    ensures JobReasons(job, item, policy) == [] <==>
            var p, c := item.provider, job.constraints;
            && (c.localOnly || policy.requireLocal ==> p.mode == Local && !p.networkRequired)
            && (p.networkRequired ==> c.networkAllowed) && (c.openSourceOnly ==> p.openSource)
            && job.privacy <= p.privacy && (job.licensing == {} || p.license in job.licensing)
            && (c.allowed == {} || p.id in c.allowed) && p.id !in c.prohibited
            && (c.pinned == {} || Pin(p.id, p.version) in c.pinned)
  {
    var p := item.provider;
    if job.privacy - p.privacy == {} {
      forall x | x in job.privacy ensures x in p.privacy { assert x !in job.privacy - p.privacy; }
    }
  }

  /** The conditions of the organisation's policy. */
  ghost predicate Approved(job: Job, item: Registered, policy: Policy)
  {
    var p, k := item.provider, item.package;
    && (policy.allowed == {} || p.id in policy.allowed)
    && (policy.providerVersions == {} || Pin(p.id, p.version) in policy.providerVersions)
    && (policy.packageVersions == {} || Pin(k.id, k.version) in policy.packageVersions)
    && p.mode !in policy.prohibitedModes
    && match job.template
       case None => !policy.requireTemplate
       case Some(id) => policy.templates == {} || id in policy.templates
  }

  /** The package delivers what is asked for, for the industry, on a runtime that is there. */
  ghost predicate Fits(job: Job, item: Registered)
  {
    && job.formats <= item.package.formats && job.deliverables <= item.package.deliverables
    && IndustryMatches(job, item.package) && (item.runtime || item.provider.mode == HandoffOnly)
  }

  /** Everything a run needs is supplied. */
  ghost predicate Supplied(job: Job, item: Registered)
  {
    var k := item.package;
    && k.requiredData <= job.data && k.requiredAssumptions <= job.assumptions
    && (k.acceptedInputs == {} || k.acceptedInputs * job.references != {})
    && item.adapter && item.executor
  }

  lemma DifferenceEmpty(a: set<string>, b: set<string>)
    ensures a - b == {} <==> a <= b
    ensures Sorted(a - b) == [] <==> a <= b
  {
    if a - b == {} {
      forall x | x in a ensures x in b { assert x !in a - b; }
    }
  }

  /** The policy and fit reasons, too, are empty exactly when nothing is wrong. */
  lemma NoOtherReasonsIff(job: Job, item: Registered, policy: Policy)
    ensures PolicyReasons(job, item, policy) == [] <==> Approved(job, item, policy)
    ensures FitReasons(job, item) == [] <==> Fits(job, item)
    ensures Blockers(job, item) == [] <==> Supplied(job, item)
  {
    DifferenceEmpty(job.formats, item.package.formats);
    DifferenceEmpty(job.deliverables, item.package.deliverables);
    DifferenceEmpty(item.package.requiredData, job.data);
    DifferenceEmpty(item.package.requiredAssumptions, job.assumptions);
    hide Sorted;
  }

  /** A package is executable exactly when the job's constraints, the policy, the fit and the supplies all agree. */
  lemma ExecutableIff(job: Job, item: Registered, policy: Policy)
    ensures Evaluate(job, item, policy).Executable() <==>
            JobReasons(job, item, policy) == [] && Approved(job, item, policy) && Fits(job, item) && Supplied(job, item)
  {
    NoOtherReasonsIff(job, item, policy);
    hide JobReasons, PolicyReasons, FitReasons, Approved, Fits, Supplied, Blockers, Score;
  }

  /** Supplying more data, assumptions or inputs only helps, when weights are not negative. */
  lemma MoreSuppliesHelp(job: Job, more: Job, item: Registered, policy: Policy)
    requires more == job.(data := more.data, assumptions := more.assumptions, references := more.references)
    requires job.data <= more.data && job.assumptions <= more.assumptions && job.references <= more.references
    requires policy.weights.readiness >= 0
    ensures var e, m := Evaluate(job, item, policy), Evaluate(more, item, policy);
            m.rejected == e.rejected && m.score >= e.score && (e.Executable() ==> m.Executable())
  {
    NoOtherReasonsIff(job, item, policy);
    NoOtherReasonsIff(more, item, policy);
    SuppliesChangeNoReasons(job, more, item, policy);
    MoreStillSupplied(job, more, item);
    ReadinessScore(job, more, item, policy);
    hide Rejections, Supplied, Score, Blockers, Approved, Fits;
  }

  lemma SuppliesChangeNoReasons(job: Job, more: Job, item: Registered, policy: Policy)
    requires more == job.(data := more.data, assumptions := more.assumptions, references := more.references)
    ensures Rejections(more, item, policy) == Rejections(job, item, policy)
  {
    hide When, Pin;
    assert JobReasons(more, item, policy) == JobReasons(job, item, policy);
    assert PolicyReasons(more, item, policy) == PolicyReasons(job, item, policy);
    assert FitReasons(more, item) == FitReasons(job, item);
    hide JobReasons, PolicyReasons, FitReasons;
  }

  lemma MoreStillSupplied(job: Job, more: Job, item: Registered)
    requires job.data <= more.data && job.assumptions <= more.assumptions && job.references <= more.references
    ensures Supplied(job, item) ==> Supplied(more, item)
  {
    var k := item.package;
    if Supplied(job, item) && k.acceptedInputs != {} {
      var x :| x in k.acceptedInputs * job.references;
      assert x in k.acceptedInputs * more.references;
    }
  }

  lemma ReadinessScore(job: Job, more: Job, item: Registered, policy: Policy)
    requires more == job.(data := more.data, assumptions := more.assumptions, references := more.references)
    requires job.data <= more.data && job.assumptions <= more.assumptions && policy.weights.readiness >= 0
    ensures Score(more, item, policy) >= Score(job, item, policy)
  {
    hide PreferencePoints;
  }

  /** Tightening leaves scores and blockers alone and can only take eligibility away. */
  lemma TighteningOnlyRejects(job: Job, tight: Job, item: Registered, policy: Policy)
    requires Tightens(job, tight)
    ensures var e, t := Evaluate(job, item, policy), Evaluate(tight, item, policy);
            t.score == e.score && t.blockers == e.blockers && (t.Eligible() ==> e.Eligible() && t == e)
  {
    NoReasonsIff(job, item, policy);
    NoReasonsIff(tight, item, policy);
    SameOtherwise(job, tight, item, policy);
    hide JobReasons, PolicyReasons, FitReasons, Blockers, Score;
  }

  lemma SameOtherwise(job: Job, tight: Job, item: Registered, policy: Policy)
    requires Tightens(job, tight)
    ensures PolicyReasons(tight, item, policy) == PolicyReasons(job, item, policy)
    ensures FitReasons(tight, item) == FitReasons(job, item) && Blockers(tight, item) == Blockers(job, item)
    ensures Score(tight, item, policy) == Score(job, item, policy)
  {
    hide When, Missing, PreferencePoints, Points, Sorted, Narrows, Pin;
  }

  lemma RankAntisymmetric(job: Job, items: seq<Registered>, policy: Policy, a: Evaluation, b: Evaluation)
    requires DistinctBy(items, IdsOf) && a in Evaluations(job, items, policy) && b in Evaluations(job, items, policy)
    requires RankLe(a, b) && RankLe(b, a)
    ensures a == b
  {
    hide Evaluate;
    LeWordsAntisymmetric(RankWords(a), RankWords(b));
    assert RankWords(a)[0] == RankWords(b)[0] && RankWords(a)[1] == RankWords(b)[1];
    assert a.item.provider.id == b.item.provider.id && a.item.package.id == b.item.package.id;
    var i :| 0 <= i < |items| && a == Evaluate(job, items[i], policy);
    var j :| 0 <= j < |items| && b == Evaluate(job, items[j], policy);
    EvaluatesItem(job, items[i], policy);
    EvaluatesItem(job, items[j], policy);
    assert IdsOf(items[i]) == IdsOf(items[j]);
  }

  lemma EvaluatesItem(job: Job, item: Registered, policy: Policy)
    ensures Evaluate(job, item, policy).item == item
  {
  }

  lemma PackagesDistinct(registry: seq<Registered>, family: string)
    requires ValidRegistry(registry)
    ensures DistinctBy(Packages(registry, family), IdsOf)
  {
    var p := (item: Registered) => item.package.family == family;
    WhereDistinct(registry, p);
    SortByElements(Where(registry, p), RegisteredLe);
    DistinctPermuted(Where(registry, p), Packages(registry, family), IdsOf);
  }

  /** Tightening that leaves the winner eligible never changes the selection. */
  lemma TighteningKeepsWinner(job: Job, tight: Job, registry: seq<Registered>, policy: Policy)
    requires ValidRegistry(registry) && Tightens(job, tight)
    requires RouteJob(job, registry, policy).selected.Some?
    requires Evaluate(tight, RouteJob(job, registry, policy).selected.value.item, policy).Eligible()
    ensures RouteJob(tight, registry, policy).selected == RouteJob(job, registry, policy).selected
  {
    hide Evaluate, Packages, RankLe, AllBlockers, Fallback, ReadyOnes, SortBy, Evaluation.Executable,
         Evaluation.Eligible;
    var d, t := RouteJob(job, registry, policy), RouteJob(tight, registry, policy);
    FirstReadyIsBest(job, registry, policy);
    FirstReadyIsBest(tight, registry, policy);
    var items := Packages(registry, job.classification.id);
    PackagesDistinct(registry, job.classification.id);
    var w := d.selected.value;
    var i :| 0 <= i < |items| && w == Evaluate(job, items[i], policy);
    EvaluatesItem(job, items[i], policy);
    StaysIn(job, tight, items[i], policy);
    assert t.evaluations[i] == w;
    assert t.selected.Some?;
    var x := t.selected.value;
    var j :| 0 <= j < |items| && x == Evaluate(tight, items[j], policy);
    StaysIn(job, tight, items[j], policy);
    assert d.evaluations[j] == x by { ExecutableIsEligible(x); }
    RankAntisymmetric(job, items, policy, w, x);
  }

  lemma ExecutableIsEligible(e: Evaluation)
    requires e.Executable()
    ensures e.Eligible()
  {
  }

  lemma StaysIn(job: Job, tight: Job, item: Registered, policy: Policy)
    requires Tightens(job, tight)
    ensures Evaluate(tight, item, policy).Eligible() ==> Evaluate(tight, item, policy) == Evaluate(job, item, policy)
  {
    TighteningOnlyRejects(job, tight, item, policy);
  }

  // ---------------------------------------------------------------- what a score counts

  /** How often each weight counts in a score. */
  datatype Counts = Counts(
    industry: nat, deliverables: bool, readiness: bool, format: bool, local: bool, mode: bool, determinism: bool,
    preference: nat, validation: bool)

  ghost function Once(b: bool, weight: int): int
  {
    if b then weight else 0
  }

  /** A weight counts exactly when what it stands for is the case. */
  ghost predicate CountsFor(job: Job, item: Registered, policy: Policy, n: Counts)
  {
    var p, k := item.provider, item.package;
    && (n.industry == 2 <==> job.industry.Some? && job.industry.value in k.industries)
    && (n.industry == 0 <==>
        job.industry.Some? && job.industry.value !in k.industries && "*" !in k.industries)
    && n.industry <= 2
    && (n.deliverables <==> forall x | x in job.deliverables :: x in k.deliverables)
    && (n.readiness <==>
        && (forall x | x in k.requiredData :: x in job.data)
        && forall x | x in k.requiredAssumptions :: x in job.assumptions)
    && (n.format <==> forall x | x in job.formats :: x in k.formats)
    && (n.local <==> p.mode.Local?)
    && (n.mode <==> job.preferredMode.Some? && job.preferredMode.value == p.mode)
    && (n.determinism <==> p.deterministic)
    && (n.validation <==> exists x :: x in k.checks)
    && (p.id !in policy.preferred ==> n.preference == 0)
    && (forall i | 0 <= i < |policy.preferred| && policy.preferred[i] == p.id && p.id !in policy.preferred[..i] ::
          n.preference == |policy.preferred| - i)
  }

  lemma {:induction false} PreferenceIs(preferred: seq<string>, id: string)
    ensures id !in preferred ==> PreferencePoints(preferred, id) == 0
    ensures forall i | 0 <= i < |preferred| && preferred[i] == id && id !in preferred[..i] ::
              PreferencePoints(preferred, id) == |preferred| - i
  {
    if preferred != [] && preferred[0] != id {
      PreferenceIs(preferred[1..], id);
      forall i | 0 <= i < |preferred| && preferred[i] == id && id !in preferred[..i]
        ensures PreferencePoints(preferred, id) == |preferred| - i
      {
        assert preferred[1..][i - 1] == id;
        assert preferred[1..][..i - 1] == preferred[..i][1..];
      }
    } else if preferred != [] {
      assert forall i | 0 < i <= |preferred| :: preferred[..i][0] == preferred[0];
    }
  }

  ghost function CountsOf(job: Job, item: Registered, policy: Policy): Counts
  {
    var p, k := item.provider, item.package;
    var points := PreferencePoints(policy.preferred, p.id);
    var named := job.industry.Some? && job.industry.value in k.industries;
    Counts(
      if named then 2 else if job.industry.None? || "*" in k.industries then 1 else 0,
      job.deliverables <= k.deliverables,
      k.requiredData <= job.data && k.requiredAssumptions <= job.assumptions, job.formats <= k.formats,
      p.mode == Local, job.preferredMode == Some(p.mode), p.deterministic,
      if points >= 0 then points else 0, k.checks != {})
  }

  lemma CountsHold(job: Job, item: Registered, policy: Policy)
    ensures CountsFor(job, item, policy, CountsOf(job, item, policy))
  {
    PreferenceIs(policy.preferred, item.provider.id);
    hide PreferencePoints;
  }

  lemma IndustryCounts(job: Job, k: Manifest, w: int)
    ensures (if !IndustryMatches(job, k) then 0
             else w * (if job.industry.Some? && job.industry.value in k.industries then 2 else 1)) ==
            w * (if job.industry.Some? && job.industry.value in k.industries then 2
                 else if job.industry.None? || "*" in k.industries then 1 else 0)
  {
  }

  lemma {:induction false} PointsNonNegative(preferred: seq<string>, id: string)
    ensures PreferencePoints(preferred, id) >= 0
  {
    if preferred != [] && preferred[0] != id { PointsNonNegative(preferred[1..], id); }
  }

  /** The score is the sum of the policy's weights, each as often as it counts. */
  lemma ScoreIsWeighted(job: Job, item: Registered, policy: Policy) returns (n: Counts)
    ensures CountsFor(job, item, policy, n)
    ensures var w := policy.weights;
            Evaluate(job, item, policy).score ==
            w.family + w.industry * n.industry + Once(n.deliverables, w.deliverables)
            + Once(n.readiness, w.readiness) + Once(n.format, w.format) + Once(n.local, w.local)
            + Once(n.mode, w.mode) + Once(n.determinism, w.determinism) + w.preference * n.preference
            + Once(n.validation, w.validation)
  {
    hide Rejections, Blockers, PreferencePoints, CountsFor, IndustryMatches;
    n := CountsOf(job, item, policy);
    CountsHold(job, item, policy);
    PointsNonNegative(policy.preferred, item.provider.id);
    IndustryCounts(job, item.package, policy.weights.industry);
  }

  // ---------------------------------------------------------------- what a reason tells

  /** What the job holds against a package, reason by reason. */
  ghost predicate JobObjects(job: Job, item: Registered, policy: Policy, reason: Reason)
  {
    var p, c := item.provider, job.constraints;
    match reason
    case LocalOnlyNeedsLocal => (c.localOnly || policy.requireLocal) && !p.mode.Local?
    case LocalOnlyForbidsNetwork => (c.localOnly || policy.requireLocal) && p.networkRequired
    case NetworkNotAllowed => p.networkRequired && !c.networkAllowed
    case OpenSourceOnly => c.openSourceOnly && !p.openSource
    case PrivacyNotMet(missing) => missing != {} && forall x :: x in missing <==> x in job.privacy && x !in p.privacy
    case LicenseNotAllowed => p.license !in job.licensing && exists x :: x in job.licensing
    case ProviderNotAllowed => p.id !in c.allowed && exists x :: x in c.allowed
    case ProviderProhibited => p.id in c.prohibited
    case VersionNotPinned => p.id + "@" + p.version !in c.pinned && exists x :: x in c.pinned
    case _ => false
  }

  lemma JobReasonIff(job: Job, item: Registered, policy: Policy, reason: Reason)
    ensures reason in JobReasons(job, item, policy) <==> JobObjects(job, item, policy, reason)
  {
    PlaceReasonIff(job, item, policy, reason);
    TermReasonIff(job, item, policy, reason);
    hide PlaceReasons, TermReasons;
  }

  lemma PlaceReasonIff(job: Job, item: Registered, policy: Policy, reason: Reason)
    ensures reason in PlaceReasons(job, item, policy) <==>
            && JobObjects(job, item, policy, reason)
            && (reason.LocalOnlyNeedsLocal? || reason.LocalOnlyForbidsNetwork? || reason.NetworkNotAllowed?
                || reason.OpenSourceOnly?)
  {
  }

  lemma TermReasonIff(job: Job, item: Registered, policy: Policy, reason: Reason)
    ensures reason in TermReasons(job, item) <==>
            && JobObjects(job, item, policy, reason)
            && (reason.PrivacyNotMet? || reason.LicenseNotAllowed? || reason.ProviderNotAllowed?
                || reason.ProviderProhibited? || reason.VersionNotPinned?)
  {
    if reason.PrivacyNotMet? && JobObjects(job, item, policy, reason) {
      assert reason.missing == job.privacy - item.provider.privacy;
    }
  }

  /** What the policy holds against a package. */
  ghost predicate PolicyObjects(job: Job, item: Registered, policy: Policy, reason: Reason)
  {
    var p, k := item.provider, item.package;
    match reason
    case ProviderNotApproved => p.id !in policy.allowed && exists x :: x in policy.allowed
    case ProviderVersionNotApproved =>
      p.id + "@" + p.version !in policy.providerVersions && exists x :: x in policy.providerVersions
    case PackageVersionNotApproved =>
      k.id + "@" + k.version !in policy.packageVersions && exists x :: x in policy.packageVersions
    case ModeProhibited => p.mode in policy.prohibitedModes
    case TemplateRequired => policy.requireTemplate && job.template.None?
    case TemplateNotApproved =>
      job.template.Some? && job.template.value !in policy.templates && exists x :: x in policy.templates
    case _ => false
  }

  lemma PolicyReasonIff(job: Job, item: Registered, policy: Policy, reason: Reason)
    ensures reason in PolicyReasons(job, item, policy) <==> PolicyObjects(job, item, policy, reason)
  {
  }

  /** What a package cannot do of what the job asks. */
  ghost predicate FitObjects(job: Job, item: Registered, reason: Reason)
  {
    var k := item.package;
    match reason
    case FormatNotSupported(missing) =>
      missing != {} && forall x :: x in missing <==> x in job.formats && x !in k.formats
    case DeliverableNotSupported(missing) =>
      missing != {} && forall x :: x in missing <==> x in job.deliverables && x !in k.deliverables
    case IndustryNotSupported =>
      job.industry.Some? && job.industry.value !in k.industries && "*" !in k.industries
    case RuntimeUnavailable => !item.runtime && !item.provider.mode.HandoffOnly?
    case _ => false
  }

  lemma FitReasonIff(job: Job, item: Registered, reason: Reason)
    ensures reason in FitReasons(job, item) <==> FitObjects(job, item, reason)
  {
    if reason.FormatNotSupported? && FitObjects(job, item, reason) {
      assert reason.missing == job.formats - item.package.formats;
    }
    if reason.DeliverableNotSupported? && FitObjects(job, item, reason) {
      assert reason.missing == job.deliverables - item.package.deliverables;
    }
  }

  /** A package is rejected for exactly what the job, the policy and the fit hold against it. */
  lemma RejectedFor(job: Job, item: Registered, policy: Policy, reason: Reason)
    ensures reason in Evaluate(job, item, policy).rejected <==>
            || JobObjects(job, item, policy, reason) || PolicyObjects(job, item, policy, reason)
            || FitObjects(job, item, reason)
  {
    JobReasonIff(job, item, policy, reason);
    PolicyReasonIff(job, item, policy, reason);
    FitReasonIff(job, item, reason);
    hide JobReasons, PolicyReasons, FitReasons, JobObjects, PolicyObjects, FitObjects, Blockers, Score;
  }

  /** What a package still lacks. */
  ghost predicate Wants(job: Job, item: Registered, blocker: Blocker)
  {
    var k := item.package;
    match blocker
    case MissingData(name) => name in k.requiredData && name !in job.data
    case MissingAssumption(name) => name in k.requiredAssumptions && name !in job.assumptions
    case NoSourceAdapter =>
      (exists x :: x in k.acceptedInputs) && forall x | x in k.acceptedInputs :: x !in job.references
    case NoProviderAdapter => !item.adapter
    case NoProviderExecutor => !item.executor
  }

  lemma MissingIff(names: set<string>, data: bool, blocker: Blocker)
    ensures blocker in Missing(Sorted(names), data) <==>
            if data then blocker.MissingData? && blocker.name in names
            else blocker.MissingAssumption? && blocker.name in names
  {
    var sorted := Sorted(names);
    assert forall x :: x in sorted <==> x in Elements(sorted);
    if x :| x in sorted && blocker == (if data then MissingData(x) else MissingAssumption(x)) {
      var i :| 0 <= i < |sorted| && sorted[i] == x;
      assert Missing(sorted, data)[i] == blocker;
    }
  }

  /** A package is blocked by exactly what it lacks. */
  lemma BlockedBy(job: Job, item: Registered, policy: Policy, blocker: Blocker)
    ensures blocker in Evaluate(job, item, policy).blockers <==> Wants(job, item, blocker)
  {
    var k := item.package;
    MissingIff(k.requiredData - job.data, true, blocker);
    MissingIff(k.requiredAssumptions - job.assumptions, false, blocker);
    hide Sorted, Missing, Rejections, Score;
    if x :| x in k.acceptedInputs && x in job.references {
      assert x in k.acceptedInputs * job.references;
    }
    if k.acceptedInputs * job.references != {} {
      var x :| x in k.acceptedInputs * job.references;
    }
  }

  // ---------------------------------------------------------------- what a decision tells

  /** The order of the choice: score, then provider, package and their versions. */
  lemma RankIs(a: Evaluation, b: Evaluation)
    ensures RankLe(a, b) <==>
            || a.score > b.score
            || (a.score == b.score
                && LeWords(
                     [a.item.provider.id, a.item.package.id, a.item.provider.version, a.item.package.version],
                     [b.item.provider.id, b.item.package.id, b.item.provider.version, b.item.package.version]))
    ensures IdRankLe(a, b) <==>
            || a.score > b.score
            || (a.score == b.score
                && LeWords([a.item.provider.id, a.item.package.id], [b.item.provider.id, b.item.package.id]))
  {
    assert RankWords(a) == [a.item.provider.id, a.item.package.id, a.item.provider.version, a.item.package.version];
    assert RankWords(b) == [b.item.provider.id, b.item.package.id, b.item.provider.version, b.item.package.version];
    hide LeWords;
  }

  /** A decision's status, what it lists as missing, and what remains to fall back on. */
  lemma DecisionTells(job: Job, registry: seq<Registered>, policy: Policy)
    ensures var d := RouteJob(job, registry, policy);
            && (d.status == FamilyAmbiguous <==> job.classification.AmbiguousFamily?)
            && (d.status == FamilyUnsupported <==> job.classification.UnsupportedFamily?)
            && (d.selected.Some? ==> forall b :: b in d.missing <==> b in d.selected.value.blockers)
            && (d.selected.None? ==>
                  forall b :: b in d.missing <==> exists e | e in d.evaluations :: b in e.blockers)
            && (forall e :: e in d.fallback <==>
                  && e in d.evaluations && e.rejected == [] && e.blockers == []
                  && (d.selected.None? || e.item.package.id != d.selected.value.item.package.id))
            && Ordered(d.fallback, IdRankLe)
  {
    RanksAreTotal();
    hide Evaluate, Evaluations, Packages, RankLe, IdRankLe;
    if job.classification.Family? {
      var d := RouteJob(job, registry, policy);
      FallbackIs(d.evaluations, d.selected);
    }
    hide Fallback, ReadyOnes;
  }

  lemma FallbackIs(evaluations: seq<Evaluation>, selected: Option<Evaluation>)
    ensures forall e :: e in Fallback(evaluations, selected) <==>
              && e in evaluations && e.rejected == [] && e.blockers == []
              && (selected.None? || e.item.package.id != selected.value.item.package.id)
    ensures Ordered(Fallback(evaluations, selected), IdRankLe)
  {
    hide IdRankLe, SortBy;
    var p := (e: Evaluation) =>
      e.Executable() && (selected.None? || e.item.package.id != selected.value.item.package.id);
    RanksAreTotal();
    SortByMembers(Where(evaluations, p), IdRankLe);
    SortByOrdered(Where(evaluations, p), IdRankLe);
    assert Fallback(evaluations, selected) == SortBy(Where(evaluations, p), IdRankLe);
  }

  /** Packages are listed by provider, package and version. */
  lemma PackagesSorted(registry: seq<Registered>, family: string)
    ensures var items := Packages(registry, family);
            && (forall item :: item in items <==> item in registry && item.package.family == family)
            && forall i, j | 0 <= i < j < |items| ::
                 LeWords(
                   [items[i].provider.id, items[i].package.id, items[i].package.version],
                   [items[j].provider.id, items[j].package.id, items[j].package.version])
  {
    hide LeWords;
    var p := (item: Registered) => item.package.family == family;
    RanksAreTotal();
    SortByMembers(Where(registry, p), RegisteredLe);
    SortByOrdered(Where(registry, p), RegisteredLe);
    hide SortBy;
    var items := SortBy(Where(registry, p), RegisteredLe);
    assert Packages(registry, family) == items;
    assert forall i, j | 0 <= i < j < |items| :: RegisteredLe(items[i], items[j]);
  }
}
