/** Choosing the blueprint of a request (`_select_blueprint` and `compile_workflow` in `fmr/workflow.py`). */
module Selection {
  import opened Results
  import opened Sorting
  import opened Plans

  /** A registered blueprint with the roles and terms that it answers to. */
  datatype Offer = Offer(blueprint: Blueprint, roles: set<string>, objective: seq<string>, outputs: set<string>)

  /**
   * What a request asks for: `mentions` says whether its normalized objective contains a term, and
   * `words` counts the words of a term.
   */
  datatype Ask = Ask(role: string, mentions: string -> bool, words: string -> nat, outputs: set<string>)

  datatype SelectionError = Invalid(error: CompileError) | NoMatch | Ambiguous

  function TermPoints(ask: Ask, terms: seq<string>): nat
  {
    if terms == [] then 0
    else
      var last := terms[|terms| - 1];
      TermPoints(ask, terms[..|terms| - 1]) + if ask.mentions(last) then ask.words(last) * 10 else 0
  }

  function Score(ask: Ask, o: Offer): nat
  {
    TermPoints(ask, o.objective) + |o.outputs * ask.outputs| * 3
  }

  predicate Candidate(ask: Ask, o: Offer)
  {
    ask.role in o.roles && Score(ask, o) > 0
  }

  /** The one candidate that scores above every other entry of the registry. */
  ghost predicate Best(ask: Ask, registry: seq<Offer>, o: Offer)
  {
    && o in registry && Candidate(ask, o) && multiset(registry)[o] == 1
    && forall x | x in registry && Candidate(ask, x) && x != o :: Score(ask, x) < Score(ask, o)
  }

  function OfferLe(ask: Ask): (le: (Offer, Offer) -> bool)
    ensures forall a, b :: le(a, b) ==
              (Score(ask, a) > Score(ask, b)
               || (Score(ask, a) == Score(ask, b) && LeWords([a.blueprint.id], [b.blueprint.id])))
  {
    (a: Offer, b: Offer) =>
      Score(ask, a) > Score(ask, b)
      || (Score(ask, a) == Score(ask, b) && LeWords([a.blueprint.id], [b.blueprint.id]))
  }

  lemma OffersAreTotal(ask: Ask)
    ensures TotalPreorder(OfferLe(ask))
  {
    ScoredPreorder(OfferLe(ask), (o: Offer) => Score(ask, o), (o: Offer) => [o.blueprint.id]);
  }

  lemma FirstRepeats(s: seq<Offer>, i: nat)
    requires 0 < i < |s| && s[0] == s[i]
    ensures multiset(s)[s[0]] >= 2
  {
    assert s == [s[0]] + s[1..] && s[1..][i - 1] == s[0];
    assert s[0] in multiset(s[1..]);
  }

  lemma FirstIsAlone(s: seq<Offer>)
    requires s != [] && s[0] !in s[1..]
    ensures multiset(s)[s[0]] == 1
  {
    assert s == [s[0]] + s[1..];
  }

  /** Comparing the first two of the ranking decides whether one candidate stands out. */
  lemma RankingDecides(ask: Ask, registry: seq<Offer>, s: seq<Offer>)
    requires forall x :: multiset(s)[x] == if Candidate(ask, x) then multiset(registry)[x] else 0
    requires forall i, j | 0 <= i < j < |s| :: Score(ask, s[i]) >= Score(ask, s[j])
    ensures s == [] <==> forall x | x in registry :: !Candidate(ask, x)
    ensures s == [] ==> forall o :: !Best(ask, registry, o)
    ensures |s| >= 1 && (|s| == 1 || Score(ask, s[1]) < Score(ask, s[0])) ==> Best(ask, registry, s[0])
    ensures |s| >= 2 && Score(ask, s[1]) == Score(ask, s[0]) ==> forall o :: !Best(ask, registry, o)
  {
    hide Score;
    RankedMembers(ask, registry, s);
    if |s| >= 1 && (|s| == 1 || Score(ask, s[1]) < Score(ask, s[0])) {
      forall i | 1 <= i < |s| ensures Score(ask, s[i]) < Score(ask, s[0]) {}
      FirstIsAlone(s);
      forall x | x in registry && Candidate(ask, x) && x != s[0] ensures Score(ask, x) < Score(ask, s[0]) {
        var i :| 0 <= i < |s| && s[i] == x;
      }
    }
    if |s| >= 2 && Score(ask, s[1]) == Score(ask, s[0]) {
      TiedHasNoBest(ask, registry, s);
    }
  }

  lemma RankedMembers(ask: Ask, registry: seq<Offer>, s: seq<Offer>)
    requires forall x :: multiset(s)[x] == if Candidate(ask, x) then multiset(registry)[x] else 0
    ensures forall x :: x in s <==> x in registry && Candidate(ask, x)
  {
    hide Candidate;
    forall x ensures x in s <==> x in registry && Candidate(ask, x) {
      assert x in s <==> multiset(s)[x] > 0;
      assert x in registry <==> multiset(registry)[x] > 0;
    }
  }

  lemma TiedHasNoBest(ask: Ask, registry: seq<Offer>, s: seq<Offer>)
    requires forall x :: multiset(s)[x] == if Candidate(ask, x) then multiset(registry)[x] else 0
    requires forall i, j | 0 <= i < j < |s| :: Score(ask, s[i]) >= Score(ask, s[j])
    requires |s| >= 2 && Score(ask, s[1]) == Score(ask, s[0])
    ensures forall o :: !Best(ask, registry, o)
  {
    hide Score;
    RankedMembers(ask, registry, s);
    forall o ensures !Best(ask, registry, o) {
      if Best(ask, registry, o) {
        var i :| 0 <= i < |s| && s[i] == o;
        assert s[0] in s && s[1] in s;
        if s[0] == s[1] {
          FirstRepeats(s, 1);
        }
        assert false;
      }
    }
  }

  function IsCandidate(ask: Ask): (p: Offer -> bool)
    ensures forall o :: p(o) == Candidate(ask, o)
  {
    (o: Offer) => Candidate(ask, o)
  }

  /** The candidates, best first. */
  function Ranking(ask: Ask, registry: seq<Offer>): seq<Offer>
  {
    SortBy(Where(registry, IsCandidate(ask)), OfferLe(ask))
  }

  lemma RankingIsRanked(ask: Ask, registry: seq<Offer>)
    ensures forall x :: multiset(Ranking(ask, registry))[x] == if Candidate(ask, x) then multiset(registry)[x] else 0
    ensures forall i, j | 0 <= i < j < |Ranking(ask, registry)| ::
              Score(ask, Ranking(ask, registry)[i]) >= Score(ask, Ranking(ask, registry)[j])
  {
    hide Score, Candidate, Where, SortBy;
    var candidates, le := Where(registry, IsCandidate(ask)), OfferLe(ask);
    OffersAreTotal(ask);
    SortByOrdered(candidates, le);
    SortByElements(candidates, le);
    hide OfferLe, IsCandidate;
    forall x ensures multiset(candidates)[x] == if Candidate(ask, x) then multiset(registry)[x] else 0 {
      WhereCount(registry, IsCandidate(ask), x);
    }
  }

  /** `_select_blueprint`: the request goes to the blueprint that stands out, if there is one. */
  method SelectBlueprint(ask: Ask, registry: seq<Offer>) returns (r: Result<Offer, SelectionError>)
    ensures r.Ok? ==> Best(ask, registry, r.value)
    ensures r.Err? ==> forall o :: !Best(ask, registry, o)
    ensures r.Err? ==> r.error == if exists x | x in registry :: Candidate(ask, x) then Ambiguous else NoMatch
  {
    hide Score, Candidate, OfferLe, Best;
    var candidates := [];
    for n := 0 to |registry|
      invariant candidates == Where(registry[..n], IsCandidate(ask))
    {
      assert registry[..n + 1][..n] == registry[..n];
      if Candidate(ask, registry[n]) {
        candidates := candidates + [registry[n]];
      }
    }
    assert registry[..|registry|] == registry;
    hide Where, SortBy;
    var ranked := SortBy(candidates, OfferLe(ask));
    assert ranked == Ranking(ask, registry);
    RankingIsRanked(ask, registry);
    RankingDecides(ask, registry, ranked);
    if ranked == [] {
      return Err(NoMatch);
    }
    if |ranked| > 1 && Score(ask, ranked[0]) == Score(ask, ranked[1]) {
      return Err(Ambiguous);
    }
    r := Ok(ranked[0]);
  }

  /** At most one entry stands out, and it stands out in any order of the registry. */
  lemma BestPermuted(ask: Ask, registry: seq<Offer>, other: seq<Offer>, a: Offer, b: Offer)
    requires multiset(registry) == multiset(other)
    ensures Best(ask, registry, a) <==> Best(ask, other, a)
    ensures Best(ask, registry, a) && Best(ask, other, b) ==> a == b
  {
    hide Score;
    SameMembers(registry, other);
  }

  /**
   * `compile_workflow`: every registered blueprint must be valid, one must stand out, and that one
   * is compiled.
   */
  method CompileWorkflow(
    h: Digests, req: Request, route: Job -> Route, ask: Ask, registry: seq<Offer>)
    returns (r: Result<Plan, SelectionError>)
    ensures r.Err? ==> r.error.Invalid? == exists o | o in registry :: !ValidBlueprint(o.blueprint)
    ensures r.Err? && r.error.Invalid? ==> exists o | o in registry :: Faulty(o.blueprint, r.error.error)
    ensures r.Err? && !r.error.Invalid? ==>
              r.error == if exists x | x in registry :: Candidate(ask, x) then Ambiguous else NoMatch
    ensures r.Ok? <==>
            && (forall o | o in registry :: ValidBlueprint(o.blueprint))
            && exists o :: Best(ask, registry, o)
    ensures r.Ok? ==>
              exists o :: Best(ask, registry, o)
                && CompiledBody(Compilation(h, req, o.blueprint, route), r.value.body)
                && ValidPlan(h, r.value)
                && r.value.body.blueprintId == o.blueprint.id && r.value.body.blueprintVersion == o.blueprint.version
  {
    hide ValidBlueprint, ValidPlan, CompiledBody, Best, Candidate, Faulty;
    for n := 0 to |registry|
      invariant forall i | 0 <= i < n :: ValidBlueprint(registry[i].blueprint)
    {
      var valid := ValidateBlueprint(registry[n].blueprint);
      if valid.Err? {
        assert registry[n] in registry;
        return Err(Invalid(valid.error));
      }
    }
    var selected := SelectBlueprint(ask, registry);
    if selected.Err? {
      return Err(selected.error);
    }
    var plan := CompileSelected(Compilation(h, req, selected.value.blueprint, route));
    assert selected.value in registry by { BestIsRegistered(ask, registry, selected.value); }
    match plan
    case Ok(p) => r := Ok(p);
  }

  lemma BestIsRegistered(ask: Ask, registry: seq<Offer>, o: Offer)
    requires Best(ask, registry, o)
    ensures o in registry
  {
  }

  // ---------------------------------------------------------------- what a score counts

  /**
   * Ten points for every word of a term that the objective mentions, three for every requested output that
   * is offered, none for anything else.
   */
  lemma ScoreCounts(ask: Ask, o: Offer, term: string, output: string)
    ensures o.objective == [] && o.outputs == {} ==> Score(ask, o) == 0
    ensures Score(ask, o.(objective := o.objective + [term])) ==
            Score(ask, o) + if ask.mentions(term) then 10 * ask.words(term) else 0
    ensures output !in o.outputs ==>
              Score(ask, o.(outputs := o.outputs + {output})) == Score(ask, o) + if output in ask.outputs then 3 else 0
  {
    var terms := o.objective + [term];
    assert terms[..|terms| - 1] == o.objective;
    assert (o.outputs + {output}) * ask.outputs ==
           (o.outputs * ask.outputs) + if output in ask.outputs then {output} else {};
  }

  lemma {:induction false} TermPointsIff(ask: Ask, terms: seq<string>)
    ensures TermPoints(ask, terms) > 0 <==> exists t | t in terms :: ask.mentions(t) && ask.words(t) > 0
  {
    if terms != [] {
      var front, last := terms[..|terms| - 1], terms[|terms| - 1];
      TermPointsIff(ask, front);
      assert forall t :: t in terms <==> t in front || t == last by { assert terms == front + [last]; }
    }
  }

  /** A blueprint is a candidate when it is for the role and shares a term or an output with the request. */
  lemma CandidateIff(ask: Ask, o: Offer)
    ensures Candidate(ask, o) <==>
            && ask.role in o.roles
            && (|| (exists t | t in o.objective :: ask.mentions(t) && ask.words(t) > 0)
                || exists x :: x in o.outputs && x in ask.outputs)
  {
    TermPointsIff(ask, o.objective);
    if x :| x in o.outputs && x in ask.outputs {
      assert x in o.outputs * ask.outputs;
    }
    if |o.outputs * ask.outputs| > 0 {
      var x :| x in o.outputs * ask.outputs;
    }
  }
}
