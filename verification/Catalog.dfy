/** The catalog of provider releases (`registry/catalog.py`). */
module Catalog {
  import opened Ids
  import opened Results
  import opened Sorting

  datatype State = Submitted | Active | Deprecated | Incompatible | Withdrawn

  /** `_TRANSITIONS`. */
  function Allowed(s: State): set<State>
  {
    match s
    case Submitted => {Active, Incompatible, Withdrawn}
    case Active => {Deprecated, Incompatible}
    case Deprecated => {Active, Incompatible, Withdrawn}
    case Incompatible => {Submitted, Withdrawn}
    case Withdrawn => {}
  }

  /**
   * What a release is: it never changes once submitted. `readable` is false when the stored
   * manifest no longer parses, `attested` when its conformance result no longer vouches for it.
   */
  datatype Content = Content(
    provider: string, version: string, manifest: string, manifestSha: string, bundleSha: string,
    conformance: string, conformanceSha: string, executable: bool, readable: bool, attested: bool, created: int)

  datatype Release = Release(content: Content, state: State, available: bool, updated: int)

  /** `sound` stands for the checks of the manifest, the attestation, the receipt and the bundle file. */
  datatype Submission = Submission(
    provider: string, version: string, manifest: string, bundleSha: string, conformance: string, executable: bool,
    sound: bool)

  datatype CatalogError = BadSubmission | ImmutableConflict | NotAllowed | NotActivatable | Unknown | AuditFailed

  type Hash = string -> string

  function Identity(r: Release): (string, string)
  {
    (r.content.provider, r.content.version)
  }

  function IdentityWords(r: Release): seq<string>
  {
    [r.content.provider, r.content.version]
  }

  predicate ReleaseLe(a: Release, b: Release)
  {
    LeWords(IdentityWords(a), IdentityWords(b))
  }

  // ---------------------------------------------------------------- audits

  datatype Reason = InvalidManifest | ManifestHash | ConformanceHash | InvalidAttestation | RuntimeUnavailable

  /** What `audit` finds wrong with an entry. */
  function Issues(hash: Hash, c: Content): set<Reason>
  {
    if !c.readable then {InvalidManifest}
    else
      (if hash(c.manifest) != c.manifestSha then {ManifestHash} else {})
      + (if hash(c.conformance) != c.conformanceSha then {ConformanceHash} else {})
      + (if c.attested then {} else {InvalidAttestation})
  }

  predicate Tampered(hash: Hash, c: Content)
  {
    Issues(hash, c) != {}
  }

  /** The findings about an identity: the dictionary keeps those of its last failing entry. */
  function Finding(hash: Hash, rs: seq<Release>, id: (string, string)): set<Reason>
  {
    if rs == [] then {}
    else
      var last := rs[|rs| - 1];
      if Identity(last) == id && Tampered(hash, last.content) then Issues(hash, last.content)
      else Finding(hash, rs[..|rs| - 1], id)
  }

  /** Why a release of the catalog `rs` cannot stay live. */
  function Reasons(hash: Hash, rs: seq<Release>, r: Release): set<Reason>
  {
    Finding(hash, rs, Identity(r)) + if r.available then {} else {RuntimeUnavailable}
  }

  predicate AuditPasses(hash: Hash, rs: seq<Release>)
  {
    forall r | r in rs :: !Tampered(hash, r.content)
  }

  predicate Live(s: State)
  {
    s in {Submitted, Active, Deprecated}
  }

  /** What every operation keeps: one entry per identity, in order, intact; an active one is executable. */
  ghost predicate Valid(hash: Hash, rs: seq<Release>)
  {
    && DistinctBy(rs, Identity) && Ordered(rs, ReleaseLe) && AuditPasses(hash, rs)
    && forall r | r in rs && r.state == Active :: r.content.executable
  }

  // ---------------------------------------------------------------- operations on the list of releases

  function Position(rs: seq<Release>, id: (string, string)): (i: nat)
    ensures i <= |rs|
    ensures i < |rs| ==> Identity(rs[i]) == id
    ensures forall j | 0 <= j < i :: Identity(rs[j]) != id
  {
    if rs == [] then 0
    else if Identity(rs[0]) == id then 0
    else
      var i := Position(rs[1..], id);
      assert forall j | 1 <= j < i + 1 :: Identity(rs[j]) != id by {
        forall j | 1 <= j < i + 1 ensures Identity(rs[j]) != id { assert rs[j] == rs[1..][j - 1]; }
      }
      i + 1
  }

  function Entry(hash: Hash, s: Submission, available: bool, now: int): Release
  {
    Release(
      Content(
        s.provider, s.version, s.manifest, hash(s.manifest), s.bundleSha, s.conformance, hash(s.conformance),
        s.executable, true, s.sound, now),
      Submitted, available, now)
  }

  predicate SameRelease(a: Content, b: Content)
  {
    a.manifestSha == b.manifestSha && a.bundleSha == b.bundleSha && a.conformanceSha == b.conformanceSha
  }

  function SubmitTx(
    hash: Hash, rs: seq<Release>, s: Submission, available: bool, now: int)
    : (seq<Release>, Result<Release, CatalogError>)
  {
    if !s.sound then (rs, Err(BadSubmission))
    else
      var entry, i := Entry(hash, s, available, now), Position(rs, (s.provider, s.version));
      if i < |rs| then
        (rs, if SameRelease(rs[i].content, entry.content) then Ok(rs[i]) else Err(ImmutableConflict))
      else (SortBy(rs + [entry], ReleaseLe), Ok(entry))
  }

  function TransitionTx(
    rs: seq<Release>, id: (string, string), state: State, now: int): (seq<Release>, Result<Release, CatalogError>)
  {
    var i := Position(rs, id);
    if i == |rs| then (rs, Err(Unknown))
    else if state == rs[i].state then (rs, Ok(rs[i]))
    else if state !in Allowed(rs[i].state) then (rs, Err(NotAllowed))
    else if state == Active && (!rs[i].content.executable || !rs[i].available) then (rs, Err(NotActivatable))
    else
      var moved := rs[i].(state := state, updated := now);
      (rs[i := moved], Ok(moved))
  }

  function AvailabilityTx(
    rs: seq<Release>, id: (string, string), available: bool, now: int): (seq<Release>, Result<Release, CatalogError>)
  {
    var i := Position(rs, id);
    if i == |rs| then (rs, Err(Unknown))
    else
      var marked := rs[i].(available := available, updated := now);
      (rs[i := marked], Ok(marked))
  }

  predicate Falls(hash: Hash, rs: seq<Release>, r: Release)
  {
    Live(r.state) && Reasons(hash, rs, r) != {}
  }

  function Reconciled(hash: Hash, rs: seq<Release>, r: Release, now: int): Release
  {
    if Falls(hash, rs, r) then r.(state := Incompatible, updated := now) else r
  }

  function ReconcileTx(hash: Hash, rs: seq<Release>, now: int): (r: seq<Release>)
    ensures |r| == |rs| && forall i | 0 <= i < |r| :: r[i] == Reconciled(hash, rs, rs[i], now)
  {
    seq(|rs|, i requires 0 <= i < |rs| => Reconciled(hash, rs, rs[i], now))
  }

  // ---------------------------------------------------------------- lists drawn from the catalog

  /** `at` lists the positions of the releases with a property, each once and in catalog order. */
  ghost predicate Positions(at: seq<nat>, rs: seq<Release>, p: Release -> bool)
  {
    && (forall j, k | 0 <= j < k < |at| :: at[j] < at[k])
    && (forall i: nat :: i in at <==> i < |rs| && p(rs[i]))
  }

  lemma PositionsExtend(at: seq<nat>, rs: seq<Release>, p: Release -> bool, r: Release)
    requires Positions(at, rs, p)
    ensures Positions(if p(r) then at + [|rs|] else at, rs + [r], p)
  {
    forall j | 0 <= j < |at| ensures at[j] < |rs| { assert at[j] in at; }
  }

  predicate Offered(r: Release)
  {
    r.state == Active && r.available
  }

  function FallsIn(hash: Hash, rs: seq<Release>): (p: Release -> bool)
    ensures forall r :: p(r) == Falls(hash, rs, r)
  {
    r => Falls(hash, rs, r)
  }

  datatype Change = Change(id: (string, string), reasons: set<Reason>)

  ghost predicate ReportsChanges(hash: Hash, rs: seq<Release>, at: seq<nat>, changes: seq<Change>)
  {
    && |changes| == |at|
    && forall k | 0 <= k < |at| ::
         at[k] < |rs| && changes[k] == Change(Identity(rs[at[k]]), Reasons(hash, rs, rs[at[k]]))
  }

  lemma NothingShown(rs: seq<Release>, p: Release -> bool)
    ensures Positions([], rs[..0], p) && ShowsManifests(rs, [], [])
  {
  }

  lemma ShowsExtend(rs: seq<Release>, at: seq<nat>, manifests: seq<string>, i: nat)
    requires i < |rs| && ShowsManifests(rs, at, manifests)
    ensures ShowsManifests(rs, at + [i], manifests + [rs[i].content.manifest])
  {
  }

  lemma NothingReported(hash: Hash, rs: seq<Release>, p: Release -> bool)
    ensures Positions([], rs[..0], p) && ReportsChanges(hash, rs, [], [])
  {
  }

  lemma ReportsExtend(hash: Hash, rs: seq<Release>, at: seq<nat>, changes: seq<Change>, i: nat)
    requires i < |rs| && ReportsChanges(hash, rs, at, changes)
    ensures ReportsChanges(hash, rs, at + [i], changes + [Change(Identity(rs[i]), Reasons(hash, rs, rs[i]))])
  {
  }

  ghost predicate ShowsManifests(rs: seq<Release>, at: seq<nat>, manifests: seq<string>)
  {
    && |manifests| == |at|
    && forall k | 0 <= k < |at| :: at[k] < |rs| && manifests[k] == rs[at[k]].content.manifest
  }

  // ---------------------------------------------------------------- the catalog

  class ProviderCatalog {
    const hash: Hash
    var releases: seq<Release>

    constructor (hash: Hash)
      ensures this.hash == hash && releases == [] && Valid(hash, releases)
    {
      this.hash := hash;
      releases := [];
    }

    method Submit(s: Submission, available: bool, now: int) returns (r: Result<Release, CatalogError>)
      modifies this
      ensures Valid(hash, old(releases)) ==> Valid(hash, releases)
      ensures (releases, r) == SubmitTx(hash, old(releases), s, available, now)
    {
      hide Valid, Issues;
      if Valid(hash, releases) {
        SubmitKeepsValid(hash, releases, s, available, now);
      }
      if !s.sound {
        return Err(BadSubmission);
      }
      var entry := Entry(hash, s, available, now);
      for i := 0 to |releases|
        invariant forall j | 0 <= j < i :: Identity(releases[j]) != (s.provider, s.version)
        invariant releases == old(releases)
      {
        if Identity(releases[i]) == (s.provider, s.version) {
          if SameRelease(releases[i].content, entry.content) {
            return Ok(releases[i]);
          }
          return Err(ImmutableConflict);
        }
      }
      releases := SortBy(releases + [entry], ReleaseLe);
      r := Ok(entry);
    }

    method Transition(id: (string, string), state: State, now: int) returns (r: Result<Release, CatalogError>)
      modifies this
      ensures Valid(hash, old(releases)) ==> Valid(hash, releases)
      ensures (releases, r) == TransitionTx(old(releases), id, state, now)
    {
      hide Valid;
      if Valid(hash, releases) {
        TransitionKeepsValid(hash, releases, id, state, now);
      }
      for i := 0 to |releases|
        invariant forall j | 0 <= j < i :: Identity(releases[j]) != id
        invariant releases == old(releases)
      {
        var entry := releases[i];
        if Identity(entry) == id {
          if state == entry.state {
            return Ok(entry);
          }
          if state !in Allowed(entry.state) {
            return Err(NotAllowed);
          }
          if state == Active && (!entry.content.executable || !entry.available) {
            return Err(NotActivatable);
          }
          entry := entry.(state := state, updated := now);
          releases := releases[i := entry];
          return Ok(entry);
        }
      }
      r := Err(Unknown);
    }

    method SetAvailability(id: (string, string), available: bool, now: int) returns (r: Result<Release, CatalogError>)
      modifies this
      ensures Valid(hash, old(releases)) ==> Valid(hash, releases)
      ensures (releases, r) == AvailabilityTx(old(releases), id, available, now)
    {
      hide Valid;
      if Valid(hash, releases) {
        AvailabilityKeepsValid(hash, releases, id, available, now);
      }
      for i := 0 to |releases|
        invariant forall j | 0 <= j < i :: Identity(releases[j]) != id
        invariant releases == old(releases)
      {
        if Identity(releases[i]) == id {
          var entry := releases[i].(available := available, updated := now);
          releases := releases[i := entry];
          return Ok(entry);
        }
      }
      r := Err(Unknown);
    }

    /** The findings of the audit by identity. */
    method Findings() returns (findings: map<(string, string), set<Reason>>)
      ensures forall id :: (if id in findings then findings[id] else {}) == Finding(hash, releases, id)
    {
      hide Issues;
      findings := map[];
      for i := 0 to |releases|
        invariant forall id :: (if id in findings then findings[id] else {}) == Finding(hash, releases[..i], id)
      {
        var entry := releases[i];
        var front := releases[..i + 1];
        assert front[..|front| - 1] == releases[..i];
        if Issues(hash, entry.content) != {} {
          findings := findings[Identity(entry) := Issues(hash, entry.content)];
        }
      }
      assert releases[..|releases|] == releases;
    }

    method Reconcile(now: int) returns (changed: seq<Change>)
      modifies this
      ensures Valid(hash, old(releases)) ==> Valid(hash, releases)
      ensures releases == ReconcileTx(hash, old(releases), now)
      ensures exists at :: Positions(at, old(releases), FallsIn(hash, old(releases)))
                           && ReportsChanges(hash, old(releases), at, changed)
    {
      ghost var before := releases;
      ghost var fallen := FallsIn(hash, before);
      ghost var at: seq<nat> := [];
      hide Valid, ReconcileTx, Finding, Positions, ReportsChanges;
      if Valid(hash, before) {
        ReconcileKeepsValid(hash, before, now);
      }
      NothingReported(hash, before, fallen);
      var findings := Findings();
      changed := [];
      for i := 0 to |releases|
        invariant |releases| == |before| && releases[i..] == before[i..]
        invariant forall j | 0 <= j < i :: releases[j] == Reconciled(hash, before, before[j], now)
        invariant Positions(at, before[..i], fallen) && ReportsChanges(hash, before, at, changed)
      {
        var entry := releases[i];
        assert releases[i..][0] == before[i..][0];
        var id := Identity(entry);
        var reasons := if id in findings then findings[id] else {};
        if !entry.available {
          reasons := reasons + {RuntimeUnavailable};
        }
        assert reasons == Reasons(hash, before, entry);
        PositionsExtend(at, before[..i], fallen, entry);
        assert before[..i + 1] == before[..i] + [entry];
        ReportsExtend(hash, before, at, changed, i);
        if reasons != {} && Live(entry.state) {
          at := at + [i];
          releases := releases[i := entry.(state := Incompatible, updated := now)];
          changed := changed + [Change(id, reasons)];
        }
      }
      assert before[..|before|] == before;
      assert releases == ReconcileTx(hash, before, now);
    }

    /** The manifests of active and available releases, in catalog order, unless the audit fails. */
    method ActiveManifests() returns (r: Result<seq<string>, CatalogError>)
      ensures !AuditPasses(hash, releases) ==> r == Err(AuditFailed)
      ensures AuditPasses(hash, releases) ==>
                r.Ok? && exists at :: Positions(at, releases, Offered) && ShowsManifests(releases, at, r.value)
    {
      hide AuditPasses, Positions, ShowsManifests, Offered;
      if !AuditPasses(hash, releases) {
        return Err(AuditFailed);
      }
      var manifests := [];
      ghost var at: seq<nat> := [];
      NothingShown(releases, Offered);
      for i := 0 to |releases|
        invariant Positions(at, releases[..i], Offered) && ShowsManifests(releases, at, manifests)
      {
        PositionsExtend(at, releases[..i], Offered, releases[i]);
        assert releases[..i + 1] == releases[..i] + [releases[i]];
        ShowsExtend(releases, at, manifests, i);
        if Offered(releases[i]) {
          manifests := manifests + [releases[i].content.manifest];
          at := at + [i];
        }
      }
      assert releases[..|releases|] == releases;
      r := Ok(manifests);
    }
  }

  // ---------------------------------------------------------------- what operations keep

  lemma ReleasesAreTotal()
    ensures TotalPreorder(ReleaseLe)
  {
    WordsPreorder(ReleaseLe, IdentityWords);
  }

  lemma SubmitKeepsValid(hash: Hash, rs: seq<Release>, s: Submission, available: bool, now: int)
    requires Valid(hash, rs)
    ensures Valid(hash, SubmitTx(hash, rs, s, available, now).0)
  {
    var entry := Entry(hash, s, available, now);
    var all := rs + [entry];
    if s.sound && Position(rs, (s.provider, s.version)) == |rs| {
      assert DistinctBy(all, Identity);
      ReleasesAreTotal();
      SortByOrdered(all, ReleaseLe);
      SortByElements(all, ReleaseLe);
      SortByMembers(all, ReleaseLe);
      DistinctPermuted(all, SortBy(all, ReleaseLe), Identity);
    }
  }

  lemma UpdateKeepsValid(hash: Hash, rs: seq<Release>, i: nat, r: Release)
    requires Valid(hash, rs) && i < |rs| && r.content == rs[i].content && (r.state == Active ==> r.content.executable)
    ensures Valid(hash, rs[i := r])
  {
    var t := rs[i := r];
    forall j, k | 0 <= j < k < |t| ensures Identity(t[j]) != Identity(t[k]) && ReleaseLe(t[j], t[k]) {
      assert Identity(rs[j]) != Identity(rs[k]) && ReleaseLe(rs[j], rs[k]);
      assert t[j].content == rs[j].content && t[k].content == rs[k].content;
    }
  }

  lemma TransitionKeepsValid(hash: Hash, rs: seq<Release>, id: (string, string), state: State, now: int)
    requires Valid(hash, rs)
    ensures Valid(hash, TransitionTx(rs, id, state, now).0)
  {
    var i := Position(rs, id);
    if i < |rs| && (state == Active ==> rs[i].content.executable) {
      UpdateKeepsValid(hash, rs, i, rs[i].(state := state, updated := now));
    }
    hide Valid;
  }

  lemma AvailabilityKeepsValid(hash: Hash, rs: seq<Release>, id: (string, string), available: bool, now: int)
    requires Valid(hash, rs)
    ensures Valid(hash, AvailabilityTx(rs, id, available, now).0)
  {
    var i := Position(rs, id);
    if i < |rs| {
      UpdateKeepsValid(hash, rs, i, rs[i].(available := available, updated := now));
    }
    hide Valid;
  }

  lemma ReconcileKeepsValid(hash: Hash, rs: seq<Release>, now: int)
    requires Valid(hash, rs)
    ensures Valid(hash, ReconcileTx(hash, rs, now))
  {
    var t := ReconcileTx(hash, rs, now);
    hide Falls;
    forall j, k | 0 <= j < k < |t| ensures Identity(t[j]) != Identity(t[k]) && ReleaseLe(t[j], t[k]) {
      assert Identity(rs[j]) != Identity(rs[k]) && ReleaseLe(rs[j], rs[k]);
      assert t[j].content == rs[j].content && t[k].content == rs[k].content;
    }
  }

  // ---------------------------------------------------------------- runs

  datatype Op =
    | DoSubmit(s: Submission, available: bool, now: int)
    | DoTransition(id: (string, string), state: State, now: int)
    | DoAvailability(id: (string, string), available: bool, now: int)
    | DoReconcile(now: int)

  function Apply(hash: Hash, rs: seq<Release>, op: Op): seq<Release>
  {
    match op
    case DoSubmit(s, available, now) => SubmitTx(hash, rs, s, available, now).0
    case DoTransition(id, state, now) => TransitionTx(rs, id, state, now).0
    case DoAvailability(id, available, now) => AvailabilityTx(rs, id, available, now).0
    case DoReconcile(now) => ReconcileTx(hash, rs, now)
  }

  function Run(hash: Hash, rs: seq<Release>, ops: seq<Op>): seq<Release>
  {
    if ops == [] then rs else Apply(hash, Run(hash, rs, ops[..|ops| - 1]), ops[|ops| - 1])
  }

  lemma ApplyKeepsValid(hash: Hash, rs: seq<Release>, op: Op)
    requires Valid(hash, rs)
    ensures Valid(hash, Apply(hash, rs, op))
  {
    hide Valid, SubmitTx, TransitionTx, AvailabilityTx, ReconcileTx;
    match op
    case DoSubmit(s, available, now) => SubmitKeepsValid(hash, rs, s, available, now);
    case DoTransition(id, state, now) => TransitionKeepsValid(hash, rs, id, state, now);
    case DoAvailability(id, available, now) => AvailabilityKeepsValid(hash, rs, id, available, now);
    case DoReconcile(now) => ReconcileKeepsValid(hash, rs, now);
  }

  lemma {:induction false} RunKeepsValid(hash: Hash, rs: seq<Release>, ops: seq<Op>)
    requires Valid(hash, rs)
    ensures Valid(hash, Run(hash, rs, ops))
  {
    if ops != [] {
      RunKeepsValid(hash, rs, ops[..|ops| - 1]);
      ApplyKeepsValid(hash, Run(hash, rs, ops[..|ops| - 1]), ops[|ops| - 1]);
    }
  }

  /** How one operation may change an entry. */
  ghost predicate Step(before: Release, after: Release)
  {
    && after.content == before.content
    && (after.state == before.state || after.state in Allowed(before.state))
    && (after.state == Active && before.state != Active ==> before.content.executable && before.available)
  }

  lemma SubmitSteps(hash: Hash, rs: seq<Release>, s: Submission, available: bool, now: int, r: Release)
    requires r in rs
    ensures r in SubmitTx(hash, rs, s, available, now).0 && Step(r, r)
  {
    var entry := Entry(hash, s, available, now);
    SortByMembers(rs + [entry], ReleaseLe);
    hide Entry, SortBy, ReleaseLe, SameRelease;
    assert r in rs + [entry];
  }

  lemma TransitionSteps(rs: seq<Release>, id: (string, string), state: State, now: int, k: nat)
    requires k < |rs|
    ensures var after := TransitionTx(rs, id, state, now).0; k < |after| && Step(rs[k], after[k])
  {
  }

  lemma AvailabilitySteps(rs: seq<Release>, id: (string, string), available: bool, now: int, k: nat)
    requires k < |rs|
    ensures var after := AvailabilityTx(rs, id, available, now).0; k < |after| && Step(rs[k], after[k])
  {
  }

  lemma ReconcileSteps(hash: Hash, rs: seq<Release>, now: int, k: nat)
    requires k < |rs|
    ensures var after := ReconcileTx(hash, rs, now); k < |after| && Step(rs[k], after[k])
  {
    hide Reasons;
  }

  /** One operation keeps every entry, changes its content never, and its state only along the lifecycle. */
  lemma ApplySteps(hash: Hash, rs: seq<Release>, op: Op, r: Release)
    requires r in rs
    ensures exists t :: t in Apply(hash, rs, op) && Step(r, t)
  {
    var k :| 0 <= k < |rs| && rs[k] == r;
    hide SubmitTx, TransitionTx, AvailabilityTx, ReconcileTx, Step;
    match op
    case DoSubmit(s, available, now) => SubmitSteps(hash, rs, s, available, now, r);
    case DoTransition(id, state, now) => TransitionSteps(rs, id, state, now, k);
    case DoAvailability(id, available, now) => AvailabilitySteps(rs, id, available, now, k);
    case DoReconcile(now) => ReconcileSteps(hash, rs, now, k);
  }

  /** Over any run a release keeps its content, and a withdrawn one stays withdrawn. */
  lemma {:induction false} ReleasesAreKept(hash: Hash, rs: seq<Release>, ops: seq<Op>, r: Release)
    requires r in rs
    ensures exists t ::
              t in Run(hash, rs, ops) && t.content == r.content && (r.state == Withdrawn ==> t.state == Withdrawn)
  {
    if ops != [] {
      var front := ops[..|ops| - 1];
      ReleasesAreKept(hash, rs, front, r);
      var m :| m in Run(hash, rs, front) && m.content == r.content && (r.state == Withdrawn ==> m.state == Withdrawn);
      ApplySteps(hash, Run(hash, rs, front), ops[|ops| - 1], m);
    }
  }

  lemma PositionFound(rs: seq<Release>, r: Release)
    requires r in rs && forall x | x in rs && Identity(x) == Identity(r) :: x == r
    ensures var i := Position(rs, Identity(r)); i < |rs| && rs[i] == r
  {
    var j :| 0 <= j < |rs| && rs[j] == r;
  }

  /** Submitting the same release again changes nothing and answers with the entry as it is now. */
  lemma SubmitAgain(
    hash: Hash, rs: seq<Release>, s: Submission, available: bool, now: int, availableLater: bool, later: int)
    requires SubmitTx(hash, rs, s, available, now).1.Ok?
    ensures var first := SubmitTx(hash, rs, s, available, now);
            SubmitTx(hash, first.0, s, availableLater, later) == first
  {
    var first := SubmitTx(hash, rs, s, available, now);
    var entry := Entry(hash, s, available, now);
    if Position(rs, (s.provider, s.version)) == |rs| {
      SortByMembers(rs + [entry], ReleaseLe);
      assert entry in rs + [entry];
      forall x | x in first.0 && Identity(x) == Identity(entry) ensures x == entry {
        assert x in rs + [entry];
      }
      PositionFound(first.0, entry);
    }
  }

  lemma {:induction false} FindingSame(hash: Hash, a: seq<Release>, b: seq<Release>, id: (string, string))
    requires |a| == |b| && forall i | 0 <= i < |a| :: a[i].content == b[i].content
    ensures Finding(hash, a, id) == Finding(hash, b, id)
  {
    if a != [] {
      FindingSame(hash, a[..|a| - 1], b[..|b| - 1], id);
    }
  }

  /** There is a finding about an identity exactly when some entry under it fails the audit. */
  lemma {:induction false} FindingIff(hash: Hash, rs: seq<Release>, id: (string, string))
    ensures Finding(hash, rs, id) != {} <==> exists r | r in rs :: Identity(r) == id && Tampered(hash, r.content)
  {
    if rs != [] {
      var front, last := rs[..|rs| - 1], rs[|rs| - 1];
      FindingIff(hash, front, id);
      assert forall r :: r in rs <==> r in front || r == last;
    }
  }

  /** With one entry per identity, an entry's reasons are its own. */
  lemma {:induction false} FindingIsOwn(hash: Hash, rs: seq<Release>, i: nat)
    requires DistinctBy(rs, Identity) && i < |rs|
    ensures Finding(hash, rs, Identity(rs[i])) == Issues(hash, rs[i].content)
  {
    var n := |rs| - 1;
    if i < n {
      FindingIsOwn(hash, rs[..n], i);
      assert Identity(rs[i]) != Identity(rs[n]);
    } else {
      FindingIff(hash, rs[..n], Identity(rs[n]));
    }
  }

  /** An intact, available, live entry under the identity of an entry that fails the audit. */
  ghost predicate Shadowed(hash: Hash, rs: seq<Release>, r: Release)
  {
    && r in rs && Live(r.state) && r.available && !Tampered(hash, r.content)
    && exists twin | twin in rs :: Identity(twin) == Identity(r) && Tampered(hash, twin.content)
  }

  /** Releases fall for their own faults alone exactly when nothing intact shares an identity with a faulty entry. */
  lemma FallsForOwnFaultsIff(hash: Hash, rs: seq<Release>)
    ensures (forall r | r in rs :: Falls(hash, rs, r) <==> Live(r.state) && (!r.available || Tampered(hash, r.content)))
            <==> forall r :: !Shadowed(hash, rs, r)
  {
    hide Tampered, Live, Finding;
    forall r | r in rs
      ensures Falls(hash, rs, r) <==>
              (Live(r.state) && (!r.available || Tampered(hash, r.content))) || Shadowed(hash, rs, r)
    {
      FindingIff(hash, rs, Identity(r));
    }
  }

  /** A catalog in which an intact release becomes incompatible. */
  lemma TwinIsCharged(now: int)
    ensures var hash: Hash := (s: string) => s;
            var intact := Release(
              Content("p", "1.0.0", "m", "m", "b", "c", "c", true, true, true, 0), Active, true, 0);
            var broken := intact.(content := intact.content.(manifestSha := "x"));
            && !Tampered(hash, intact.content)
            && ReconcileTx(hash, [intact, broken], now)[0].state == Incompatible
  {
    var hash: Hash := (s: string) => s;
    var intact := Release(Content("p", "1.0.0", "m", "m", "b", "c", "c", true, true, true, 0), Active, true, 0);
    var broken := intact.(content := intact.content.(manifestSha := "x"));
    assert ManifestHash in Issues(hash, broken.content) by { assert "m"[0] != "x"[0]; }
    FindingIff(hash, [intact, broken], Identity(intact));
    assert broken in [intact, broken];
  }

  /** After reconciling, whatever is live is available and intact; reconciling again changes nothing. */
  lemma ReconcileSettles(hash: Hash, rs: seq<Release>, now: int, later: int)
    ensures forall r | r in ReconcileTx(hash, rs, now) && Live(r.state) :: r.available && !Tampered(hash, r.content)
    ensures ReconcileTx(hash, ReconcileTx(hash, rs, now), later) == ReconcileTx(hash, rs, now)
  {
    var t := ReconcileTx(hash, rs, now);
    forall i | 0 <= i < |t| ensures !Falls(hash, t, t[i]) {
      FindingSame(hash, t, rs, Identity(rs[i]));
    }
    forall r | r in t && Live(r.state) ensures r.available && !Tampered(hash, r.content) {
      FindingIff(hash, t, Identity(r));
    }
  }

  // ---------------------------------------------------------------- the lifecycle

  /** What a transition asks of a release that is not in the state already. */
  ghost predicate MayBecome(r: Release, state: State)
  {
    match state
    case Submitted => r.state == Incompatible
    case Active => (r.state == Submitted || r.state == Deprecated) && r.content.executable && r.available
    case Deprecated => r.state == Active
    case Incompatible => r.state == Submitted || r.state == Active || r.state == Deprecated
    case Withdrawn => r.state == Submitted || r.state == Deprecated || r.state == Incompatible
  }

  /** The first entry under an identity is the one that operations act on. */
  ghost predicate ActsOn(rs: seq<Release>, id: (string, string), i: nat)
  {
    i < |rs| && Identity(rs[i]) == id && forall j | 0 <= j < i :: Identity(rs[j]) != id
  }

  /** A transition does nothing to a release in the state already, and otherwise moves it if it may. */
  lemma TransitionReply(rs: seq<Release>, id: (string, string), state: State, now: int)
    ensures var (after, reply) := TransitionTx(rs, id, state, now);
            if forall r | r in rs :: Identity(r) != id then reply == Err(Unknown) && after == rs
            else
              exists i: nat :: ActsOn(rs, id, i) &&
                if rs[i].state == state then reply == Ok(rs[i]) && after == rs
                else if MayBecome(rs[i], state) then
                  && reply == Ok(rs[i].(state := state, updated := now))
                  && after == rs[i := rs[i].(state := state, updated := now)]
                else reply.Err? && after == rs
  {
    var i := Position(rs, id);
    if i < |rs| {
      assert rs[i] in rs;
      assert ActsOn(rs, id, i);
    } else {
      forall r | r in rs ensures Identity(r) != id {
        var j :| 0 <= j < |rs| && rs[j] == r;
      }
    }
  }

  /** Marking availability changes nothing else of the release. */
  lemma AvailabilityReply(rs: seq<Release>, id: (string, string), available: bool, now: int)
    ensures var (after, reply) := AvailabilityTx(rs, id, available, now);
            if forall r | r in rs :: Identity(r) != id then reply == Err(Unknown) && after == rs
            else
              exists i: nat :: ActsOn(rs, id, i)
                && reply == Ok(Release(rs[i].content, rs[i].state, available, now))
                && after == rs[i := Release(rs[i].content, rs[i].state, available, now)]
  {
    var i := Position(rs, id);
    if i < |rs| {
      assert rs[i] in rs;
      assert ActsOn(rs, id, i);
    } else {
      forall r | r in rs ensures Identity(r) != id {
        var j :| 0 <= j < |rs| && rs[j] == r;
      }
    }
  }

  // ---------------------------------------------------------------- audits

  /** Each finding of the audit has its own cause; a manifest that cannot be read hides the others. */
  lemma IssuesTell(hash: Hash, c: Content)
    ensures InvalidManifest in Issues(hash, c) <==> !c.readable
    ensures ManifestHash in Issues(hash, c) <==> c.readable && hash(c.manifest) != c.manifestSha
    ensures ConformanceHash in Issues(hash, c) <==> c.readable && hash(c.conformance) != c.conformanceSha
    ensures InvalidAttestation in Issues(hash, c) <==> c.readable && !c.attested
    ensures RuntimeUnavailable !in Issues(hash, c)
  {
  }

  /** The audit passes exactly when every entry is readable, attested and true to its hashes. */
  lemma AuditPassesIff(hash: Hash, rs: seq<Release>)
    ensures AuditPasses(hash, rs) <==>
            forall i | 0 <= i < |rs| ::
              var c := rs[i].content;
              c.readable && c.attested && hash(c.manifest) == c.manifestSha && hash(c.conformance) == c.conformanceSha
  {
    forall r: Release
      ensures Tampered(hash, r.content) <==>
              !(r.content.readable && r.content.attested && hash(r.content.manifest) == r.content.manifestSha
                && hash(r.content.conformance) == r.content.conformanceSha)
    {
      IssuesTell(hash, r.content);
    }
    hide Issues, Tampered;
    assert forall i | 0 <= i < |rs| :: rs[i] in rs;
  }

  /** What a submission adds: a release in the first state, true to its own hashes. */
  lemma SubmitReply(hash: Hash, rs: seq<Release>, s: Submission, available: bool, now: int)
    ensures var (after, reply) := SubmitTx(hash, rs, s, available, now);
            var id := (s.provider, s.version);
            if !s.sound then reply == Err(BadSubmission) && after == rs
            else if forall r | r in rs :: Identity(r) != id then
              && reply.Ok? && multiset(after) == multiset(rs) + multiset{reply.value} && Ordered(after, ReleaseLe)
              && reply.value.state == Submitted && reply.value.available == available && reply.value.updated == now
              && var c := reply.value.content;
                 && c.provider == s.provider && c.version == s.version && c.manifest == s.manifest
                 && c.conformance == s.conformance && c.bundleSha == s.bundleSha && c.executable == s.executable
                 && c.created == now && Issues(hash, c) == {}
            else
              && after == rs
              && exists i: nat :: ActsOn(rs, id, i)
                   && var c := rs[i].content;
                      var same := hash(s.manifest) == c.manifestSha && s.bundleSha == c.bundleSha
                                  && hash(s.conformance) == c.conformanceSha;
                      reply == if same then Ok(rs[i]) else Err(ImmutableConflict)
  {
    var i := Position(rs, (s.provider, s.version));
    if s.sound {
      if i < |rs| {
        assert rs[i] in rs;
        assert ActsOn(rs, (s.provider, s.version), i);
      } else {
        forall r | r in rs ensures Identity(r) != (s.provider, s.version) {
          var j :| 0 <= j < |rs| && rs[j] == r;
        }
        var entry := Entry(hash, s, available, now);
        ReleasesAreTotal();
        SortByElements(rs + [entry], ReleaseLe);
        SortByOrdered(rs + [entry], ReleaseLe);
      }
    }
    hide SortBy, ReleaseLe;
  }

  /** A release is offered when it is active and available. */
  lemma OfferedIff(r: Release)
    ensures Offered(r) <==> r.state.Active? && r.available
  {
  }

  /** A release falls when it is live and unavailable or its identity has findings. */
  lemma FallsIff(hash: Hash, rs: seq<Release>, r: Release)
    ensures Falls(hash, rs, r) <==>
            && (r.state.Submitted? || r.state.Active? || r.state.Deprecated?)
            && (!r.available
                || exists twin | twin in rs :: Identity(twin) == Identity(r) && Issues(hash, twin.content) != {})
  {
    FindingIff(hash, rs, Identity(r));
    hide Finding, Issues;
  }

  /** A run applies its operations one after the other. */
  lemma {:induction false} RunIsSequential(hash: Hash, rs: seq<Release>, op: Op, ops: seq<Op>)
    ensures Run(hash, rs, []) == rs
    ensures Run(hash, rs, [op] + ops) == Run(hash, Apply(hash, rs, op), ops)
  {
    hide Apply;
    if ops == [] {
      assert [op] + [] == [op] && [op][..0] == [];
    } else {
      var n := |ops| - 1;
      RunIsSequential(hash, rs, op, ops[..n]);
      assert ([op] + ops)[..n + 1] == [op] + ops[..n];
    }
  }

  /** The catalog is listed by provider and version. */
  lemma CatalogIsSorted(hash: Hash, rs: seq<Release>, i: nat, j: nat)
    requires Valid(hash, rs) && i < j < |rs|
    ensures Lt(rs[i].content.provider, rs[j].content.provider)
            || (rs[i].content.provider == rs[j].content.provider && Lt(rs[i].content.version, rs[j].content.version))
  {
    assert ReleaseLe(rs[i], rs[j]) && Identity(rs[i]) != Identity(rs[j]);
    var a, b := IdentityWords(rs[i]), IdentityWords(rs[j]);
    assert a[1..] == [rs[i].content.version] && b[1..] == [rs[j].content.version];
    assert a[0] == b[0] ==> LeWords(a[1..], b[1..]);
    hide Le;
  }
}
