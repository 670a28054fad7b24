/** The project store (`fmr/workflow_projects.py`): its rows, its event log and its transactions. */
module Projects {
  import opened Ids
  import opened Results
  import opened Plans
  import opened Executor
  import opened Execution

  datatype Status = Planned | PlannedBlocked | ApprovalRecorded | Executed(state: Overall)

  datatype Project = Project(
    id: Id, name: string, plan: Plan, approvals: map<Id, bool>,
    latest: Option<Outcome>, status: Status, version: nat)

  datatype EventKind = ProjectCreated | ApprovalSet(rejected: bool) | ExecutionRecorded(state: Overall)

  datatype Event = Event(project: Id, version: nat, kind: EventKind)

  datatype StoreError =
    | BadPlan
    | BadDisplayField
    | BadName
    | IdentityMismatch
    | NotFound
    | VersionConflict
    | UnknownGates
    | RunFailed(error: ExecutionError)
    | NotEnabled // the step does not belong to a client in that position; the store never returns it

  /** The tables: project rows by identifier, and the event log. */
  datatype Store = Store(rows: map<Id, Project>, log: seq<Event>)

  /** The digests, and the identifier given to a name and a plan hash (a truncated digest: it may collide). */
  datatype Config = Config(h: Digests, idOf: (string, Sha) -> Id)

  const MAX_NAME := 160

  predicate NameAllowed(name: string)
  {
    && 0 < |name| <= MAX_NAME
    && '<' !in name
    && '>' !in name
  }

  /** Lowercase letters and digits, in non-empty groups joined by single underscores. */
  predicate DisplayToken(s: string)
  {
    && s != []
    && s[0] != '_'
    && s[|s| - 1] != '_'
    && (forall i | 0 <= i < |s| :: 'a' <= s[i] <= 'z' || '0' <= s[i] <= '9' || s[i] == '_')
    && (forall i | 0 <= i < |s| - 1 :: !(s[i] == '_' && s[i + 1] == '_'))
  }

  predicate DisplayFieldsAllowed(plan: Plan)
  {
    forall step | step in plan.body.steps :: DisplayToken(step.body.id) && DisplayToken(step.body.capability)
  }

  function Gates(plan: Plan): set<Id>
  {
    set step | step in plan.body.steps && step.body.kind == HumanGate :: step.body.id
  }

  // ---------------------------------------------------------------- normalisation

  predicate AwaitingMandatory(steps: seq<Step>, out: Outcome)
    requires |out.results| == |steps|
  {
    exists i | 0 <= i < |steps| :: steps[i].body.mandatory && out.results[i].state == Awaiting
  }

  /** Reports an approval wait ahead of the dependency blocks that derive from it. */
  function Normalize(steps: seq<Step>, out: Outcome): (r: Outcome)
    requires |out.results| == |steps|
    ensures r.results == out.results
  {
    if out.state == AnyHeld && AwaitingMandatory(steps, out) then out.(state := AnyAwaiting) else out
  }

  ghost predicate SomeMandatory(steps: seq<Step>, out: Outcome, states: set<State>)
    requires |out.results| == |steps|
  {
    exists i :: 0 <= i < |steps| && steps[i].body.mandatory && out.results[i].state in states
  }

  /** Normalisation is the executor's own priority order with waiting moved ahead of held. */
  lemma NormalizedPriority(steps: seq<Step>, results: StepResults)
    requires forall i | 0 <= i < |steps| :: steps[i].body.id in results
    ensures var out := Normalize(steps, Summary(steps, results));
            && (out.state == AnyFailed <==> SomeMandatory(steps, out, {Failed, Rejected}))
            && (out.state == AnyAwaiting <==>
                !SomeMandatory(steps, out, {Failed, Rejected}) && SomeMandatory(steps, out, {Awaiting}))
            && (out.state == AnyHeld <==>
                !SomeMandatory(steps, out, {Failed, Rejected, Awaiting}) && SomeMandatory(steps, out, {Held}))
  {
    var out := Summary(steps, results);
    assert forall states :: MandatoryIn(steps, results, states) <==> SomeMandatory(steps, out, states);
    assert AwaitingMandatory(steps, out) <==> SomeMandatory(steps, out, {Awaiting});
    assert SomeMandatory(steps, out, {Failed, Rejected, Awaiting}) <==>
           SomeMandatory(steps, out, {Failed, Rejected}) || SomeMandatory(steps, out, {Awaiting});
  }

  /** What the store records for a run of a plan. */
  ghost function RecordedOutcome(cfg: Config, plan: Plan, run: Run): Result<Outcome, StoreError>
  {
    if !ValidPlan(cfg.h, plan) then Err(RunFailed(InvalidPlan(PlanIssues(cfg.h, plan))))
    else match PlanOutcome(cfg.h, plan, run)
      case Err(e) => Err(RunFailed(e))
      case Ok(out) =>
        Ok(Normalize(ByPosition(plan.body.steps), out))
  }

  // ---------------------------------------------------------------- transactions

  type Reply = Result<Project, StoreError>

  predicate VersionMatches(project: Project, expected: Option<int>)
  {
    expected.Some? ==> project.version == expected.value
  }

  function NewProject(cfg: Config, name: string, plan: Plan): Project
  {
    Project(cfg.idOf(name, plan.sha), name, plan, map[], None,
            if plan.body.status == PlanBlocked then PlannedBlocked else Planned, 1)
  }

  ghost function CreateTx(cfg: Config, s: Store, name: string, plan: Plan): (Store, Reply)
  {
    if !ValidPlan(cfg.h, plan) then (s, Err(BadPlan))
    else if !DisplayFieldsAllowed(plan) then (s, Err(BadDisplayField))
    else if !NameAllowed(name) then (s, Err(BadName))
    else
      var id := cfg.idOf(name, plan.sha);
      if id in s.rows then
        (s, if s.rows[id].plan == plan && s.rows[id].name == name then Ok(s.rows[id]) else Err(IdentityMismatch))
      else
        var project := NewProject(cfg, name, plan);
        (Store(s.rows[id := project], s.log + [Event(id, 1, ProjectCreated)]), Ok(project))
  }

  function ReadTx(s: Store, id: Id, expected: Option<int>): Reply
  {
    if id !in s.rows then Err(NotFound)
    else if !VersionMatches(s.rows[id], expected) then Err(VersionConflict)
    else Ok(s.rows[id])
  }

  /** The row after a write, its version one up, and the event that says so. */
  function WriteRow(s: Store, project: Project, kind: EventKind): Store
  {
    Store(s.rows[project.id := project], s.log + [Event(project.id, project.version, kind)])
  }

  function ApprovalsTx(s: Store, id: Id, decisions: map<Id, bool>, expected: Option<int>): (Store, Reply)
  {
    var read := ReadTx(s, id, expected);
    if read.Err? then (s, read)
    else if !(decisions.Keys <= Gates(read.value.plan)) then (s, Err(UnknownGates))
    else
      var project := read.value.(
        id := id, approvals := read.value.approvals + decisions,
        status := ApprovalRecorded, version := read.value.version + 1);
      (WriteRow(s, project, ApprovalSet(exists g | g in decisions :: !decisions[g])), Ok(project))
  }

  /** Some decision is about something that is not a human gate of the plan. */
  ghost predicate Stranger(plan: Plan, decisions: map<Id, bool>, g: Id)
  {
    g in decisions && !exists step | step in plan.body.steps :: step.body.kind == HumanGate && step.body.id == g
  }

  /**
   * Decisions about a known project at the expected version are refused exactly when one of them is not
   * about a human gate of its plan; otherwise they are merged over the stored ones, one version up.
   */
  lemma ApprovalsReply(s: Store, id: Id, decisions: map<Id, bool>, expected: Option<int>)
    ensures var (after, reply) := ApprovalsTx(s, id, decisions, expected);
            if id !in s.rows then reply == Err(NotFound) && after == s
            else if expected.Some? && s.rows[id].version != expected.value then
              reply == Err(VersionConflict) && after == s
            else if exists g :: Stranger(s.rows[id].plan, decisions, g) then reply == Err(UnknownGates) && after == s
            else
              && reply.Ok? && after.rows == s.rows[id := reply.value]
              && reply.value == s.rows[id].(
                   id := id, status := ApprovalRecorded, version := s.rows[id].version + 1,
                   approvals := reply.value.approvals)
              && (forall g :: g in reply.value.approvals <==> g in decisions || g in s.rows[id].approvals)
              && (forall g | g in decisions :: reply.value.approvals[g] == decisions[g])
              && forall g | g in s.rows[id].approvals && g !in decisions ::
                   reply.value.approvals[g] == s.rows[id].approvals[g]
  {
    if id in s.rows {
      KnownIff(s.rows[id].plan, decisions);
      hide Gates, Stranger;
    }
  }

  lemma KnownIff(plan: Plan, decisions: map<Id, bool>)
    ensures decisions.Keys <= Gates(plan) <==> forall g :: !Stranger(plan, decisions, g)
  {
    GatesAre(plan);
    hide Gates;
    forall g ensures Stranger(plan, decisions, g) <==> g in decisions && g !in Gates(plan) {}
    hide Stranger;
  }

  lemma GatesAre(plan: Plan)
    ensures forall g :: g in Gates(plan) <==>
                        exists step | step in plan.body.steps :: step.body.kind == HumanGate && step.body.id == g
  {
  }

  function CommitTx(s: Store, snapshot: Project, out: Outcome): (Store, Reply)
  {
    var read := ReadTx(s, snapshot.id, Some(snapshot.version));
    if read.Err? then (s, read)
    else
      var project := read.value.(
        id := snapshot.id, latest := Some(out), status := Executed(out.state), version := read.value.version + 1);
      (WriteRow(s, project, ExecutionRecorded(out.state)), Ok(project))
  }

  // ---------------------------------------------------------------- the store object

  class ProjectStore {
    const cfg: Config
    var rows: map<Id, Project>
    var log: seq<Event>

    constructor (cfg: Config)
      ensures this.cfg == cfg && Tables() == Store(map[], [])
    {
      this.cfg := cfg;
      rows, log := map[], [];
    }

    function Tables(): Store
      reads this
    {
      Store(rows, log)
    }

    method Create(name: string, plan: Plan) returns (r: Reply)
      modifies this
      ensures (Tables(), r) == CreateTx(cfg, old(Tables()), name, plan)
    {
      var issues := ValidatePlan(cfg.h, plan);
      if issues != {} { return Err(BadPlan); }
      if !DisplayFieldsAllowed(plan) { return Err(BadDisplayField); }
      if !NameAllowed(name) { return Err(BadName); }
      var id := cfg.idOf(name, plan.sha);
      if id in rows {
        if rows[id].plan != plan || rows[id].name != name { return Err(IdentityMismatch); }
        return Ok(rows[id]);
      }
      rows := rows[id := NewProject(cfg, name, plan)];
      Append(id, 1, ProjectCreated);
      r := Ok(rows[id]);
    }

    method Append(id: Id, version: nat, kind: EventKind)
      modifies this`log
      ensures log == old(log) + [Event(id, version, kind)]
    {
      log := log + [Event(id, version, kind)];
    }

    method Read(id: Id, expected: Option<int>) returns (r: Reply)
      ensures r == ReadTx(Tables(), id, expected)
    {
      if id !in rows { return Err(NotFound); }
      if expected.Some? && rows[id].version != expected.value { return Err(VersionConflict); }
      r := Ok(rows[id]);
    }

    method SetApprovals(id: Id, decisions: map<Id, bool>, expected: Option<int>) returns (r: Reply)
      modifies this
      ensures (Tables(), r) == ApprovalsTx(old(Tables()), id, decisions, expected)
    {
      var read := Read(id, expected);
      if read.Err? { return read; }
      var project := read.value;
      if !(decisions.Keys <= Gates(project.plan)) { return Err(UnknownGates); }
      project := project.(
        id := id, approvals := project.approvals + decisions,
        status := ApprovalRecorded, version := project.version + 1);
      rows := rows[id := project];
      Append(id, project.version, ApprovalSet(exists g | g in decisions :: !decisions[g]));
      r := Ok(project);
    }

    /** The second transaction of `execute`: it commits only over the version that was run. */
    method CommitExecution(snapshot: Project, out: Outcome) returns (r: Reply)
      modifies this
      ensures (Tables(), r) == CommitTx(old(Tables()), snapshot, out)
    {
      var read := Read(snapshot.id, Some(snapshot.version));
      if read.Err? { return read; }
      var project := read.value.(
        id := snapshot.id, latest := Some(out), status := Executed(out.state), version := read.value.version + 1);
      rows := rows[snapshot.id := project];
      Append(snapshot.id, project.version, ExecutionRecorded(out.state));
      r := Ok(project);
    }

    /** `execute` by a client that nobody interrupts: read, run outside the transaction, commit. */
    method Execute(id: Id, expected: Option<int>, engine: Engine, inputs: map<string, string>) returns (r: Reply)
      modifies this
      ensures var read := ReadTx(old(Tables()), id, expected);
              if read.Err? then Tables() == old(Tables()) && r == read
              else
                var recorded := RecordedOutcome(cfg, read.value.plan, Run(read.value.approvals, engine, inputs));
                if recorded.Err? then Tables() == old(Tables()) && r == Err(recorded.error)
                else (Tables(), r) == CommitTx(old(Tables()), read.value, recorded.value)
    {
      r := Read(id, expected);
      if r.Err? { return; }
      var project := r.value;
      var run := Run(project.approvals, engine, inputs);
      var out := ExecuteWorkflow(cfg.h, project.plan, run);
      match out
      case Err(e) =>
        r := Err(RunFailed(e));
      case Ok(outcome) =>
        r := CommitExecution(project, Normalize(ByPosition(project.plan.body.steps), outcome));
    }
  }

  // ---------------------------------------------------------------- what a creation asks

  /** Tokens are words of letters and digits joined by single underscores. */
  lemma {:induction false} TokenIff(s: string)
    ensures DisplayToken(s) <==> Joined(s, {'_'})
    decreases |s|
  {
    if DisplayToken(s) && !IsWord(s) {
      var k := FirstGroup(s);
      TokenIff(s[k + 1..]);
    }
    if !IsWord(s) && Joined(s, {'_'}) {
      var k: nat :| k < |s| && s[k] in {'_'} && IsWord(s[..k]) && Joined(s[k + 1..], {'_'});
      TokenIff(s[k + 1..]);
      TokenOfParts(s, k);
    }
  }

  lemma FirstGroup(s: string) returns (k: nat)
    requires DisplayToken(s) && !IsWord(s)
    ensures k < |s| && s[k] == '_' && IsWord(s[..k]) && DisplayToken(s[k + 1..])
  {
    var end: nat :| end < |s| && s[end] == '_';
    k := 1;
    while s[k] != '_'
      invariant 1 <= k <= end
      invariant forall i | 0 <= i < k :: s[i] != '_'
      decreases end - k
    {
      k := k + 1;
    }
    var rest := s[k + 1..];
    assert forall i | 0 <= i < |rest| :: rest[i] == s[k + 1 + i];
  }

  lemma TokenOfParts(s: string, k: nat)
    requires k < |s| && s[k] == '_' && IsWord(s[..k]) && DisplayToken(s[k + 1..])
    ensures DisplayToken(s)
  {
    var front, rest := s[..k], s[k + 1..];
    assert s[0] == front[0] && s[|s| - 1] == rest[|rest| - 1];
    forall i | 0 <= i < |s|
      ensures 'a' <= s[i] <= 'z' || '0' <= s[i] <= '9' || s[i] == '_'
      ensures i < |s| - 1 ==> !(s[i] == '_' && s[i + 1] == '_')
    {
      if i < k {
        assert front[i] == s[i];
      } else if i > k {
        assert rest[i - k - 1] == s[i];
        if i < |s| - 1 { assert rest[i - k] == s[i + 1]; }
      } else {
        assert rest[0] == s[i + 1];
      }
    }
  }

  /** Some step has an identifier or a capability that cannot be displayed. */
  ghost predicate Undisplayable(plan: Plan)
  {
    exists step | step in plan.body.steps ::
      !Joined(step.body.id, {'_'}) || !Joined(step.body.capability, {'_'})
  }

  lemma DisplayableIff(plan: Plan)
    ensures DisplayFieldsAllowed(plan) <==> !Undisplayable(plan)
  {
    forall step | step in plan.body.steps
      ensures DisplayToken(step.body.id) <==> Joined(step.body.id, {'_'})
      ensures DisplayToken(step.body.capability) <==> Joined(step.body.capability, {'_'})
    {
      TokenIff(step.body.id);
      TokenIff(step.body.capability);
    }
    hide DisplayToken, Joined;
  }

  /** A name of 1 to 160 characters without angle brackets. */
  ghost predicate IsProjectName(name: string)
  {
    1 <= |name| <= 160 && forall i | 0 <= i < |name| :: name[i] as int != 60 && name[i] as int != 62
  }

  lemma NameAllowedIff(name: string)
    ensures NameAllowed(name) <==> IsProjectName(name)
  {
    assert '<' as int == 60 && '>' as int == 62;
    assert forall i | 0 <= i < |name| :: name[i] in name;
  }

  /** Every reply of a creation, and the row it makes. */
  lemma CreateReply(cfg: Config, s: Store, name: string, plan: Plan)
    ensures var (after, reply) := CreateTx(cfg, s, name, plan);
            var id := cfg.idOf(name, plan.sha);
            if !ValidPlan(cfg.h, plan) then reply == Err(BadPlan) && after == s
            else if Undisplayable(plan) then reply == Err(BadDisplayField) && after == s
            else if !IsProjectName(name) then reply == Err(BadName) && after == s
            else if id in s.rows then
              && after == s
              && (s.rows[id].plan == plan && s.rows[id].name == name ==> reply == Ok(s.rows[id]))
              && (s.rows[id].plan != plan || s.rows[id].name != name ==> reply == Err(IdentityMismatch))
            else
              && reply.Ok? && after.rows == s.rows[id := reply.value]
              && reply.value == Project(id, name, plan, map[], None, reply.value.status, 1)
              && reply.value.status == (if plan.body.status.PlanBlocked? then PlannedBlocked else Planned)
  {
    DisplayableIff(plan);
    NameAllowedIff(name);
    hide ValidPlan, DisplayFieldsAllowed, Undisplayable, NameAllowed, IsProjectName;
  }
}
