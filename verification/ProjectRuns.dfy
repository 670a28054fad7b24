/** Every interleaving of clients on the project store (`fmr/workflow_projects.py`). */
module ProjectRuns {
  import opened Ids
  import opened Results
  import opened Plans
  import opened Executor
  import opened Execution
  import opened Projects

  type Client = nat

  /** The store and, for each client between the two transactions of `execute`, the row it read. */
  datatype System = System(store: Store, pending: map<Client, Project>)

  datatype Action =
    | Create(name: string, plan: Plan)
    | SetApprovals(id: Id, decisions: map<Id, bool>, expected: Option<int>)
    | BeginExecute(client: Client, id: Id, expected: Option<int>)
    | FinishExecute(client: Client, engine: Engine, inputs: map<string, string>)

  /** One atomic step and its reply; a step that its client cannot take changes nothing. */
  ghost function Next(cfg: Config, sys: System, a: Action): (System, Reply)
  {
    match a
    case Create(name, plan) =>
      var (store, reply) := CreateTx(cfg, sys.store, name, plan);
      (sys.(store := store), reply)
    case SetApprovals(id, decisions, expected) =>
      var (store, reply) := ApprovalsTx(sys.store, id, decisions, expected);
      (sys.(store := store), reply)
    case BeginExecute(client, id, expected) =>
      var reply := ReadTx(sys.store, id, expected);
      if client in sys.pending then (sys, Err(NotEnabled))
      else if reply.Err? then (sys, reply)
      else (sys.(pending := sys.pending[client := reply.value]), reply)
    case FinishExecute(client, engine, inputs) =>
      if client !in sys.pending then (sys, Err(NotEnabled))
      else
        var snapshot := sys.pending[client];
        var recorded := RecordedOutcome(cfg, snapshot.plan, Run(snapshot.approvals, engine, inputs));
        if recorded.Err? then (sys.(pending := sys.pending - {client}), Err(recorded.error))
        else
          var (store, reply) := CommitTx(sys.store, snapshot, recorded.value);
          (System(store, sys.pending - {client}), reply)
  }

  const EMPTY := System(Store(map[], []), map[])

  ghost function RunFrom(cfg: Config, sys: System, actions: seq<Action>): System
  {
    if actions == [] then sys
    else Next(cfg, RunFrom(cfg, sys, actions[..|actions| - 1]), actions[|actions| - 1]).0
  }

  // ---------------------------------------------------------------- the invariant

  function EventsOf(log: seq<Event>, id: Id): seq<Event>
  {
    if log == [] then []
    else
      var last := log[|log| - 1];
      EventsOf(log[..|log| - 1], id) + if last.project == id then [last] else []
  }

  /** The status that goes with the last event of a project. */
  ghost predicate StatusFollows(project: Project, kind: EventKind)
  {
    match kind
    case ProjectCreated => project.status == if project.plan.body.status == PlanBlocked then PlannedBlocked else Planned
    case ApprovalSet(_) => project.status == ApprovalRecorded
    case ExecutionRecorded(state) =>
      project.status == Executed(state) && project.latest.Some? && project.latest.value.state == state
  }

  /** A row, and an event list that carries its versions exactly 1, 2, ..., version. */
  ghost predicate RowInv(cfg: Config, id: Id, project: Project, events: seq<Event>)
  {
    && project.id == id
    && ValidPlan(cfg.h, project.plan)
    && project.approvals.Keys <= Gates(project.plan)
    && |events| == project.version >= 1
    && (forall i | 0 <= i < |events| :: events[i].version == i + 1)
    && events[0].kind == ProjectCreated
    && StatusFollows(project, events[|events| - 1].kind)
  }

  /** A row read earlier is no newer than the row now, and the same where the run looks if it is as new. */
  ghost predicate SnapshotInv(store: Store, snapshot: Project)
  {
    && snapshot.id in store.rows
    && var row := store.rows[snapshot.id];
       && snapshot.version <= row.version
       && snapshot.plan == row.plan
       && (snapshot.version == row.version ==> snapshot == row)
  }

  ghost predicate ProjectInv(cfg: Config, store: Store, id: Id)
  {
    if id in store.rows then RowInv(cfg, id, store.rows[id], EventsOf(store.log, id))
    else EventsOf(store.log, id) == []
  }

  ghost predicate Inv(cfg: Config, sys: System)
  {
    && (forall id :: ProjectInv(cfg, sys.store, id))
    && (forall c | c in sys.pending :: SnapshotInv(sys.store, sys.pending[c]))
  }

  /** A write that takes the row one version up, on the same plan, with the status its event implies. */
  ghost predicate Advances(store: Store, project: Project, kind: EventKind)
  {
    && project.id in store.rows
    && project.version == store.rows[project.id].version + 1
    && project.plan == store.rows[project.id].plan
    && project.approvals.Keys <= Gates(project.plan)
    && StatusFollows(project, kind)
  }

  lemma WriteKeepsProject(cfg: Config, store: Store, project: Project, kind: EventKind, id: Id)
    requires ProjectInv(cfg, store, id) && Advances(store, project, kind)
    ensures ProjectInv(cfg, WriteRow(store, project, kind), id)
  {
    hide ValidPlan, Gates, StatusFollows;
  }

  /** Writing one project leaves the others and every open snapshot in order. */
  lemma WriteKeepsInv(cfg: Config, sys: System, project: Project, kind: EventKind)
    requires Inv(cfg, sys) && Advances(sys.store, project, kind)
    ensures Inv(cfg, sys.(store := WriteRow(sys.store, project, kind)))
  {
    hide ProjectInv, Gates, StatusFollows;
    var store := WriteRow(sys.store, project, kind);
    forall id ensures ProjectInv(cfg, store, id) {
      WriteKeepsProject(cfg, sys.store, project, kind, id);
    }
    forall c | c in sys.pending ensures SnapshotInv(store, sys.pending[c]) {
      assert SnapshotInv(sys.store, sys.pending[c]);
    }
  }

  lemma CreateKeepsProject(cfg: Config, store: Store, name: string, plan: Plan, id: Id)
    requires ProjectInv(cfg, store, cfg.idOf(name, plan.sha)) && ProjectInv(cfg, store, id)
    ensures ProjectInv(cfg, CreateTx(cfg, store, name, plan).0, id)
  {
    hide ValidPlan, Gates;
  }

  lemma CreateKeepsInv(cfg: Config, sys: System, name: string, plan: Plan)
    requires Inv(cfg, sys)
    ensures Inv(cfg, sys.(store := CreateTx(cfg, sys.store, name, plan).0))
  {
    hide ProjectInv, ValidPlan;
    var store := CreateTx(cfg, sys.store, name, plan).0;
    assert ProjectInv(cfg, sys.store, cfg.idOf(name, plan.sha));
    forall id ensures ProjectInv(cfg, store, id) {
      CreateKeepsProject(cfg, sys.store, name, plan, id);
    }
    forall c | c in sys.pending ensures SnapshotInv(store, sys.pending[c]) {
      assert SnapshotInv(sys.store, sys.pending[c]);
    }
  }

  lemma NextKeepsInv(cfg: Config, sys: System, a: Action)
    requires Inv(cfg, sys)
    ensures Inv(cfg, Next(cfg, sys, a).0)
  {
    hide ValidPlan, RecordedOutcome, Gates;
    match a
    case Create(name, plan) =>
      CreateKeepsInv(cfg, sys, name, plan);
    case SetApprovals(id, decisions, expected) =>
      var (store, reply) := ApprovalsTx(sys.store, id, decisions, expected);
      assert ProjectInv(cfg, sys.store, id);
      if reply.Ok? {
        WriteKeepsInv(cfg, sys, reply.value, ApprovalSet(exists g | g in decisions :: !decisions[g]));
      }
    case BeginExecute(client, id, expected) =>
      assert ProjectInv(cfg, sys.store, id);
    case FinishExecute(client, engine, inputs) =>
      if client in sys.pending {
        var snapshot := sys.pending[client];
        var closed := sys.(pending := sys.pending - {client});
        assert SnapshotInv(sys.store, snapshot);
        var recorded := RecordedOutcome(cfg, snapshot.plan, Run(snapshot.approvals, engine, inputs));
        if recorded.Ok? && CommitTx(sys.store, snapshot, recorded.value).1.Ok? {
          var project := CommitTx(sys.store, snapshot, recorded.value).1.value;
          assert ProjectInv(cfg, sys.store, snapshot.id);
          WriteKeepsInv(cfg, closed, project, ExecutionRecorded(recorded.value.state));
        }
      }
  }

  /** In every interleaving each project's events carry versions exactly 1..version. */
  lemma {:induction false} RunKeepsInv(cfg: Config, sys: System, actions: seq<Action>)
    requires Inv(cfg, sys)
    ensures Inv(cfg, RunFrom(cfg, sys, actions))
  {
    if actions != [] {
      var front := actions[..|actions| - 1];
      RunKeepsInv(cfg, sys, front);
      NextKeepsInv(cfg, RunFrom(cfg, sys, front), actions[|actions| - 1]);
    }
  }

  lemma ReachableInv(cfg: Config, actions: seq<Action>)
    ensures Inv(cfg, RunFrom(cfg, EMPTY, actions))
  {
    RunKeepsInv(cfg, EMPTY, actions);
  }

  // ---------------------------------------------------------------- what a commit means

  /**
   * Whatever happened since the run began, a commit that succeeds records the run of the
   * stored plan under the approvals in force at the commit.
   */
  lemma CommittedRunIsCurrent(
    cfg: Config, actions: seq<Action>, client: Client, engine: Engine, inputs: map<string, string>)
    requires var sys := RunFrom(cfg, EMPTY, actions);
             client in sys.pending && Next(cfg, sys, FinishExecute(client, engine, inputs)).1.Ok?
    ensures var sys := RunFrom(cfg, EMPTY, actions);
            var (after, reply) := Next(cfg, sys, FinishExecute(client, engine, inputs));
            var id := reply.value.id;
            && id in sys.store.rows
            && var row := sys.store.rows[id];
               var recorded := RecordedOutcome(cfg, row.plan, Run(row.approvals, engine, inputs));
               && recorded.Ok?
               && after.store.rows == sys.store.rows[id := reply.value]
               && reply.value == row.(latest := Some(recorded.value), status := Executed(recorded.value.state),
                                      version := row.version + 1)
  {
    hide ValidPlan, RecordedOutcome, Gates;
    ReachableInv(cfg, actions);
    var sys := RunFrom(cfg, EMPTY, actions);
    assert SnapshotInv(sys.store, sys.pending[client]);
  }

  /** Whether a step writes the row of a project. */
  ghost predicate Writes(cfg: Config, sys: System, a: Action, id: Id)
  {
    var (after, reply) := Next(cfg, sys, a);
    && !a.BeginExecute?
    && reply.Ok?
    && reply.value.id == id
    && after.store != sys.store
  }

  ghost function WriteCount(cfg: Config, sys: System, actions: seq<Action>, id: Id): nat
  {
    if actions == [] then 0
    else
      var front := actions[..|actions| - 1];
      WriteCount(cfg, sys, front, id)
      + if Writes(cfg, RunFrom(cfg, sys, front), actions[|actions| - 1], id) then 1 else 0
  }

  lemma WriteBumpsVersion(cfg: Config, sys: System, a: Action, id: Id)
    requires Inv(cfg, sys) && id in sys.store.rows
    ensures var after := Next(cfg, sys, a).0.store;
            && id in after.rows
            && after.rows[id].version == sys.store.rows[id].version + (if Writes(cfg, sys, a, id) then 1 else 0)
            && (!Writes(cfg, sys, a, id) ==> after.rows[id] == sys.store.rows[id])
  {
    hide ValidPlan, RecordedOutcome, Gates;
    assert ProjectInv(cfg, sys.store, id);
    var (after, reply) := Next(cfg, sys, a);
    assert reply.Ok? && after.store != sys.store ==> |after.store.log| == |sys.store.log| + 1;
    match a
    case Create(name, plan) =>
      var k := cfg.idOf(name, plan.sha);
      assert ProjectInv(cfg, sys.store, k);
    case SetApprovals(k, _, _) =>
      assert ProjectInv(cfg, sys.store, k);
    case BeginExecute(_, k, _) =>
    case FinishExecute(client, _, _) =>
      if client in sys.pending { assert SnapshotInv(sys.store, sys.pending[client]); }
  }

  lemma {:induction false} VersionCountsWrites(cfg: Config, sys: System, actions: seq<Action>, id: Id)
    requires Inv(cfg, sys) && id in sys.store.rows
    ensures id in RunFrom(cfg, sys, actions).store.rows
    ensures RunFrom(cfg, sys, actions).store.rows[id].version ==
            sys.store.rows[id].version + WriteCount(cfg, sys, actions, id)
  {
    if actions != [] {
      var front := actions[..|actions| - 1];
      VersionCountsWrites(cfg, sys, front, id);
      RunKeepsInv(cfg, sys, front);
      WriteBumpsVersion(cfg, RunFrom(cfg, sys, front), actions[|actions| - 1], id);
    }
  }

  /** A client keeps its snapshot until it finishes. */
  lemma {:induction false} PendingStays(cfg: Config, sys: System, actions: seq<Action>, client: Client)
    requires client in sys.pending
    requires forall a | a in actions :: !(a.FinishExecute? && a.client == client)
    ensures client in RunFrom(cfg, sys, actions).pending
    ensures RunFrom(cfg, sys, actions).pending[client] == sys.pending[client]
  {
    if actions != [] {
      var front := actions[..|actions| - 1];
      assert forall a | a in front :: a in actions;
      PendingStays(cfg, sys, front, client);
      assert actions[|actions| - 1] in actions;
    }
  }

  /**
   * Optimistic concurrency, exactly: when the run itself succeeds, the commit is refused iff
   * somebody wrote the project between the two transactions.
   */
  lemma CommitRefusedIffWritten(
    cfg: Config, before: seq<Action>, client: Client, id: Id, expected: Option<int>,
    between: seq<Action>, engine: Engine, inputs: map<string, string>)
    requires var sys := RunFrom(cfg, EMPTY, before);
             client !in sys.pending && Next(cfg, sys, BeginExecute(client, id, expected)).1.Ok?
    requires forall a | a in between :: !(a.FinishExecute? && a.client == client)
    requires var (begun, read) := Next(cfg, RunFrom(cfg, EMPTY, before), BeginExecute(client, id, expected));
             RecordedOutcome(cfg, read.value.plan, Run(read.value.approvals, engine, inputs)).Ok?
    ensures var begun := Next(cfg, RunFrom(cfg, EMPTY, before), BeginExecute(client, id, expected)).0;
            var reply := Next(cfg, RunFrom(cfg, begun, between), FinishExecute(client, engine, inputs)).1;
            && (reply.Ok? <==> WriteCount(cfg, begun, between, id) == 0)
            && (reply.Err? ==> reply.error == VersionConflict)
  {
    hide ValidPlan, RecordedOutcome, Gates;
    var sys := RunFrom(cfg, EMPTY, before);
    ReachableInv(cfg, before);
    var (begun, read) := Next(cfg, sys, BeginExecute(client, id, expected));
    NextKeepsInv(cfg, sys, BeginExecute(client, id, expected));
    assert ProjectInv(cfg, sys.store, id);
    PendingStays(cfg, begun, between, client);
    VersionCountsWrites(cfg, begun, between, id);
    hide WriteCount, Inv, ProjectInv;
    var later := RunFrom(cfg, begun, between);
    hide RunFrom;
    assert later.pending[client] == read.value;
    assert later.store.rows[id].version == read.value.version + WriteCount(cfg, begun, between, id);
    FinishRefusedIff(cfg, later, client, engine, inputs);
    hide Next;
  }

  /** A finishing client whose run succeeds is refused exactly when the row is at another version. */
  lemma FinishRefusedIff(cfg: Config, sys: System, client: Client, engine: Engine, inputs: map<string, string>)
    requires client in sys.pending && sys.pending[client].id in sys.store.rows
    requires RecordedOutcome(cfg, sys.pending[client].plan, Run(sys.pending[client].approvals, engine, inputs)).Ok?
    ensures var reply := Next(cfg, sys, FinishExecute(client, engine, inputs)).1;
            && (reply.Ok? <==> sys.store.rows[sys.pending[client].id].version == sys.pending[client].version)
            && (reply.Err? ==> reply.error == VersionConflict)
  {
    hide RecordedOutcome;
  }

  // ---------------------------------------------------------------- approvals

  /** The decisions acknowledged to anybody for a project, later ones over earlier ones. */
  ghost function Acknowledged(cfg: Config, sys: System, actions: seq<Action>, id: Id): map<Id, bool>
  {
    if actions == [] then map[]
    else
      var front, last := actions[..|actions| - 1], actions[|actions| - 1];
      var earlier := Acknowledged(cfg, sys, front, id);
      if last.SetApprovals? && last.id == id && Next(cfg, RunFrom(cfg, sys, front), last).1.Ok?
      then earlier + last.decisions
      else earlier
  }

  lemma StepApprovals(cfg: Config, sys: System, a: Action, id: Id)
    requires Inv(cfg, sys)
    ensures var (after, reply) := Next(cfg, sys, a);
            id in after.store.rows ==>
              after.store.rows[id].approvals ==
              if id !in sys.store.rows then map[]
              else if a.SetApprovals? && a.id == id && reply.Ok? then sys.store.rows[id].approvals + a.decisions
              else sys.store.rows[id].approvals
  {
    hide ValidPlan, RecordedOutcome, Gates;
    if a.FinishExecute? && a.client in sys.pending {
      assert SnapshotInv(sys.store, sys.pending[a.client]);
    }
  }

  /** No approval is lost: the stored approvals are exactly the acknowledged decisions. */
  lemma {:induction false} ApprovalsAreAcknowledged(cfg: Config, actions: seq<Action>, id: Id)
    ensures var sys := RunFrom(cfg, EMPTY, actions);
            if id in sys.store.rows then sys.store.rows[id].approvals == Acknowledged(cfg, EMPTY, actions, id)
            else Acknowledged(cfg, EMPTY, actions, id) == map[]
  {
    if actions != [] {
      var front := actions[..|actions| - 1];
      ApprovalsAreAcknowledged(cfg, front, id);
      ReachableInv(cfg, front);
      StepApprovals(cfg, RunFrom(cfg, EMPTY, front), actions[|actions| - 1], id);
      if id in RunFrom(cfg, EMPTY, front).store.rows {
        RowsStay(cfg, RunFrom(cfg, EMPTY, front), actions[|actions| - 1], id);
      }
    }
  }

  lemma RowsStay(cfg: Config, sys: System, a: Action, id: Id)
    requires id in sys.store.rows
    ensures id in Next(cfg, sys, a).0.store.rows
  {
  }

  /** Every stored decision is about a human gate of the stored plan. */
  lemma StoredDecisionsAreGates(cfg: Config, actions: seq<Action>, id: Id, g: Id)
    requires var sys := RunFrom(cfg, EMPTY, actions); id in sys.store.rows && g in sys.store.rows[id].approvals
    ensures var plan := RunFrom(cfg, EMPTY, actions).store.rows[id].plan;
            exists step | step in plan.body.steps :: step.body.kind == HumanGate && step.body.id == g
  {
    ReachableInv(cfg, actions);
    var sys := RunFrom(cfg, EMPTY, actions);
    assert ProjectInv(cfg, sys.store, id);
    GatesAre(sys.store.rows[id].plan);
  }

  /**
   * A recorded run reports every gate as it was last decided by anybody: approved, rejected, or waiting
   * when nobody decided, as long as what the gate depends on is accepted.
   */
  lemma RecordedGatesAreAcknowledged(
    cfg: Config, actions: seq<Action>, client: Client, engine: Engine, inputs: map<string, string>, i: nat)
    requires var sys := RunFrom(cfg, EMPTY, actions);
             client in sys.pending && Next(cfg, sys, FinishExecute(client, engine, inputs)).1.Ok?
    requires var project := Next(cfg, RunFrom(cfg, EMPTY, actions), FinishExecute(client, engine, inputs)).1.value;
             var sorted := ByPosition(project.plan.body.steps);
             && i < |sorted| && sorted[i].body.kind == HumanGate && sorted[i].body.status != Blocked
             && project.latest.Some? && |project.latest.value.results| == |sorted|
             && ParentsAccepted(sorted, project.latest.value.results, i)
    ensures var project := Next(cfg, RunFrom(cfg, EMPTY, actions), FinishExecute(client, engine, inputs)).1.value;
            var g := ByPosition(project.plan.body.steps)[i].body.id;
            var decided := Acknowledged(cfg, EMPTY, actions, project.id);
            project.latest.value.results[i].state ==
            if g !in decided then Awaiting else if decided[g] then Approved else Rejected
  {
    hide ValidPlan, PlanOutcome, Gates, ByPosition, ParentsAccepted, Inv, Acknowledged, RunFrom;
    var sys := RunFrom(cfg, EMPTY, actions);
    CommittedRunIsCurrent(cfg, actions, client, engine, inputs);
    var project := Next(cfg, sys, FinishExecute(client, engine, inputs)).1.value;
    hide Next;
    var row := sys.store.rows[project.id];
    ApprovalsAreAcknowledged(cfg, actions, project.id);
    var run := Run(row.approvals, engine, inputs);
    RecordedVerdict(cfg, row.plan, run, i);
  }

  lemma RecordedVerdict(cfg: Config, plan: Plan, run: Run, i: nat)
    requires RecordedOutcome(cfg, plan, run).Ok? && i < |plan.body.steps|
    ensures var sorted, out := ByPosition(plan.body.steps), RecordedOutcome(cfg, plan, run).value;
            |out.results| == |sorted| && IsVerdict(sorted, out.results, i, run)
  {
    hide ValidPlan, PlanOutcome, IsVerdict;
    PlanVerdicts(cfg.h, plan, run, i);
  }

  // ---------------------------------------------------------------- what the steps of a run do

  /** Every step runs its transaction; between the two of an execution the client keeps the row that it read. */
  lemma StepsAre(
    cfg: Config, sys: System, client: Client, id: Id, expected: Option<int>, decisions: map<Id, bool>, name: string,
    plan: Plan, engine: Engine, inputs: map<string, string>)
    ensures var next := Next(cfg, sys, Create(name, plan));
            next == (sys.(store := CreateTx(cfg, sys.store, name, plan).0), CreateTx(cfg, sys.store, name, plan).1)
    ensures var (store, reply) := ApprovalsTx(sys.store, id, decisions, expected);
            Next(cfg, sys, SetApprovals(id, decisions, expected)) == (sys.(store := store), reply)
    ensures client !in sys.pending ==>
              var (next, reply) := Next(cfg, sys, BeginExecute(client, id, expected));
              && reply == ReadTx(sys.store, id, expected) && next.store == sys.store
              && next.pending == if reply.Ok? then sys.pending[client := reply.value] else sys.pending
    ensures client in sys.pending ==>
              var (next, reply) := Next(cfg, sys, FinishExecute(client, engine, inputs));
              var row := sys.pending[client];
              var recorded := RecordedOutcome(cfg, row.plan, Run(row.approvals, engine, inputs));
              && next.pending == sys.pending - {client}
              && (recorded.Err? ==> next.store == sys.store && reply == Err(recorded.error))
              && (recorded.Ok? ==> (next.store, reply) == CommitTx(sys.store, row, recorded.value))
  {
    hide CreateTx, ApprovalsTx, ReadTx, CommitTx, RecordedOutcome;
  }
}
