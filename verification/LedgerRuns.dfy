/** Every run of the ledger: its invariants, its log, and who may hold a key (`fmr/execution.py`). */
module LedgerRuns {
  import opened Ids
  import opened Results
  import opened Ledger

  datatype Op =
    | Claim(key: Key, window: real)
    | Complete(key: Key, result: string)
    | Abandon(key: Key)
    | Recover(window: real)
    | Prune(key: Key)

  /** One transaction at one instant. */
  function Apply(t: Tables, op: Op, now: real): Tables
  {
    match op
    case Claim(key, window) => ClaimTx(t, key, window, now).0
    case Complete(key, result) => CompleteTx(t, key, result, now)
    case Abandon(key) => AbandonTx(t, key, now)
    case Recover(window) => RecoverTx(t, window, now)
    case Prune(key) => PruneTx(t, key, now)
  }

  // ---------------------------------------------------------------- results

  /** A result is stored iff the row is completed. */
  ghost predicate StoredIffCompleted(t: Tables)
  {
    forall k | k in t.rows :: t.rows[k].result.Some? <==> t.rows[k].state == Completed
  }

  lemma StoredIffCompletedKept(t: Tables, op: Op, now: real)
    requires StoredIffCompleted(t)
    ensures StoredIffCompleted(Apply(t, op, now))
  {
    match op
    case Claim(key, window) =>
      var after := ClaimTx(t, key, window, now).0;
      forall k | k in after.rows ensures after.rows[k].result.Some? <==> after.rows[k].state == Completed {
        assert k != key ==> after.rows[k] == t.rows[k];
      }
    case Recover(window) => RecoverRows(t, window, now);
    case Complete(key, _) =>
    case Abandon(key) =>
    case Prune(key) =>
  }

  /** A claim is refused exactly on a running row that is not stale. */
  lemma ClaimRefusedExactly(t: Tables, key: Key, window: real, now: real)
    requires StoredIffCompleted(t)
    ensures ClaimTx(t, key, window, now).1 == InProgress <==>
            key in t.rows && t.rows[key].state == Running && !Stale(t.rows[key], window, now)
    ensures ClaimTx(t, key, window, now).1.Cached? <==> key in t.rows && t.rows[key].state == Completed
  {
  }

  // ---------------------------------------------------------------- the log

  /** What the log says of a key. */
  datatype Replayed = Replayed(state: RowState, claimedAt: real, updatedAt: real, detail: Detail)

  /** Folds the events of a key: a running event starts a claim, any other keeps the claim time. */
  function Replay(log: seq<Event>, key: Key): Option<Replayed>
  {
    if log == [] then None
    else
      var before, e := Replay(log[..|log| - 1], key), log[|log| - 1];
      if e.key != key then before
      else
        var claimed := if e.state == Running || before.None? then e.at else before.value.claimedAt;
        Some(Replayed(e.state, claimed, e.at, e.detail))
  }

  lemma ReplayAppend(log: seq<Event>, e: Event, key: Key)
    ensures Replay(log + [e], key) ==
            var before := Replay(log, key);
            if e.key != key then before
            else
              var claimed := if e.state == Running || before.None? then e.at else before.value.claimedAt;
              Some(Replayed(e.state, claimed, e.at, e.detail))
  {
    assert (log + [e])[..|log|] == log;
  }

  ghost predicate LogAgreesOn(t: Tables, key: Key)
  {
    Replay(t.log, key) ==
    if key in t.rows then
      Some(Replayed(t.rows[key].state, t.rows[key].claimedAt, t.rows[key].updatedAt, t.rows[key].detail))
    else None
  }

  /** Folding the log reproduces every row but its stored result. */
  ghost predicate LogReproducesRows(t: Tables)
  {
    forall key :: LogAgreesOn(t, key)
  }

  /** The transactions whose event matches what they did to the row. */
  predicate Faithful(t: Tables, op: Op, now: real)
  {
    match op
    case Claim(_, _) => true
    case Complete(key, _) => key in t.rows
    case Abandon(key) => key in t.rows
    case Recover(_) => true
    case Prune(key) =>
      && key in t.rows
      && (t.rows[key].state == Completed
          || (t.rows[key].state == Pruned && t.rows[key].updatedAt == now && t.rows[key].detail == RetentionPruned))
  }

  lemma {:induction false} RecoverKeysLog(t: Tables, keys: seq<Key>, now: real)
    requires LogReproducesRows(t) && forall k | k in keys :: k in t.rows
    ensures LogReproducesRows(RecoverKeys(t, keys, now))
  {
    if keys != [] {
      var front, last := keys[..|keys| - 1], keys[|keys| - 1];
      RecoverKeysLog(t, front, now);
      RecoverKeysRows(t, front, now);
      var before := RecoverKeys(t, front, now);
      forall key ensures LogAgreesOn(RecoverKeys(t, keys, now), key) {
        assert LogAgreesOn(before, key);
        ReplayAppend(before.log, Event(last, Abandoned, now, StaleRecovered), key);
      }
    }
  }

  /**
   * Exactly when the log stays a faithful history: completing or abandoning an absent key, or
   * pruning a key that is not completed, appends an event that no row change backs.
   */
  lemma LogStaysFaithfulIff(t: Tables, op: Op, now: real)
    requires LogReproducesRows(t)
    ensures LogReproducesRows(Apply(t, op, now)) <==> Faithful(t, op, now)
  {
    if op.Recover? {
      var keys := Sorted(StaleKeys(t.rows, op.window, now));
      forall k | k in keys ensures k in t.rows {
        assert k in Elements(keys);
      }
      RecoverKeysLog(t, keys, now);
    } else {
      forall key ensures LogAgreesOn(Apply(t, op, now), key) <==> op.key != key || Faithful(t, op, now) {
        assert LogAgreesOn(t, key);
      }
      assert LogAgreesOn(Apply(t, op, now), op.key) <==> Faithful(t, op, now);
    }
  }

  /** Pruning a running key logs an event although the row does not change. */
  lemma PruneOfRunningKeyMisleads(key: Key, window: real)
    ensures var t := ClaimTx(Tables(map[], []), key, window, 0.0).0;
            && LogReproducesRows(t)
            && PruneTx(t, key, 1.0).rows == t.rows
            && Replay(PruneTx(t, key, 1.0).log, key) == Some(Replayed(Pruned, 0.0, 1.0, RetentionPruned))
  {
    var empty := Tables(map[], []);
    LogStaysFaithfulIff(empty, Claim(key, window), 0.0);
    var t := ClaimTx(empty, key, window, 0.0).0;
    assert LogAgreesOn(t, key);
    hide Replay;
    ReplayAppend(t.log, Event(key, Pruned, 1.0, RetentionPruned), key);
  }

  /** Pruning keys one after another, each at its own instant. */
  function PruneAll(t: Tables, keys: seq<Key>, times: seq<real>): Tables
    requires |times| == |keys|
  {
    if keys == [] then t
    else
      var n := |keys| - 1;
      PruneTx(PruneAll(t, keys[..n], times[..n]), keys[n], times[n])
  }

  lemma AscendingSplit(keys: seq<Key>)
    requires Ascending(keys) && keys != []
    ensures var n := |keys| - 1;
            Ascending(keys[..n]) && keys[n] !in keys[..n] && forall k :: k in keys <==> k in keys[..n] || k == keys[n]
  {
    var n := |keys| - 1;
    assert keys == keys[..n] + [keys[n]];
    forall i | 0 <= i < n ensures keys[..n][i] != keys[n] { assert Lt(keys[i], keys[n]); }
  }

  ghost predicate PrunedFrom(before: Row, after: Row)
  {
    after.state == Pruned && after.result.None? && after.claimedAt == before.claimedAt
  }

  lemma {:induction false} PruneAllRows(t: Tables, keys: seq<Key>, times: seq<real>)
    requires |times| == |keys| && Ascending(keys)
    requires forall k | k in keys :: k in t.rows && t.rows[k].state == Completed
    ensures PruneAll(t, keys, times).rows.Keys == t.rows.Keys
    ensures forall k | k in t.rows && k in keys :: PrunedFrom(t.rows[k], PruneAll(t, keys, times).rows[k])
    ensures forall k | k in t.rows && k !in keys :: PruneAll(t, keys, times).rows[k] == t.rows[k]
  {
    if keys != [] {
      var n := |keys| - 1;
      AscendingSplit(keys);
      PruneAllRows(t, keys[..n], times[..n]);
    }
  }

  lemma {:induction false} PruneAllLog(t: Tables, keys: seq<Key>, times: seq<real>)
    requires |times| == |keys| && LogReproducesRows(t) && Ascending(keys)
    requires forall k | k in keys :: k in t.rows && t.rows[k].state == Completed
    ensures LogReproducesRows(PruneAll(t, keys, times))
  {
    if keys != [] {
      var n := |keys| - 1;
      AscendingSplit(keys);
      PruneAllLog(t, keys[..n], times[..n]);
      PruneAllRows(t, keys[..n], times[..n]);
      LogStaysFaithfulIff(PruneAll(t, keys[..n], times[..n]), Prune(keys[n]), times[n]);
    }
  }

  /**
   * Retention prunes some of the keys that `completed_before` lists, in their order: those whose files
   * it could delete. The log stays faithful, and exactly the keys it skipped are still expired.
   */
  lemma RetentionIsFaithful(t: Tables, cutoff: real, keys: seq<Key>, times: seq<real>)
    requires LogReproducesRows(t) && |times| == |keys|
    requires Ascending(keys) && Elements(keys) <= ExpiredKeys(t.rows, cutoff)
    ensures var after := PruneAll(t, keys, times);
            && LogReproducesRows(after)
            && ExpiredKeys(after.rows, cutoff) == ExpiredKeys(t.rows, cutoff) - Elements(keys)
            && after.rows.Keys == t.rows.Keys
            && (forall k | k in t.rows && k in keys ::
                  t.rows[k].state == Completed && t.rows[k].updatedAt < cutoff && PrunedFrom(t.rows[k], after.rows[k]))
            && (forall k | k in t.rows && k !in keys :: after.rows[k] == t.rows[k])
            && forall k | k in t.rows && t.rows[k].updatedAt >= cutoff :: after.rows[k] == t.rows[k]
  {
    forall k | k in keys ensures k in ExpiredKeys(t.rows, cutoff) {
      assert k in Elements(keys);
    }
    PruneAllLog(t, keys, times);
    PruneAllRows(t, keys, times);
  }

  // ---------------------------------------------------------------- workers

  type Worker = nat

  /** A claim a worker was granted and has not released. */
  datatype Holding = Holding(key: Key, since: real)

  /** The tables, the clock, and the workers between a granted claim and its release. */
  datatype System = System(t: Tables, now: real, holders: map<Worker, Holding>)

  datatype Action =
    | Tick(elapsed: real)
    | WorkerClaims(worker: Worker, key: Key)
    | WorkerCompletes(worker: Worker, result: string)
    | WorkerAbandons(worker: Worker)
    | CachedRejected(key: Key)
    | OperatorRecovers(window: real, at: Option<real>)
    | OperatorPrunes(key: Key)

  const EMPTY := System(Tables(map[], []), 0.0, map[])

  /** The stale window every claim on a key uses. */
  type Windows = Key -> real

  /**
   * A step: a worker releases only what it holds, and asks for one claim at a time. A worker that was
   * answered from the cache and finds the result no longer valid abandons the key without holding it.
   */
  function Next(w: Windows, sys: System, a: Action): System
  {
    match a
    case Tick(elapsed) => if elapsed >= 0.0 then sys.(now := sys.now + elapsed) else sys
    case WorkerClaims(worker, key) =>
      if worker in sys.holders then sys
      else
        var (t, reply) := ClaimTx(sys.t, key, w(key), sys.now);
        if reply == Granted then System(t, sys.now, sys.holders[worker := Holding(key, sys.now)]) else sys.(t := t)
    case WorkerCompletes(worker, result) =>
      if worker !in sys.holders then sys
      else System(CompleteTx(sys.t, sys.holders[worker].key, result, sys.now), sys.now, sys.holders - {worker})
    case WorkerAbandons(worker) =>
      if worker !in sys.holders then sys
      else System(AbandonTx(sys.t, sys.holders[worker].key, sys.now), sys.now, sys.holders - {worker})
    case CachedRejected(key) => if key in sys.t.rows then sys.(t := AbandonTx(sys.t, key, sys.now)) else sys
    case OperatorRecovers(window, at) =>
      sys.(t := RecoverTx(sys.t, window, if at.Some? then at.value else sys.now))
    case OperatorPrunes(key) => sys.(t := PruneTx(sys.t, key, sys.now))
  }

  /** At most one worker holds each key, and the row shows that worker's claim. */
  ghost predicate Exclusive(sys: System)
  {
    && StoredIffCompleted(sys.t)
    && (forall h | h in sys.holders ::
          var holding := sys.holders[h];
          && holding.key in sys.t.rows
          && sys.t.rows[holding.key].state == Running
          && sys.t.rows[holding.key].claimedAt == holding.since)
    && (forall g, h | g in sys.holders && h in sys.holders && g != h :: sys.holders[g].key != sys.holders[h].key)
  }

  /** The steps that take a key from a worker that still holds it. */
  ghost predicate Steals(w: Windows, sys: System, a: Action)
  {
    match a
    case WorkerClaims(worker, key) =>
      worker !in sys.holders && exists h | h in sys.holders ::
        sys.holders[h].key == key && sys.now - sys.holders[h].since > w(key)
    case CachedRejected(key) => exists h | h in sys.holders :: sys.holders[h].key == key
    case OperatorRecovers(window, at) =>
      exists h | h in sys.holders :: sys.holders[h].since < (if at.Some? then at.value else sys.now) - window
    case _ => false
  }

  lemma ClaimExclusiveIff(w: Windows, sys: System, worker: Worker, key: Key)
    requires Exclusive(sys)
    ensures Exclusive(Next(w, sys, WorkerClaims(worker, key))) <==> !Steals(w, sys, WorkerClaims(worker, key))
  {
    StoredIffCompletedKept(sys.t, Claim(key, w(key)), sys.now);
    hide StoredIffCompleted;
    var after := Next(w, sys, WorkerClaims(worker, key));
    if Steals(w, sys, WorkerClaims(worker, key)) {
      var h :| h in sys.holders && sys.holders[h].key == key && sys.now - sys.holders[h].since > w(key);
      assert h in after.holders && worker in after.holders && after.holders[h].key == after.holders[worker].key;
    } else {
      forall h | h in after.holders
        ensures var holding := after.holders[h];
                && holding.key in after.t.rows
                && after.t.rows[holding.key].state == Running
                && after.t.rows[holding.key].claimedAt == holding.since
      {
        assert h in sys.holders || h == worker;
      }
      forall g, h | g in after.holders && h in after.holders && g != h
        ensures after.holders[g].key != after.holders[h].key
      {
        assert g in sys.holders || g == worker;
        assert h in sys.holders || h == worker;
      }
    }
  }

  lemma ReleaseKeepsExclusive(w: Windows, sys: System, a: Action)
    requires Exclusive(sys) && (a.WorkerCompletes? || a.WorkerAbandons?)
    ensures Exclusive(Next(w, sys, a))
  {
    if a.worker in sys.holders {
      var key := sys.holders[a.worker].key;
      StoredIffCompletedKept(sys.t, if a.WorkerCompletes? then Complete(key, a.result) else Abandon(key), sys.now);
      hide StoredIffCompleted;
    }
  }

  lemma RecoveredHolding(t: Tables, window: real, now: real, holding: Holding)
    requires holding.key in t.rows
    requires t.rows[holding.key].state == Running && t.rows[holding.key].claimedAt == holding.since
    ensures var rows := RecoverTx(t, window, now).rows;
            && holding.key in rows
            && rows[holding.key].claimedAt == holding.since
            && (rows[holding.key].state == Running <==> holding.since >= now - window)
  {
    RecoverRows(t, window, now);
  }

  lemma RecoveryExclusiveIff(w: Windows, sys: System, window: real, at: Option<real>)
    requires Exclusive(sys)
    ensures Exclusive(Next(w, sys, OperatorRecovers(window, at))) <==> !Steals(w, sys, OperatorRecovers(window, at))
  {
    var clock := if at.Some? then at.value else sys.now;
    StoredIffCompletedKept(sys.t, Recover(window), clock);
    hide StoredIffCompleted, RecoverTx;
    forall h | h in sys.holders
      ensures var rows := RecoverTx(sys.t, window, clock).rows;
              && sys.holders[h].key in rows
              && rows[sys.holders[h].key].claimedAt == sys.holders[h].since
              && (rows[sys.holders[h].key].state == Running <==> sys.holders[h].since >= clock - window)
    {
      RecoveredHolding(sys.t, window, clock, sys.holders[h]);
    }
    assert Next(w, sys, OperatorRecovers(window, at)).holders == sys.holders;
  }

  lemma RejectionExclusiveIff(w: Windows, sys: System, key: Key)
    requires Exclusive(sys)
    ensures Exclusive(Next(w, sys, CachedRejected(key))) <==> !Steals(w, sys, CachedRejected(key))
  {
    StoredIffCompletedKept(sys.t, Abandon(key), sys.now);
    hide StoredIffCompleted;
    if h :| h in sys.holders && sys.holders[h].key == key {
      assert h in Next(w, sys, CachedRejected(key)).holders;
    }
  }

  /**
   * Exactly when a step keeps exclusive ownership: iff it does not overtake a live holder's window and
   * does not reject a cached result of a key that is held.
   */
  lemma ExclusiveKeptIff(w: Windows, sys: System, a: Action)
    requires Exclusive(sys)
    ensures Exclusive(Next(w, sys, a)) <==> !Steals(w, sys, a)
  {
    match a
    case Tick(_) =>
    case WorkerClaims(worker, key) => ClaimExclusiveIff(w, sys, worker, key);
    case WorkerCompletes(_, _) => ReleaseKeepsExclusive(w, sys, a);
    case WorkerAbandons(_) => ReleaseKeepsExclusive(w, sys, a);
    case CachedRejected(key) => RejectionExclusiveIff(w, sys, key);
    case OperatorRecovers(window, at) => RecoveryExclusiveIff(w, sys, window, at);
    case OperatorPrunes(key) =>
      StoredIffCompletedKept(sys.t, Prune(key), sys.now);
      hide StoredIffCompleted;
  }

  function RunFrom(w: Windows, sys: System, actions: seq<Action>): System
  {
    if actions == [] then sys
    else Next(w, RunFrom(w, sys, actions[..|actions| - 1]), actions[|actions| - 1])
  }

  /** Every holder is within its key's window. */
  ghost predicate Timely(w: Windows, sys: System)
  {
    forall h | h in sys.holders :: sys.now - sys.holders[h].since <= w(sys.holders[h].key)
  }

  /**
   * Recovery by the ledger's clock or an earlier one, with a window no shorter than any claim's; and
   * cached results stay valid.
   */
  ghost predicate SafeStep(w: Windows, sys: System, a: Action)
  {
    && !a.CachedRejected?
    && (a.OperatorRecovers? ==> (forall key :: w(key) <= a.window) && (a.at.Some? ==> a.at.value <= sys.now))
  }

  /** Along the run every owner finishes within its window, recovery is safe and cached results stay valid. */
  ghost predicate TimelyRun(w: Windows, sys: System, actions: seq<Action>)
  {
    forall n | 0 <= n < |actions| ::
      var at := RunFrom(w, sys, actions[..n]);
      Timely(w, at) && SafeStep(w, at, actions[n])
  }

  lemma TimelyDoesNotSteal(w: Windows, sys: System, a: Action)
    requires Timely(w, sys) && SafeStep(w, sys, a)
    ensures !Steals(w, sys, a)
  {
    if a.OperatorRecovers? {
      forall h | h in sys.holders
        ensures sys.holders[h].since >= (if a.at.Some? then a.at.value else sys.now) - a.window
      {
        assert w(sys.holders[h].key) <= a.window;
      }
    }
  }

  /** Mutual exclusion in every timely interleaving of workers and operators. */
  lemma {:induction false} MutualExclusion(w: Windows, sys: System, actions: seq<Action>)
    requires Exclusive(sys) && TimelyRun(w, sys, actions)
    ensures Exclusive(RunFrom(w, sys, actions))
  {
    if actions != [] {
      var n := |actions| - 1;
      var front := actions[..n];
      assert TimelyRun(w, sys, front) by {
        forall m | 0 <= m < n ensures front[..m] == actions[..m] && front[m] == actions[m] {}
      }
      MutualExclusion(w, sys, front);
      var at := RunFrom(w, sys, front);
      TimelyDoesNotSteal(w, at, actions[n]);
      ExclusiveKeptIff(w, at, actions[n]);
    }
  }

  /** An owner that outlives its window is overtaken: two workers then hold the same key. */
  lemma SlowOwnerIsOvertaken(w: Windows, key: Key)
    requires w(key) >= 0.0
    ensures var actions := [WorkerClaims(0, key), Tick(w(key) + 1.0), WorkerClaims(1, key)];
            var end := RunFrom(w, EMPTY, actions);
            0 in end.holders && 1 in end.holders && end.holders[0].key == key && end.holders[1].key == key
  {
    var actions := [WorkerClaims(0, key), Tick(w(key) + 1.0), WorkerClaims(1, key)];
    assert actions[..2][..1][..0] == [];
    assert RunFrom(w, EMPTY, actions[..2][..1]) == Next(w, EMPTY, actions[0]);
    assert RunFrom(w, EMPTY, actions[..2]) == Next(w, Next(w, EMPTY, actions[0]), actions[1]);
  }

  /** Once a key is abandoned the next claim on it is granted, whoever else believes to hold it. */
  lemma RejectedThenClaimed(w: Windows, sys: System, key: Key, worker: Worker)
    requires key in sys.t.rows && worker !in sys.holders
    ensures var next := Next(w, Next(w, sys, CachedRejected(key)), WorkerClaims(worker, key));
            && next.holders == sys.holders[worker := Holding(key, sys.now)]
            && next.now == sys.now && key in next.t.rows
  {
  }

  lemma CompletedAtOnce(w: Windows, key: Key)
    ensures var sys := Next(w, Next(w, EMPTY, WorkerClaims(0, key)), WorkerCompletes(0, "result"));
            && sys.holders == map[] && sys.now == 0.0
            && key in sys.t.rows && sys.t.rows[key].state == Completed && sys.t.rows[key].result == Some("result")
  {
  }

  lemma AnsweredFromCache(w: Windows, sys: System, key: Key, worker: Worker)
    requires key in sys.t.rows && sys.t.rows[key].state == Completed && sys.t.rows[key].result.Some?
    ensures Next(w, sys, WorkerClaims(worker, key)) == sys
  {
  }

  /**
   * Two clients were answered from the cache and find the result no longer valid: the second one abandons
   * the claim that a worker was granted in between, and two workers hold the key, with no time elapsed.
   */
  lemma RejectedResultSplitsKey(w: Windows, key: Key)
    ensures var claimed := [WorkerClaims(0, key), WorkerCompletes(0, "result")];
            var answered := claimed + [WorkerClaims(1, key), WorkerClaims(2, key)];
            var rejected := answered + [CachedRejected(key), WorkerClaims(3, key)];
            var end := RunFrom(w, EMPTY, rejected + [CachedRejected(key), WorkerClaims(4, key)]);
            && RunFrom(w, EMPTY, answered).holders == map[]
            && 3 in end.holders && 4 in end.holders && end.holders[3] == end.holders[4] == Holding(key, 0.0)
  {
    hide Next, RunFrom;
    var claimed := [WorkerClaims(0, key), WorkerCompletes(0, "result")];
    var answered := claimed + [WorkerClaims(1, key), WorkerClaims(2, key)];
    var rejected := answered + [CachedRejected(key), WorkerClaims(3, key)];
    TwoSteps(w, EMPTY, [], WorkerClaims(0, key), WorkerCompletes(0, "result"));
    assert [] + claimed == claimed;
    CompletedAtOnce(w, key);
    TwoSteps(w, EMPTY, claimed, WorkerClaims(1, key), WorkerClaims(2, key));
    var sys := RunFrom(w, EMPTY, claimed);
    AnsweredFromCache(w, sys, key, 1);
    AnsweredFromCache(w, sys, key, 2);
    TwoSteps(w, EMPTY, answered, CachedRejected(key), WorkerClaims(3, key));
    RejectedThenClaimed(w, sys, key, 3);
    TwoSteps(w, EMPTY, rejected, CachedRejected(key), WorkerClaims(4, key));
    RejectedThenClaimed(w, RunFrom(w, EMPTY, rejected), key, 4);
  }

  lemma TwoSteps(w: Windows, sys: System, actions: seq<Action>, a: Action, b: Action)
    ensures RunFrom(w, sys, []) == sys
    ensures RunFrom(w, sys, actions + [a, b]) == Next(w, Next(w, RunFrom(w, sys, actions), a), b)
  {
    var all := actions + [a, b];
    assert all[..|all| - 1] == actions + [a];
    assert (actions + [a])[..|actions|] == actions;
  }

  // ---------------------------------------------------------------- every reachable ledger

  /** In every interleaving, a result is stored iff its row is completed. */
  lemma {:induction false} RunKeepsStored(w: Windows, sys: System, actions: seq<Action>)
    requires StoredIffCompleted(sys.t)
    ensures StoredIffCompleted(RunFrom(w, sys, actions).t)
  {
    if actions != [] {
      var n := |actions| - 1;
      RunKeepsStored(w, sys, actions[..n]);
      StepKeepsStored(w, RunFrom(w, sys, actions[..n]), actions[n]);
    }
  }

  lemma StepKeepsStored(w: Windows, sys: System, a: Action)
    requires StoredIffCompleted(sys.t)
    ensures StoredIffCompleted(Next(w, sys, a).t)
  {
    hide StoredIffCompleted;
    match a
    case Tick(_) =>
    case WorkerClaims(_, key) => StoredIffCompletedKept(sys.t, Claim(key, w(key)), sys.now);
    case WorkerCompletes(worker, result) =>
      if worker in sys.holders { StoredIffCompletedKept(sys.t, Complete(sys.holders[worker].key, result), sys.now); }
    case WorkerAbandons(worker) =>
      if worker in sys.holders { StoredIffCompletedKept(sys.t, Abandon(sys.holders[worker].key), sys.now); }
    case CachedRejected(key) => StoredIffCompletedKept(sys.t, Abandon(key), sys.now);
    case OperatorRecovers(window, at) =>
      StoredIffCompletedKept(sys.t, Recover(window), if at.Some? then at.value else sys.now);
    case OperatorPrunes(key) => StoredIffCompletedKept(sys.t, Prune(key), sys.now);
  }

  /** In every reachable ledger a claim is refused exactly on a running row that is not stale. */
  lemma ReachableClaimRefusedExactly(w: Windows, actions: seq<Action>, key: Key, window: real)
    ensures var sys := RunFrom(w, EMPTY, actions);
            && StoredIffCompleted(sys.t)
            && (ClaimTx(sys.t, key, window, sys.now).1 == InProgress <==>
                key in sys.t.rows && sys.t.rows[key].state == Running && !Stale(sys.t.rows[key], window, sys.now))
  {
    RunKeepsStored(w, EMPTY, actions);
    ClaimRefusedExactly(RunFrom(w, EMPTY, actions).t, key, window, RunFrom(w, EMPTY, actions).now);
  }

  /** The log is a history of the rows, and every key somebody holds, overtaken or not, still has its row. */
  ghost predicate Historical(sys: System)
  {
    LogReproducesRows(sys.t) && forall h | h in sys.holders :: sys.holders[h].key in sys.t.rows
  }

  /** Rows are never deleted. */
  lemma RowsAreKept(t: Tables, op: Op, now: real)
    ensures t.rows.Keys <= Apply(t, op, now).rows.Keys
  {
    if op.Recover? { RecoverRows(t, op.window, now); }
  }

  /** A prune that hits a completed row, or one it has just pruned. */
  predicate PruneHits(sys: System, a: Action)
  {
    a.OperatorPrunes? ==> Faithful(sys.t, Prune(a.key), sys.now)
  }

  /** A late owner completes or abandons a key it has lost, but the row is there and the event tells of it. */
  lemma WorkersKeepLogFaithful(w: Windows, sys: System, a: Action)
    requires Historical(sys) && PruneHits(sys, a)
    ensures Historical(Next(w, sys, a))
  {
    match a
    case Tick(_) =>
    case WorkerClaims(_, key) => StepIsFaithful(sys, Claim(key, w(key)), sys.now);
    case WorkerCompletes(worker, result) =>
      if worker in sys.holders { StepIsFaithful(sys, Complete(sys.holders[worker].key, result), sys.now); }
    case WorkerAbandons(worker) =>
      if worker in sys.holders { StepIsFaithful(sys, Abandon(sys.holders[worker].key), sys.now); }
    case CachedRejected(key) => if key in sys.t.rows { StepIsFaithful(sys, Abandon(key), sys.now); }
    case OperatorRecovers(window, at) =>
      StepIsFaithful(sys, Recover(window), if at.Some? then at.value else sys.now);
    case OperatorPrunes(key) => StepIsFaithful(sys, Prune(key), sys.now);
  }

  lemma StepIsFaithful(sys: System, op: Op, now: real)
    requires LogReproducesRows(sys.t) && Faithful(sys.t, op, now)
    ensures LogReproducesRows(Apply(sys.t, op, now)) && sys.t.rows.Keys <= Apply(sys.t, op, now).rows.Keys
  {
    LogStaysFaithfulIff(sys.t, op, now);
    RowsAreKept(sys.t, op, now);
  }

  /** Every prune along the run hits. */
  ghost predicate PrunesHit(w: Windows, sys: System, actions: seq<Action>)
  {
    forall n | 0 <= n < |actions| :: PruneHits(RunFrom(w, sys, actions[..n]), actions[n])
  }

  /**
   * In every interleaving of workers and operators, however late the owners, whose prunes hit completed
   * rows, folding the event log of a key reproduces its row.
   */
  lemma {:induction false} RunKeepsHistory(w: Windows, sys: System, actions: seq<Action>)
    requires Historical(sys) && PrunesHit(w, sys, actions)
    ensures Historical(RunFrom(w, sys, actions))
  {
    if actions != [] {
      var n := |actions| - 1;
      var front := actions[..n];
      assert PrunesHit(w, sys, front) by {
        forall m | 0 <= m < n ensures front[..m] == actions[..m] && front[m] == actions[m] {}
      }
      RunKeepsHistory(w, sys, front);
      WorkersKeepLogFaithful(w, RunFrom(w, sys, front), actions[n]);
    }
  }

  /** From the empty ledger: both halves of the history of a run. */
  lemma ReachableLogReproducesRows(w: Windows, actions: seq<Action>)
    requires PrunesHit(w, EMPTY, actions)
    ensures LogReproducesRows(RunFrom(w, EMPTY, actions).t) && StoredIffCompleted(RunFrom(w, EMPTY, actions).t)
  {
    RunKeepsHistory(w, EMPTY, actions);
    RunKeepsStored(w, EMPTY, actions);
  }

  /** An overtaken owner still completes the key, over the claim that overtook it; the log tells so. */
  lemma LateCompletionIsLogged(w: Windows, key: Key)
    requires w(key) >= 0.0
    ensures var overtaken := RunFrom(w, EMPTY, [WorkerClaims(0, key), Tick(w(key) + 1.0), WorkerClaims(1, key)]);
            var end := Next(w, overtaken, WorkerCompletes(0, "late"));
            && 1 in end.holders && end.holders[1].key == key
            && key in end.t.rows && end.t.rows[key].state == Completed && LogAgreesOn(end.t, key)
  {
    var actions := [WorkerClaims(0, key), Tick(w(key) + 1.0), WorkerClaims(1, key)];
    SlowOwnerIsOvertaken(w, key);
    RunKeepsHistory(w, EMPTY, actions);
    hide RunFrom, LogAgreesOn;
    WorkersKeepLogFaithful(w, RunFrom(w, EMPTY, actions), WorkerCompletes(0, "late"));
  }

  // ---------------------------------------------------------------- how long a result is kept

  /** The steps that may write a completed row: its retention, a rejection, or the release of a lost claim. */
  ghost predicate MayWrite(sys: System, a: Action, key: Key)
  {
    match a
    case WorkerCompletes(worker, _) => worker in sys.holders && sys.holders[worker].key == key
    case WorkerAbandons(worker) => worker in sys.holders && sys.holders[worker].key == key
    case CachedRejected(k) => k == key
    case OperatorPrunes(k) => k == key
    case _ => false
  }

  lemma CompletedRowStays(w: Windows, sys: System, a: Action, key: Key)
    requires key in sys.t.rows && sys.t.rows[key].state == Completed && sys.t.rows[key].result.Some?
    requires !MayWrite(sys, a, key)
    ensures key in Next(w, sys, a).t.rows && Next(w, sys, a).t.rows[key] == sys.t.rows[key]
  {
    if a.OperatorRecovers? {
      RecoverRows(sys.t, a.window, if a.at.Some? then a.at.value else sys.now);
    }
  }

  lemma {:induction false} CompletedRowKept(w: Windows, sys: System, actions: seq<Action>, key: Key)
    requires key in sys.t.rows && sys.t.rows[key].state == Completed && sys.t.rows[key].result.Some?
    requires forall n | 0 <= n < |actions| :: !MayWrite(RunFrom(w, sys, actions[..n]), actions[n], key)
    ensures var end := RunFrom(w, sys, actions); key in end.t.rows && end.t.rows[key] == sys.t.rows[key]
  {
    hide Next;
    if actions != [] {
      var n := |actions| - 1;
      var front := actions[..n];
      forall m | 0 <= m < n ensures !MayWrite(RunFrom(w, sys, front[..m]), front[m], key) {
        assert front[..m] == actions[..m] && front[m] == actions[m];
      }
      CompletedRowKept(w, sys, front, key);
      CompletedRowStays(w, RunFrom(w, sys, front), actions[n], key);
    }
  }

  /**
   * However the run goes on, a result that is neither rejected nor pruned nor overwritten stays listed for
   * exactly the cutoffs after its completion.
   */
  lemma ResultListedAfterCompletion(
    w: Windows, sys: System, worker: Worker, result: string, actions: seq<Action>, cutoff: real)
    requires worker in sys.holders && sys.holders[worker].key in sys.t.rows
    requires var key, done := sys.holders[worker].key, Next(w, sys, WorkerCompletes(worker, result));
             forall n | 0 <= n < |actions| :: !MayWrite(RunFrom(w, done, actions[..n]), actions[n], key)
    ensures var key := sys.holders[worker].key;
            var end := RunFrom(w, Next(w, sys, WorkerCompletes(worker, result)), actions);
            && key in end.t.rows && end.t.rows[key].result == Some(result)
            && (key in ExpiredKeys(end.t.rows, cutoff) <==> sys.now < cutoff)
  {
    var key := sys.holders[worker].key;
    var done := Next(w, sys, WorkerCompletes(worker, result));
    assert key in done.t.rows && done.t.rows[key].updatedAt == sys.now;
    CompletedRowKept(w, done, actions, key);
  }

  // ---------------------------------------------------------------- what the steps of a run do

  /** Who holds what after each step, and which transaction it runs at the ledger's clock. */
  lemma StepsAre(w: Windows, sys: System, worker: Worker, key: Key, result: string)
    ensures worker !in sys.holders ==>
              var next := Next(w, sys, WorkerClaims(worker, key));
              && next.t == ClaimTx(sys.t, key, w(key), sys.now).0
              && (ClaimTx(sys.t, key, w(key), sys.now).1 == Granted ==>
                    next.holders == sys.holders[worker := Holding(key, sys.now)])
              && (ClaimTx(sys.t, key, w(key), sys.now).1 != Granted ==> next.holders == sys.holders)
    ensures worker in sys.holders ==>
              && Next(w, sys, WorkerClaims(worker, key)) == sys
              && var done := Next(w, sys, WorkerCompletes(worker, result));
                 var left := Next(w, sys, WorkerAbandons(worker));
                 && done.t == CompleteTx(sys.t, sys.holders[worker].key, result, sys.now)
                 && left.t == AbandonTx(sys.t, sys.holders[worker].key, sys.now)
                 && done.holders == left.holders == sys.holders - {worker}
    ensures key in sys.t.rows ==> Next(w, sys, CachedRejected(key)).t == AbandonTx(sys.t, key, sys.now)
    ensures Next(w, sys, OperatorPrunes(key)).t == PruneTx(sys.t, key, sys.now)
    ensures forall elapsed | elapsed >= 0.0 :: Next(w, sys, Tick(elapsed)) == sys.(now := sys.now + elapsed)
    ensures forall window, at :: Next(w, sys, OperatorRecovers(window, Some(at))).t == RecoverTx(sys.t, window, at)
    ensures forall window :: Next(w, sys, OperatorRecovers(window, None)).t == RecoverTx(sys.t, window, sys.now)
  {
    hide ClaimTx, CompleteTx, AbandonTx, PruneTx, RecoverTx;
  }
}
