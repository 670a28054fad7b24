/** The idempotent execution ledger (`fmr/execution.py`): its rows, its event log, its transactions. */
module Ledger {
  import opened Ids
  import opened Results

  type Key = Id

  datatype RowState = Running | Completed | Abandoned | Pruned

  datatype Detail =
    | Claimed | StaleReclaimed | Reclaimed | CompletedDetail | AbandonedDetail | StaleRecovered | RetentionPruned

  datatype Row = Row(state: RowState, claimedAt: real, result: Option<string>, updatedAt: real, detail: Detail)

  datatype Event = Event(key: Key, state: RowState, at: real, detail: Detail)

  datatype Tables = Tables(rows: map<Key, Row>, log: seq<Event>)

  datatype ClaimReply = Granted | Cached(result: string) | InProgress

  function Log(t: Tables, key: Key, row: Row): Tables
  {
    Tables(t.rows[key := row], t.log + [Event(key, row.state, row.updatedAt, row.detail)])
  }

  predicate Stale(row: Row, window: real, now: real)
  {
    row.state == Running && now - row.claimedAt > window
  }

  function ClaimTx(t: Tables, key: Key, window: real, now: real): (Tables, ClaimReply)
  {
    if key !in t.rows then (Log(t, key, Row(Running, now, None, now, Claimed)), Granted)
    else
      var row := t.rows[key];
      if row.state == Completed && row.result.Some? then (t, Cached(row.result.value))
      else if Stale(row, window, now) then
        (Log(t, key, row.(claimedAt := now, updatedAt := now, detail := StaleReclaimed)), Granted)
      else if row.state == Abandoned || row.state == Pruned then
        (Log(t, key, Row(Running, now, None, now, Reclaimed)), Granted)
      else (t, InProgress)
  }

  /** An UPDATE by key, which does nothing to an absent row, and an event that is appended regardless. */
  function UpdateTx(
    t: Tables, key: Key, state: RowState, result: Option<string>, now: real, detail: Detail, guard: bool)
    : Tables
  {
    var event := Event(key, state, now, detail);
    if key in t.rows && guard then
      Tables(t.rows[key := Row(state, t.rows[key].claimedAt, result, now, detail)], t.log + [event])
    else t.(log := t.log + [event])
  }

  function CompleteTx(t: Tables, key: Key, result: string, now: real): Tables
  {
    UpdateTx(t, key, Completed, Some(result), now, CompletedDetail, true)
  }

  function AbandonTx(t: Tables, key: Key, now: real): Tables
  {
    UpdateTx(t, key, Abandoned, None, now, AbandonedDetail, true)
  }

  function PruneTx(t: Tables, key: Key, now: real): Tables
  {
    UpdateTx(t, key, Pruned, None, now, RetentionPruned, key in t.rows && t.rows[key].state == Completed)
  }

  /** The keys `recover_stale` selects: claimed strictly before the cutoff. */
  function StaleKeys(rows: map<Key, Row>, window: real, now: real): set<Key>
  {
    set key | key in rows && rows[key].state == Running && rows[key].claimedAt < now - window
  }

  function RecoverKeys(t: Tables, keys: seq<Key>, now: real): Tables
  {
    if keys == [] then t
    else UpdateTx(RecoverKeys(t, keys[..|keys| - 1], now), keys[|keys| - 1], Abandoned, None, now, StaleRecovered, true)
  }

  function RecoverTx(t: Tables, window: real, now: real): Tables
  {
    RecoverKeys(t, Sorted(StaleKeys(t.rows, window, now)), now)
  }

  /** Recovery abandons exactly the stale running rows and touches nothing else. */
  lemma {:induction false} RecoverKeysRows(t: Tables, keys: seq<Key>, now: real)
    requires forall k | k in keys :: k in t.rows
    ensures RecoverKeys(t, keys, now).rows.Keys == t.rows.Keys
    ensures forall k | k in t.rows ::
              RecoverKeys(t, keys, now).rows[k] ==
              if k in keys then Row(Abandoned, t.rows[k].claimedAt, None, now, StaleRecovered) else t.rows[k]
  {
    if keys != [] {
      var front, last := keys[..|keys| - 1], keys[|keys| - 1];
      assert keys == front + [last];
      RecoverKeysRows(t, front, now);
    }
  }

  lemma RecoverRows(t: Tables, window: real, now: real)
    ensures RecoverTx(t, window, now).rows.Keys == t.rows.Keys
    ensures forall k | k in t.rows ::
              RecoverTx(t, window, now).rows[k] ==
              if k in StaleKeys(t.rows, window, now) then Row(Abandoned, t.rows[k].claimedAt, None, now, StaleRecovered)
              else t.rows[k]
  {
    var keys := Sorted(StaleKeys(t.rows, window, now));
    forall k ensures k in keys <==> k in StaleKeys(t.rows, window, now) {
      assert k in keys <==> k in Elements(keys);
    }
    RecoverKeysRows(t, keys, now);
  }

  /** After recovery no running row is older than the window. */
  lemma RecoverLeavesNoStale(t: Tables, window: real, now: real)
    ensures forall k | k in RecoverTx(t, window, now).rows ::
              var row := RecoverTx(t, window, now).rows[k];
              row.state == Running ==> now - row.claimedAt <= window
  {
    RecoverRows(t, window, now);
  }

  /** The rows `completed_before` selects. */
  function ExpiredKeys(rows: map<Key, Row>, cutoff: real): set<Key>
  {
    set key | key in rows && rows[key].state == Completed && rows[key].updatedAt < cutoff && rows[key].result.Some?
  }

  lemma ExpiredListed(rows: map<Key, Row>, cutoff: real, keys: seq<Key>)
    requires keys == Sorted(ExpiredKeys(rows, cutoff))
    ensures forall i, j | 0 <= i < j < |keys| :: Lt(keys[i], keys[j])
    ensures forall i | 0 <= i < |keys| ::
              && keys[i] in rows && rows[keys[i]].state == Completed
              && rows[keys[i]].updatedAt < cutoff && rows[keys[i]].result.Some?
    ensures forall k | k in rows && rows[k].state == Completed && rows[k].updatedAt < cutoff && rows[k].result.Some? ::
              k in keys
  {
    hide Lt;
    forall k ensures k in keys <==> k in ExpiredKeys(rows, cutoff) {
      assert k in keys <==> k in Elements(keys);
    }
    forall i | 0 <= i < |keys| ensures keys[i] in ExpiredKeys(rows, cutoff) {
      assert keys[i] in keys;
    }
  }

  lemma PairedKeys(keys: seq<Key>, found: seq<(Key, string)>)
    requires |found| == |keys| && forall i | 0 <= i < |keys| :: found[i].0 == keys[i]
    ensures forall k | k in keys :: exists i | 0 <= i < |found| :: found[i].0 == k
  {
    forall k | k in keys ensures exists i | 0 <= i < |found| :: found[i].0 == k {
      var i :| 0 <= i < |keys| && keys[i] == k;
      assert found[i].0 == k;
    }
  }

  datatype LedgerError = AlreadyRunning | BadWindow

  /**
   * How the work behind a granted claim ends. A handoff that is not ready, unusable input and a provider
   * that fails all make a result that says so; only an unforeseen exception makes none.
   */
  datatype Attempt =
    | NotReady
    | Delivered(receipt: string)
    | BadInput(error: string)
    | ProviderFailed(error: string)
    | Crashed(error: string)

  datatype RequestError = InFlight | StaleCache | Raised | InvalidResult

  function RequestTx(
    t: Tables, key: Key, window: real, start: real, finish: real, cacheValid: string -> bool, attempt: Attempt,
    render: Attempt -> string, resultValid: string -> bool): (Tables, Result<string, RequestError>)
  {
    var (claimed, reply) := ClaimTx(t, key, window, start);
    match reply
    case InProgress => (claimed, Err(InFlight))
    case Cached(result) =>
      if cacheValid(result) then (claimed, Ok(result)) else (AbandonTx(claimed, key, finish), Err(StaleCache))
    case Granted =>
      if attempt.Crashed? then (AbandonTx(claimed, key, finish), Err(Raised))
      else if !resultValid(render(attempt)) then (AbandonTx(claimed, key, finish), Err(InvalidResult))
      else (CompleteTx(claimed, key, render(attempt), finish), Ok(render(attempt)))
  }

  class ExecutionLedger {
    var rows: map<Key, Row>
    var log: seq<Event>

    constructor ()
      ensures State() == Tables(map[], [])
    {
      rows, log := map[], [];
    }

    function State(): Tables
      reads this
    {
      Tables(rows, log)
    }

    method Append(key: Key, state: RowState, at: real, detail: Detail)
      modifies this`log
      ensures log == old(log) + [Event(key, state, at, detail)]
    {
      log := log + [Event(key, state, at, detail)];
    }

    /** `Ok(None)` grants the claim, `Ok(Some(result))` answers from the cache. */
    method Claim(key: Key, window: real, now: real) returns (r: Result<Option<string>, LedgerError>)
      modifies this
      ensures var (after, reply) := ClaimTx(old(State()), key, window, now);
              && State() == after
              && r == match reply
                      case Granted => Ok(None)
                      case Cached(result) => Ok(Some(result))
                      case InProgress => Err(AlreadyRunning)
    {
      if key !in rows {
        rows := rows[key := Row(Running, now, None, now, Claimed)];
        Append(key, Running, now, Claimed);
        return Ok(None);
      }
      var row := rows[key];
      if row.state == Completed && row.result.Some? {
        return Ok(Some(row.result.value));
      }
      if row.state == Running && now - row.claimedAt > window {
        rows := rows[key := row.(claimedAt := now, updatedAt := now, detail := StaleReclaimed)];
        Append(key, Running, now, StaleReclaimed);
        return Ok(None);
      }
      if row.state == Abandoned || row.state == Pruned {
        rows := rows[key := Row(Running, now, None, now, Reclaimed)];
        Append(key, Running, now, Reclaimed);
        return Ok(None);
      }
      r := Err(AlreadyRunning);
    }

    method Complete(key: Key, result: string, now: real)
      modifies this
      ensures State() == CompleteTx(old(State()), key, result, now)
    {
      if key in rows {
        rows := rows[key := Row(Completed, rows[key].claimedAt, Some(result), now, CompletedDetail)];
      }
      Append(key, Completed, now, CompletedDetail);
    }

    method Abandon(key: Key, now: real)
      modifies this
      ensures State() == AbandonTx(old(State()), key, now)
    {
      if key in rows {
        rows := rows[key := Row(Abandoned, rows[key].claimedAt, None, now, AbandonedDetail)];
      }
      Append(key, Abandoned, now, AbandonedDetail);
    }

    method MarkPruned(key: Key, now: real)
      modifies this
      ensures State() == PruneTx(old(State()), key, now)
    {
      if key in rows && rows[key].state == Completed {
        rows := rows[key := Row(Pruned, rows[key].claimedAt, None, now, RetentionPruned)];
      }
      Append(key, Pruned, now, RetentionPruned);
    }

    /** One key of `recover_stale`. */
    method RecoverOne(key: Key, now: real)
      modifies this
      ensures State() == UpdateTx(old(State()), key, Abandoned, None, now, StaleRecovered, true)
    {
      if key in rows {
        rows := rows[key := Row(Abandoned, rows[key].claimedAt, None, now, StaleRecovered)];
      }
      Append(key, Abandoned, now, StaleRecovered);
    }

    method RecoverStale(window: real, now: real) returns (r: Result<seq<Key>, LedgerError>)
      modifies this
      ensures window < 1.0 ==> r == Err(BadWindow) && State() == old(State())
      ensures window >= 1.0 ==>
                && r == Ok(Sorted(StaleKeys(old(rows), window, now)))
                && State() == RecoverTx(old(State()), window, now)
    {
      if window < 1.0 {
        return Err(BadWindow);
      }
      hide UpdateTx;
      var keys := Sorted(StaleKeys(rows, window, now));
      for n := 0 to |keys|
        invariant State() == RecoverKeys(old(State()), keys[..n], now)
      {
        assert keys[..n + 1][..n] == keys[..n];
        RecoverOne(keys[n], now);
      }
      assert keys[..|keys|] == keys;
      r := Ok(keys);
    }

    /** The results of completed rows, beside their keys. */
    method WithResults(keys: seq<Key>) returns (found: seq<(Key, string)>)
      requires forall i | 0 <= i < |keys| :: keys[i] in rows && rows[keys[i]].result.Some?
      ensures |found| == |keys|
      ensures forall i | 0 <= i < |keys| :: found[i].0 == keys[i] && rows[keys[i]].result == Some(found[i].1)
    {
      found := [];
      for n := 0 to |keys|
        invariant |found| == n
        invariant forall i | 0 <= i < n :: found[i].0 == keys[i] && rows[keys[i]].result == Some(found[i].1)
      {
        found := found + [(keys[n], rows[keys[n]].result.value)];
      }
    }

    /** Completed rows last updated strictly before a cutoff, once each in key order, with their results. */
    method CompletedBefore(cutoff: real) returns (found: seq<(Key, string)>)
      ensures forall i, j | 0 <= i < j < |found| :: Lt(found[i].0, found[j].0)
      ensures forall i | 0 <= i < |found| ::
                && found[i].0 in rows && rows[found[i].0].state == Completed
                && rows[found[i].0].updatedAt < cutoff && rows[found[i].0].result == Some(found[i].1)
      ensures forall k | k in rows && rows[k].state == Completed && rows[k].updatedAt < cutoff
                         && rows[k].result.Some? ::
                exists i | 0 <= i < |found| :: found[i].0 == k
    {
      var keys := Sorted(ExpiredKeys(rows, cutoff));
      ExpiredListed(rows, cutoff, keys);
      found := WithResults(keys);
      hide Sorted, ExpiredKeys, Lt;
      PairedKeys(keys, found);
    }

    /**
     * `execute_request` around the ledger: claim, then complete with a result, or abandon when no valid
     * result could be made, so a granted claim is always released. `render` makes the result of an attempt.
     */
    method ExecuteRequest(
      key: Key, window: real, start: real, finish: real, cacheValid: string -> bool, attempt: Attempt,
      render: Attempt -> string, resultValid: string -> bool)
      returns (r: Result<string, RequestError>)
      modifies this
      ensures (State(), r) ==
              RequestTx(old(State()), key, window, start, finish, cacheValid, attempt, render, resultValid)
    {
      var claim := Claim(key, window, start);
      match claim
      case Err(_) =>
        r := Err(InFlight);
      case Ok(Some(result)) =>
        if !cacheValid(result) {
          Abandon(key, finish);
          return Err(StaleCache);
        }
        r := Ok(result);
      case Ok(None) =>
        if attempt.Crashed? {
          Abandon(key, finish);
          return Err(Raised);
        }
        var result := render(attempt);
        if !resultValid(result) {
          Abandon(key, finish);
          return Err(InvalidResult);
        }
        Complete(key, result, finish);
        r := Ok(result);
    }
  }

  /** Whatever happens to the attempt, a granted claim does not stay running, and no other key changes. */
  lemma RequestReleases(
    t: Tables, key: Key, window: real, start: real, finish: real, cacheValid: string -> bool, attempt: Attempt,
    render: Attempt -> string, resultValid: string -> bool)
    requires ClaimTx(t, key, window, start).1 == Granted
    ensures var (after, r) := RequestTx(t, key, window, start, finish, cacheValid, attempt, render, resultValid);
            && key in after.rows
            && (r.Ok? ==> after.rows[key].state == Completed && after.rows[key].result == Some(r.value))
            && (r.Err? ==> after.rows[key].state == Abandoned && after.rows[key].result == None)
            && (r.Err? <==> attempt.Crashed? || !resultValid(render(attempt)))
            && forall k | k != key :: (k in after.rows <==> k in t.rows) && (k in t.rows ==> after.rows[k] == t.rows[k])
  {
  }

  /** Asking again after a success answers from the cache and changes nothing, as long as the result stays valid. */
  lemma RequestIsIdempotent(
    t: Tables, key: Key, window: real, start: real, finish: real, cacheValid: string -> bool, attempt: Attempt,
    render: Attempt -> string, resultValid: string -> bool, again: Attempt, later: real)
    requires RequestTx(t, key, window, start, finish, cacheValid, attempt, render, resultValid).1.Ok?
    requires var result := RequestTx(t, key, window, start, finish, cacheValid, attempt, render, resultValid).1.value;
             cacheValid(result)
    ensures var first := RequestTx(t, key, window, start, finish, cacheValid, attempt, render, resultValid);
            RequestTx(first.0, key, window, later, later, cacheValid, again, render, resultValid) == first
  {
  }
}
