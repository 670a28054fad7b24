/** Statement lines grouped into a financial data package (`package.py`). */
module Statements {
  import opened Results
  import opened Sorting

  datatype Entity = Entity(id: string, name: string, currency: string)

  datatype Period = Period(end: string, kind: string)

  /** What identifies a row: every field of a line but its period and amount. */
  datatype Key = Key(statement: string, balance: string, code: string, name: string, sourceRef: string)

  /** One amount of one account in one period. */
  datatype Entry = Entry(key: Key, period: Period, amount: real)

  /**
   * A parsed line. `legible` stands for the checks of its text: required fields are present, and
   * currency, date and amount are well written.
   */
  datatype Line = Line(entity: Entity, entry: Entry, legible: bool)

  datatype Value = Value(period: Period, amount: real)

  /** A row of the package; its row number is its position, counted from one. */
  datatype Row = Row(key: Key, values: seq<Value>)

  datatype Package = Package(entity: Entity, periods: seq<Period>, rows: seq<Row>)

  datatype ImportError = BadLine(index: nat) | NoLines

  const PERIOD_KINDS := {"actual", "budget", "forecast"}
  const STATEMENTS := {"income_statement", "balance_sheet", "cash_flow", "operating_metric"}
  const BALANCES := {"flow", "point_in_time"}

  datatype LineIssue =
    Illegible | UnknownPeriodType | UnknownStatement | UnknownBalance | NeedsFlow | NeedsPointInTime

  /** What is wrong with the shape of a line, if anything. */
  function ShapeIssue(line: Line): Option<LineIssue>
  {
    var key, kind := line.entry.key, line.entry.period.kind;
    if !line.legible then Some(Illegible)
    else if kind != "actual" && kind != "budget" && kind != "forecast" then Some(UnknownPeriodType)
    else if key.statement !in STATEMENTS then Some(UnknownStatement)
    else if key.balance !in BALANCES then Some(UnknownBalance)
    else if (key.statement == "income_statement" || key.statement == "cash_flow") && key.balance != "flow" then
      Some(NeedsFlow)
    else if key.statement == "balance_sheet" && key.balance != "point_in_time" then Some(NeedsPointInTime)
    else None
  }

  /** A line has no issue exactly when it is well shaped. */
  lemma ShapeIssueIff(line: Line)
    ensures ShapeIssue(line).None? <==> LineOk(line)
  {
  }

  ghost predicate LineOk(line: Line)
  {
    var key := line.entry.key;
    && line.legible
    && line.entry.period.kind in PERIOD_KINDS
    && key.statement in STATEMENTS && key.balance in BALANCES
    && (key.statement in {"income_statement", "cash_flow"} ==> key.balance == "flow")
    && (key.statement == "balance_sheet" ==> key.balance == "point_in_time")
  }

  predicate Repeats(a: Entry, b: Entry)
  {
    a.key == b.key && a.period == b.period
  }

  function Entries(lines: seq<Line>): (r: seq<Entry>)
    ensures |r| == |lines| && forall i | 0 <= i < |r| :: r[i] == lines[i].entry
  {
    seq(|lines|, i requires 0 <= i < |lines| => lines[i].entry)
  }

  ghost predicate NoRepeats(entries: seq<Entry>)
  {
    forall i, j | 0 <= i < j < |entries| :: !Repeats(entries[i], entries[j])
  }

  /** Lines of one entity, each well shaped, no account given twice for a period. */
  ghost predicate Acceptable(lines: seq<Line>)
  {
    && (forall i | 0 <= i < |lines| :: LineOk(lines[i]) && lines[i].entity == lines[0].entity)
    && NoRepeats(Entries(lines))
  }

  // ---------------------------------------------------------------- rows and what they hold

  function RowEntries(row: Row): (r: seq<Entry>)
    ensures |r| == |row.values|
    ensures forall i | 0 <= i < |r| :: r[i] == Entry(row.key, row.values[i].period, row.values[i].amount)
  {
    seq(|row.values|, i requires 0 <= i < |row.values| => Entry(row.key, row.values[i].period, row.values[i].amount))
  }

  /** The entries held by rows, row after row. */
  function Held(rows: seq<Row>): seq<Entry>
  {
    if rows == [] then [] else Held(rows[..|rows| - 1]) + RowEntries(rows[|rows| - 1])
  }

  lemma RowEntriesAppend(row: Row, v: Value)
    ensures RowEntries(row.(values := row.values + [v])) == RowEntries(row) + [Entry(row.key, v.period, v.amount)]
  {
  }

  lemma HeldAppend(rows: seq<Row>, row: Row)
    ensures Held(rows + [row]) == Held(rows) + RowEntries(row)
  {
    assert (rows + [row])[..|rows|] == rows;
  }

  lemma HeldLast(rows: seq<Row>)
    requires rows != []
    ensures multiset(Held(rows)) == multiset(Held(rows[..|rows| - 1])) + multiset(RowEntries(rows[|rows| - 1]))
  {
  }

  /** Replacing a row exchanges its entries and no others. */
  lemma {:induction false} HeldUpdate(rows: seq<Row>, i: nat, row: Row)
    requires i < |rows|
    ensures multiset(Held(rows[i := row])) + multiset(RowEntries(rows[i])) ==
            multiset(Held(rows)) + multiset(RowEntries(row))
  {
    hide Held, RowEntries;
    var n := |rows| - 1;
    var front, after := rows[..n], rows[i := row];
    HeldLast(rows);
    HeldLast(after);
    if i == n {
      assert after[..n] == front;
    } else {
      HeldUpdate(front, i, row);
      assert after[..n] == front[i := row];
      Exchange(multiset(Held(after[..n])), multiset(RowEntries(rows[i])), multiset(Held(front)),
      multiset(RowEntries(row)),
               multiset(RowEntries(rows[n])));
    }
  }

  lemma Exchange<T>(a: multiset<T>, b: multiset<T>, c: multiset<T>, d: multiset<T>, e: multiset<T>)
    requires a + b == c + d
    ensures a + e + b == c + e + d
  {
    assert a + e + b == a + b + e;
  }

  lemma {:induction false} HeldMembers(rows: seq<Row>, e: Entry)
    ensures e in Held(rows) <==> exists i | 0 <= i < |rows| :: e in RowEntries(rows[i])
  {
    if rows != [] {
      var n := |rows| - 1;
      HeldMembers(rows[..n], e);
      if e in RowEntries(rows[n]) { assert e in Held(rows); }
      if i :| 0 <= i < |rows| && e in RowEntries(rows[i]) && i != n {
        assert e in RowEntries(rows[..n][i]);
      }
      if e in Held(rows) && e !in RowEntries(rows[n]) {
        var i :| 0 <= i < |rows[..n]| && e in RowEntries(rows[..n][i]);
        assert e in RowEntries(rows[i]);
      }
    }
  }

  lemma {:induction false} HeldInsert(row: Row, rows: seq<Row>, le: (Row, Row) -> bool)
    ensures multiset(Held(Insert(row, rows, le))) == multiset(Held(rows)) + multiset(RowEntries(row))
  {
    if rows == [] || le(rows[|rows| - 1], row) {
      HeldAppend(rows, row);
    } else {
      var n := |rows| - 1;
      HeldInsert(row, rows[..n], le);
      HeldAppend(Insert(row, rows[..n], le), rows[n]);
    }
  }

  /** Sorting rows keeps what they hold. */
  lemma {:induction false} HeldSorted(rows: seq<Row>, le: (Row, Row) -> bool)
    ensures multiset(Held(SortBy(rows, le))) == multiset(Held(rows))
  {
    if rows != [] {
      var n := |rows| - 1;
      HeldSorted(rows[..n], le);
      HeldInsert(rows[n], SortBy(rows[..n], le), le);
    }
  }

  // ---------------------------------------------------------------- orders

  function PeriodWords(p: Period): seq<string>
  {
    [p.end, p.kind]
  }

  predicate PeriodLe(a: Period, b: Period)
  {
    LeWords(PeriodWords(a), PeriodWords(b))
  }

  /** Rows are sorted without their balance type. */
  function RowWords(row: Row): seq<string>
  {
    [row.key.statement, row.key.code, row.key.name, row.key.sourceRef]
  }

  predicate RowLe(a: Row, b: Row)
  {
    LeWords(RowWords(a), RowWords(b))
  }

  lemma OrdersAreTotal()
    ensures TotalPreorder(PeriodLe) && TotalPreorder(RowLe)
  {
    WordsPreorder(PeriodLe, PeriodWords);
    WordsPreorder(RowLe, RowWords);
  }

  function Itself(p: Period): Period { p }

  function KeyOf(row: Row): Key { row.key }

  function PeriodOf(v: Value): Period { v.period }

  /** Position in a list of periods. */
  function IndexOf(periods: seq<Period>, p: Period): (i: nat)
    ensures i <= |periods|
    ensures i < |periods| ==> periods[i] == p
    ensures i == |periods| <==> p !in periods
  {
    if periods == [] then 0
    else if periods[0] == p then 0
    else IndexOf(periods[1..], p) + 1
  }

  predicate ValueLe(periods: seq<Period>, a: Value, b: Value)
  {
    IndexOf(periods, a.period) <= IndexOf(periods, b.period)
  }

  function ByPeriod(periods: seq<Period>): (Value, Value) -> bool
  {
    (a, b) => ValueLe(periods, a, b)
  }

  function SortValues(periods: seq<Period>, row: Row): Row
  {
    row.(values := SortBy(row.values, ByPeriod(periods)))
  }

  // ---------------------------------------------------------------- what an import promises

  /** Values of one row: at least one, in the order of the periods, each period once. */
  ghost predicate RowOk(periods: seq<Period>, row: Row)
  {
    && row.values != []
    && (forall i | 0 <= i < |row.values| :: row.values[i].period in periods)
    && forall i, j | 0 <= i < j < |row.values| ::
         IndexOf(periods, row.values[i].period) < IndexOf(periods, row.values[j].period)
  }

  ghost predicate IsPackage(entries: seq<Entry>, periods: seq<Period>, rows: seq<Row>)
  {
    && DistinctBy(periods, Itself) && Ordered(periods, PeriodLe)
    && (forall p :: p in periods <==> exists i | 0 <= i < |entries| :: entries[i].period == p)
    && multiset(Held(rows)) == multiset(entries)
    && DistinctBy(rows, KeyOf) && Ordered(rows, RowLe)
    && forall i | 0 <= i < |rows| :: RowOk(periods, rows[i])
  }

  // ---------------------------------------------------------------- grouping

  /** No two values of a row share a period. */
  ghost predicate SinglePeriods(row: Row)
  {
    DistinctBy(row.values, PeriodOf)
  }

  ghost predicate Indexed(rows: seq<Row>, at: map<Key, nat>)
  {
    && (forall i | 0 <= i < |rows| :: rows[i].key in at && at[rows[i].key] == i)
    && (forall k | k in at :: at[k] < |rows| && rows[at[k]].key == k)
  }

  /** The rows grouped so far hold exactly the entries read so far. */
  ghost predicate Grouped(entries: seq<Entry>, rows: seq<Row>, at: map<Key, nat>)
  {
    && multiset(Held(rows)) == multiset(entries)
    && Indexed(rows, at)
    && RowsFormed(rows)
  }

  lemma HeldInRow(entries: seq<Entry>, rows: seq<Row>, i: nat, j: nat)
    requires multiset(Held(rows)) == multiset(entries) && i < |rows| && j < |rows[i].values|
    ensures Entry(rows[i].key, rows[i].values[j].period, rows[i].values[j].amount) in entries
  {
    var e := Entry(rows[i].key, rows[i].values[j].period, rows[i].values[j].amount);
    assert RowEntries(rows[i])[j] == e;
    HeldMembers(rows, e);
    assert e in multiset(Held(rows));
  }

  lemma HeldSomewhere(entries: seq<Entry>, rows: seq<Row>, e: Entry)
    requires multiset(Held(rows)) == multiset(entries) && e in entries
    ensures exists i, j | 0 <= i < |rows| && 0 <= j < |rows[i].values| ::
              rows[i].key == e.key && rows[i].values[j] == Value(e.period, e.amount)
  {
    assert e in multiset(Held(rows));
    HeldMembers(rows, e);
    var i :| 0 <= i < |rows| && e in RowEntries(rows[i]);
    var j :| 0 <= j < |rows[i].values| && RowEntries(rows[i])[j] == e;
    assert rows[i].values[j] == Value(e.period, e.amount);
  }

  /** `grouped.setdefault(key, …)["values"].append(…)`. */
  function AddEntry(rows: seq<Row>, at: map<Key, nat>, e: Entry): (seq<Row>, map<Key, nat>)
    requires Indexed(rows, at)
  {
    var v := Value(e.period, e.amount);
    if e.key in at then
      var i := at[e.key];
      (rows[i := rows[i].(values := rows[i].values + [v])], at)
    else
      (rows + [Row(e.key, [v])], at[e.key := |rows|])
  }

  lemma AddEntryHolds(entries: seq<Entry>, rows: seq<Row>, at: map<Key, nat>, e: Entry)
    requires Indexed(rows, at) && multiset(Held(rows)) == multiset(entries)
    ensures multiset(Held(AddEntry(rows, at, e).0)) == multiset(entries + [e])
  {
    var v := Value(e.period, e.amount);
    if e.key in at {
      var i := at[e.key];
      var row := rows[i].(values := rows[i].values + [v]);
      RowEntriesAppend(rows[i], v);
      HeldUpdate(rows, i, row);
      hide Held, RowEntries;
      assert multiset(RowEntries(row)) == multiset(RowEntries(rows[i])) + multiset{e};
      Swap(multiset(Held(rows[i := row])), multiset(RowEntries(rows[i])), multiset(Held(rows)), multiset{e});
    } else {
      HeldAppend(rows, Row(e.key, [v]));
      assert RowEntries(Row(e.key, [v])) == [e];
    }
  }

  lemma Swap<T>(a: multiset<T>, b: multiset<T>, c: multiset<T>, d: multiset<T>)
    requires a + b == c + (b + d)
    ensures a == c + d
  {
    assert a == (a + b) - b;
    assert c + (b + d) - b == c + d;
  }

  lemma AddEntryIndexes(rows: seq<Row>, at: map<Key, nat>, e: Entry)
    requires Indexed(rows, at)
    ensures Indexed(AddEntry(rows, at, e).0, AddEntry(rows, at, e).1)
  {
  }

  /** Each row has values, no two of one period. */
  ghost predicate RowsFormed(rows: seq<Row>)
  {
    forall i | 0 <= i < |rows| :: rows[i].values != [] && SinglePeriods(rows[i])
  }

  lemma AddEntryForms(entries: seq<Entry>, rows: seq<Row>, at: map<Key, nat>, e: Entry)
    requires Grouped(entries, rows, at)
    requires forall i | 0 <= i < |entries| :: !Repeats(entries[i], e)
    ensures RowsFormed(AddEntry(rows, at, e).0)
  {
    hide Held;
    var v := Value(e.period, e.amount);
    if e.key in at {
      var i := at[e.key];
      forall j | 0 <= j < |rows[i].values| ensures rows[i].values[j].period != v.period {
        HeldInRow(entries, rows, i, j);
        var k :| 0 <= k < |entries|
          && entries[k] == Entry(rows[i].key, rows[i].values[j].period, rows[i].values[j].amount);
        assert !Repeats(entries[k], e);
      }
      hide SinglePeriods;
    } else {
      assert SinglePeriods(Row(e.key, [v]));
      hide SinglePeriods;
    }
  }

  lemma AddEntryGroups(entries: seq<Entry>, rows: seq<Row>, at: map<Key, nat>, e: Entry)
    requires Grouped(entries, rows, at)
    requires forall i | 0 <= i < |entries| :: !Repeats(entries[i], e)
    ensures Grouped(entries + [e], AddEntry(rows, at, e).0, AddEntry(rows, at, e).1)
  {
    AddEntryHolds(entries, rows, at, e);
    AddEntryIndexes(rows, at, e);
    AddEntryForms(entries, rows, at, e);
    hide Held, SinglePeriods, Indexed, AddEntry, Repeats;
  }

  // ---------------------------------------------------------------- the import

  /** What the loop over lines has gathered. */
  datatype Gathered = Gathered(rows: seq<Row>, at: map<Key, nat>, seen: set<(Key, Period)>, periods: seq<Period>)

  ghost predicate Gathers(entries: seq<Entry>, g: Gathered)
  {
    && Grouped(entries, g.rows, g.at)
    && NoRepeats(entries)
    && (forall k, p :: (k, p) in g.seen <==>
        exists i | 0 <= i < |entries| :: entries[i].key == k && entries[i].period == p)
    && DistinctBy(g.periods, Itself)
    && forall p :: p in g.periods <==> exists i | 0 <= i < |entries| :: entries[i].period == p
  }

  function Gather(g: Gathered, e: Entry): Gathered
    requires Indexed(g.rows, g.at)
  {
    var added := AddEntry(g.rows, g.at, e);
    Gathered(
      added.0, added.1, g.seen + {(e.key, e.period)},
      if e.period in g.periods then g.periods else g.periods + [e.period])
  }

  /** The loop over entries, as a function of them. */
  function GatherAll(entries: seq<Entry>): (g: Gathered)
    ensures Indexed(g.rows, g.at)
  {
    if entries == [] then Gathered([], map[], {}, [])
    else
      var g, e := GatherAll(entries[..|entries| - 1]), entries[|entries| - 1];
      AddEntryIndexes(g.rows, g.at, e);
      Gather(g, e)
  }

  lemma NoRepeatsExtend(entries: seq<Entry>, e: Entry)
    requires NoRepeats(entries)
    ensures NoRepeats(entries + [e]) <==> forall i | 0 <= i < |entries| :: !Repeats(entries[i], e)
  {
    var all := entries + [e];
    if NoRepeats(all) {
      forall i | 0 <= i < |entries| ensures !Repeats(entries[i], e) { assert !Repeats(all[i], all[|entries|]); }
    }
  }

  lemma GatherGathers(entries: seq<Entry>, g: Gathered, e: Entry)
    requires Gathers(entries, g)
    ensures NoRepeats(entries + [e]) <==> (e.key, e.period) !in g.seen
    ensures (e.key, e.period) !in g.seen ==> Gathers(entries + [e], Gather(g, e))
  {
    NoRepeatsExtend(entries, e);
    var all := entries + [e];
    if (e.key, e.period) in g.seen {
      var i :| 0 <= i < |entries| && entries[i].key == e.key && entries[i].period == e.period;
      assert Repeats(entries[i], e);
    } else {
      AddEntryGroups(entries, g.rows, g.at, e);
      GatheredSeen(entries, g, e);
      GatheredPeriods(entries, g, e);
      hide Grouped, NoRepeats, DistinctBy;
    }
  }

  lemma GatheredSeen(entries: seq<Entry>, g: Gathered, e: Entry)
    requires Gathers(entries, g)
    ensures var h := Gather(g, e); var all := entries + [e];
            forall k, p :: (k, p) in h.seen <==> exists i | 0 <= i < |all| :: all[i].key == k && all[i].period == p
  {
    var h, all := Gather(g, e), entries + [e];
    hide Grouped, NoRepeats, Indexed;
    forall k, p
      ensures (k, p) in h.seen <==> exists i | 0 <= i < |all| :: all[i].key == k && all[i].period == p
    {
      if (k, p) in g.seen {
        var i :| 0 <= i < |entries| && entries[i].key == k && entries[i].period == p;
        assert all[i].key == k && all[i].period == p;
      }
      if k == e.key && p == e.period { assert all[|entries|].key == k && all[|entries|].period == p; }
    }
  }

  lemma GatheredPeriods(entries: seq<Entry>, g: Gathered, e: Entry)
    requires Gathers(entries, g)
    ensures var h := Gather(g, e); var all := entries + [e];
            && DistinctBy(h.periods, Itself)
            && forall p :: p in h.periods <==> exists i | 0 <= i < |all| :: all[i].period == p
  {
    var h, all := Gather(g, e), entries + [e];
    hide Grouped, NoRepeats, Indexed;
    forall p ensures p in h.periods <==> exists i | 0 <= i < |all| :: all[i].period == p {
      if p in g.periods {
        var i :| 0 <= i < |entries| && entries[i].period == p;
        assert all[i].period == p;
      }
      if p == e.period { assert all[|entries|].period == p; }
    }
  }

  /** Entries without repetition are gathered completely. */
  lemma {:induction false} GatherAllGathers(entries: seq<Entry>)
    requires NoRepeats(entries)
    ensures Gathers(entries, GatherAll(entries))
  {
    if entries == [] {
      NothingGathered();
    } else {
      var n := |entries| - 1;
      assert entries == entries[..n] + [entries[n]];
      NoRepeatsPrefix(entries, n);
      GatherAllGathers(entries[..n]);
      GatherGathers(entries[..n], GatherAll(entries[..n]), entries[n]);
    }
  }

  lemma NoRepeatsPrefix(entries: seq<Entry>, n: nat)
    requires n <= |entries| && NoRepeats(entries)
    ensures NoRepeats(entries[..n])
  {
    hide Repeats;
    forall i, j | 0 <= i < j < n ensures !Repeats(entries[..n][i], entries[..n][j]) {
      assert !Repeats(entries[i], entries[j]);
    }
  }

  lemma AcceptablePrefix(lines: seq<Line>, n: nat)
    requires n < |lines| && Acceptable(lines[..n])
    requires Entries(lines[..n + 1]) == Entries(lines[..n]) + [lines[n].entry]
    ensures Acceptable(lines[..n + 1]) <==>
            LineOk(lines[n]) && lines[n].entity == lines[0].entity && NoRepeats(Entries(lines[..n + 1]))
  {
    hide LineOk, NoRepeats;
    var more := lines[..n + 1];
    if Acceptable(more) {
      assert LineOk(more[n]);
    }
    if LineOk(lines[n]) && lines[n].entity == lines[0].entity {
      forall i | 0 <= i < |more| ensures LineOk(more[i]) && more[i].entity == more[0].entity {
        if i < n { assert more[i] == lines[..n][i]; }
      }
    }
  }

  lemma AcceptableMonotone(lines: seq<Line>, n: nat)
    requires n <= |lines| && Acceptable(lines)
    ensures Acceptable(lines[..n])
  {
    var part := lines[..n];
    forall i, j | 0 <= i < j < n ensures !Repeats(Entries(part)[i], Entries(part)[j]) {
      assert !Repeats(Entries(lines)[i], Entries(lines)[j]);
    }
  }

  /** The loop over lines. */
  method GatherLines(lines: seq<Line>) returns (r: Result<Gathered, ImportError>)
    ensures r.Ok? <==> Acceptable(lines)
    ensures r.Ok? ==> r.value == GatherAll(Entries(lines)) && Gathers(Entries(lines), r.value)
    ensures r.Err? ==> exists n: nat | n < |lines| ::
              r == Err(BadLine(n)) && Acceptable(lines[..n]) && !Acceptable(lines[..n + 1])
  {
    hide LineOk, ShapeIssue, Gathers, Acceptable;
    var g := Gathered([], map[], {}, []);
    assert Gathers([], g) by { NothingGathered(); }
    assert Acceptable(lines[..0]) by { NothingAcceptable(lines[..0]); }
    for n := 0 to |lines|
      invariant Acceptable(lines[..n]) && Gathers(Entries(lines[..n]), g) && g == GatherAll(Entries(lines[..n]))
    {
      var e := lines[n].entry;
      assert Entries(lines[..n + 1]) == Entries(lines[..n]) + [e];
      assert Entries(lines[..n + 1])[..n] == Entries(lines[..n]);
      AcceptablePrefix(lines, n);
      GatherGathers(Entries(lines[..n]), g, e);
      GathersIndexed(Entries(lines[..n]), g);
      ShapeIssueIff(lines[n]);
      if ShapeIssue(lines[n]).Some? || lines[n].entity != lines[0].entity || (e.key, e.period) in g.seen {
        if Acceptable(lines) { AcceptableMonotone(lines, n + 1); }
        return Err(BadLine(n));
      }
      g := Gather(g, e);
    }
    assert lines[..|lines|] == lines;
    r := Ok(g);
  }

  lemma NothingGathered()
    ensures Gathers([], Gathered([], map[], {}, []))
  {
  }

  lemma NothingAcceptable(lines: seq<Line>)
    requires lines == []
    ensures Acceptable(lines)
  {
  }

  lemma GathersIndexed(entries: seq<Entry>, g: Gathered)
    requires Gathers(entries, g)
    ensures Indexed(g.rows, g.at)
  {
  }

  // ---------------------------------------------------------------- from gathered rows to a package

  function SortedRows(periods: seq<Period>, rows: seq<Row>): (r: seq<Row>)
    ensures |r| == |rows| && forall i | 0 <= i < |r| :: r[i] == SortValues(periods, rows[i])
  {
    seq(|rows|, i requires 0 <= i < |rows| => SortValues(periods, rows[i]))
  }

  lemma RowEntriesLast(key: Key, values: seq<Value>)
    requires values != []
    ensures var v := values[|values| - 1];
            multiset(RowEntries(Row(key, values))) ==
            multiset(RowEntries(Row(key, values[..|values| - 1]))) + multiset{Entry(key, v.period, v.amount)}
  {
    RowEntriesAppend(Row(key, values[..|values| - 1]), values[|values| - 1]);
    assert values == values[..|values| - 1] + [values[|values| - 1]];
  }

  lemma {:induction false} RowEntriesInsert(key: Key, v: Value, values: seq<Value>, le: (Value, Value) -> bool)
    ensures multiset(RowEntries(Row(key, Insert(v, values, le)))) ==
            multiset(RowEntries(Row(key, values))) + multiset{Entry(key, v.period, v.amount)}
  {
    hide RowEntries;
    var r := Insert(v, values, le);
    RowEntriesLast(key, r);
    if values == [] || le(values[|values| - 1], v) {
      assert r[..|r| - 1] == values;
    } else {
      var n := |values| - 1;
      assert r[..|r| - 1] == Insert(v, values[..n], le);
      RowEntriesInsert(key, v, values[..n], le);
      RowEntriesLast(key, values);
    }
  }

  lemma {:induction false} RowEntriesSorted(key: Key, values: seq<Value>, le: (Value, Value) -> bool)
    ensures multiset(RowEntries(Row(key, SortBy(values, le)))) == multiset(RowEntries(Row(key, values)))
  {
    hide RowEntries;
    if values != [] {
      var n := |values| - 1;
      RowEntriesSorted(key, values[..n], le);
      RowEntriesInsert(key, values[n], SortBy(values[..n], le), le);
      RowEntriesLast(key, values);
    } else {
      assert SortBy(values, le) == values;
    }
  }

  /** Sorting the values of every row keeps what the rows hold. */
  lemma {:induction false} HeldSortedRows(periods: seq<Period>, rows: seq<Row>)
    ensures multiset(Held(SortedRows(periods, rows))) == multiset(Held(rows))
  {
    hide Held, RowEntries, SortBy;
    if rows != [] {
      var n := |rows| - 1;
      HeldSortedRows(periods, rows[..n]);
      var r := SortedRows(periods, rows);
      assert r[..n] == SortedRows(periods, rows[..n]);
      RowEntriesSorted(rows[n].key, rows[n].values, ByPeriod(periods));
      HeldLast(rows);
      HeldLast(r);
    }
  }

  lemma SortedValuesOk(periods: seq<Period>, row: Row)
    requires row.values != [] && SinglePeriods(row)
    requires forall i | 0 <= i < |row.values| :: row.values[i].period in periods
    ensures RowOk(periods, SortValues(periods, row))
  {
    var le := ByPeriod(periods);
    var values := SortBy(row.values, le);
    assert TotalPreorder(le);
    SortByOrdered(row.values, le);
    SortByElements(row.values, le);
    SortByMembers(row.values, le);
    DistinctPermuted(row.values, values, PeriodOf);
    hide SortBy, TotalPreorder, DistinctBy, IndexOf, RowOk;
    forall i | 0 <= i < |values| ensures values[i].period in periods {
      assert values[i] in row.values;
    }
    OrderedValuesOk(periods, row.(values := values));
  }

  lemma OrderedValuesOk(periods: seq<Period>, row: Row)
    requires row.values != [] && DistinctBy(row.values, PeriodOf) && Ordered(row.values, ByPeriod(periods))
    requires forall i | 0 <= i < |row.values| :: row.values[i].period in periods
    ensures RowOk(periods, row)
  {
    hide IndexOf;
    var values := row.values;
    forall i, j | 0 <= i < j < |values|
      ensures IndexOf(periods, values[i].period) < IndexOf(periods, values[j].period)
    {
      assert ByPeriod(periods)(values[i], values[j]);
      assert PeriodOf(values[i]) != PeriodOf(values[j]);
      assert values[i].period in periods && values[j].period in periods;
    }
  }

  lemma SortedRowsOk(entries: seq<Entry>, periods: seq<Period>, rows: seq<Row>)
    requires RowsFormed(rows) && multiset(Held(rows)) == multiset(entries)
    requires forall i | 0 <= i < |entries| :: entries[i].period in periods
    ensures forall i | 0 <= i < |rows| :: RowOk(periods, SortValues(periods, rows[i]))
  {
    hide RowOk, SortValues, SinglePeriods, Held;
    forall i | 0 <= i < |rows| ensures RowOk(periods, SortValues(periods, rows[i])) {
      forall j | 0 <= j < |rows[i].values| ensures rows[i].values[j].period in periods {
        HeldInRow(entries, rows, i, j);
      }
      SortedValuesOk(periods, rows[i]);
    }
  }

  lemma RowsSorted(entries: seq<Entry>, rows: seq<Row>, at: map<Key, nat>)
    requires Grouped(entries, rows, at)
    ensures var s := SortBy(rows, RowLe);
            multiset(Held(s)) == multiset(entries) && RowsFormed(s) && DistinctBy(s, KeyOf) && Ordered(s, RowLe)
  {
    hide Held, SinglePeriods, SortBy, RowLe;
    OrdersAreTotal();
    HeldSorted(rows, RowLe);
    SortByOrdered(rows, RowLe);
    SortByElements(rows, RowLe);
    SortByMembers(rows, RowLe);
    assert DistinctBy(rows, KeyOf);
    DistinctPermuted(rows, SortBy(rows, RowLe), KeyOf);
    forall i | 0 <= i < |SortBy(rows, RowLe)|
      ensures SortBy(rows, RowLe)[i].values != [] && SinglePeriods(SortBy(rows, RowLe)[i])
    {
      assert SortBy(rows, RowLe)[i] in rows;
    }
  }

  lemma PeriodsSorted(found: seq<Period>)
    requires DistinctBy(found, Itself)
    ensures var s := SortBy(found, PeriodLe);
            DistinctBy(s, Itself) && Ordered(s, PeriodLe) && forall p :: p in s <==> p in found
  {
    OrdersAreTotal();
    SortByOrdered(found, PeriodLe);
    SortByElements(found, PeriodLe);
    SortByMembers(found, PeriodLe);
    DistinctPermuted(found, SortBy(found, PeriodLe), Itself);
  }

  lemma SortedRowsOrder(periods: seq<Period>, rows: seq<Row>)
    requires DistinctBy(rows, KeyOf) && Ordered(rows, RowLe)
    ensures DistinctBy(SortedRows(periods, rows), KeyOf) && Ordered(SortedRows(periods, rows), RowLe)
  {
    var r := SortedRows(periods, rows);
    forall i, j | 0 <= i < j < |r| ensures KeyOf(r[i]) != KeyOf(r[j]) && RowLe(r[i], r[j]) {
      assert KeyOf(rows[i]) != KeyOf(rows[j]) && RowLe(rows[i], rows[j]);
    }
  }

  lemma GatheredIsPackage(entries: seq<Entry>, g: Gathered)
    requires Gathers(entries, g)
    ensures var periods := SortBy(g.periods, PeriodLe);
            IsPackage(entries, periods, SortedRows(periods, SortBy(g.rows, RowLe)))
  {
    hide Held, RowsFormed, DistinctBy, RowOk, SortBy, Ordered, Indexed, NoRepeats;
    var periods, rows := SortBy(g.periods, PeriodLe), SortBy(g.rows, RowLe);
    RowsSorted(entries, g.rows, g.at);
    PeriodsSorted(g.periods);
    forall i | 0 <= i < |entries| ensures entries[i].period in periods {
      assert entries[i].period in g.periods;
    }
    SortedRowsOk(entries, periods, rows);
    SortedRowsOrder(periods, rows);
    HeldSortedRows(periods, rows);
    hide SortValues;
    var r := SortedRows(periods, rows);
    forall i | 0 <= i < |r| ensures RowOk(periods, r[i]) {
      assert RowOk(periods, SortValues(periods, rows[i]));
    }
  }

  /** The periods and rows that entries import to. */
  function Imported(entries: seq<Entry>): (seq<Period>, seq<Row>)
  {
    var g := GatherAll(entries);
    var periods := SortBy(g.periods, PeriodLe);
    (periods, SortedRows(periods, SortBy(g.rows, RowLe)))
  }

  lemma ImportedIsPackage(entries: seq<Entry>)
    requires NoRepeats(entries)
    ensures IsPackage(entries, Imported(entries).0, Imported(entries).1)
  {
    GatherAllGathers(entries);
    GatheredIsPackage(entries, GatherAll(entries));
  }

  /** `import_statement_csv`, from parsed lines onward. */
  method ImportStatements(lines: seq<Line>) returns (r: Result<Package, ImportError>)
    ensures r.Ok? <==> lines != [] && Acceptable(lines)
    ensures r.Ok? ==> r.value.entity == lines[0].entity && (r.value.periods, r.value.rows) == Imported(Entries(lines))
    ensures r.Ok? ==> IsPackage(Entries(lines), r.value.periods, r.value.rows)
    ensures r == Err(NoLines) <==> lines == []
    ensures lines != [] && r.Err? ==> exists n: nat | n < |lines| ::
              r == Err(BadLine(n)) && Acceptable(lines[..n]) && !Acceptable(lines[..n + 1])
  {
    hide Acceptable, Gathers, IsPackage, SortBy, GatherAll;
    var gathered := GatherLines(lines);
    if lines == [] {
      NothingAcceptable(lines);
      return Err(NoLines);
    }
    if gathered.Err? {
      return Err(gathered.error);
    }
    var g := gathered.value;
    GatheredIsPackage(Entries(lines), g);
    var periods := SortBy(g.periods, PeriodLe);
    var grouped := SortBy(g.rows, RowLe);
    var rows := [];
    for n := 0 to |grouped|
      invariant rows == SortedRows(periods, grouped[..n])
    {
      rows := rows + [SortValues(periods, grouped[n])];
    }
    assert grouped[..|grouped|] == grouped;
    r := Ok(Package(lines[0].entity, periods, rows));
  }

  // ---------------------------------------------------------------- line order

  function Slot(e: Entry): (Key, Period) { (e.key, e.period) }

  lemma EntriesRemove(lines: seq<Line>, i: nat)
    requires i < |lines|
    ensures multiset(Entries(lines[..i] + lines[i + 1..])) + multiset{lines[i].entry} == multiset(Entries(lines))
  {
    var all := Entries(lines);
    assert Entries(lines[..i] + lines[i + 1..]) == all[..i] + all[i + 1..];
    hide Entries;
    RemoveOne(all, i);
    assert all[i] in multiset(all);
  }

  lemma {:induction false} EntriesPermuted(a: seq<Line>, b: seq<Line>)
    requires multiset(a) == multiset(b)
    ensures multiset(Entries(a)) == multiset(Entries(b))
  {
    hide Entries;
    SameMembers(a, b);
    if a != [] {
      var n, last := |a| - 1, a[|a| - 1];
      assert last in b;
      var i :| 0 <= i < |b| && b[i] == last;
      FrontElements(a);
      RemoveOne(b, i);
      EntriesPermuted(a[..n], b[..i] + b[i + 1..]);
      EntriesRemove(a, n);
      EntriesRemove(b, i);
      assert a[..n] + a[n + 1..] == a[..n];
    } else {
      assert a == b;
    }
  }

  /** Whether lines are accepted does not depend on their order. */
  lemma AcceptablePermuted(a: seq<Line>, b: seq<Line>)
    requires multiset(a) == multiset(b) && Acceptable(a)
    ensures Acceptable(b)
  {
    SameMembers(a, b);
    EntriesPermuted(a, b);
    DistinctPermuted(Entries(a), Entries(b), Slot);
    hide NoRepeats, DistinctBy, LineOk;
    forall i | 0 <= i < |b| ensures LineOk(b[i]) && b[i].entity == b[0].entity {
      assert b[i] in a && b[0] in a;
    }
  }

  lemma SamePeriods(
    entries: seq<Entry>, other: seq<Entry>, periods: seq<Period>, periods': seq<Period>, rows: seq<Row>,
    rows': seq<Row>)
    requires IsPackage(entries, periods, rows) && IsPackage(other, periods', rows')
    requires multiset(entries) == multiset(other)
    ensures periods == periods'
  {
    SameMembers(entries, other);
    forall p ensures p in periods <==> p in periods' {
      if p in periods {
        var i :| 0 <= i < |entries| && entries[i].period == p;
        assert entries[i] in other;
      }
      if p in periods' {
        var i :| 0 <= i < |other| && other[i].period == p;
        assert other[i] in entries;
      }
    }
    OrdersAreTotal();
    assert Antisymmetric(periods, PeriodLe) by {
      forall a, b | PeriodLe(a, b) && PeriodLe(b, a) ensures a == b {
        LeWordsAntisymmetric(PeriodWords(a), PeriodWords(b));
        assert PeriodWords(a)[0] == PeriodWords(b)[0] && PeriodWords(a)[1] == PeriodWords(b)[1];
      }
    }
    OrderedListing(periods, periods', Itself, PeriodLe);
  }

  lemma HeldInRowOf(entries: seq<Entry>, rows: seq<Row>, i: nat, v: Value)
    requires multiset(Held(rows)) == multiset(entries) && DistinctBy(rows, KeyOf) && i < |rows|
    requires Entry(rows[i].key, v.period, v.amount) in entries
    ensures v in rows[i].values
  {
    hide Held;
    HeldSomewhere(entries, rows, Entry(rows[i].key, v.period, v.amount));
    var k, j :| 0 <= k < |rows| && 0 <= j < |rows[k].values| && rows[k].key == rows[i].key && rows[k].values[j] == v;
    assert k == i by { assert KeyOf(rows[k]) == KeyOf(rows[i]); }
  }

  /** A row holds exactly the entries of its key. */
  lemma RowHolds(entries: seq<Entry>, rows: seq<Row>, i: nat, v: Value)
    requires multiset(Held(rows)) == multiset(entries) && DistinctBy(rows, KeyOf) && i < |rows|
    ensures v in rows[i].values <==> Entry(rows[i].key, v.period, v.amount) in entries
  {
    hide Held, DistinctBy;
    if v in rows[i].values {
      var j :| 0 <= j < |rows[i].values| && rows[i].values[j] == v;
      HeldInRow(entries, rows, i, j);
    }
    if Entry(rows[i].key, v.period, v.amount) in entries {
      HeldInRowOf(entries, rows, i, v);
    }
  }

  lemma RowKeyHasEntry(entries: seq<Entry>, periods: seq<Period>, rows: seq<Row>, i: nat)
    requires IsPackage(entries, periods, rows) && i < |rows|
    ensures exists e :: e in entries && e.key == rows[i].key
  {
    hide Held;
    assert RowOk(periods, rows[i]);
    HeldInRow(entries, rows, i, 0);
  }

  // ---------------------------------------------------------------- the order of a package

  /** Rows are listed by statement, code, name and source. */
  lemma RowsAreSorted(entries: seq<Entry>, periods: seq<Period>, rows: seq<Row>, i: nat, j: nat)
    requires IsPackage(entries, periods, rows) && i < j < |rows|
    ensures LeWords(
              [rows[i].key.statement, rows[i].key.code, rows[i].key.name, rows[i].key.sourceRef],
              [rows[j].key.statement, rows[j].key.code, rows[j].key.name, rows[j].key.sourceRef])
  {
    hide LeWords, Held, DistinctBy, RowOk;
    assert RowLe(rows[i], rows[j]);
  }

  /** Periods are listed by their end and type. */
  lemma PeriodsAreSorted(entries: seq<Entry>, periods: seq<Period>, rows: seq<Row>, i: nat, j: nat)
    requires IsPackage(entries, periods, rows) && i < j < |periods|
    ensures LeWords([periods[i].end, periods[i].kind], [periods[j].end, periods[j].kind])
  {
    hide LeWords, Held, DistinctBy, RowOk;
    assert PeriodLe(periods[i], periods[j]);
  }

  /** The values of a row are listed in the order of the periods. */
  lemma ValuesAreSorted(entries: seq<Entry>, periods: seq<Period>, rows: seq<Row>, row: nat, i: nat, j: nat)
    requires IsPackage(entries, periods, rows) && row < |rows| && i < j < |rows[row].values|
    ensures exists p, q | 0 <= p < q < |periods| ::
              periods[p] == rows[row].values[i].period && periods[q] == rows[row].values[j].period
  {
    hide Held, DistinctBy, Ordered;
    assert RowOk(periods, rows[row]);
    var p, q := IndexOf(periods, rows[row].values[i].period), IndexOf(periods, rows[row].values[j].period);
    assert p < q && q < |periods|;
  }
}
