/** Rows of a package mapped to concepts and summed per period (`mapping.py`). */
module Mapping {
  import opened Results
  import opened Ids
  import opened Sorting
  import opened Statements

  datatype Shape = Shape(statement: string, balance: string)

  /** The concept registry, the exact rules of a profile, and the built-in aliases of normalized names. */
  datatype Chart = Chart(
    concepts: map<string, Shape>, byCode: map<string, string>, byName: map<string, string>,
    aliases: map<string, set<string>>, normalize: string -> string)

  predicate ValidChart(chart: Chart)
  {
    && chart.byCode.Values <= chart.concepts.Keys
    && chart.byName.Values <= chart.concepts.Keys
    && forall name | name in chart.aliases :: chart.aliases[name] <= chart.concepts.Keys
  }

  // ---------------------------------------------------------------- resolving a row

  datatype Status = Unmapped | Ambiguous | Invalid(concept: string) | Mapped(concept: string)

  function Exact(chart: Chart, key: Key): set<string>
  {
    var name := chart.normalize(key.name);
    (if key.code != "" && key.code in chart.byCode then {chart.byCode[key.code]} else {})
    + (if name in chart.byName then {chart.byName[name]} else {})
  }

  function Candidates(chart: Chart, key: Key): set<string>
  {
    var exact, name := Exact(chart, key), chart.normalize(key.name);
    if exact != {} then exact else if name in chart.aliases then chart.aliases[name] else {}
  }

  lemma CandidatesKnown(chart: Chart, key: Key)
    requires ValidChart(chart)
    ensures Candidates(chart, key) <= chart.concepts.Keys
  {
  }

  function Resolve(chart: Chart, key: Key): Status
    requires ValidChart(chart)
  {
    var candidates := Candidates(chart, key);
    if |candidates| > 1 then Ambiguous
    else if candidates == {} then Unmapped
    else
      var concept := Least(candidates);
      CandidatesKnown(chart, key);
      if chart.concepts[concept] == Shape(key.statement, key.balance) then Mapped(concept) else Invalid(concept)
  }

  /** A row is mapped to a concept exactly when that is its only candidate and the shapes agree. */
  lemma MappedIff(chart: Chart, key: Key, concept: string)
    requires ValidChart(chart)
    ensures Resolve(chart, key) == Mapped(concept) <==>
            && Candidates(chart, key) == {concept} && concept in chart.concepts
            && chart.concepts[concept] == Shape(key.statement, key.balance)
  {
    hide Candidates;
    CandidatesKnown(chart, key);
    var candidates := Candidates(chart, key);
    if |candidates| == 1 {
      assert candidates == {Least(candidates)} by { Singleton(candidates, Least(candidates)); }
    }
  }

  lemma Singleton(s: set<string>, x: string)
    requires |s| == 1 && x in s
    ensures s == {x}
  {
    assert |s - {x}| == 0;
  }

  predicate Blocks(status: Status)
  {
    status.Ambiguous? || status.Invalid?
  }

  // ---------------------------------------------------------------- sums over rows

  function ValuesTotal(values: seq<Value>, p: Period): real
  {
    if values == [] then 0.0
    else
      var v := values[|values| - 1];
      ValuesTotal(values[..|values| - 1], p) + (if v.period == p then v.amount else 0.0)
  }

  predicate HasPeriod(values: seq<Value>, p: Period)
  {
    exists j | 0 <= j < |values| :: values[j].period == p
  }

  function RowTotal(chart: Chart, row: Row, c: string, p: Period): real
    requires ValidChart(chart)
  {
    if Resolve(chart, row.key) == Mapped(c) then ValuesTotal(row.values, p) else 0.0
  }

  predicate Contributes(chart: Chart, row: Row, c: string, p: Period)
    requires ValidChart(chart)
  {
    Resolve(chart, row.key) == Mapped(c) && HasPeriod(row.values, p)
  }

  function RowsTotal(chart: Chart, rows: seq<Row>, c: string, p: Period): real
    requires ValidChart(chart)
  {
    if rows == [] then 0.0 else RowsTotal(chart, rows[..|rows| - 1], c, p) + RowTotal(chart, rows[|rows| - 1], c, p)
  }

  /** The numbers of the rows that contribute, in order. */
  function Contributors(chart: Chart, rows: seq<Row>, c: string, p: Period): seq<nat>
    requires ValidChart(chart)
  {
    if rows == [] then []
    else
      var front, last := rows[..|rows| - 1], rows[|rows| - 1];
      Contributors(chart, front, c, p) + (if Contributes(chart, last, c, p) then [|rows|] else [])
  }

  /** A row is listed exactly when it contributes. */
  lemma {:induction false} ContributorIff(chart: Chart, rows: seq<Row>, c: string, p: Period, n: nat)
    requires ValidChart(chart)
    ensures n in Contributors(chart, rows, c, p) <==> 1 <= n <= |rows| && Contributes(chart, rows[n - 1], c, p)
  {
    hide Contributes;
    if rows != [] {
      var m := |rows| - 1;
      ContributorIff(chart, rows[..m], c, p, n);
      var last := if Contributes(chart, rows[m], c, p) then [m + 1] else [];
      assert Contributors(chart, rows, c, p) == Contributors(chart, rows[..m], c, p) + last;
      hide Contributors;
      assert n in last <==> n == m + 1 && Contributes(chart, rows[m], c, p);
    }
  }

  /** Contributors are listed once each, in ascending order. */
  lemma {:induction false} ContributorsAscend(chart: Chart, rows: seq<Row>, c: string, p: Period)
    requires ValidChart(chart)
    ensures var found := Contributors(chart, rows, c, p);
            forall i, j | 0 <= i < j < |found| :: found[i] < found[j]
  {
    if rows != [] {
      var front := rows[..|rows| - 1];
      ContributorsAscend(chart, front, c, p);
      hide Contributes;
      var before, found := Contributors(chart, front, c, p), Contributors(chart, rows, c, p);
      assert found == before || found == before + [|rows|];
      hide Contributors;
      forall i | 0 <= i < |before| ensures before[i] < |rows| { ContributorIff(chart, front, c, p, before[i]); }
      forall i, j | 0 <= i < j < |found| ensures found[i] < found[j] {
        if j < |before| { assert before[i] < before[j]; } else { assert found[i] == before[i]; }
      }
    }
  }

  // ---------------------------------------------------------------- the tally

  type Slot = (string, Period)

  /** The dictionaries of amounts and sources; `order` is the order in which their keys appeared. */
  datatype Tally = Tally(amounts: map<Slot, real>, sources: map<Slot, seq<nat>>, order: seq<Slot>)

  function Whole(x: Slot): Slot { x }

  ghost predicate Tallies(chart: Chart, rows: seq<Row>, t: Tally)
    requires ValidChart(chart)
  {
    && (forall c, p :: (c, p) in t.amounts <==> Contributors(chart, rows, c, p) != [])
    && (forall c, p | (c, p) in t.amounts :: t.amounts[(c, p)] == RowsTotal(chart, rows, c, p))
    && t.sources.Keys == t.amounts.Keys
    && (forall c, p | (c, p) in t.sources :: t.sources[(c, p)] == Contributors(chart, rows, c, p))
    && DistinctBy(t.order, Whole) && forall k :: k in t.order <==> k in t.amounts
  }

  /** `concept_periods[key] += amount; concept_sources[key].append(row_id)`. */
  function Add(t: Tally, k: Slot, amount: real, row: nat): Tally
    requires t.sources.Keys == t.amounts.Keys
  {
    if k in t.amounts then
      t.(amounts := t.amounts[k := t.amounts[k] + amount], sources := t.sources[k := t.sources[k] + [row]])
    else
      Tally(t.amounts[k := amount], t.sources[k := [row]], t.order + [k])
  }

  lemma ValuesAppend(values: seq<Value>, v: Value, p: Period)
    ensures ValuesTotal(values + [v], p) == ValuesTotal(values, p) + (if v.period == p then v.amount else 0.0)
    ensures HasPeriod(values + [v], p) <==> HasPeriod(values, p) || v.period == p
  {
    var more := values + [v];
    assert more[..|more| - 1] == values;
    if v.period == p { assert more[|values|].period == p; }
    if j :| 0 <= j < |values| && values[j].period == p { assert more[j].period == p; }
  }

  /** Reading one more value of the last row changes one slot. */
  lemma OneMoreValue(chart: Chart, rows: seq<Row>, key: Key, values: seq<Value>, v: Value, c: string, p: Period)
    requires ValidChart(chart) && !HasPeriod(values, v.period)
    ensures var before, after := rows + [Row(key, values)], rows + [Row(key, values + [v])];
            var hit := Resolve(chart, key) == Mapped(c) && v.period == p;
            && RowsTotal(chart, after, c, p) == RowsTotal(chart, before, c, p) + (if hit then v.amount else 0.0)
            && Contributors(chart, after, c, p) ==
              Contributors(chart, before, c, p) + (if hit then [|rows| + 1] else [])
  {
    var before, after := rows + [Row(key, values)], rows + [Row(key, values + [v])];
    ValuesAppend(values, v, p);
    hide Resolve, ValuesTotal, HasPeriod;
    assert before[..|rows|] == rows == after[..|rows|];
  }

  lemma NoValues(chart: Chart, rows: seq<Row>, key: Key, c: string, p: Period)
    requires ValidChart(chart)
    ensures RowsTotal(chart, rows + [Row(key, [])], c, p) == RowsTotal(chart, rows, c, p)
    ensures Contributors(chart, rows + [Row(key, [])], c, p) == Contributors(chart, rows, c, p)
  {
    assert (rows + [Row(key, [])])[..|rows|] == rows;
  }

  lemma NotMapped(chart: Chart, rows: seq<Row>, row: Row, c: string, p: Period)
    requires ValidChart(chart) && Resolve(chart, row.key) != Mapped(c)
    ensures RowsTotal(chart, rows + [row], c, p) == RowsTotal(chart, rows, c, p)
    ensures Contributors(chart, rows + [row], c, p) == Contributors(chart, rows, c, p)
  {
    hide Resolve;
    assert (rows + [row])[..|rows|] == rows;
  }

  lemma SameTally(chart: Chart, rows: seq<Row>, other: seq<Row>, t: Tally)
    requires ValidChart(chart) && Tallies(chart, rows, t)
    requires forall c, p :: RowsTotal(chart, other, c, p) == RowsTotal(chart, rows, c, p)
                         && Contributors(chart, other, c, p) == Contributors(chart, rows, c, p)
    ensures Tallies(chart, other, t)
  {
    hide RowsTotal, Contributors, DistinctBy;
  }

  lemma NoContributorsNoTotal(chart: Chart, rows: seq<Row>, c: string, p: Period)
    requires ValidChart(chart) && Contributors(chart, rows, c, p) == []
    ensures RowsTotal(chart, rows, c, p) == 0.0
    decreases |rows|
  {
    if rows != [] {
      NoContributorsNoTotal(chart, rows[..|rows| - 1], c, p);
      NoPeriodNoTotal(rows[|rows| - 1].values, p);
    }
  }

  lemma {:induction false} NoPeriodNoTotal(values: seq<Value>, p: Period)
    ensures !HasPeriod(values, p) ==> ValuesTotal(values, p) == 0.0
  {
    if values != [] {
      var n := |values| - 1;
      NoPeriodNoTotal(values[..n], p);
      if !HasPeriod(values, p) {
        assert values[n].period != p;
        forall j | 0 <= j < n ensures values[..n][j].period != p { assert values[j].period != p; }
      }
    }
  }

  lemma AddTallies(chart: Chart, rows: seq<Row>, key: Key, values: seq<Value>, v: Value, t: Tally, c: string)
    requires ValidChart(chart) && Resolve(chart, key) == Mapped(c) && !HasPeriod(values, v.period)
    requires Tallies(chart, rows + [Row(key, values)], t)
    ensures Tallies(chart, rows + [Row(key, values + [v])], Add(t, (c, v.period), v.amount, |rows| + 1))
  {
    hide RowsTotal, Contributors, DistinctBy, Resolve, HasPeriod;
    var before, after := rows + [Row(key, values)], rows + [Row(key, values + [v])];
    forall d, p ensures
      && RowsTotal(chart, after, d, p) ==
        RowsTotal(chart, before, d, p) + (if d == c && p == v.period then v.amount else 0.0)
      && Contributors(chart, after, d, p) ==
        Contributors(chart, before, d, p) + (if d == c && p == v.period then [|rows| + 1] else [])
    {
      OneMoreValue(chart, rows, key, values, v, d, p);
    }
    if (c, v.period) !in t.amounts { NoContributorsNoTotal(chart, before, c, v.period); }
    SlotAdded(chart, before, after, t, (c, v.period), v.amount, |rows| + 1);
  }

  /** Adding to one slot keeps a tally when the totals and contributors change there alone. */
  lemma SlotAdded(chart: Chart, before: seq<Row>, after: seq<Row>, t: Tally, k: Slot, amount: real, row: nat)
    requires ValidChart(chart) && Tallies(chart, before, t)
    requires k !in t.amounts ==> RowsTotal(chart, before, k.0, k.1) == 0.0
    requires forall c, p ::
               RowsTotal(chart, after, c, p) ==
               RowsTotal(chart, before, c, p) + (if c == k.0 && p == k.1 then amount else 0.0)
    requires forall c, p ::
               Contributors(chart, after, c, p) ==
               Contributors(chart, before, c, p) + (if c == k.0 && p == k.1 then [row] else [])
    ensures Tallies(chart, after, Add(t, k, amount, row))
  {
    hide RowsTotal, Contributors, DistinctBy;
    AddOrder(t, k, amount, row);
  }

  lemma AddOrder(t: Tally, k: Slot, amount: real, row: nat)
    requires t.sources.Keys == t.amounts.Keys
    requires DistinctBy(t.order, Whole) && forall x :: x in t.order <==> x in t.amounts
    ensures var u := Add(t, k, amount, row); DistinctBy(u.order, Whole) && forall x :: x in u.order <==> x in u.amounts
  {
  }

  ghost predicate ValuesFormed(periods: seq<Period>, values: seq<Value>)
  {
    && values != []
    && (forall i | 0 <= i < |values| :: values[i].period in periods)
    && forall i, j | 0 <= i < j < |values| :: values[i].period != values[j].period
  }

  /** What package validation asks of rows. */
  ghost predicate ValidRows(periods: seq<Period>, rows: seq<Row>)
  {
    rows != [] && forall i | 0 <= i < |rows| :: ValuesFormed(periods, rows[i].values)
  }

  /** The loop over the values of a mapped row. */
  method AddRow(
    chart: Chart, ghost rows: seq<Row>, ghost periods: seq<Period>, number: nat, row: Row, c: string,
    before: Tally)
    returns (t: Tally)
    requires ValidChart(chart) && Resolve(chart, row.key) == Mapped(c)
    requires Tallies(chart, rows, before) && ValuesFormed(periods, row.values) && number == |rows| + 1
    ensures Tallies(chart, rows + [row], t)
  {
    hide Tallies, Resolve;
    t := before;
    assert Tallies(chart, rows + [Row(row.key, [])], t) by {
      forall d, p ensures RowsTotal(chart, rows + [Row(row.key, [])], d, p) == RowsTotal(chart, rows, d, p)
                       && Contributors(chart, rows + [Row(row.key, [])], d, p) == Contributors(chart, rows, d, p)
      {
        NoValues(chart, rows, row.key, d, p);
      }
      SameTally(chart, rows, rows + [Row(row.key, [])], t);
    }
    hide Contributors, RowsTotal;
    for j := 0 to |row.values|
      invariant Tallies(chart, rows + [Row(row.key, row.values[..j])], t)
    {
      var v := row.values[j];
      assert row.values[..j + 1] == row.values[..j] + [v];
      AddTallies(chart, rows, row.key, row.values[..j], v, t, c);
      TallyKeys(chart, rows + [Row(row.key, row.values[..j])], t);
      t := Add(t, (c, v.period), v.amount, number);
    }
    assert row.values[..|row.values|] == row.values;
  }

  lemma TallyKeys(chart: Chart, rows: seq<Row>, t: Tally)
    requires ValidChart(chart) && Tallies(chart, rows, t)
    ensures t.sources.Keys == t.amounts.Keys && forall k :: k in t.order <==> k in t.amounts
    ensures DistinctBy(t.order, Whole)
  {
  }

  /** What package validation asks of periods and rows. */
  ghost predicate ValidPackage(package: Package)
  {
    && package.periods != []
    && (forall i, j | 0 <= i < j < |package.periods| :: package.periods[i] != package.periods[j])
    && ValidRows(package.periods, package.rows)
  }

  /** The checks of one row's values: something there, known periods, none twice. */
  method CheckValues(periods: seq<Period>, values: seq<Value>) returns (valid: bool)
    ensures valid <==> ValuesFormed(periods, values)
  {
    if |values| == 0 {
      return false;
    }
    var seen: set<Period> := {};
    for i := 0 to |values|
      invariant forall p :: p in seen <==> exists j | 0 <= j < i :: values[j].period == p
      invariant forall j | 0 <= j < i :: values[j].period in periods
      invariant forall j, k | 0 <= j < k < i :: values[j].period != values[k].period
    {
      if values[i].period !in periods || values[i].period in seen {
        return false;
      }
      seen := seen + {values[i].period};
    }
    valid := true;
  }

  /** `validate_financial_data_package`, its periods and rows. */
  method ValidatePackage(package: Package) returns (valid: bool)
    ensures valid <==> ValidPackage(package)
  {
    hide ValuesFormed;
    if |package.periods| == 0 || |package.rows| == 0 {
      return false;
    }
    var seen: set<Period> := {};
    for i := 0 to |package.periods|
      invariant forall p :: p in seen <==> exists j | 0 <= j < i :: package.periods[j] == p
      invariant forall j, k | 0 <= j < k < i :: package.periods[j] != package.periods[k]
    {
      if package.periods[i] in seen {
        return false;
      }
      seen := seen + {package.periods[i]};
    }
    for i := 0 to |package.rows|
      invariant forall j | 0 <= j < i :: ValuesFormed(package.periods, package.rows[j].values)
    {
      var formed := CheckValues(package.periods, package.rows[i].values);
      if !formed {
        return false;
      }
    }
    valid := true;
  }

  // ---------------------------------------------------------------- the mapping result

  datatype Item = Item(concept: string, period: Period, amount: real, sources: seq<nat>)

  datatype MappingResult = MappingResult(statuses: seq<Status>, blockers: seq<(nat, Status)>, series: seq<Item>)

  datatype MappingError = InvalidPackage | InvalidProfile

  function SlotLe(periods: seq<Period>): (Slot, Slot) -> bool
  {
    (a: Slot, b: Slot) => Lt(a.0, b.0) || (a.0 == b.0 && IndexOf(periods, a.1) <= IndexOf(periods, b.1))
  }

  lemma SlotsAreTotal(periods: seq<Period>)
    ensures TotalPreorder(SlotLe(periods))
  {
    hide IndexOf;
    var le := SlotLe(periods);
    forall x: Slot, y: Slot ensures le(x, y) || le(y, x) {
      LeTotal(x.0, y.0);
    }
    forall x: Slot, y: Slot, z: Slot | le(x, y) && le(y, z) ensures le(x, z) {
      if x.0 != y.0 && y.0 != z.0 {
        LeTransitive(x.0, y.0, z.0);
        if x.0 == z.0 { LeAntisymmetric(x.0, y.0); }
      }
    }
  }

  function Items(slots: seq<Slot>, t: Tally): (r: seq<Item>)
    requires t.sources.Keys == t.amounts.Keys && forall k | k in slots :: k in t.amounts
    ensures |r| == |slots|
    ensures forall i | 0 <= i < |r| :: r[i] == Item(slots[i].0, slots[i].1, t.amounts[slots[i]], t.sources[slots[i]])
  {
    seq(|slots|, i requires 0 <= i < |slots| => Item(slots[i].0, slots[i].1, t.amounts[slots[i]], t.sources[slots[i]]))
  }

  ghost function SlotOf(item: Item): Slot { (item.concept, item.period) }

  /** Every item is the sum and the sources of its concept and period. */
  ghost predicate IsItem(chart: Chart, rows: seq<Row>, item: Item)
    requires ValidChart(chart)
  {
    && item.amount == RowsTotal(chart, rows, item.concept, item.period)
    && item.sources == Contributors(chart, rows, item.concept, item.period) != []
  }

  /** One item for every concept and period that has contributors, sorted by concept and period. */
  ghost predicate IsSeries(chart: Chart, periods: seq<Period>, rows: seq<Row>, series: seq<Item>)
    requires ValidChart(chart)
  {
    && (forall i | 0 <= i < |series| :: IsItem(chart, rows, series[i]))
    && (forall i, j | 0 <= i < j < |series| :: SlotLe(periods)(SlotOf(series[i]), SlotOf(series[j])))
    && (forall i, j | 0 <= i < j < |series| :: SlotOf(series[i]) != SlotOf(series[j]))
    && forall c, p | Contributors(chart, rows, c, p) != [] ::
         exists i | 0 <= i < |series| :: SlotOf(series[i]) == (c, p)
  }

  lemma SortedSlots(periods: seq<Period>, t: Tally)
    requires DistinctBy(t.order, Whole)
    ensures var slots := SortBy(t.order, SlotLe(periods));
            && Ordered(slots, SlotLe(periods)) && DistinctBy(slots, Whole) && forall k :: k in slots <==> k in t.order
  {
    hide SlotLe, TotalPreorder, DistinctBy;
    var slots := SortBy(t.order, SlotLe(periods));
    SlotsAreTotal(periods);
    SortByOrdered(t.order, SlotLe(periods));
    SortByElements(t.order, SlotLe(periods));
    DistinctPermuted(t.order, slots, Whole);
    forall k: Slot ensures k in slots <==> k in t.order {
      assert k in multiset(slots) <==> k in multiset(t.order);
    }
  }

  lemma TallyIsSeries(chart: Chart, periods: seq<Period>, rows: seq<Row>, t: Tally)
    requires ValidChart(chart) && Tallies(chart, rows, t)
    ensures var slots := SortBy(t.order, SlotLe(periods));
            (forall k | k in slots :: k in t.amounts) && IsSeries(chart, periods, rows, Items(slots, t))
  {
    TallyKeys(chart, rows, t);
    hide Contributors, RowsTotal, SortBy, SlotLe, Tallies, IsSeries, Ordered, DistinctBy;
    SortedSlots(periods, t);
    var slots := SortBy(t.order, SlotLe(periods));
    assert forall k :: k in slots <==> k in t.amounts;
    SlotsAreSeries(chart, periods, rows, t, slots);
  }

  lemma SlotsAreSeries(chart: Chart, periods: seq<Period>, rows: seq<Row>, t: Tally, slots: seq<Slot>)
    requires ValidChart(chart) && Tallies(chart, rows, t)
    requires Ordered(slots, SlotLe(periods)) && DistinctBy(slots, Whole) && forall k :: k in slots <==> k in t.amounts
    ensures IsSeries(chart, periods, rows, Items(slots, t))
  {
    hide Contributors, RowsTotal, SlotLe;
    var le, series := SlotLe(periods), Items(slots, t);
    forall i | 0 <= i < |series| ensures IsItem(chart, rows, series[i]) {
      assert slots[i] in t.amounts;
    }
    forall c, p | Contributors(chart, rows, c, p) != []
      ensures exists i | 0 <= i < |series| :: SlotOf(series[i]) == (c, p)
    {
      assert (c, p) in t.amounts;
      var i :| 0 <= i < |slots| && slots[i] == (c, p);
      assert SlotOf(series[i]) == (c, p);
    }
    hide Tallies, IsItem;
    forall i, j | 0 <= i < j < |series|
      ensures le(SlotOf(series[i]), SlotOf(series[j])) && SlotOf(series[i]) != SlotOf(series[j])
    {
      assert Whole(slots[i]) != Whole(slots[j]) && le(slots[i], slots[j]);
    }
  }

  function Statuses(chart: Chart, rows: seq<Row>): (r: seq<Status>)
    requires ValidChart(chart)
    ensures |r| == |rows| && forall i | 0 <= i < |rows| :: r[i] == Resolve(chart, rows[i].key)
  {
    seq(|rows|, i requires 0 <= i < |rows| => Resolve(chart, rows[i].key))
  }

  /** The blocking rows with what blocks them, in order. */
  function Blockers(statuses: seq<Status>): seq<(nat, Status)>
  {
    if statuses == [] then []
    else
      var last := statuses[|statuses| - 1];
      Blockers(statuses[..|statuses| - 1]) + (if Blocks(last) then [(|statuses|, last)] else [])
  }

  lemma {:induction false} BlockersIff(statuses: seq<Status>, n: nat, status: Status)
    ensures (n, status) in Blockers(statuses) <==> 1 <= n <= |statuses| && statuses[n - 1] == status && Blocks(status)
  {
    if statuses != [] {
      BlockersIff(statuses[..|statuses| - 1], n, status);
    }
  }

  lemma BlockersAppend(statuses: seq<Status>, status: Status)
    ensures Blockers(statuses + [status]) ==
            Blockers(statuses) + (if Blocks(status) then [(|statuses| + 1, status)] else [])
  {
    hide Blocks;
    var more := statuses + [status];
    assert more[..|statuses|] == statuses && more[|more| - 1] == status;
    assert Blockers(more) == Blockers(more[..|statuses|]) + (if Blocks(status) then [(|more|, status)] else []);
  }

  lemma NotBlocked(statuses: seq<Status>)
    ensures Blockers(statuses) == [] <==> forall i | 0 <= i < |statuses| :: !Blocks(statuses[i])
  {
    forall i | 0 <= i < |statuses| && Blocks(statuses[i]) ensures Blockers(statuses) != [] {
      BlockersIff(statuses, i + 1, statuses[i]);
    }
    if Blockers(statuses) != [] {
      var b := Blockers(statuses)[0];
      assert b in Blockers(statuses);
      BlockersIff(statuses, b.0, b.1);
    }
  }

  /** The loop over rows. */
  method MapRows(chart: Chart, periods: seq<Period>, rows: seq<Row>)
    returns (statuses: seq<Status>, blockers: seq<(nat, Status)>, t: Tally)
    requires ValidChart(chart) && forall i | 0 <= i < |rows| :: ValuesFormed(periods, rows[i].values)
    ensures statuses == Statuses(chart, rows) && blockers == Blockers(statuses)
    ensures Tallies(chart, rows, t)
  {
    hide Tallies, Resolve, Blocks, Blockers, ValuesFormed;
    statuses, blockers, t := [], [], Tally(map[], map[], []);
    assert Tallies(chart, [], t) by { NothingTallied(chart); }
    assert Blockers([]) == [] by { NotBlocked([]); }
    for n := 0 to |rows|
      invariant statuses == Statuses(chart, rows[..n]) && blockers == Blockers(statuses)
      invariant Tallies(chart, rows[..n], t)
    {
      var row := rows[n];
      assert rows[..n + 1] == rows[..n] + [row];
      var status := Resolve(chart, row.key);
      BlockersAppend(statuses, status);
      if Blocks(status) {
        blockers := blockers + [(n + 1, status)];
      }
      statuses := statuses + [status];
      if status.Mapped? {
        t := AddRow(chart, rows[..n], periods, n + 1, row, status.concept, t);
      } else {
        SkippedRow(chart, rows[..n], row, t);
      }
    }
    assert rows[..|rows|] == rows;
  }

  lemma NothingTallied(chart: Chart)
    requires ValidChart(chart)
    ensures Tallies(chart, [], Tally(map[], map[], []))
  {
  }

  lemma SkippedRow(chart: Chart, rows: seq<Row>, row: Row, t: Tally)
    requires ValidChart(chart) && Tallies(chart, rows, t) && !Resolve(chart, row.key).Mapped?
    ensures Tallies(chart, rows + [row], t)
  {
    hide Tallies, Resolve;
    forall c, p ensures RowsTotal(chart, rows + [row], c, p) == RowsTotal(chart, rows, c, p)
                     && Contributors(chart, rows + [row], c, p) == Contributors(chart, rows, c, p)
    {
      NotMapped(chart, rows, row, c, p);
    }
    SameTally(chart, rows, rows + [row], t);
  }

  // ---------------------------------------------------------------- conservation

  /** The sum of the entries mapped to a concept in a period. */
  function Total(chart: Chart, entries: seq<Entry>, c: string, p: Period): real
    requires ValidChart(chart)
  {
    if entries == [] then 0.0
    else Total(chart, entries[..|entries| - 1], c, p) + Share(chart, entries[|entries| - 1], c, p)
  }

  function Share(chart: Chart, e: Entry, c: string, p: Period): real
    requires ValidChart(chart)
  {
    if Resolve(chart, e.key) == Mapped(c) && e.period == p then e.amount else 0.0
  }

  lemma {:induction false} TotalConcat(chart: Chart, a: seq<Entry>, b: seq<Entry>, c: string, p: Period)
    requires ValidChart(chart)
    ensures Total(chart, a + b, c, p) == Total(chart, a, c, p) + Total(chart, b, c, p)
  {
    hide Share;
    if b == [] {
      assert a + b == a;
    } else {
      var n := |b| - 1;
      TotalConcat(chart, a, b[..n], c, p);
      assert (a + b)[..|a| + n] == a + b[..n];
    }
  }

  lemma TotalRemove(chart: Chart, entries: seq<Entry>, i: nat, c: string, p: Period)
    requires ValidChart(chart) && i < |entries|
    ensures Total(chart, entries, c, p) ==
            Total(chart, entries[..i] + entries[i + 1..], c, p) + Share(chart, entries[i], c, p)
  {
    hide Share;
    TotalConcat(chart, entries[..i], entries[i + 1..], c, p);
    TotalConcat(chart, entries[..i + 1], entries[i + 1..], c, p);
    assert entries == entries[..i + 1] + entries[i + 1..] && entries[..i + 1][..i] == entries[..i];
  }

  /** Totals do not depend on the order of the entries. */
  lemma {:induction false} TotalPermuted(chart: Chart, a: seq<Entry>, b: seq<Entry>, c: string, p: Period)
    requires ValidChart(chart) && multiset(a) == multiset(b)
    ensures Total(chart, a, c, p) == Total(chart, b, c, p)
    decreases |a|
  {
    hide Share, Total;
    SameMembers(a, b);
    if a != [] {
      var n := |a| - 1;
      assert a[n] in b;
      var i :| 0 <= i < |b| && b[i] == a[n];
      FrontElements(a);
      RemoveOne(b, i);
      TotalPermuted(chart, a[..n], b[..i] + b[i + 1..], c, p);
      TotalRemove(chart, b, i, c, p);
      TotalRemove(chart, a, n, c, p);
      assert a[..n] + a[n + 1..] == a[..n];
    } else {
      assert a == b;
    }
  }

  lemma {:induction false} RowEntriesTotal(chart: Chart, row: Row, c: string, p: Period)
    requires ValidChart(chart)
    ensures Total(chart, RowEntries(row), c, p) == RowTotal(chart, row, c, p)
    decreases |row.values|
  {
    if row.values != [] {
      var n := |row.values| - 1;
      var front := Row(row.key, row.values[..n]);
      RowEntriesTotal(chart, front, c, p);
      hide Resolve;
      assert RowEntries(row)[..n] == RowEntries(front);
    }
  }

  /** What rows sum to is what their entries sum to. */
  lemma {:induction false} HeldTotal(chart: Chart, rows: seq<Row>, c: string, p: Period)
    requires ValidChart(chart)
    ensures Total(chart, Held(rows), c, p) == RowsTotal(chart, rows, c, p)
  {
    if rows != [] {
      var n := |rows| - 1;
      HeldTotal(chart, rows[..n], c, p);
      TotalConcat(chart, Held(rows[..n]), RowEntries(rows[n]), c, p);
      RowEntriesTotal(chart, rows[n], c, p);
      hide Total, RowTotal;
    }
  }

  /** Imported and mapped, a concept and period holds the exact sum of the lines mapped to it. */
  lemma MappedTotal(chart: Chart, lines: seq<Line>, periods: seq<Period>, rows: seq<Row>, c: string, p: Period)
    requires ValidChart(chart) && IsPackage(Entries(lines), periods, rows)
    ensures RowsTotal(chart, rows, c, p) == Total(chart, Entries(lines), c, p)
  {
    HeldTotal(chart, rows, c, p);
    TotalPermuted(chart, Held(rows), Entries(lines), c, p);
  }

  /** A row has a value for a period exactly when a line gives one. */
  lemma RowPeriodIffLine(entries: seq<Entry>, rows: seq<Row>, i: nat, p: Period)
    requires multiset(Held(rows)) == multiset(entries) && DistinctBy(rows, KeyOf) && i < |rows|
    ensures HasPeriod(rows[i].values, p) <==> Given(entries, rows[i].key, p)
  {
    hide Held, DistinctBy;
    var row := rows[i];
    if j :| 0 <= j < |row.values| && row.values[j].period == p {
      HeldInRow(entries, rows, i, j);
    }
    if e :| e in entries && e.key == row.key && e.period == p {
      var v := Value(e.period, e.amount);
      assert e == Entry(row.key, v.period, v.amount);
      HeldInRowOf(entries, rows, i, v);
      var j :| 0 <= j < |row.values| && row.values[j] == v;
      assert row.values[j].period == p;
    }
  }

  /** Some line of a key gives an amount for a period. */
  ghost predicate Given(entries: seq<Entry>, key: Key, p: Period)
  {
    exists e | e in entries :: e.key == key && e.period == p
  }

  /** A row is among the sources exactly when one of the lines it groups is mapped there. */
  lemma SourcesAreContributingLines(
    chart: Chart, lines: seq<Line>, periods: seq<Period>, rows: seq<Row>, c: string, p: Period, n: nat)
    requires ValidChart(chart) && IsPackage(Entries(lines), periods, rows) && 1 <= n <= |rows|
    ensures n in Contributors(chart, rows, c, p) <==>
            Resolve(chart, rows[n - 1].key) == Mapped(c) && Given(Entries(lines), rows[n - 1].key, p)
  {
    hide Resolve, Held, HasPeriod, Contributors, Ordered, DistinctBy, RowOk, Given;
    ContributorIff(chart, rows, c, p, n);
    RowPeriodIffLine(Entries(lines), rows, n - 1, p);
  }

  /** An imported package passes package validation. */
  lemma ImportedIsValid(entries: seq<Entry>, package: Package)
    requires IsPackage(entries, package.periods, package.rows) && entries != []
    ensures ValidPackage(package)
  {
    hide Held;
    HeldSomewhere(entries, package.rows, entries[0]);
    assert entries[0].period in package.periods;
    forall i | 0 <= i < |package.rows| ensures ValuesFormed(package.periods, package.rows[i].values) {
      assert RowOk(package.periods, package.rows[i]);
    }
    forall i, j | 0 <= i < j < |package.periods| ensures package.periods[i] != package.periods[j] {
      assert Itself(package.periods[i]) != Itself(package.periods[j]);
    }
  }

  // ---------------------------------------------------------------- profiles

  datatype Rule = Rule(code: Option<string>, name: Option<string>, concept: string)

  function CodeOf(rule: Rule): Option<string>
  {
    rule.code
  }

  function NameOf(normalize: string -> string): Rule -> Option<string>
  {
    (rule: Rule) => if rule.name.Some? then Some(normalize(rule.name.value)) else None
  }

  ghost predicate RuleOk(concepts: set<string>, rule: Rule)
  {
    rule.concept in concepts && (rule.code.Some? || rule.name.Some?)
  }

  /** No key leads to two concepts. */
  ghost predicate Consistent(rules: seq<Rule>, key: Rule -> Option<string>)
  {
    forall a, b | a in rules && b in rules && key(a).Some? && key(a) == key(b) :: a.concept == b.concept
  }

  ghost predicate ValidRules(concepts: set<string>, normalize: string -> string, rules: seq<Rule>)
  {
    && (forall rule | rule in rules :: RuleOk(concepts, rule))
    && Consistent(rules, CodeOf) && Consistent(rules, NameOf(normalize))
  }

  /** The concepts first seen for each key. */
  ghost predicate Seen(rules: seq<Rule>, key: Rule -> Option<string>, seen: map<string, string>)
  {
    && (forall rule | rule in rules && key(rule).Some? :: key(rule).value in seen)
    && forall k | k in seen :: exists rule :: rule in rules && key(rule) == Some(k) && rule.concept == seen[k]
  }

  /** `seen.setdefault(key, concept)` */
  function Note(seen: map<string, string>, k: Option<string>, concept: string): map<string, string>
  {
    if k.None? || k.value in seen then seen else seen[k.value := concept]
  }

  lemma NoteSees(rules: seq<Rule>, key: Rule -> Option<string>, seen: map<string, string>, rule: Rule)
    requires Seen(rules, key, seen)
    ensures Seen(rules + [rule], key, Note(seen, key(rule), rule.concept))
  {
    var more, noted := rules + [rule], Note(seen, key(rule), rule.concept);
    assert rule in more && forall r | r in rules :: r in more;
    forall k | k in noted ensures exists r :: r in more && key(r) == Some(k) && r.concept == noted[k] {
      if k in seen {
        var r :| r in rules && key(r) == Some(k) && r.concept == seen[k];
        assert r in more;
      }
    }
  }

  lemma NoteTells(rules: seq<Rule>, key: Rule -> Option<string>, seen: map<string, string>, rule: Rule)
    requires Seen(rules, key, seen)
    ensures Consistent(rules + [rule], key) <==>
            Consistent(rules, key) && (key(rule).Some? && key(rule).value in seen ==>
              seen[key(rule).value] == rule.concept)
  {
    var more := rules + [rule];
    assert rule in more && forall r | r in rules :: r in more;
    forall r | r in more ensures r in rules || r == rule {}
    if key(rule).Some? && key(rule).value in seen {
      var first :| first in rules && key(first) == key(rule) && first.concept == seen[key(rule).value];
      assert first in more;
      if Consistent(rules, key) && first.concept == rule.concept {
        forall a | a in rules && key(a) == key(rule) ensures a.concept == rule.concept {
          assert a.concept == first.concept;
        }
      }
    }
  }

  /** `validate_mapping_profile`, its rules. */
  method ValidateRules(concepts: set<string>, normalize: string -> string, rules: seq<Rule>) returns (valid: bool)
    ensures valid <==> ValidRules(concepts, normalize, rules)
  {
    hide Seen, Consistent, NameOf, RuleOk;
    valid := true;
    var codes, names := map[], map[];
    assert Seen([], CodeOf, codes) && Consistent([], CodeOf) by { NoRules(CodeOf); }
    assert Seen([], NameOf(normalize), names) && Consistent([], NameOf(normalize)) by { NoRules(NameOf(normalize)); }
    for i := 0 to |rules|
      invariant valid <==> ValidRules(concepts, normalize, rules[..i])
      invariant Seen(rules[..i], CodeOf, codes) && Seen(rules[..i], NameOf(normalize), names)
    {
      var rule := rules[i];
      assert rules[..i + 1] == rules[..i] + [rule];
      NoteSees(rules[..i], CodeOf, codes, rule);
      NoteSees(rules[..i], NameOf(normalize), names, rule);
      NoteTells(rules[..i], CodeOf, codes, rule);
      NoteTells(rules[..i], NameOf(normalize), names, rule);
      var code, name := CodeOf(rule), NameOf(normalize)(rule);
      codes, names := Note(codes, code, rule.concept), Note(names, name, rule.concept);
      RuleOkIff(concepts, rule);
      var sound := rule.concept in concepts && !(rule.code.None? && rule.name.None?)
        && (code.Some? ==> codes[code.value] == rule.concept)
        && (name.Some? ==> names[name.value] == rule.concept);
      valid := valid && sound;
    }
    assert rules[..|rules|] == rules;
  }

  lemma RuleOkIff(concepts: set<string>, rule: Rule)
    ensures RuleOk(concepts, rule) <==> rule.concept in concepts && !(rule.code.None? && rule.name.None?)
  {
  }

  lemma NoRules(key: Rule -> Option<string>)
    ensures Seen([], key, map[]) && Consistent([], key)
  {
  }

  /** `{key: concept for rule in rules}`: a later rule replaces an earlier one. */
  function Bind(rules: seq<Rule>, key: Rule -> Option<string>): map<string, string>
  {
    if rules == [] then map[]
    else
      var last := rules[|rules| - 1];
      var bound := Bind(rules[..|rules| - 1], key);
      if key(last).None? then bound else bound[key(last).value := last.concept]
  }

  /** Every bound key comes from a rule; in consistent rules, from any rule that has it. */
  lemma {:induction false} BindIs(rules: seq<Rule>, key: Rule -> Option<string>, k: string)
    ensures k in Bind(rules, key) <==> exists rule :: rule in rules && key(rule) == Some(k)
    ensures k in Bind(rules, key) ==>
            exists rule :: rule in rules && key(rule) == Some(k) && rule.concept == Bind(rules, key)[k]
  {
    if rules != [] {
      var n := |rules| - 1;
      BindIs(rules[..n], key, k);
      assert rules == rules[..n] + [rules[n]];
      assert rules[n] in rules;
    }
  }

  /** The dictionaries of a valid profile do not depend on the order of its rules. */
  lemma BindPermuted(rules: seq<Rule>, other: seq<Rule>, key: Rule -> Option<string>)
    requires Consistent(rules, key) && multiset(rules) == multiset(other)
    ensures Bind(rules, key) == Bind(other, key)
  {
    SameMembers(rules, other);
    hide Bind;
    forall k ensures k in Bind(rules, key) <==> k in Bind(other, key) {
      BindIs(rules, key, k);
      BindIs(other, key, k);
    }
    forall k | k in Bind(rules, key) ensures Bind(rules, key)[k] == Bind(other, key)[k] {
      BindIs(rules, key, k);
      BindIs(other, key, k);
    }
  }

  /** The built-in concepts, the aliases of their normalized names, and the normalization of labels. */
  datatype BuiltIns = BuiltIns(
    concepts: map<string, Shape>, aliases: map<string, set<string>>, normalize: string -> string)

  ghost predicate AliasesKnown(b: BuiltIns)
  {
    forall name | name in b.aliases :: b.aliases[name] <= b.concepts.Keys
  }

  /** The tables under which a profile maps rows: its rules over the built-in aliases. */
  function ChartOf(b: BuiltIns, rules: seq<Rule>): Chart
  {
    Chart(b.concepts, Bind(rules, CodeOf), Bind(rules, NameOf(b.normalize)), b.aliases, b.normalize)
  }

  lemma BoundConceptsKnown(concepts: set<string>, rules: seq<Rule>, key: Rule -> Option<string>)
    requires forall rule | rule in rules :: RuleOk(concepts, rule)
    ensures Bind(rules, key).Values <= concepts
  {
    hide Bind;
    forall c | c in Bind(rules, key).Values ensures c in concepts {
      var k :| k in Bind(rules, key) && Bind(rules, key)[k] == c;
      BindIs(rules, key, k);
    }
  }

  lemma ChartValid(b: BuiltIns, rules: seq<Rule>)
    requires AliasesKnown(b) && ValidRules(b.concepts.Keys, b.normalize, rules)
    ensures ValidChart(ChartOf(b, rules))
  {
    BoundConceptsKnown(b.concepts.Keys, rules, CodeOf);
    BoundConceptsKnown(b.concepts.Keys, rules, NameOf(b.normalize));
  }

  /** A valid profile maps the same whatever the order of its rules. */
  lemma ChartPermuted(b: BuiltIns, rules: seq<Rule>, other: seq<Rule>)
    requires ValidRules(b.concepts.Keys, b.normalize, rules) && multiset(rules) == multiset(other)
    ensures ValidRules(b.concepts.Keys, b.normalize, other) && ChartOf(b, rules) == ChartOf(b, other)
  {
    BindPermuted(rules, other, CodeOf);
    BindPermuted(rules, other, NameOf(b.normalize));
    SameMembers(rules, other);
  }

  /** What mapping a package gives: a status for every row, the blocking ones, and the series. */
  ghost predicate IsMapping(chart: Chart, package: Package, m: MappingResult)
  {
    && ValidChart(chart)
    && m.statuses == Statuses(chart, package.rows) && m.blockers == Blockers(m.statuses)
    && IsSeries(chart, package.periods, package.rows, m.series)
  }

  /** `map_financial_data`: an invalid package is refused first, then an invalid profile. */
  method MapFinancialData(b: BuiltIns, rules: seq<Rule>, package: Package)
    returns (r: Result<MappingResult, MappingError>)
    requires AliasesKnown(b)
    ensures !ValidPackage(package) ==> r == Err(InvalidPackage)
    ensures ValidPackage(package) && !ValidRules(b.concepts.Keys, b.normalize, rules) ==> r == Err(InvalidProfile)
    ensures ValidPackage(package) && ValidRules(b.concepts.Keys, b.normalize, rules) ==>
              r.Ok? && IsMapping(ChartOf(b, rules), package, r.value)
  {
    hide ValidRules, Bind;
    var formed := ValidatePackage(package);
    if !formed {
      return Err(InvalidPackage);
    }
    var valid := ValidateRules(b.concepts.Keys, b.normalize, rules);
    if !valid {
      return Err(InvalidProfile);
    }
    ChartValid(b, rules);
    var chart := ChartOf(b, rules);
    hide ValidChart, Tallies, Resolve, Blocks, IsSeries, SortBy, Blockers, SlotLe, ChartOf;
    var statuses, blockers, t := MapRows(chart, package.periods, package.rows);
    TallyIsSeries(chart, package.periods, package.rows, t);
    TallyKeys(chart, package.rows, t);
    r := Ok(MappingResult(statuses, blockers, Items(SortBy(t.order, SlotLe(package.periods)), t)));
  }

  // ---------------------------------------------------------------- what decides a row

  /** A rule of the profile names a row, by its code or by its normalized name, and leads to a concept. */
  ghost predicate RuleNames(b: BuiltIns, rules: seq<Rule>, key: Key, c: string)
  {
    exists rule | rule in rules ::
      && rule.concept == c
      && (|| (key.code != "" && rule.code == Some(key.code))
          || (rule.name.Some? && b.normalize(rule.name.value) == b.normalize(key.name)))
  }

  /** The concepts a row may stand for: those of the rules that name it, and without such rules its aliases. */
  ghost predicate StandsFor(b: BuiltIns, rules: seq<Rule>, key: Key, c: string)
  {
    if exists d :: RuleNames(b, rules, key, d) then RuleNames(b, rules, key, c)
    else b.normalize(key.name) in b.aliases && c in b.aliases[b.normalize(key.name)]
  }

  lemma BoundIff(rules: seq<Rule>, key: Rule -> Option<string>, k: string, c: string)
    requires Consistent(rules, key)
    ensures k in Bind(rules, key) && Bind(rules, key)[k] == c <==>
            exists rule | rule in rules :: key(rule) == Some(k) && rule.concept == c
  {
    hide Bind;
    BindIs(rules, key, k);
  }

  lemma RuleNamesIff(b: BuiltIns, rules: seq<Rule>, key: Key, c: string)
    requires ValidRules(b.concepts.Keys, b.normalize, rules)
    ensures c in Exact(ChartOf(b, rules), key) <==> RuleNames(b, rules, key, c)
  {
    BoundIff(rules, CodeOf, key.code, c);
    BoundIff(rules, NameOf(b.normalize), b.normalize(key.name), c);
    hide Bind, Consistent;
    if rule :| rule in rules && rule.concept == c && key.code != "" && rule.code == Some(key.code) {
      assert CodeOf(rule) == Some(key.code);
    }
    if rule :| rule in rules && rule.concept == c && rule.name.Some?
               && b.normalize(rule.name.value) == b.normalize(key.name) {
      assert NameOf(b.normalize)(rule) == Some(b.normalize(key.name));
    }
  }

  /** Exact rules decide before aliases do. */
  lemma CandidateIff(b: BuiltIns, rules: seq<Rule>, key: Key, c: string)
    requires ValidRules(b.concepts.Keys, b.normalize, rules)
    ensures c in Candidates(ChartOf(b, rules), key) <==> StandsFor(b, rules, key, c)
  {
    hide Exact, RuleNames, ValidRules;
    var chart := ChartOf(b, rules);
    forall d ensures d in Exact(chart, key) <==> RuleNames(b, rules, key, d) {
      RuleNamesIff(b, rules, key, d);
    }
    if Exact(chart, key) != {} {
      var d :| d in Exact(chart, key);
    }
  }

  /** What a row is resolved to, from the rules and aliases that name it and from its shape. */
  lemma ResolvedBy(b: BuiltIns, rules: seq<Rule>, key: Key)
    requires AliasesKnown(b) && ValidRules(b.concepts.Keys, b.normalize, rules)
    ensures ValidChart(ChartOf(b, rules))
    ensures var status := Resolve(ChartOf(b, rules), key);
            && (Blocks(status) <==> status == Ambiguous || exists c :: status == Invalid(c))
            && (status == Unmapped <==> forall c :: !StandsFor(b, rules, key, c))
            && (status == Ambiguous <==>
                exists c, d :: c != d && StandsFor(b, rules, key, c) && StandsFor(b, rules, key, d))
            && forall c | StandsFor(b, rules, key, c) && (forall d :: StandsFor(b, rules, key, d) ==> d == c) ::
                 && c in b.concepts
                 && status == if b.concepts[c].statement == key.statement && b.concepts[c].balance == key.balance
                              then Mapped(c) else Invalid(c)
  {
    var chart := ChartOf(b, rules);
    ChartValid(b, rules);
    var candidates := Candidates(chart, key);
    forall c ensures c in candidates <==> StandsFor(b, rules, key, c) {
      CandidateIff(b, rules, key, c);
    }
    CandidatesKnown(chart, key);
    hide Candidates, StandsFor, ValidRules;
    SizesOf(candidates);
    if |candidates| == 1 {
      Singleton(candidates, Least(candidates));
    }
  }

  lemma SizesOf(s: set<string>)
    ensures |s| > 1 <==> exists c, d :: c != d && c in s && d in s
    ensures |s| == 0 <==> forall c :: c !in s
  {
    if |s| > 0 {
      var c :| c in s;
      if |s| == 1 {
        Singleton(s, c);
      } else {
        assert |s - {c}| > 0;
        var d :| d in s - {c};
      }
    }
  }

  // ---------------------------------------------------------------- the order of a series

  lemma {:induction false} IndexIs(periods: seq<Period>, p: Period)
    requires p in periods
    ensures IndexOf(periods, p) < |periods| && periods[IndexOf(periods, p)] == p
  {
    if periods[0] != p {
      IndexIs(periods[1..], p);
    }
  }

  /** Items are listed by concept, and those of a concept in the order of the periods. */
  lemma SeriesIsSorted(chart: Chart, periods: seq<Period>, rows: seq<Row>, series: seq<Item>, i: nat, j: nat)
    requires ValidChart(chart) && IsSeries(chart, periods, rows, series) && i < j < |series|
    requires series[i].period in periods && series[j].period in periods
    ensures || Lt(series[i].concept, series[j].concept)
            || (series[i].concept == series[j].concept
                && exists p, q | 0 <= p < q < |periods| ::
                     periods[p] == series[i].period && periods[q] == series[j].period)
  {
    assert SlotLe(periods)(SlotOf(series[i]), SlotOf(series[j])) && SlotOf(series[i]) != SlotOf(series[j]);
    IndexIs(periods, series[i].period);
    IndexIs(periods, series[j].period);
    hide IndexOf, IsItem, Contributors;
  }
}
