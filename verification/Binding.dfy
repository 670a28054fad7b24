/** Binding mapped amounts to the input cells a workbook reserves (`binding.py`). */
module Binding {
  import opened Results
  import opened Columns
  import opened Statements
  import opened Mapping
  import opened Canonical
  import opened Conservation

  // ---------------------------------------------------------------- cell ranges

  /** A matched range: column letters and rows of its two corners. */
  datatype Area = Area(startColumn: string, startRow: nat, endColumn: string, endRow: nat)

  predicate ValidArea(a: Area)
  {
    IsLabel(a.startColumn) && IsLabel(a.endColumn)
  }

  /** `_coordinate_cell_count`. */
  function CellCount(a: Area): int
    requires ValidArea(a)
  {
    (Number(a.endColumn) - Number(a.startColumn) + 1) * (a.endRow - a.startRow + 1)
  }

  ghost function RowCells(from: int, to: int, row: int): set<(int, int)>
  {
    set c | from <= c <= to :: (c, row)
  }

  /** The cells of a rectangle, as column and row numbers. */
  ghost function AreaCells(fromColumn: int, toColumn: int, fromRow: int, toRow: int): set<(int, int)>
  {
    set c, r | fromColumn <= c <= toColumn && fromRow <= r <= toRow :: (c, r)
  }

  lemma {:induction false} RowCellCount(from: int, width: nat, row: int)
    ensures |RowCells(from, from + width - 1, row)| == width
  {
    if width > 0 {
      RowCellCount(from, width - 1, row);
      var before := RowCells(from, from + width - 2, row);
      assert RowCells(from, from + width - 1, row) == before + {(from + width - 1, row)};
    } else {
      assert RowCells(from, from - 1, row) == {};
    }
  }

  lemma {:induction false} AreaCellCount(column: int, row: int, width: nat, height: nat)
    ensures |AreaCells(column, column + width - 1, row, row + height - 1)| == width * height
  {
    var all := AreaCells(column, column + width - 1, row, row + height - 1);
    if height > 0 {
      AreaCellCount(column, row, width, height - 1);
      RowCellCount(column, width, row + height - 1);
      var before := AreaCells(column, column + width - 1, row, row + height - 2);
      var last := RowCells(column, column + width - 1, row + height - 1);
      assert all == before + last;
      assert before !! last;
      OneRowMore(width, height - 1);
    } else {
      assert all == {};
    }
  }

  lemma OneRowMore(width: int, height: int)
    ensures width * height + width == width * (height + 1)
  {
  }

  /** For corners in order, the count is the number of cells addressed. */
  lemma CellCountIsCells(a: Area)
    requires ValidArea(a) && Number(a.startColumn) <= Number(a.endColumn) && a.startRow <= a.endRow
    ensures CellCount(a) == |AreaCells(Number(a.startColumn), Number(a.endColumn), a.startRow, a.endRow)|
  {
    AreaCellCount(
      Number(a.startColumn), a.startRow, Number(a.endColumn) - Number(a.startColumn) + 1, a.endRow - a.startRow + 1);
  }

  // ---------------------------------------------------------------- binding

  datatype Selector = PeriodSeries | Latest | RepeatLatest

  datatype Amount = Amount(r: real) | Flag(b: bool)

  datatype Assignment = Constant(value: Amount) | FromConcept(concept: string, selector: Selector)

  /** A reserved input record of a write plan; `area` is missing when its coordinate does not match. */
  datatype Reserved = Reserved(id: string, slot: string, area: Option<Area>)

  datatype Reason = NoRule | NoValues(concept: string) | CountMismatch(concept: string, given: nat, cells: int)

  datatype Bound = Bound(id: string, slot: string, values: seq<Amount>)

  datatype BindingPlan = BindingPlan(bound: seq<Bound>, unresolved: seq<(string, Reason)>, ready: bool)

  datatype BindingError = BadCoordinate

  /** The amounts a concept has, in the order of the periods. */
  function Available(series: seq<Item>, c: string, periods: seq<Period>): seq<Amount>
  {
    if periods == [] then []
    else
      var cell := Cell(series, c, periods[|periods| - 1]);
      Available(series, c, periods[..|periods| - 1]) + (if cell.Some? then [Amount(cell.value)] else [])
  }

  function Repeat(v: Amount, n: int): (r: seq<Amount>)
    ensures |r| == if n <= 0 then 0 else n
    ensures forall i | 0 <= i < |r| :: r[i] == v
  {
    if n <= 0 then [] else Repeat(v, n - 1) + [v]
  }

  function Select(selector: Selector, ordered: seq<Amount>, cells: int): seq<Amount>
    requires ordered != []
  {
    var last := ordered[|ordered| - 1];
    match selector
    case PeriodSeries => ordered
    case Latest => [last]
    case RepeatLatest => Repeat(last, cells)
  }

  /** What one reserved record gets, or why it gets nothing. */
  function BindOne(
    rules: map<string, Assignment>, periods: seq<Period>, series: seq<Item>, record: Reserved)
    : Result<seq<Amount>, Reason>
    requires record.area.Some? && ValidArea(record.area.value)
  {
    var cells := CellCount(record.area.value);
    if record.slot !in rules then Err(NoRule)
    else
      match rules[record.slot]
      case Constant(value) => Ok(Repeat(value, cells))
      case FromConcept(concept, selector) =>
        var ordered := Available(series, concept, periods);
        if ordered == [] then Err(NoValues(concept))
        else
          var selected := Select(selector, ordered, cells);
          if |selected| != cells then Err(CountMismatch(concept, |selected|, cells)) else Ok(selected)
  }

  ghost predicate Located(records: seq<Reserved>)
  {
    forall i | 0 <= i < |records| ::
      && records[i].area.Some?
      && IsLabel(records[i].area.value.startColumn) && IsLabel(records[i].area.value.endColumn)
  }

  /** The bound records, in plan order. */
  function AllBound(
    rules: map<string, Assignment>, periods: seq<Period>, series: seq<Item>, records: seq<Reserved>): seq<Bound>
    requires Located(records)
  {
    if records == [] then []
    else
      var last := records[|records| - 1];
      var r := BindOne(rules, periods, series, last);
      AllBound(rules, periods, series, records[..|records| - 1])
        + (if r.Ok? then [Bound(last.id, last.slot, r.value)] else [])
  }

  function AllUnresolved(
    rules: map<string, Assignment>, periods: seq<Period>, series: seq<Item>, records: seq<Reserved>)
    : seq<(string, Reason)>
    requires Located(records)
  {
    if records == [] then []
    else
      var last := records[|records| - 1];
      var r := BindOne(rules, periods, series, last);
      AllUnresolved(rules, periods, series, records[..|records| - 1]) + (if r.Err? then [(last.id, r.error)] else [])
  }

  /** `plan_financial_input_bindings`. */
  method PlanBindings(
    rules: map<string, Assignment>, periods: seq<Period>, mapping: MappingResult, records: seq<Reserved>)
    returns (r: Result<BindingPlan, BindingError>)
    ensures r.Ok? <==> Located(records)
    ensures r.Ok? ==> r.value.bound == AllBound(rules, periods, mapping.series, records)
    ensures r.Ok? ==> r.value.unresolved == AllUnresolved(rules, periods, mapping.series, records)
    ensures r.Ok? ==> (r.value.ready <==> r.value.unresolved == [] && mapping.blockers == [])
  {
    hide BindOne;
    var bound, unresolved := [], [];
    for n := 0 to |records|
      invariant Located(records[..n])
      invariant bound == AllBound(rules, periods, mapping.series, records[..n])
      invariant unresolved == AllUnresolved(rules, periods, mapping.series, records[..n])
    {
      var record := records[n];
      assert records[..n + 1] == records[..n] + [record] && records[..n + 1][..n] == records[..n];
      if record.area.None? || !ValidArea(record.area.value) {
        return Err(BadCoordinate);
      }
      var values := BindOne(rules, periods, mapping.series, record);
      match values {
        case Ok(v) => bound := bound + [Bound(record.id, record.slot, v)];
        case Err(reason) => unresolved := unresolved + [(record.id, reason)];
      }
    }
    assert records[..|records|] == records;
    r := Ok(BindingPlan(bound, unresolved, unresolved == [] && mapping.blockers == []));
  }

  // ---------------------------------------------------------------- what binding promises

  /** A bound record gets exactly one value for each cell it reserves. */
  lemma BoundFillsCells(rules: map<string, Assignment>, periods: seq<Period>, series: seq<Item>, record: Reserved)
    requires record.area.Some? && ValidArea(record.area.value) && CellCount(record.area.value) >= 0
    requires BindOne(rules, periods, series, record).Ok?
    ensures |BindOne(rules, periods, series, record).value| == CellCount(record.area.value)
  {
  }

  /** Every reserved record is bound or unresolved, never both. */
  lemma {:induction false} NothingDropped(
    rules: map<string, Assignment>, periods: seq<Period>, series: seq<Item>, records: seq<Reserved>)
    requires Located(records)
    ensures |AllBound(rules, periods, series, records)| + |AllUnresolved(rules, periods, series, records)| == |records|
    ensures AllUnresolved(rules, periods, series, records) == [] ==>
            forall i | 0 <= i < |records| :: BindOne(rules, periods, series, records[i]).Ok? &&
              AllBound(rules, periods, series, records)[i] ==
              Bound(records[i].id, records[i].slot, BindOne(rules, periods, series, records[i]).value)
  {
    hide BindOne;
    if records != [] {
      NothingDropped(rules, periods, series, records[..|records| - 1]);
    }
  }

  /** The totals of the lines of a concept, over the periods that have lines. */
  ghost function LineTotals(chart: Chart, entries: seq<Entry>, c: string, periods: seq<Period>): seq<Amount>
    requires ValidChart(chart)
  {
    if periods == [] then []
    else
      var p := periods[|periods| - 1];
      LineTotals(chart, entries, c, periods[..|periods| - 1])
      + (if Covered(chart, entries, c, p) then [Amount(Total(chart, entries, c, p))] else [])
  }

  lemma {:induction false} AvailableAreTotals(
    chart: Chart, lines: seq<Line>, periods: seq<Period>, rows: seq<Row>, series: seq<Item>, c: string,
    some: seq<Period>)
    requires ValidChart(chart) && IsPackage(Entries(lines), periods, rows) && IsSeries(chart, periods, rows, series)
    ensures Available(series, c, some) == LineTotals(chart, Entries(lines), c, some)
  {
    hide IsPackage, IsSeries, Cell, Covered, Total;
    if some != [] {
      AvailableAreTotals(chart, lines, periods, rows, series, c, some[..|some| - 1]);
      CellIsTotal(chart, lines, periods, rows, series, c, some[|some| - 1]);
    }
  }

  /**
   * The numbers put into a reserved range are the totals of the concept's lines: all of them in
   * period order, or the latest, alone or repeated; and there is one for every cell.
   */
  lemma BoundNumbersAreLineTotals(
    chart: Chart, lines: seq<Line>, package: Package, series: seq<Item>, rules: map<string, Assignment>,
    record: Reserved)
    requires ValidChart(chart) && IsPackage(Entries(lines), package.periods, package.rows)
    requires IsSeries(chart, package.periods, package.rows, series)
    requires record.area.Some? && ValidArea(record.area.value)
    requires record.slot in rules && rules[record.slot].FromConcept?
    ensures var concept, cells := rules[record.slot].concept, CellCount(record.area.value);
            var totals := LineTotals(chart, Entries(lines), concept, package.periods);
            var r := BindOne(rules, package.periods, series, record);
            match rules[record.slot].selector
            case PeriodSeries => r.Ok? <==> totals != [] && |totals| == cells
            case Latest => r.Ok? <==> totals != [] && cells == 1
            case RepeatLatest => r.Ok? <==> totals != [] && cells >= 0
    ensures var concept := rules[record.slot].concept;
            var totals := LineTotals(chart, Entries(lines), concept, package.periods);
            var r := BindOne(rules, package.periods, series, record);
            && (r.Ok? ==> totals != [])
            && (r.Ok? && rules[record.slot].selector == PeriodSeries ==> r.value == totals)
            && (r.Ok? && rules[record.slot].selector != PeriodSeries ==>
                forall i | 0 <= i < |r.value| :: r.value[i] == totals[|totals| - 1])
  {
    hide IsPackage, IsSeries, CellCount, Available, LineTotals;
    AvailableAreTotals(
      chart, lines, package.periods, package.rows, series, rules[record.slot].concept, package.periods);
  }

  // ---------------------------------------------------------------- why a record is not bound

  /** A record without a rule is reported so, and a constant fills its cells. */
  lemma ConstantFills(rules: map<string, Assignment>, periods: seq<Period>, series: seq<Item>, record: Reserved)
    requires record.area.Some? && ValidArea(record.area.value)
    requires record.slot in rules ==> rules[record.slot].Constant?
    ensures var r, cells := BindOne(rules, periods, series, record), CellCount(record.area.value);
            if record.slot !in rules then r == Err(NoRule)
            else
              && r.Ok? && |r.value| == (if cells <= 0 then 0 else cells)
              && forall i | 0 <= i < |r.value| :: r.value[i] == rules[record.slot].value
  {
    hide CellCount;
  }

  /** A concept without a value in any period is reported so, and one with too few or too many with both counts. */
  lemma UnboundFor(rules: map<string, Assignment>, periods: seq<Period>, series: seq<Item>, record: Reserved)
    requires record.area.Some? && ValidArea(record.area.value)
    requires record.slot in rules && rules[record.slot].FromConcept?
    ensures var c := rules[record.slot].concept;
            BindOne(rules, periods, series, record) == Err(NoValues(c)) <==>
            forall i | 0 <= i < |periods| :: Cell(series, c, periods[i]).None?
    ensures var r, c := BindOne(rules, periods, series, record), rules[record.slot].concept;
            r.Err? && (exists i | 0 <= i < |periods| :: Cell(series, c, periods[i]).Some?) ==>
              && r.error.CountMismatch? && r.error.concept == c && r.error.cells == CellCount(record.area.value)
              && (rules[record.slot].selector == PeriodSeries ==> r.error.given == |Available(series, c, periods)|)
              && (rules[record.slot].selector == Latest ==> r.error.given == 1)
              && (rules[record.slot].selector == RepeatLatest ==> r.error.given == 0)
  {
    AvailableNone(series, rules[record.slot].concept, periods);
    hide CellCount, Available, Cell;
  }

  lemma {:induction false} AvailableNone(series: seq<Item>, c: string, periods: seq<Period>)
    ensures Available(series, c, periods) == [] <==> forall i | 0 <= i < |periods| :: Cell(series, c, periods[i]).None?
  {
    hide Cell;
    if periods != [] {
      var front, last := periods[..|periods| - 1], periods[|periods| - 1];
      AvailableNone(series, c, front);
      assert Available(series, c, periods) == [] <==> Available(series, c, front) == [] && Cell(series, c, last).None?;
      hide Available;
      assert forall i | 0 <= i < |front| :: periods[i] == front[i];
    }
  }

  /** The positions of the records that are bound, or of those that are not. */
  ghost predicate RecordsAt(
    rules: map<string, Assignment>, periods: seq<Period>, series: seq<Item>, records: seq<Reserved>, at: seq<nat>,
    bound: bool)
    requires Located(records)
  {
    && (forall j, k | 0 <= j < k < |at| :: at[j] < at[k])
    && forall i: nat :: i in at <==> i < |records| && BindOne(rules, periods, series, records[i]).Ok? == bound
  }

  /** A bound record with its values, or an unresolved one with its reason, for the record at a position. */
  ghost predicate Shows(
    rules: map<string, Assignment>, periods: seq<Period>, series: seq<Item>, record: Reserved, b: Bound)
    requires record.area.Some? && ValidArea(record.area.value)
  {
    var r := BindOne(rules, periods, series, record);
    r.Ok? && b == Bound(record.id, record.slot, r.value)
  }

  ghost predicate Explains(
    rules: map<string, Assignment>, periods: seq<Period>, series: seq<Item>, record: Reserved, u: (string, Reason))
    requires record.area.Some? && ValidArea(record.area.value)
  {
    var r := BindOne(rules, periods, series, record);
    r.Err? && u == (record.id, r.error)
  }

  /** Bound records are listed in plan order, each with its own values. */
  lemma {:induction false} BoundInOrder(
    rules: map<string, Assignment>, periods: seq<Period>, series: seq<Item>, records: seq<Reserved>)
    returns (at: seq<nat>)
    requires Located(records)
    ensures RecordsAt(rules, periods, series, records, at, true)
    ensures |AllBound(rules, periods, series, records)| == |at|
    ensures forall k | 0 <= k < |at| ::
              && at[k] < |records|
              && Shows(rules, periods, series, records[at[k]], AllBound(rules, periods, series, records)[k])
  {
    hide BindOne, RecordsAt, CellCount;
    at := [];
    if records == [] {
      NoRecords(rules, periods, series, true);
    } else {
      var n: nat := |records| - 1;
      at := BoundInOrder(rules, periods, series, records[..n]);
      RecordsAtNext(rules, periods, series, records, at, true);
      var front := AllBound(rules, periods, series, records[..n]);
      var r := BindOne(rules, periods, series, records[n]);
      var last := if r.Ok? then [Bound(records[n].id, records[n].slot, r.value)] else [];
      assert AllBound(rules, periods, series, records) == front + last;
      assert r.Ok? ==> Shows(rules, periods, series, records[n], Bound(records[n].id, records[n].slot, r.value));
      hide AllBound, Shows;
      if r.Ok? {
        at := at + [n];
      }
    }
  }

  /** Unresolved records are listed in plan order, each with its own reason. */
  lemma {:induction false} UnresolvedInOrder(
    rules: map<string, Assignment>, periods: seq<Period>, series: seq<Item>, records: seq<Reserved>)
    returns (at: seq<nat>)
    requires Located(records)
    ensures RecordsAt(rules, periods, series, records, at, false)
    ensures |AllUnresolved(rules, periods, series, records)| == |at|
    ensures forall k | 0 <= k < |at| ::
              && at[k] < |records|
              && Explains(rules, periods, series, records[at[k]], AllUnresolved(rules, periods, series, records)[k])
  {
    hide BindOne, RecordsAt, CellCount;
    at := [];
    if records == [] {
      NoRecords(rules, periods, series, false);
    } else {
      var n: nat := |records| - 1;
      at := UnresolvedInOrder(rules, periods, series, records[..n]);
      RecordsAtNext(rules, periods, series, records, at, false);
      var front := AllUnresolved(rules, periods, series, records[..n]);
      var r := BindOne(rules, periods, series, records[n]);
      var last := if r.Err? then [(records[n].id, r.error)] else [];
      assert AllUnresolved(rules, periods, series, records) == front + last;
      assert r.Err? ==> Explains(rules, periods, series, records[n], (records[n].id, r.error));
      hide AllUnresolved, Explains;
      if r.Err? {
        at := at + [n];
      }
    }
  }

  lemma NoRecords(rules: map<string, Assignment>, periods: seq<Period>, series: seq<Item>, bound: bool)
    ensures Located([]) && RecordsAt(rules, periods, series, [], [], bound)
  {
  }

  lemma RecordsAtNext(
    rules: map<string, Assignment>, periods: seq<Period>, series: seq<Item>, records: seq<Reserved>, at: seq<nat>,
    bound: bool)
    requires records != [] && Located(records)
    requires RecordsAt(rules, periods, series, records[..|records| - 1], at, bound)
    ensures forall k | 0 <= k < |at| :: at[k] < |records| - 1
    ensures var n: nat := |records| - 1;
            RecordsAt(
              rules, periods, series, records,
              if BindOne(rules, periods, series, records[n]).Ok? == bound then at + [n] else at, bound)
  {
    hide BindOne;
    var n: nat := |records| - 1;
    forall k | 0 <= k < |at| ensures at[k] < n { assert at[k] in at; }
    var all := if BindOne(rules, periods, series, records[n]).Ok? == bound then at + [n] else at;
    forall i: nat
      ensures i in all <==> i < |records| && BindOne(rules, periods, series, records[i]).Ok? == bound
    {
      assert i in all <==> i in at || (i == n && BindOne(rules, periods, series, records[n]).Ok? == bound);
      assert i < n ==> records[..n][i] == records[i];
    }
  }
}
