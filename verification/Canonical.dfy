/** Mapped series placed by period into canonical financial data (`canonical.py`). */
module Canonical {
  import opened Ids
  import opened Results
  import opened Sorting
  import opened Statements
  import opened Mapping

  type Column = seq<real>

  /** Columns in which some values may be missing. */
  type Columns = map<string, seq<Option<real>>>

  /** Statement columns are keyed by concept; the registry tells which statement a concept belongs to. */
  datatype CanonicalData = CanonicalData(
    periods: seq<Period>, statements: map<string, Column>, drivers: map<string, Column>)

  datatype CompileError =
    | InvalidPackage | Blocked | UnknownPeriod | DuplicateValue | Incomplete | UnknownConcept
    | BadDriver | DriverConflict | InvalidName

  const DRIVER := "operating_metric"

  /** The amount given for a concept and period, if any. */
  function Cell(series: seq<Item>, c: string, p: Period): Option<real>
  {
    if series == [] then None
    else
      var last := series[|series| - 1];
      if last.concept == c && last.period == p then Some(last.amount) else Cell(series[..|series| - 1], c, p)
  }

  ghost predicate Mentions(series: seq<Item>, c: string)
  {
    exists i | 0 <= i < |series| :: series[i].concept == c
  }

  /** Every item is of a known period and no slot is filled twice. */
  ghost predicate Placeable(periods: seq<Period>, series: seq<Item>)
  {
    && (forall i | 0 <= i < |series| :: series[i].period in periods)
    && forall i, j | 0 <= i < j < |series| ::
         series[i].concept != series[j].concept || series[i].period != series[j].period
  }

  lemma {:induction false} CellIff(series: seq<Item>, c: string, p: Period)
    ensures Cell(series, c, p).Some? <==>
            exists i | 0 <= i < |series| :: series[i].concept == c && series[i].period == p
    ensures Cell(series, c, p).Some? ==>
            exists i | 0 <= i < |series| :: series[i].concept == c && series[i].period == p
              && series[i].amount == Cell(series, c, p).value
  {
    if series != [] {
      var n := |series| - 1;
      CellIff(series[..n], c, p);
      if i :| 0 <= i < n && series[i].concept == c && series[i].period == p {
        assert series[..n][i] == series[i];
      }
    }
  }

  // ---------------------------------------------------------------- placing

  /** Columns under construction hold exactly the cells placed so far. */
  ghost predicate Placed(periods: seq<Period>, series: seq<Item>, columns: Columns)
  {
    && (forall c :: c in columns <==> Mentions(series, c))
    && forall c | c in columns ::
         |columns[c]| == |periods| && forall i | 0 <= i < |periods| :: columns[c][i] == Cell(series, c, periods[i])
  }

  function Blank(n: nat): (r: seq<Option<real>>)
    ensures |r| == n && forall i | 0 <= i < n :: r[i] == None
  {
    seq(n, _ => None)
  }

  lemma MentionsAppend(series: seq<Item>, item: Item, c: string)
    ensures Mentions(series + [item], c) <==> Mentions(series, c) || item.concept == c
  {
    var more := series + [item];
    if i :| 0 <= i < |series| && series[i].concept == c { assert more[i].concept == c; }
    if item.concept == c { assert more[|series|].concept == c; }
  }

  lemma CellAppend(series: seq<Item>, item: Item, c: string, p: Period)
    ensures Cell(series + [item], c, p) ==
            if item.concept == c && item.period == p then Some(item.amount) else Cell(series, c, p)
  {
    assert (series + [item])[..|series|] == series;
  }

  lemma NoCells(series: seq<Item>, c: string, p: Period)
    requires !Mentions(series, c)
    ensures Cell(series, c, p) == None
  {
    CellIff(series, c, p);
  }

  /** `values[index] = amount` in a fresh or existing column. */
  function Put(periods: seq<Period>, columns: Columns, item: Item): Columns
    requires item.concept in columns ==> |columns[item.concept]| == |periods|
    requires item.period in periods
  {
    var column := if item.concept in columns then columns[item.concept] else Blank(|periods|);
    columns[item.concept := column[IndexOf(periods, item.period) := Some(item.amount)]]
  }

  lemma PutPlaces(periods: seq<Period>, series: seq<Item>, columns: Columns, item: Item)
    requires Placed(periods, series, columns) && item.period in periods && DistinctBy(periods, Itself)
    ensures Placed(periods, series + [item], Put(periods, columns, item))
  {
    hide Cell, Mentions, IndexOf;
    var after := Put(periods, columns, item);
    forall c ensures c in after <==> Mentions(series + [item], c) {
      MentionsAppend(series, item, c);
    }
    forall c, i | c in after && 0 <= i < |periods|
      ensures |after[c]| == |periods| && after[c][i] == Cell(series + [item], c, periods[i])
    {
      CellAppend(series, item, c, periods[i]);
      if c == item.concept {
        if c !in columns { NoCells(series, c, periods[i]); }
        if i != IndexOf(periods, item.period) {
          SamePosition(periods, i, item.period);
        }
      }
    }
    assert periods != [];
  }

  lemma SamePosition(periods: seq<Period>, i: nat, p: Period)
    requires DistinctBy(periods, Itself) && i < |periods|
    ensures i == IndexOf(periods, p) <==> periods[i] == p
  {
    var k := IndexOf(periods, p);
    if k < i {
      assert Itself(periods[k]) != Itself(periods[i]);
    } else if i < k < |periods| {
      assert Itself(periods[i]) != Itself(periods[k]);
    }
  }

  lemma PlaceableAppend(periods: seq<Period>, series: seq<Item>, item: Item)
    requires Placeable(periods, series)
    ensures Placeable(periods, series + [item]) <==>
            item.period in periods && Cell(series, item.concept, item.period).None?
  {
    CellIff(series, item.concept, item.period);
    hide Cell;
    var more := series + [item];
    if Placeable(periods, more) {
      assert more[|series|].period in periods;
      forall i | 0 <= i < |series| ensures series[i].concept != item.concept || series[i].period != item.period {
        assert more[i].concept != more[|series|].concept || more[i].period != more[|series|].period;
      }
    }
  }

  lemma PlaceablePrefix(periods: seq<Period>, series: seq<Item>, n: nat)
    requires n <= |series| && Placeable(periods, series)
    ensures Placeable(periods, series[..n])
  {
  }

  method Place(periods: seq<Period>, series: seq<Item>) returns (r: Result<Columns, CompileError>)
    requires DistinctBy(periods, Itself)
    ensures r.Ok? <==> Placeable(periods, series)
    ensures r.Ok? ==> Placed(periods, series, r.value)
    ensures r.Err? ==> exists n: nat | n < |series| ::
              && Placeable(periods, series[..n]) && !Placeable(periods, series[..n + 1])
              && r.error == if series[n].period in periods then DuplicateValue else UnknownPeriod
  {
    hide Placeable, Placed, Cell, IndexOf;
    var columns: Columns := map[];
    assert Placeable(periods, []) && Placed(periods, [], columns) by { NothingPlaced(periods); }
    for n := 0 to |series|
      invariant Placeable(periods, series[..n]) && Placed(periods, series[..n], columns)
    {
      var item := series[n];
      assert series[..n + 1] == series[..n] + [item];
      PlaceableAppend(periods, series[..n], item);
      if item.period !in periods {
        if Placeable(periods, series) { PlaceablePrefix(periods, series, n + 1); }
        return Err(UnknownPeriod);
      }
      PlacedCell(periods, series[..n], columns, item);
      if item.concept in columns && columns[item.concept][IndexOf(periods, item.period)].Some? {
        if Placeable(periods, series) { PlaceablePrefix(periods, series, n + 1); }
        return Err(DuplicateValue);
      }
      PutPlaces(periods, series[..n], columns, item);
      columns := Put(periods, columns, item);
    }
    assert series[..|series|] == series;
    r := Ok(columns);
  }

  lemma PlacedCell(periods: seq<Period>, series: seq<Item>, columns: Columns, item: Item)
    requires Placed(periods, series, columns) && item.period in periods
    ensures item.concept in columns ==> |columns[item.concept]| == |periods|
    ensures Cell(series, item.concept, item.period) ==
            if item.concept in columns then columns[item.concept][IndexOf(periods, item.period)] else None
  {
    if item.concept !in columns { NoCells(series, item.concept, item.period); }
  }

  lemma NothingPlaced(periods: seq<Period>)
    ensures Placeable(periods, []) && Placed(periods, [], map[])
  {
  }

  // ---------------------------------------------------------------- compiling

  predicate Full(column: seq<Option<real>>)
  {
    forall i | 0 <= i < |column| :: column[i].Some?
  }

  function Completed(column: seq<Option<real>>): (r: Column)
    requires Full(column)
    ensures |r| == |column| && forall i | 0 <= i < |r| :: Some(r[i]) == column[i]
  {
    seq(|column|, i requires 0 <= i < |column| => column[i].value)
  }

  /** Every mentioned concept has a value for every period. */
  ghost predicate Complete(periods: seq<Period>, series: seq<Item>)
  {
    forall c, i | Mentions(series, c) && 0 <= i < |periods| :: Cell(series, c, periods[i]).Some?
  }

  /** Explicit drivers: one finite decimal per period. */
  predicate DriversFull(periods: seq<Period>, drivers: Columns)
  {
    forall name | name in drivers :: |drivers[name]| == |periods| && Full(drivers[name])
  }

  /** The compiled data is validated once more, which asks the names of its columns to be well formed. */
  ghost predicate DriversOk(periods: seq<Period>, drivers: Columns)
  {
    forall name | name in drivers ::
      && IsName(name) && |drivers[name]| == |periods|
      && forall i | 0 <= i < |periods| :: drivers[name][i].Some?
  }

  lemma DriversOkIff(periods: seq<Period>, drivers: Columns)
    ensures DriversOk(periods, drivers) <==>
            DriversFull(periods, drivers) && forall name | name in drivers :: IsName(name)
  {
    hide IsName;
  }

  predicate IsDriver(concepts: map<string, Shape>, c: string)
  {
    c in concepts && concepts[c].statement == DRIVER
  }

  ghost predicate Compilable(
    concepts: map<string, Shape>, package: Package, mapping: MappingResult, drivers: Columns)
  {
    && ValidPackage(package) && mapping.blockers == []
    && Placeable(package.periods, mapping.series) && Complete(package.periods, mapping.series)
    && (forall c | Mentions(mapping.series, c) :: c in concepts && IsName(c))
    && DriversOk(package.periods, drivers)
    && forall c | Mentions(mapping.series, c) && IsDriver(concepts, c) :: c !in drivers
  }

  ghost predicate IsColumn(periods: seq<Period>, series: seq<Item>, c: string, column: Column)
  {
    |column| == |periods| && forall i | 0 <= i < |periods| :: Cell(series, c, periods[i]) == Some(column[i])
  }

  /** Mapped concepts become statement or driver columns; explicit drivers are added as they are. */
  ghost predicate IsCanonical(
    concepts: map<string, Shape>, package: Package, series: seq<Item>, drivers: Columns, r: CanonicalData)
    requires DriversOk(package.periods, drivers)
  {
    && r.periods == package.periods
    && (forall c :: c in r.statements <==> Mentions(series, c) && !IsDriver(concepts, c))
    && (forall c :: c in r.drivers <==> c in drivers || (Mentions(series, c) && IsDriver(concepts, c)))
    && (forall c | c in r.statements :: IsColumn(r.periods, series, c, r.statements[c]))
    && forall c | c in r.drivers ::
         if c in drivers then r.drivers[c] == Completed(drivers[c]) else IsColumn(r.periods, series, c, r.drivers[c])
  }

  /** What the checks after placing ask of the columns. */
  ghost predicate Assemblable(concepts: map<string, Shape>, periods: seq<Period>, columns: Columns, drivers: Columns)
  {
    && (forall c | c in columns :: Full(columns[c]) && c in concepts && IsName(c))
    && DriversOk(periods, drivers)
    && forall c | c in columns && IsDriver(concepts, c) :: c !in drivers
  }

  function Completions(columns: Columns): (r: map<string, Column>)
    requires forall c | c in columns :: Full(columns[c])
    ensures r.Keys == columns.Keys && forall c | c in r :: r[c] == Completed(columns[c])
  {
    map c | c in columns :: Completed(columns[c])
  }

  function Assembled(
    concepts: map<string, Shape>, periods: seq<Period>, columns: Columns, drivers: Columns): CanonicalData
    requires Assemblable(concepts, periods, columns, drivers)
  {
    var complete := Completions(columns);
    CanonicalData(
      periods,
      map c | c in complete && !IsDriver(concepts, c) :: complete[c],
      (map c | c in complete && IsDriver(concepts, c) :: complete[c]) + Completions(drivers))
  }

  method Assemble(concepts: map<string, Shape>, periods: seq<Period>, columns: Columns, drivers: Columns)
    returns (r: Result<CanonicalData, CompileError>)
    ensures r.Ok? <==> Assemblable(concepts, periods, columns, drivers)
    ensures r.Ok? ==> r.value == Assembled(concepts, periods, columns, drivers)
    ensures r.Err? ==>
              r.error == if exists c | c in columns :: !Full(columns[c]) then Incomplete
                         else if exists c | c in columns :: c !in concepts then UnknownConcept
                         else if exists c | c in drivers :: |drivers[c]| != |periods| || !Full(drivers[c])
                         then BadDriver
                         else if exists c | c in columns :: IsDriver(concepts, c) && c in drivers then DriverConflict
                         else InvalidName
  {
    DriversOkIff(periods, drivers);
    hide Full, DriversOk, IsDriver, Assembled, IsName;
    if exists c | c in columns :: !Full(columns[c]) {
      return Err(Incomplete);
    }
    if exists c | c in columns :: c !in concepts {
      return Err(UnknownConcept);
    }
    if !DriversFull(periods, drivers) {
      return Err(BadDriver);
    }
    if exists c | c in columns :: IsDriver(concepts, c) && c in drivers {
      return Err(DriverConflict);
    }
    if (exists c | c in columns :: !IsName(c)) || exists c | c in drivers :: !IsName(c) {
      return Err(InvalidName);
    }
    r := Ok(Assembled(concepts, periods, columns, drivers));
  }

  /** `compile_canonical_financial_data`. */
  method CompileCanonical(concepts: map<string, Shape>, package: Package, mapping: MappingResult, drivers: Columns)
    returns (r: Result<CanonicalData, CompileError>)
    ensures r.Ok? <==> Compilable(concepts, package, mapping, drivers)
    ensures r.Ok? ==> IsCanonical(concepts, package, mapping.series, drivers, r.value)
    ensures !ValidPackage(package) ==> r == Err(CompileError.InvalidPackage)
    ensures ValidPackage(package) && mapping.blockers != [] ==> r == Err(Blocked)
    ensures r.Err? && ValidPackage(package) && mapping.blockers == [] ==>
              && r.error != CompileError.InvalidPackage && r.error != Blocked
              && (r.error in {UnknownPeriod, DuplicateValue} <==> !Placeable(package.periods, mapping.series))
  {
    var formed := ValidatePackage(package);
    if !formed {
      return Err(CompileError.InvalidPackage);
    }
    if mapping.blockers != [] {
      return Err(Blocked);
    }
    assert DistinctBy(package.periods, Itself);
    hide Placeable, Placed, ValidPackage, Assemblable, Assembled, Complete, DriversOk, IsDriver, Mentions,
         IsCanonical, DistinctBy;
    var placed := Place(package.periods, mapping.series);
    if placed.Err? {
      return Err(placed.error);
    }
    r := Assemble(concepts, package.periods, placed.value, drivers);
    if r.Ok? {
      AssembledIsCanonical(concepts, package, mapping.series, placed.value, drivers, r.value);
    }
  }

  lemma AssembledIsCanonical(
    concepts: map<string, Shape>, package: Package, series: seq<Item>, columns: Columns, drivers: Columns,
    r: CanonicalData)
    requires Placed(package.periods, series, columns)
    requires Assemblable(concepts, package.periods, columns, drivers)
             && r == Assembled(concepts, package.periods, columns, drivers)
    ensures IsCanonical(concepts, package, series, drivers, r)
  {
    hide Cell, Mentions, IsDriver;
  }
}
