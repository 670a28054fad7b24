/** What importing, mapping and compiling together do to statement lines. */
module Conservation {
  import opened Ids
  import opened Results
  import opened Sorting
  import opened Statements
  import opened Mapping
  import opened Canonical

  /** Some line is mapped to a concept in a period. */
  ghost predicate Covered(chart: Chart, entries: seq<Entry>, c: string, p: Period)
    requires ValidChart(chart)
  {
    exists e | e in entries :: Resolve(chart, e.key) == Mapped(c) && e.period == p
  }

  ghost predicate Reached(chart: Chart, entries: seq<Entry>, c: string)
    requires ValidChart(chart)
  {
    exists e | e in entries :: Resolve(chart, e.key) == Mapped(c)
  }

  /** The package and mapping that come from accepted lines. */
  ghost predicate MappedFrom(chart: Chart, lines: seq<Line>, package: Package, mapping: MappingResult)
  {
    lines != [] && IsPackage(Entries(lines), package.periods, package.rows) && IsMapping(chart, package, mapping)
  }

  /** The package, mapping and canonical data that come from accepted lines and complete drivers. */
  ghost predicate Prepared(
    chart: Chart, lines: seq<Line>, drivers: Columns, package: Package, mapping: MappingResult, r: CanonicalData)
  {
    && MappedFrom(chart, lines, package, mapping)
    && Compilable(chart.concepts, package, mapping, drivers)
    && IsCanonical(chart.concepts, package, mapping.series, drivers, r)
  }

  lemma CoveredIffContributors(
    chart: Chart, lines: seq<Line>, periods: seq<Period>, rows: seq<Row>, c: string, p: Period)
    requires ValidChart(chart) && IsPackage(Entries(lines), periods, rows)
    ensures Covered(chart, Entries(lines), c, p) <==> Contributors(chart, rows, c, p) != []
  {
    hide Resolve, Held, Contributors, Ordered, DistinctBy, RowOk;
    var entries := Entries(lines);
    if e :| e in entries && Resolve(chart, e.key) == Mapped(c) && e.period == p {
      HeldSomewhere(entries, rows, e);
      var i, j :| 0 <= i < |rows| && 0 <= j < |rows[i].values| && rows[i].key == e.key
        && rows[i].values[j] == Value(e.period, e.amount);
      SourcesAreContributingLines(chart, lines, periods, rows, c, p, i + 1);
    }
    if Contributors(chart, rows, c, p) != [] {
      var n := Contributors(chart, rows, c, p)[0];
      assert n in Contributors(chart, rows, c, p);
      ContributorIff(chart, rows, c, p, n);
      SourcesAreContributingLines(chart, lines, periods, rows, c, p, n);
    }
  }

  lemma SeriesCovers(chart: Chart, periods: seq<Period>, rows: seq<Row>, series: seq<Item>, c: string, p: Period)
    requires ValidChart(chart) && IsSeries(chart, periods, rows, series) && Contributors(chart, rows, c, p) != []
    ensures exists i | 0 <= i < |series| :: series[i].concept == c && series[i].period == p
  {
    hide Contributors, RowsTotal, SlotLe, IsItem;
    var i :| 0 <= i < |series| && SlotOf(series[i]) == (c, p);
    assert series[i].concept == c && series[i].period == p;
  }

  lemma SeriesItem(chart: Chart, periods: seq<Period>, rows: seq<Row>, series: seq<Item>, i: nat)
    requires ValidChart(chart) && IsSeries(chart, periods, rows, series) && i < |series|
    ensures series[i].amount == RowsTotal(chart, rows, series[i].concept, series[i].period)
    ensures Contributors(chart, rows, series[i].concept, series[i].period) != []
  {
    hide Contributors, RowsTotal, SlotLe;
    assert IsItem(chart, rows, series[i]);
  }

  lemma SeriesCell(chart: Chart, periods: seq<Period>, rows: seq<Row>, series: seq<Item>, c: string, p: Period)
    requires ValidChart(chart) && IsSeries(chart, periods, rows, series)
    ensures Cell(series, c, p) ==
            if Contributors(chart, rows, c, p) == [] then None else Some(RowsTotal(chart, rows, c, p))
  {
    hide Contributors, RowsTotal, Cell, IsSeries, IsItem;
    CellIff(series, c, p);
    if Contributors(chart, rows, c, p) != [] {
      SeriesCovers(chart, periods, rows, series, c, p);
    }
    if Cell(series, c, p).Some? {
      var i :| 0 <= i < |series| && series[i].concept == c && series[i].period == p
        && series[i].amount == Cell(series, c, p).value;
      SeriesItem(chart, periods, rows, series, i);
    }
  }

  /** The mapped amount of a concept and period is the exact sum of its lines, and is there when there are any. */
  lemma CellIsTotal(
    chart: Chart, lines: seq<Line>, periods: seq<Period>, rows: seq<Row>, series: seq<Item>, c: string, p: Period)
    requires ValidChart(chart) && IsPackage(Entries(lines), periods, rows) && IsSeries(chart, periods, rows, series)
    ensures Cell(series, c, p) ==
            if Covered(chart, Entries(lines), c, p) then Some(Total(chart, Entries(lines), c, p)) else None
  {
    hide IsPackage, IsSeries, Cell, Contributors, RowsTotal, Total, Covered;
    SeriesCell(chart, periods, rows, series, c, p);
    CoveredIffContributors(chart, lines, periods, rows, c, p);
    MappedTotal(chart, lines, periods, rows, c, p);
  }

  lemma CoveredPeriodKnown(chart: Chart, lines: seq<Line>, periods: seq<Period>, rows: seq<Row>, c: string, p: Period)
    requires ValidChart(chart) && IsPackage(Entries(lines), periods, rows) && Covered(chart, Entries(lines), c, p)
    ensures p in periods && Reached(chart, Entries(lines), c)
  {
    hide Resolve, Held;
    var e :| e in Entries(lines) && Resolve(chart, e.key) == Mapped(c) && e.period == p;
    var i :| 0 <= i < |Entries(lines)| && Entries(lines)[i] == e;
  }

  lemma MentionedIffReached(
    chart: Chart, lines: seq<Line>, periods: seq<Period>, rows: seq<Row>, series: seq<Item>, c: string)
    requires ValidChart(chart) && IsPackage(Entries(lines), periods, rows) && IsSeries(chart, periods, rows, series)
    ensures Mentions(series, c) <==> Reached(chart, Entries(lines), c)
  {
    hide IsPackage, IsSeries, Cell, Resolve, Total, Entries;
    var entries := Entries(lines);
    if i :| 0 <= i < |series| && series[i].concept == c {
      CellIff(series, c, series[i].period);
      CellIsTotal(chart, lines, periods, rows, series, c, series[i].period);
    }
    if e :| e in entries && Resolve(chart, e.key) == Mapped(c) {
      CellIsTotal(chart, lines, periods, rows, series, c, e.period);
      CellIff(series, c, e.period);
    }
  }

  /**
   * Every mapped column is exactly the sums of its lines: a concept has a column when some line is
   * mapped to it, and the column holds, period by period, the total of the lines mapped there.
   */
  lemma ColumnsConserveLines(
    chart: Chart, lines: seq<Line>, drivers: Columns, package: Package, mapping: MappingResult, r: CanonicalData,
    c: string)
    requires Prepared(chart, lines, drivers, package, mapping, r)
    ensures c in r.statements || (c in r.drivers && c !in drivers) <==> Reached(chart, Entries(lines), c)
    ensures c in r.statements ==> IsTotals(chart, Entries(lines), r.periods, c, r.statements[c])
    ensures c in r.drivers && c !in drivers ==> IsTotals(chart, Entries(lines), r.periods, c, r.drivers[c])
  {
    hide IsPackage, IsSeries, Cell, Total, Covered, Reached, Mentions, Placeable, Complete, DriversOk, ValidPackage,
         IsTotals;
    var periods, rows, series := package.periods, package.rows, mapping.series;
    MentionedIffReached(chart, lines, periods, rows, series, c);
    if c in r.statements {
      ColumnIsTotals(chart, lines, periods, rows, series, c, r.statements[c]);
    }
    if c in r.drivers && c !in drivers {
      ColumnIsTotals(chart, lines, periods, rows, series, c, r.drivers[c]);
    }
  }

  /** Operating metrics become drivers and everything else a statement column; explicit drivers stay as given. */
  lemma ColumnsAreSorted(
    chart: Chart, lines: seq<Line>, drivers: Columns, package: Package, mapping: MappingResult, r: CanonicalData,
    c: string)
    requires Prepared(chart, lines, drivers, package, mapping, r)
    ensures c in r.statements ==> c in chart.concepts && chart.concepts[c].statement != "operating_metric"
    ensures c in r.drivers && c !in drivers ==>
              c in chart.concepts && chart.concepts[c].statement == "operating_metric"
    ensures c in drivers ==>
              && c in r.drivers && |r.drivers[c]| == |drivers[c]|
              && forall i | 0 <= i < |drivers[c]| :: drivers[c][i] == Some(r.drivers[c][i])
  {
    hide IsPackage, IsMapping, Mentions, Placeable, Complete, ValidPackage, IsColumn;
  }

  ghost predicate IsTotals(chart: Chart, entries: seq<Entry>, periods: seq<Period>, c: string, column: Column)
    requires ValidChart(chart)
  {
    |column| == |periods| && forall i | 0 <= i < |periods| :: column[i] == Total(chart, entries, c, periods[i])
  }

  lemma ColumnIsTotals(
    chart: Chart, lines: seq<Line>, periods: seq<Period>, rows: seq<Row>, series: seq<Item>, c: string, column: Column)
    requires ValidChart(chart) && IsPackage(Entries(lines), periods, rows) && IsSeries(chart, periods, rows, series)
    requires IsColumn(periods, series, c, column)
    ensures IsTotals(chart, Entries(lines), periods, c, column)
  {
    hide IsPackage, IsSeries, Cell, Total, Covered;
    forall i | 0 <= i < |periods| ensures column[i] == Total(chart, Entries(lines), c, periods[i]) {
      CellIsTotal(chart, lines, periods, rows, series, c, periods[i]);
    }
  }

  /** Canonical data does not depend on the order of the lines. */
  lemma LineOrderDoesNotMatter(
    chart: Chart, drivers: Columns,
    lines: seq<Line>, package: Package, mapping: MappingResult, r: CanonicalData,
    lines': seq<Line>, package': Package, mapping': MappingResult, r': CanonicalData)
    requires Prepared(chart, lines, drivers, package, mapping, r)
             && Prepared(chart, lines', drivers, package', mapping', r')
    requires multiset(lines) == multiset(lines')
    ensures r == r'
  {
    hide IsSeries, Cell, Total, Covered, Mentions, Placeable, Complete, DriversOk, ValidPackage, IsPackage, Reached,
         IsColumn;
    EntriesPermuted(lines, lines');
    SamePeriods(Entries(lines), Entries(lines'), package.periods, package'.periods, package.rows, package'.rows);
    assert r.periods == r'.periods;
    forall c ensures c in r.statements <==> c in r'.statements {
      SameReach(chart, lines, lines', c);
      MentionedIffReached(chart, lines, package.periods, package.rows, mapping.series, c);
      MentionedIffReached(chart, lines', package'.periods, package'.rows, mapping'.series, c);
    }
    forall c ensures c in r.drivers <==> c in r'.drivers {
      SameReach(chart, lines, lines', c);
      MentionedIffReached(chart, lines, package.periods, package.rows, mapping.series, c);
      MentionedIffReached(chart, lines', package'.periods, package'.rows, mapping'.series, c);
    }
    forall c | c in r.statements ensures r.statements[c] == r'.statements[c] {
      SameColumn(
        chart, drivers, lines, package, mapping, r, lines', package', mapping', r', c,
        r.statements[c], r'.statements[c]);
    }
    forall c | c in r.drivers ensures r.drivers[c] == r'.drivers[c] {
      if c !in drivers {
        SameColumn(
          chart, drivers, lines, package, mapping, r, lines', package', mapping', r', c, r.drivers[c], r'.drivers[c]);
      }
    }
    assert r.statements == r'.statements;
    assert r.drivers == r'.drivers;
  }

  lemma SameReach(chart: Chart, lines: seq<Line>, lines': seq<Line>, c: string)
    requires ValidChart(chart) && multiset(lines) == multiset(lines')
    ensures Reached(chart, Entries(lines), c) <==> Reached(chart, Entries(lines'), c)
  {
    hide Resolve;
    EntriesPermuted(lines, lines');
    SameMembers(Entries(lines), Entries(lines'));
  }

  lemma SameColumn(
    chart: Chart, drivers: Columns,
    lines: seq<Line>, package: Package, mapping: MappingResult, r: CanonicalData,
    lines': seq<Line>, package': Package, mapping': MappingResult, r': CanonicalData,
    c: string, column: Column, column': Column)
    requires Prepared(chart, lines, drivers, package, mapping, r)
             && Prepared(chart, lines', drivers, package', mapping', r')
    requires multiset(lines) == multiset(lines') && package.periods == package'.periods
    requires IsColumn(package.periods, mapping.series, c, column)
             && IsColumn(package'.periods, mapping'.series, c, column')
    ensures column == column'
  {
    hide IsSeries, Total, IsPackage, IsColumn, Compilable, IsCanonical;
    ColumnIsTotals(chart, lines, package.periods, package.rows, mapping.series, c, column);
    ColumnIsTotals(chart, lines', package'.periods, package'.rows, mapping'.series, c, column');
    EntriesPermuted(lines, lines');
    forall i | 0 <= i < |package.periods| ensures column[i] == column'[i] {
      TotalPermuted(chart, Entries(lines), Entries(lines'), c, package.periods[i]);
    }
  }

  /** Nothing blocks exactly when no line is ambiguous or misshapen. */
  lemma BlockedIffSomeLineBlocks(chart: Chart, lines: seq<Line>, periods: seq<Period>, rows: seq<Row>)
    requires ValidChart(chart) && IsPackage(Entries(lines), periods, rows)
    ensures Blockers(Statuses(chart, rows)) == [] <==> forall e | e in Entries(lines) :: !Blocks(Resolve(chart, e.key))
  {
    hide Held, Resolve, Blocks, Blockers;
    NotBlocked(Statuses(chart, rows));
    var entries := Entries(lines);
    forall e | e in entries
      ensures exists i | 0 <= i < |rows| :: rows[i].key == e.key
    {
      HeldSomewhere(entries, rows, e);
    }
    forall i | 0 <= i < |rows|
      ensures exists e | e in entries :: e.key == rows[i].key
    {
      RowKeyHasEntry(entries, periods, rows, i);
    }
    if forall i | 0 <= i < |rows| :: !Blocks(Statuses(chart, rows)[i]) {
      forall e | e in entries ensures !Blocks(Resolve(chart, e.key)) {
        var i :| 0 <= i < |rows| && rows[i].key == e.key;
        assert !Blocks(Statuses(chart, rows)[i]);
      }
    }
  }

  /** A mapped concept is complete exactly when its lines cover every period of the package. */
  lemma CompleteIffLinesCover(chart: Chart, lines: seq<Line>, periods: seq<Period>, rows: seq<Row>, series: seq<Item>)
    requires ValidChart(chart) && IsPackage(Entries(lines), periods, rows) && IsSeries(chart, periods, rows, series)
    ensures Placeable(periods, series)
    ensures Complete(periods, series) <==>
            forall c, i | Reached(chart, Entries(lines), c) && 0 <= i < |periods| ::
              Covered(chart, Entries(lines), c, periods[i])
  {
    SeriesPlaceable(chart, lines, periods, rows, series);
    hide IsSeries, Cell, Total, Covered, Mentions, Placeable, IsPackage, Reached;
    forall c ensures Mentions(series, c) <==> Reached(chart, Entries(lines), c) {
      MentionedIffReached(chart, lines, periods, rows, series, c);
    }
    forall c, i | 0 <= i < |periods|
      ensures Cell(series, c, periods[i]).Some? <==> Covered(chart, Entries(lines), c, periods[i])
    {
      CellIsTotal(chart, lines, periods, rows, series, c, periods[i]);
    }
  }

  lemma SeriesPlaceable(chart: Chart, lines: seq<Line>, periods: seq<Period>, rows: seq<Row>, series: seq<Item>)
    requires ValidChart(chart) && IsPackage(Entries(lines), periods, rows) && IsSeries(chart, periods, rows, series)
    ensures Placeable(periods, series)
  {
    hide Cell, Total, Covered, Contributors, RowsTotal, SlotLe, Held;
    forall i | 0 <= i < |series| ensures series[i].period in periods {
      assert IsItem(chart, rows, series[i]);
      CoveredIffContributors(chart, lines, periods, rows, series[i].concept, series[i].period);
      CoveredPeriodKnown(chart, lines, periods, rows, series[i].concept, series[i].period);
    }
    forall i, j | 0 <= i < j < |series|
      ensures series[i].concept != series[j].concept || series[i].period != series[j].period
    {
      assert SlotOf(series[i]) != SlotOf(series[j]);
    }
  }

  lemma ReachedIsKnown(chart: Chart, entries: seq<Entry>, c: string)
    requires ValidChart(chart) && Reached(chart, entries, c)
    ensures c in chart.concepts
  {
    hide Resolve;
    var e :| e in entries && Resolve(chart, e.key) == Mapped(c);
    MappedIff(chart, e.key, c);
  }

  /**
   * Accepted lines compile exactly when none of them blocks, every concept they reach is covered in
   * every period, and the explicit drivers are complete and override none of them.
   */
  lemma CompilesIff(chart: Chart, lines: seq<Line>, drivers: Columns, package: Package, mapping: MappingResult)
    requires MappedFrom(chart, lines, package, mapping)
    ensures Compilable(chart.concepts, package, mapping, drivers) <==>
            && (forall e | e in Entries(lines) :: !Blocks(Resolve(chart, e.key)))
            && (forall c, i | Reached(chart, Entries(lines), c) && 0 <= i < |package.periods| ::
                  Covered(chart, Entries(lines), c, package.periods[i]))
            && (forall c | Reached(chart, Entries(lines), c) :: IsName(c))
            && DriversOk(package.periods, drivers)
            && forall c | Reached(chart, Entries(lines), c) && IsDriver(chart.concepts, c) :: c !in drivers
  {
    hide IsPackage, IsSeries, Cell, Covered, Mentions, Placeable, Complete, DriversOk, ValidPackage, Reached, Blocks,
         Resolve, Blockers;
    var periods, rows := package.periods, package.rows;
    ImportedIsValid(Entries(lines), package);
    BlockedIffSomeLineBlocks(chart, lines, periods, rows);
    CompleteIffLinesCover(chart, lines, periods, rows, mapping.series);
    forall c ensures Mentions(mapping.series, c) <==> Reached(chart, Entries(lines), c) {
      MentionedIffReached(chart, lines, periods, rows, mapping.series, c);
    }
    forall c | Mentions(mapping.series, c) ensures c in chart.concepts {
      ReachedIsKnown(chart, Entries(lines), c);
    }
  }

  lemma SameCover(chart: Chart, lines: seq<Line>, lines': seq<Line>, c: string, p: Period)
    requires ValidChart(chart) && multiset(lines) == multiset(lines')
    ensures Covered(chart, Entries(lines), c, p) <==> Covered(chart, Entries(lines'), c, p)
  {
    hide Resolve;
    EntriesPermuted(lines, lines');
    SameMembers(Entries(lines), Entries(lines'));
  }

  /** Whether accepted lines compile does not depend on their order. */
  lemma SuccessIgnoresLineOrder(
    chart: Chart, drivers: Columns, lines: seq<Line>, package: Package, mapping: MappingResult,
    lines': seq<Line>, package': Package, mapping': MappingResult)
    requires MappedFrom(chart, lines, package, mapping) && MappedFrom(chart, lines', package', mapping')
    requires multiset(lines) == multiset(lines')
    ensures Compilable(chart.concepts, package, mapping, drivers) <==>
            Compilable(chart.concepts, package', mapping', drivers)
  {
    hide IsPackage, IsSeries, Covered, Reached, Compilable, DriversOk, Blocks, Resolve, Blockers;
    EntriesPermuted(lines, lines');
    SameMembers(Entries(lines), Entries(lines'));
    SamePeriods(Entries(lines), Entries(lines'), package.periods, package'.periods, package.rows, package'.rows);
    forall c ensures Reached(chart, Entries(lines), c) <==> Reached(chart, Entries(lines'), c) {
      SameReach(chart, lines, lines', c);
    }
    forall c, p ensures Covered(chart, Entries(lines), c, p) <==> Covered(chart, Entries(lines'), c, p) {
      SameCover(chart, lines, lines', c, p);
    }
    CompilesIff(chart, lines, drivers, package, mapping);
    CompilesIff(chart, lines', drivers, package', mapping');
  }
}
