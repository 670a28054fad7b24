/** When the order of statement lines shows in the imported package (`package.py`). */
module LineOrder {
  import opened Sorting
  import opened Statements

  // ---------------------------------------------------------------- without ties, it does not

  /** Rows that sort together are the same row. */
  ghost predicate NoTies(entries: seq<Entry>)
  {
    forall a, b | a in entries && b in entries && RowWords(Row(a.key, [])) == RowWords(Row(b.key, [])) :: a.key == b.key
  }

  lemma RowOkOrdered(periods: seq<Period>, row: Row)
    requires RowOk(periods, row)
    ensures Ordered(row.values, ByPeriod(periods)) && DistinctBy(row.values, PeriodOf)
    ensures Antisymmetric(row.values, ByPeriod(periods))
  {
    forall i, j | 0 <= i < j < |row.values|
      ensures ByPeriod(periods)(row.values[i], row.values[j]) && PeriodOf(row.values[i]) != PeriodOf(row.values[j])
    {
      assert IndexOf(periods, row.values[i].period) < IndexOf(periods, row.values[j].period);
    }
  }

  /** Rows of one key, over the same entries, are the same row. */
  lemma SameRow(
    entries: seq<Entry>, other: seq<Entry>, periods: seq<Period>, rows: seq<Row>, rows': seq<Row>, i: nat, j: nat)
    requires IsPackage(entries, periods, rows) && IsPackage(other, periods, rows')
    requires multiset(entries) == multiset(other)
    requires i < |rows| && j < |rows'| && rows[i].key == rows'[j].key
    ensures rows[i] == rows'[j]
  {
    hide Held, RowOk;
    SameMembers(entries, other);
    assert RowOk(periods, rows[i]) && RowOk(periods, rows'[j]);
    RowOkOrdered(periods, rows[i]);
    RowOkOrdered(periods, rows'[j]);
    forall v ensures v in rows[i].values <==> v in rows'[j].values {
      RowHolds(entries, rows, i, v);
      RowHolds(other, rows', j, v);
    }
    hide IsPackage, DistinctBy;
    OrderedListing(rows[i].values, rows'[j].values, PeriodOf, ByPeriod(periods));
  }

  lemma RowsIncluded(entries: seq<Entry>, other: seq<Entry>, periods: seq<Period>, rows: seq<Row>, rows': seq<Row>)
    requires IsPackage(entries, periods, rows) && IsPackage(other, periods, rows')
    requires multiset(entries) == multiset(other)
    ensures forall row | row in rows :: row in rows'
  {
    hide Held, DistinctBy;
    SameMembers(entries, other);
    forall i | 0 <= i < |rows| ensures rows[i] in rows' {
      assert RowOk(periods, rows[i]);
      HeldInRow(entries, rows, i, 0);
      var e := Entry(rows[i].key, rows[i].values[0].period, rows[i].values[0].amount);
      HeldSomewhere(other, rows', e);
      var j, k :| 0 <= j < |rows'| && 0 <= k < |rows'[j].values| && rows'[j].key == e.key
        && rows'[j].values[k] == Value(e.period, e.amount);
      SameRow(entries, other, periods, rows, rows', i, j);
    }
  }

  lemma KeyInOnePlace(rows: seq<Row>, i: nat, j: nat)
    requires DistinctBy(rows, KeyOf) && i < |rows| && j < |rows|
    ensures rows[i].key == rows[j].key ==> i == j
  {
    if i < j {
      assert KeyOf(rows[i]) != KeyOf(rows[j]);
    } else if j < i {
      assert KeyOf(rows[j]) != KeyOf(rows[i]);
    }
  }

  lemma WordsOfKey(row: Row)
    ensures RowWords(Row(row.key, [])) == RowWords(row)
  {
  }

  lemma NotTied(entries: seq<Entry>, x: Entry, y: Entry, a: Row, b: Row)
    requires NoTies(entries) && x in entries && y in entries && x.key == a.key && y.key == b.key
    requires RowWords(a) == RowWords(b)
    ensures a.key == b.key
  {
    WordsOfKey(a);
    WordsOfKey(b);
    hide RowWords;
  }

  /** Without ties, rows with the same words are one row. */
  lemma SameWordsSameRow(entries: seq<Entry>, periods: seq<Period>, rows: seq<Row>, i: nat, j: nat)
    requires IsPackage(entries, periods, rows) && NoTies(entries)
    requires i < |rows| && j < |rows| && RowWords(rows[i]) == RowWords(rows[j])
    ensures rows[i] == rows[j]
  {
    hide RowWords, NoTies;
    RowKeyHasEntry(entries, periods, rows, i);
    RowKeyHasEntry(entries, periods, rows, j);
    var x :| x in entries && x.key == rows[i].key;
    var y :| y in entries && y.key == rows[j].key;
    NotTied(entries, x, y, rows[i], rows[j]);
    KeyInOnePlace(rows, i, j);
  }

  lemma RowsAntisymmetric(entries: seq<Entry>, periods: seq<Period>, rows: seq<Row>)
    requires IsPackage(entries, periods, rows) && NoTies(entries)
    ensures Antisymmetric(rows, RowLe)
  {
    hide IsPackage, NoTies, RowWords;
    forall a, b | a in rows && b in rows && RowLe(a, b) && RowLe(b, a) ensures a == b {
      LeWordsAntisymmetric(RowWords(a), RowWords(b));
      var i :| 0 <= i < |rows| && rows[i] == a;
      var j :| 0 <= j < |rows| && rows[j] == b;
      SameWordsSameRow(entries, periods, rows, i, j);
    }
  }

  /** Lines given in another order make the same package, row numbers included, when no rows tie. */
  lemma PackageOfPermutedLines(
    entries: seq<Entry>, other: seq<Entry>, periods: seq<Period>, periods': seq<Period>, rows: seq<Row>,
    rows': seq<Row>)
    requires IsPackage(entries, periods, rows) && IsPackage(other, periods', rows')
    requires multiset(entries) == multiset(other) && NoTies(entries)
    ensures periods == periods' && rows == rows'
  {
    SamePeriods(entries, other, periods, periods', rows, rows');
    RowsIncluded(entries, other, periods, rows, rows');
    RowsIncluded(other, entries, periods, rows', rows);
    RowsAntisymmetric(entries, periods, rows);
    OrdersAreTotal();
    hide RowOk, Held, RowLe, DistinctBy;
    OrderedListing(rows, rows', KeyOf, RowLe);
  }

  // ---------------------------------------------------------------- with ties, it does

  /** A row of one key has a smaller number than a row of another. */
  ghost predicate KeyPrecedes(rows: seq<Row>, a: Key, b: Key)
  {
    exists i, j :: 0 <= i < j < |rows| && rows[i].key == a && rows[j].key == b
  }

  lemma KeyPrecedesOneWay(rows: seq<Row>, a: Key, b: Key)
    requires DistinctBy(rows, KeyOf) && KeyPrecedes(rows, a, b)
    ensures !KeyPrecedes(rows, b, a)
  {
    var i, j :| 0 <= i < j < |rows| && rows[i].key == a && rows[j].key == b;
    forall k, l | 0 <= k < l < |rows| ensures !(rows[k].key == b && rows[l].key == a) {
      KeyInOnePlace(rows, i, l);
      KeyInOnePlace(rows, j, k);
    }
  }

  /** Gathering another entry keeps the rows that are there in their places. */
  lemma AddEntryKeepsKeys(g: Gathered, e: Entry)
    requires Indexed(g.rows, g.at)
    ensures var rows := Gather(g, e).rows;
            |rows| >= |g.rows| && forall i | 0 <= i < |g.rows| :: rows[i].key == g.rows[i].key
  {
  }

  /** The keys of the first two entries are the keys of the first two rows. */
  lemma {:induction false} FirstKeysComeFirst(entries: seq<Entry>)
    requires |entries| >= 2 && entries[0].key != entries[1].key
    ensures var rows := GatherAll(entries).rows;
            |rows| >= 2 && rows[0].key == entries[0].key && rows[1].key == entries[1].key
  {
    var n := |entries| - 1;
    var g := GatherAll(entries[..n]);
    if n > 1 {
      FirstKeysComeFirst(entries[..n]);
      AddEntryKeepsKeys(g, entries[n]);
    } else {
      FirstEntry(entries[..n]);
    }
  }

  lemma FirstEntry(entries: seq<Entry>)
    requires |entries| == 1
    ensures var g := GatherAll(entries);
            |g.rows| == 1 && g.rows[0].key == entries[0].key && g.at == map[entries[0].key := 0]
  {
    assert entries[..0] == [];
    assert GatherAll([]) == Gathered([], map[], {}, []);
  }

  /** Of two tied rows, the one whose line comes first gets the smaller number. */
  lemma FirstTiedRowComesFirst(entries: seq<Entry>)
    requires |entries| >= 2 && entries[0].key != entries[1].key
    requires RowWords(Row(entries[0].key, [])) == RowWords(Row(entries[1].key, []))
    ensures KeyPrecedes(Imported(entries).1, entries[0].key, entries[1].key)
  {
    FirstKeysComeFirst(entries);
    var rows := GatherAll(entries).rows;
    LeWordsTotal(RowWords(rows[0]), RowWords(rows[1]));
    SortByStable(rows, RowLe, 0, 1);
    hide GatherAll, SortBy, RowLe, SortValues;
    var sorted := SortBy(rows, RowLe);
    var i, j :| 0 <= i < j < |sorted| && sorted[i] == rows[0] && sorted[j] == rows[1];
    assert Imported(entries).1 == SortedRows(Imported(entries).0, sorted);
    SortedRowKey(Imported(entries).0, sorted, i);
    SortedRowKey(Imported(entries).0, sorted, j);
  }

  lemma SortedRowKey(periods: seq<Period>, rows: seq<Row>, i: nat)
    requires i < |rows|
    ensures SortedRows(periods, rows)[i].key == rows[i].key
  {
  }

  lemma TwoOut<T>(all: multiset<T>, a: T, b: T)
    requires a in all && b in all - multiset{a}
    ensures multiset{a, b} + (all - multiset{a} - multiset{b}) == all
  {
  }

  lemma PairInFront<T>(a: T, b: T, rest: seq<T>)
    ensures multiset([a, b] + rest) == multiset{a, b} + multiset(rest) == multiset([b, a] + rest)
  {
  }

  /** Two lines can be brought to the front. */
  lemma ToFront(lines: seq<Line>, a: Line, b: Line) returns (rest: seq<Line>)
    requires a in lines && b in lines && a != b
    ensures multiset([a, b] + rest) == multiset(lines) == multiset([b, a] + rest)
  {
    var i :| 0 <= i < |lines| && lines[i] == a;
    var one := lines[..i] + lines[i + 1..];
    RemoveOne(lines, i);
    assert a in multiset(lines) && b in multiset(lines);
    assert b in multiset(one);
    var j :| 0 <= j < |one| && one[j] == b;
    rest := one[..j] + one[j + 1..];
    RemoveOne(one, j);
    TwoOut(multiset(lines), a, b);
    PairInFront(a, b, rest);
  }

  /** Every order of the lines imports to the same periods and rows. */
  ghost predicate OrderFree(lines: seq<Line>)
  {
    forall other | multiset(other) == multiset(lines) :: SameImport(other, lines)
  }

  ghost predicate SameImport(a: seq<Line>, b: seq<Line>)
  {
    Imported(Entries(a)) == Imported(Entries(b))
  }

  lemma NoTiesOrderFree(lines: seq<Line>)
    requires Acceptable(lines) && NoTies(Entries(lines))
    ensures OrderFree(lines)
  {
    hide Acceptable, NoTies, NoRepeats, IsPackage, Entries, GatherAll, Imported;
    forall other | multiset(other) == multiset(lines) ensures SameImport(other, lines) {
      AcceptablePermuted(lines, other);
      EntriesPermuted(lines, other);
      AcceptedImport(lines);
      AcceptedImport(other);
      var here, there := Imported(Entries(lines)), Imported(Entries(other));
      PackageOfPermutedLines(Entries(lines), Entries(other), here.0, there.0, here.1, there.1);
    }
  }

  lemma AcceptedImport(lines: seq<Line>)
    requires Acceptable(lines)
    ensures IsPackage(Entries(lines), Imported(Entries(lines)).0, Imported(Entries(lines)).1)
  {
    ImportedIsPackage(Entries(lines));
  }

  /** With two tied lines in front, the two orders of them import differently. */
  lemma TiedFrontsDiffer(lines: seq<Line>, a: Line, b: Line, rest: seq<Line>)
    requires Acceptable(lines) && multiset([a, b] + rest) == multiset(lines) == multiset([b, a] + rest)
    requires a.entry.key != b.entry.key && RowWords(Row(a.entry.key, [])) == RowWords(Row(b.entry.key, []))
    ensures !SameImport([a, b] + rest, [b, a] + rest)
  {
    var first, second := [a, b] + rest, [b, a] + rest;
    var x, y := a.entry.key, b.entry.key;
    FirstTiedRowComesFirst(Entries(first));
    FirstTiedRowComesFirst(Entries(second));
    AcceptablePermuted(lines, first);
    AcceptedImport(first);
    hide Imported, Acceptable, RowWords, Entries;
    assert DistinctBy(Imported(Entries(first)).1, KeyOf);
    hide IsPackage;
    KeyPrecedesOneWay(Imported(Entries(first)).1, x, y);
  }

  lemma TiesShow(lines: seq<Line>)
    requires Acceptable(lines) && !NoTies(Entries(lines))
    ensures !OrderFree(lines)
  {
    hide Acceptable, Imported;
    var x, y :| x in Entries(lines) && y in Entries(lines) && x.key != y.key
      && RowWords(Row(x.key, [])) == RowWords(Row(y.key, []));
    var i :| 0 <= i < |lines| && Entries(lines)[i] == x;
    var j :| 0 <= j < |lines| && Entries(lines)[j] == y;
    var rest := ToFront(lines, lines[i], lines[j]);
    TiedFrontsDiffer(lines, lines[i], lines[j], rest);
    hide RowWords, NoTies;
    var first, second := [lines[i], lines[j]] + rest, [lines[j], lines[i]] + rest;
    assert !SameImport(first, lines) || !SameImport(second, lines);
  }

  /**
   * An import, row numbers included, is independent of the order of the lines exactly when no two of
   * its rows tie: when none differ in their balance type alone.
   */
  lemma OrderFreeIffNoTies(lines: seq<Line>)
    requires Acceptable(lines)
    ensures OrderFree(lines) <==> NoTies(Entries(lines))
  {
    if NoTies(Entries(lines)) {
      NoTiesOrderFree(lines);
    } else {
      TiesShow(lines);
    }
  }

  // ---------------------------------------------------------------- a pair of lines that ties

  const HEADCOUNT := Line(
    Entity("acme", "Acme", "EUR"),
    Entry(Key("operating_metric", "point_in_time", "", "Headcount", "ledger"), Period("2024-12-31", "actual"), 40.0),
    true)

  const HIRES := HEADCOUNT.(entry := HEADCOUNT.entry.(key := HEADCOUNT.entry.key.(balance := "flow")))

  lemma PairEntries(a: Line, b: Line)
    ensures Entries([a, b]) == [a.entry, b.entry]
  {
  }

  lemma PairAccepted(a: Line, b: Line)
    requires LineOk(a) && LineOk(b) && a.entity == b.entity && a.entry.key != b.entry.key
    ensures Acceptable([a, b])
  {
    hide LineOk;
    PairEntries(a, b);
  }

  /** Two acceptable lines that tie are numbered in the order in which they are given. */
  lemma TiedPair(a: Line, b: Line)
    requires LineOk(a) && LineOk(b) && a.entity == b.entity && a.entry.key != b.entry.key
    requires RowWords(Row(a.entry.key, [])) == RowWords(Row(b.entry.key, []))
    ensures Acceptable([a, b]) && KeyPrecedes(Imported(Entries([a, b])).1, a.entry.key, b.entry.key)
    ensures !NoTies(Entries([a, b]))
  {
    PairEntries(a, b);
    PairAccepted(a, b);
    FirstTiedRowComesFirst(Entries([a, b]));
    hide Imported, RowWords, LineOk, Acceptable, Entries, KeyPrecedes;
    assert a.entry in Entries([a, b]) && b.entry in Entries([a, b]);
  }

  /** Both lines are accepted in either order, and each gets the smaller row number when it comes first. */
  lemma TiedRowsKeepLineOrder()
    ensures Acceptable([HEADCOUNT, HIRES]) && Acceptable([HIRES, HEADCOUNT])
    ensures KeyPrecedes(Imported(Entries([HEADCOUNT, HIRES])).1, HEADCOUNT.entry.key, HIRES.entry.key)
    ensures KeyPrecedes(Imported(Entries([HIRES, HEADCOUNT])).1, HIRES.entry.key, HEADCOUNT.entry.key)
    ensures !OrderFree([HEADCOUNT, HIRES])
  {
    hide Imported, Entries, GatherAll, OrderFree, NoTies, Acceptable;
    assert HEADCOUNT.entry.key.balance != HIRES.entry.key.balance by { assert "flow"[0] != "point_in_time"[0]; }
    TiedPair(HEADCOUNT, HIRES);
    TiedPair(HIRES, HEADCOUNT);
    OrderFreeIffNoTies([HEADCOUNT, HIRES]);
  }
}
