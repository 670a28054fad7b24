/** Canonical packages merged into one (`merge_canonical_data` in `adapters/sources/tabular.py`). */
module Merge {
  import opened Ids
  import opened Results
  import opened Sorting

  /** A statement concept or an operational driver: its section and its name. */
  datatype Field = Field(section: string, name: string)

  /** One number of a package: which field, which period, which value. */
  type Place = (Field, string)
  type Cell = (Place, real)

  /** The name of an entity may be left out or given as null: the two differ when entities are compared. */
  datatype Name = Absent | Null | Named(name: string)

  datatype Entity = Entity(id: string, currency: string, name: Name)

  /** The entity of a merged package: a null name is left out. */
  function Normalized(e: Entity): Entity
  {
    if e.name.Null? then e.(name := Absent) else e
  }

  datatype Data = Data(entity: Entity, periods: seq<string>, columns: map<Field, seq<real>>)

  datatype MergeError = NothingToMerge | InvalidData | EntityMismatch | Conflict | MissingPeriods

  const SECTIONS := {"income_statement", "balance_sheet", "cash_flow", "operational_drivers"}

  ghost predicate ValidField(f: Field)
  {
    f.section in SECTIONS && IsName(f.name)
  }

  ghost predicate ValidEntity(e: Entity)
  {
    e.id != "" && |e.currency| == 3 && forall c | c in e.currency :: 'A' <= c <= 'Z'
  }

  /** What validation asks of a package: distinct periods, and one number for each in every column. */
  ghost predicate Valid(d: Data)
  {
    && ValidEntity(d.entity)
    && d.periods != [] && "" !in d.periods
    && (forall f | f in d.columns :: ValidField(f))
    && (forall i, j | 0 <= i < j < |d.periods| :: d.periods[i] != d.periods[j])
    && forall f | f in d.columns :: |d.columns[f]| == |d.periods|
  }

  /** The identifier is there, and the currency is three capital letters. */
  method ValidateEntity(e: Entity) returns (valid: bool)
    ensures valid <==> ValidEntity(e)
  {
    if |e.id| == 0 || |e.currency| != 3 {
      return false;
    }
    for i := 0 to 3
      invariant forall j | 0 <= j < i :: 'A' <= e.currency[j] <= 'Z'
    {
      if e.currency[i] < 'A' || 'Z' < e.currency[i] {
        assert e.currency[i] in e.currency;
        return false;
      }
    }
    valid := true;
  }

  /** `validate_canonical_financial_data`, its entity, periods and columns. */
  method ValidateData(d: Data) returns (valid: bool)
    ensures valid <==> Valid(d)
  {
    hide IsName, ValidEntity;
    var known := ValidateEntity(d.entity);
    if !known || |d.periods| == 0 {
      return false;
    }
    var seen: set<string> := {};
    for i := 0 to |d.periods|
      invariant forall t :: t in seen <==> exists j | 0 <= j < i :: d.periods[j] == t
      invariant forall j, k | 0 <= j < k < i :: d.periods[j] != d.periods[k]
      invariant forall j | 0 <= j < i :: |d.periods[j]| > 0
    {
      if |d.periods[i]| == 0 || d.periods[i] in seen {
        assert |d.periods[i]| == 0 ==> d.periods[i] == "" && "" in d.periods;
        return false;
      }
      seen := seen + {d.periods[i]};
    }
    var todo := d.columns.Keys;
    while todo != {}
      invariant todo <= d.columns.Keys
      invariant forall f | f in d.columns && f !in todo :: ValidField(f) && |d.columns[f]| == |d.periods|
      decreases |todo|
    {
      var f :| f in todo;
      var isStatement := f.section == "income_statement" || f.section == "balance_sheet" || f.section == "cash_flow";
      if !(isStatement || f.section == "operational_drivers") || !IsName(f.name) || |d.columns[f]| != |d.periods| {
        return false;
      }
      todo := todo - {f};
    }
    valid := true;
  }

  // ---------------------------------------------------------------- what packages say

  ghost function ColumnCells(f: Field, periods: seq<string>, values: seq<real>): set<Cell>
    requires |values| == |periods|
  {
    if periods == [] then {}
    else
      var n := |periods| - 1;
      ColumnCells(f, periods[..n], values[..n]) + {((f, periods[n]), values[n])}
  }

  ghost function FieldCells(d: Data, fields: set<Field>): set<Cell>
    requires Valid(d) && fields <= d.columns.Keys
  {
    set f, c | f in fields && c in ColumnCells(f, d.periods, d.columns[f]) :: c
  }

  ghost function Cells(d: Data): set<Cell>
    requires Valid(d)
  {
    FieldCells(d, d.columns.Keys)
  }

  ghost function AllCells(ds: seq<Data>): set<Cell>
    requires forall d | d in ds :: Valid(d)
  {
    set d, c | d in ds && c in Cells(d) :: c
  }

  lemma {:induction false} ColumnCellIff(f: Field, periods: seq<string>, values: seq<real>, c: Cell)
    requires |values| == |periods|
    ensures c in ColumnCells(f, periods, values) <==>
            exists i | 0 <= i < |periods| :: c == ((f, periods[i]), values[i])
  {
    if periods != [] {
      var n := |periods| - 1;
      ColumnCellIff(f, periods[..n], values[..n], c);
      if i :| 0 <= i < |periods| && c == ((f, periods[i]), values[i]) && i < n {
        assert periods[..n][i] == periods[i] && values[..n][i] == values[i];
      }
    }
  }

  /** A package says what its columns hold. */
  lemma CellIff(d: Data, c: Cell)
    requires Valid(d)
    ensures c in Cells(d) <==>
            c.0.0 in d.columns && exists i | 0 <= i < |d.periods| :: d.periods[i] == c.0.1 && d.columns[c.0.0][i] == c.1
  {
    if c in Cells(d) {
      var f :| f in d.columns && c in ColumnCells(f, d.periods, d.columns[f]);
      ColumnCellIff(f, d.periods, d.columns[f], c);
    }
    if c.0.0 in d.columns {
      ColumnCellIff(c.0.0, d.periods, d.columns[c.0.0], c);
    }
  }

  /** No place is given two values. */
  ghost predicate Agreeing(cells: set<Cell>)
  {
    forall x, y | x in cells && y in cells && x.0 == y.0 :: x.1 == y.1
  }

  // ---------------------------------------------------------------- merging

  ghost predicate Records(target: map<Place, real>, cells: set<Cell>)
  {
    && (forall c | c in cells :: c.0 in target && target[c.0] == c.1)
    && (forall k | k in target :: (k, target[k]) in cells)
  }

  lemma RecordsAgree(target: map<Place, real>, cells: set<Cell>)
    requires Records(target, cells)
    ensures Agreeing(cells)
  {
  }

  /** Another value for a place conflicts exactly when it differs from what is recorded there. */
  lemma RecordOne(target: map<Place, real>, cells: set<Cell>, k: Place, v: real)
    requires Records(target, cells)
    ensures Agreeing(cells + {(k, v)}) <==> (k in target ==> target[k] == v)
    ensures (k in target ==> target[k] == v) ==> Records(target[k := v], cells + {(k, v)})
  {
    RecordsAgree(target, cells);
    if k in target {
      assert (k, target[k]) in cells;
      if target[k] != v {
        assert (k, v) in cells + {(k, v)} && (k, target[k]) in cells + {(k, v)};
      }
    }
  }

  lemma AgreeingSubset(cells: set<Cell>, all: set<Cell>)
    requires cells <= all && Agreeing(all)
    ensures Agreeing(cells)
  {
  }

  /** `_merge_series`: none when a value conflicts. */
  method MergeSeries(
    target: map<Place, real>, f: Field, periods: seq<string>, values: seq<real>, ghost cells: set<Cell>)
    returns (r: Option<map<Place, real>>)
    requires |values| == |periods| && Records(target, cells)
    ensures r.Some? <==> Agreeing(cells + ColumnCells(f, periods, values))
    ensures r.Some? ==> Records(r.value, cells + ColumnCells(f, periods, values))
  {
    hide Records, Agreeing;
    var merged := target;
    assert ColumnCells(f, [], []) == {};
    assert cells + {} == cells;
    for i := 0 to |periods|
      invariant Records(merged, cells + ColumnCells(f, periods[..i], values[..i]))
    {
      var k := (f, periods[i]);
      assert periods[..i + 1][..i] == periods[..i] && values[..i + 1][..i] == values[..i];
      ghost var before := cells + ColumnCells(f, periods[..i], values[..i]);
      ghost var after := cells + ColumnCells(f, periods[..i + 1], values[..i + 1]);
      assert after == before + {(k, values[i])};
      RecordOne(merged, before, k, values[i]);
      if k in merged && merged[k] != values[i] {
        PrefixCells(f, periods, values, i + 1);
        if Agreeing(cells + ColumnCells(f, periods, values)) {
          AgreeingSubset(after, cells + ColumnCells(f, periods, values));
        }
        return None;
      }
      merged := merged[k := values[i]];
    }
    assert periods[..|periods|] == periods && values[..|periods|] == values;
    r := Some(merged);
    RecordsAgree(merged, cells + ColumnCells(f, periods, values));
  }

  lemma PrefixCells(f: Field, periods: seq<string>, values: seq<real>, n: nat)
    requires |values| == |periods| && n <= |periods|
    ensures ColumnCells(f, periods[..n], values[..n]) <= ColumnCells(f, periods, values)
  {
    forall c | c in ColumnCells(f, periods[..n], values[..n]) ensures c in ColumnCells(f, periods, values) {
      ColumnCellIff(f, periods[..n], values[..n], c);
      ColumnCellIff(f, periods, values, c);
    }
  }

  /** The columns of one package, in any order. */
  method MergeColumns(target: map<Place, real>, d: Data, ghost cells: set<Cell>) returns (r: Option<map<Place, real>>)
    requires Valid(d) && Records(target, cells)
    ensures r.Some? <==> Agreeing(cells + Cells(d))
    ensures r.Some? ==> Records(r.value, cells + Cells(d))
  {
    hide Records, Agreeing, ColumnCells;
    var merged, todo := target, d.columns.Keys;
    assert d.columns.Keys - todo == {};
    assert cells + FieldCells(d, {}) == cells;
    while todo != {}
      invariant todo <= d.columns.Keys
      invariant Records(merged, cells + FieldCells(d, d.columns.Keys - todo))
      decreases |todo|
    {
      var f :| f in todo;
      ghost var before := cells + FieldCells(d, d.columns.Keys - todo);
      ghost var after := before + ColumnCells(f, d.periods, d.columns[f]);
      assert after == cells + FieldCells(d, d.columns.Keys - (todo - {f}));
      var next := MergeSeries(merged, f, d.periods, d.columns[f], before);
      if next.None? {
        if Agreeing(cells + Cells(d)) { AgreeingSubset(after, cells + Cells(d)); }
        return None;
      }
      merged, todo := next.value, todo - {f};
    }
    assert d.columns.Keys - {} == d.columns.Keys;
    r := Some(merged);
    RecordsAgree(merged, cells + Cells(d));
  }

  function Periods(ds: seq<Data>): seq<string>
  {
    if ds == [] then [] else Periods(ds[..|ds| - 1]) + ds[|ds| - 1].periods
  }

  lemma {:induction false} PeriodIff(ds: seq<Data>, t: string)
    ensures t in Periods(ds) <==> exists d | d in ds :: t in d.periods
  {
    if ds != [] {
      var n := |ds| - 1;
      PeriodIff(ds[..n], t);
      assert ds == ds[..n] + [ds[n]];
      assert ds[n] in ds;
    }
  }

  /** Every field given by some package is given for every period. */
  ghost predicate Complete(cells: set<Cell>, periods: seq<string>)
  {
    forall c, t | c in cells && t in periods :: Gives(cells, c.0.0, t)
  }

  ghost predicate Gives(cells: set<Cell>, f: Field, t: string)
  {
    exists v :: ((f, t), v) in cells
  }

  ghost predicate Mergeable(ds: seq<Data>)
  {
    && ds != [] && (forall d | d in ds :: Valid(d) && d.entity == ds[0].entity)
    && Agreeing(AllCells(ds)) && Complete(AllCells(ds), Periods(ds))
  }

  /** The merged package says exactly what the packages say, over all their periods. */
  ghost predicate IsMerge(ds: seq<Data>, r: Data)
    requires forall d | d in ds :: Valid(d)
  {
    && ds != [] && r.entity == Normalized(ds[0].entity) && r.periods == Unique(Periods(ds))
    && Valid(r) && Cells(r) == AllCells(ds)
  }

  /** The loop over packages. */
  method MergeAll(ds: seq<Data>) returns (r: Option<map<Place, real>>)
    requires forall d | d in ds :: Valid(d)
    ensures r.Some? <==> Agreeing(AllCells(ds))
    ensures r.Some? ==> Records(r.value, AllCells(ds))
  {
    hide Agreeing, Valid, Cells;
    var merged: map<Place, real> := map[];
    assert Records(merged, AllCells([]));
    hide Records;
    for i := 0 to |ds|
      invariant Records(merged, AllCells(ds[..i]))
    {
      assert ds[..i + 1] == ds[..i] + [ds[i]];
      assert AllCells(ds[..i + 1]) == AllCells(ds[..i]) + Cells(ds[i]);
      var next := MergeColumns(merged, ds[i], AllCells(ds[..i]));
      if next.None? {
        assert AllCells(ds[..i + 1]) <= AllCells(ds);
        if Agreeing(AllCells(ds)) { AgreeingSubset(AllCells(ds[..i + 1]), AllCells(ds)); }
        return None;
      }
      merged := next.value;
    }
    assert ds[..|ds|] == ds;
    r := Some(merged);
    RecordsAgree(merged, AllCells(ds));
  }

  /** No recorded field misses a period. */
  predicate Covers(target: map<Place, real>, periods: seq<string>)
  {
    forall k | k in target :: forall t | t in periods :: (k.0, t) in target
  }

  /** `_complete_series` for every field. */
  function Completed(target: map<Place, real>, periods: seq<string>): (r: map<Field, seq<real>>)
    requires Covers(target, periods)
    ensures forall f :: f in r <==> exists k :: k in target && k.0 == f
    ensures forall f | f in r ::
              |r[f]| == |periods|
              && forall i | 0 <= i < |periods| :: (f, periods[i]) in target && r[f][i] == target[(f, periods[i])]
  {
    var fields := set k | k in target :: k.0;
    assert forall f, t | f in fields && t in periods :: (f, t) in target by {
      forall f, t | f in fields && t in periods ensures (f, t) in target {
        var k :| k in target && k.0 == f;
      }
    }
    map f | f in fields :: Values(target, f, periods)
  }

  function Values(target: map<Place, real>, f: Field, periods: seq<string>): (r: seq<real>)
    requires forall t | t in periods :: (f, t) in target
    ensures |r| == |periods|
    ensures forall i | 0 <= i < |periods| :: (f, periods[i]) in target && r[i] == target[(f, periods[i])]
  {
    seq(|periods|, i requires 0 <= i < |periods| => target[(f, periods[i])])
  }

  /** `merge_canonical_data`. */
  method MergeCanonicalData(ds: seq<Data>) returns (r: Result<Data, MergeError>)
    ensures r.Ok? <==> Mergeable(ds)
    ensures r.Ok? ==> IsMerge(ds, r.value)
    ensures ds == [] ==> r == Err(NothingToMerge)
    ensures ds != [] && (exists d | d in ds :: !Valid(d)) ==> r == Err(InvalidData)
    ensures ds != [] && (forall d | d in ds :: Valid(d)) ==>
              if exists d | d in ds :: d.entity != ds[0].entity then r == Err(EntityMismatch)
              else if !Agreeing(AllCells(ds)) then r == Err(Conflict)
              else !Complete(AllCells(ds), Periods(ds)) ==> r == Err(MissingPeriods)
  {
    if ds == [] {
      return Err(NothingToMerge);
    }
    hide Valid, Agreeing, Records, Complete, Completed, IsMerge, AllCells, Covers;
    for i := 0 to |ds|
      invariant forall j | 0 <= j < i :: Valid(ds[j])
    {
      var valid := ValidateData(ds[i]);
      if !valid {
        assert ds[i] in ds;
        return Err(InvalidData);
      }
    }
    if exists d | d in ds :: d.entity != ds[0].entity {
      return Err(EntityMismatch);
    }
    var periods := Unique(Periods(ds));
    var merged := MergeAll(ds);
    if merged.None? {
      return Err(Conflict);
    }
    CompleteSamePeriods(AllCells(ds), Periods(ds), periods);
    if !Covers(merged.value, periods) {
      return Err(MissingPeriods);
    }
    r := Ok(Data(Normalized(ds[0].entity), periods, Completed(merged.value, periods)));
    MergedIs(ds, merged.value, r.value);
  }

  lemma CompleteSamePeriods(cells: set<Cell>, a: seq<string>, b: seq<string>)
    requires forall t :: t in a <==> t in b
    ensures Complete(cells, a) <==> Complete(cells, b)
  {
  }

  lemma CellPeriod(ds: seq<Data>, c: Cell)
    requires (forall d | d in ds :: Valid(d)) && c in AllCells(ds)
    ensures c.0.1 in Periods(ds)
  {
    hide Valid;
    var d :| d in ds && c in Cells(d);
    CellIff(d, c);
    PeriodIff(ds, c.0.1);
  }

  lemma RecordedIff(target: map<Place, real>, cells: set<Cell>, c: Cell)
    requires Records(target, cells)
    ensures c in cells <==> c.0 in target && target[c.0] == c.1
  {
    if c.0 in target { assert (c.0, target[c.0]) in cells; }
  }

  lemma CompletedAt(target: map<Place, real>, periods: seq<string>, c: Cell)
    requires Covers(target, periods) && (c.0 in target ==> c.0.1 in periods)
    ensures var columns := Completed(target, periods);
            (c.0.0 in columns && exists i | 0 <= i < |periods| :: periods[i] == c.0.1 && columns[c.0.0][i] == c.1) <==>
            c.0 in target && target[c.0] == c.1
  {
    hide Covers;
    var columns := Completed(target, periods);
    assert c.0 == (c.0.0, c.0.1);
    if c.0 in target {
      var i :| 0 <= i < |periods| && periods[i] == c.0.1;
      assert c.0.0 in columns && columns[c.0.0][i] == target[(c.0.0, periods[i])];
    }
  }

  lemma CompletedCells(target: map<Place, real>, cells: set<Cell>, r: Data, c: Cell)
    requires Valid(r) && Records(target, cells) && (forall k | k in target :: k.1 in r.periods)
    requires Covers(target, r.periods)
    requires r.columns == Completed(target, r.periods)
    ensures c in Cells(r) <==> c in cells
  {
    hide Valid, Cells, Covers, Completed, Records;
    CellIff(r, c);
    RecordedIff(target, cells, c);
    CompletedAt(target, r.periods, c);
  }

  lemma GivenFieldValid(ds: seq<Data>, c: Cell)
    requires (forall d | d in ds :: Valid(d)) && c in AllCells(ds)
    ensures ValidField(c.0.0)
  {
    hide ValidField, ValidEntity;
    var d :| d in ds && c in Cells(d);
    CellIff(d, c);
  }

  lemma GivenPeriods(ds: seq<Data>)
    requires ds != [] && forall d | d in ds :: Valid(d)
    ensures Periods(ds) != [] && "" !in Periods(ds)
  {
    hide ValidField, ValidEntity, Periods;
    assert ds[0] in ds && ds[0].periods[0] in ds[0].periods;
    PeriodIff(ds, ds[0].periods[0]);
    PeriodIff(ds, "");
  }

  lemma MergedValid(ds: seq<Data>, target: map<Place, real>, r: Data)
    requires ds != [] && (forall d | d in ds :: Valid(d)) && Records(target, AllCells(ds)) && Covers(target, r.periods)
    requires r.entity == Normalized(ds[0].entity) && r.periods == Unique(Periods(ds))
    requires r.columns == Completed(target, r.periods)
    ensures Valid(r)
  {
    GivenPeriods(ds);
    UniqueDistinct(Periods(ds));
    assert Periods(ds)[0] in r.periods;
    forall f | f in r.columns ensures ValidField(f) {
      var k :| k in target && k.0 == f;
      GivenFieldValid(ds, (k, target[k]));
    }
    assert Valid(ds[0]);
    hide Periods, Unique, Completed, Covers, AllCells, ValidField;
  }

  lemma MergedIs(ds: seq<Data>, target: map<Place, real>, r: Data)
    requires ds != [] && (forall d | d in ds :: Valid(d)) && Records(target, AllCells(ds))
    requires Covers(target, r.periods)
    requires r.entity == Normalized(ds[0].entity) && r.periods == Unique(Periods(ds))
    requires r.columns == Completed(target, r.periods)
    ensures IsMerge(ds, r)
  {
    hide Valid, AllCells, Cells, Periods, Unique, Completed, Covers;
    MergedValid(ds, target, r);
    forall k | k in target ensures k.1 in r.periods {
      CellPeriod(ds, (k, target[k]));
    }
    hide Records;
    forall c ensures c in Cells(r) <==> c in AllCells(ds) {
      CompletedCells(target, AllCells(ds), r, c);
    }
  }

  // ---------------------------------------------------------------- what merging means

  /** The value a package gives for a field in a period. */
  function ValueAt(d: Data, f: Field, t: string): Option<real>
    requires Valid(d)
  {
    if f in d.columns && t in d.periods then Some(d.columns[f][Position(d.periods, t)]) else None
  }

  function Position(periods: seq<string>, t: string): (i: nat)
    requires t in periods
    ensures i < |periods| && periods[i] == t
  {
    if periods[0] == t then 0 else Position(periods[1..], t) + 1
  }

  lemma ValueIsCell(d: Data, f: Field, t: string, v: real)
    requires Valid(d)
    ensures ValueAt(d, f, t) == Some(v) <==> ((f, t), v) in Cells(d)
  {
    CellIff(d, ((f, t), v));
    hide Cells, Position;
    if t in d.periods {
      var i := Position(d.periods, t);
      forall j | 0 <= j < |d.periods| && d.periods[j] == t ensures j == i {
        assert d.periods[if i < j then i else j] == d.periods[if i < j then j else i];
      }
    }
  }

  /** A merged value is the value of every package that gives one, and every merged value was given. */
  lemma MergeKeepsValues(ds: seq<Data>, r: Data, f: Field, t: string)
    requires Mergeable(ds) && IsMerge(ds, r)
    ensures forall d | d in ds && ValueAt(d, f, t).Some? :: ValueAt(r, f, t) == ValueAt(d, f, t)
    ensures ValueAt(r, f, t).Some? ==> exists d | d in ds :: ValueAt(d, f, t) == ValueAt(r, f, t)
  {
    hide Valid, Cells, Complete, Agreeing, ValueAt;
    forall d | d in ds && ValueAt(d, f, t).Some? ensures ValueAt(r, f, t) == ValueAt(d, f, t) {
      var v := ValueAt(d, f, t).value;
      ValueIsCell(d, f, t, v);
      assert ((f, t), v) in AllCells(ds);
      ValueIsCell(r, f, t, v);
    }
    if ValueAt(r, f, t).Some? {
      var v := ValueAt(r, f, t).value;
      ValueIsCell(r, f, t, v);
      var d :| d in ds && ((f, t), v) in Cells(d);
      ValueIsCell(d, f, t, v);
    }
  }

  /** Every merged column covers exactly the union of the periods. */
  lemma MergeCoversPeriods(ds: seq<Data>, r: Data, t: string)
    requires Mergeable(ds) && IsMerge(ds, r)
    ensures t in r.periods <==> exists d | d in ds :: t in d.periods
    ensures forall f | f in r.columns :: |r.columns[f]| == |r.periods|
  {
    PeriodIff(ds, t);
  }

  /** Two packages that say the same things, in any order of periods. */
  ghost predicate SaySame(a: Data, b: Data)
  {
    && Valid(a) && Valid(b) && a.entity == b.entity
    && (forall t :: t in a.periods <==> t in b.periods)
    && forall f, t :: ValueAt(a, f, t) == ValueAt(b, f, t)
  }

  lemma SameCellsSaySame(a: Data, b: Data)
    requires Valid(a) && Valid(b) && a.entity == b.entity && Cells(a) == Cells(b)
    requires forall t :: t in a.periods <==> t in b.periods
    ensures SaySame(a, b)
  {
    hide Valid, Cells, ValueAt;
    forall f, t ensures ValueAt(a, f, t) == ValueAt(b, f, t) {
      if ValueAt(a, f, t).Some? {
        ValueIsCell(a, f, t, ValueAt(a, f, t).value);
        ValueIsCell(b, f, t, ValueAt(a, f, t).value);
      }
      if ValueAt(b, f, t).Some? {
        ValueIsCell(a, f, t, ValueAt(b, f, t).value);
        ValueIsCell(b, f, t, ValueAt(b, f, t).value);
      }
    }
  }

  lemma SameMembersSamePeriods(ds: seq<Data>, ds': seq<Data>)
    requires forall d :: d in ds <==> d in ds'
    ensures forall t :: t in Periods(ds) <==> t in Periods(ds')
  {
    forall t ensures t in Periods(ds) <==> t in Periods(ds') {
      PeriodIff(ds, t);
      PeriodIff(ds', t);
    }
  }

  /** Permuting the packages changes neither whether they merge nor any merged value. */
  lemma MergeOrderDoesNotMatter(ds: seq<Data>, ds': seq<Data>)
    requires multiset(ds) == multiset(ds')
    ensures Mergeable(ds) <==> Mergeable(ds')
    ensures forall r, r' | Mergeable(ds) && Mergeable(ds') && IsMerge(ds, r) && IsMerge(ds', r') :: SaySame(r, r')
  {
    SameMembers(ds, ds');
    SameMembersSamePeriods(ds, ds');
    if Mergeable(ds) { MergeableFromMembers(ds, ds'); }
    if Mergeable(ds') { MergeableFromMembers(ds', ds); }
    forall r, r' | Mergeable(ds) && Mergeable(ds') && IsMerge(ds, r) && IsMerge(ds', r') ensures SaySame(r, r') {
      hide Valid, Cells, SaySame, Agreeing, Complete, Periods;
      assert AllCells(ds) == AllCells(ds');
      assert ds[0] in ds && ds'[0] in ds';
      SameCellsSaySame(r, r');
    }
  }

  lemma MergeableFromMembers(ds: seq<Data>, ds': seq<Data>)
    requires Mergeable(ds) && |ds| == |ds'| && forall d :: d in ds <==> d in ds'
    ensures Mergeable(ds')
  {
    hide Valid, Cells, Agreeing, Complete, Periods;
    SameMembersSamePeriods(ds, ds');
    assert ds'[0] in ds;
    assert AllCells(ds) == AllCells(ds');
    CompleteSamePeriods(AllCells(ds), Periods(ds), Periods(ds'));
  }

  // ---------------------------------------------------------------- merging in stages

  lemma StagedCells(ds: seq<Data>, more: seq<Data>, m: Data)
    requires (forall d | d in ds + more :: Valid(d)) && Valid(m) && Cells(m) == AllCells(ds)
    ensures (forall d | d in [m] + more :: Valid(d)) && AllCells([m] + more) == AllCells(ds + more)
  {
    hide Valid, Cells;
    forall c ensures c in AllCells([m] + more) <==> c in AllCells(ds + more) {
      if c in AllCells([m] + more) {
        var d :| d in [m] + more && c in Cells(d);
        if d == m { var e :| e in ds && c in Cells(e); assert e in ds + more; } else { assert d in ds + more; }
      }
      if c in AllCells(ds + more) {
        var d :| d in ds + more && c in Cells(d);
        if d in ds { assert c in AllCells(ds); assert m in [m] + more; } else { assert d in [m] + more; }
      }
    }
  }

  lemma StagedPeriods(ds: seq<Data>, more: seq<Data>, m: Data)
    requires forall t :: t in m.periods <==> t in Periods(ds)
    ensures forall t :: t in Periods([m] + more) <==> t in Periods(ds + more)
  {
    forall t ensures t in Periods([m] + more) <==> t in Periods(ds + more) {
      PeriodIff([m] + more, t);
      PeriodIff(ds + more, t);
      PeriodIff(ds, t);
      hide Periods;
      if t in Periods([m] + more) {
        var d :| d in [m] + more && t in d.periods;
        if d == m { var e :| e in ds && t in e.periods; assert e in ds + more; } else { assert d in ds + more; }
      }
      if t in Periods(ds + more) {
        var d :| d in ds + more && t in d.periods;
        if d in ds { assert m in [m] + more && t in m.periods; } else { assert d in [m] + more; }
      }
    }
  }

  /**
   * Merging some packages first, and the rest into the result, is merging them all at once, unless
   * the entity has a null name and something is left to merge: then never both succeed.
   */
  lemma MergeInStages(ds: seq<Data>, more: seq<Data>, m: Data)
    requires Mergeable(ds) && IsMerge(ds, m)
    ensures !ds[0].entity.name.Null? || more == [] ==> (Mergeable([m] + more) <==> Mergeable(ds + more))
    ensures ds[0].entity.name.Null? && more != [] ==> !(Mergeable([m] + more) && Mergeable(ds + more))
    ensures forall r, r' | Mergeable([m] + more) && Mergeable(ds + more)
                           && IsMerge([m] + more, r) && IsMerge(ds + more, r') :: SaySame(r, r')
  {
    hide Valid, Cells, SaySame, Agreeing, Complete, Periods, AllCells;
    StagedPeriods(ds, more, m);
    if forall d | d in ds + more :: Valid(d) {
      StagedCells(ds, more, m);
      CompleteSamePeriods(AllCells(ds + more), Periods([m] + more), Periods(ds + more));
    }
    StagedEntity(ds, more, m);
    forall r, r' | Mergeable([m] + more) && Mergeable(ds + more) && IsMerge([m] + more, r) && IsMerge(ds + more, r')
      ensures SaySame(r, r')
    {
      SameCellsSaySame(r, r');
    }
  }

  lemma StagedEntity(ds: seq<Data>, more: seq<Data>, m: Data)
    requires ds != [] && (forall d | d in ds :: d.entity == ds[0].entity) && m.entity == Normalized(ds[0].entity)
    ensures !ds[0].entity.name.Null? || more == [] ==>
              ((forall d | d in [m] + more :: d.entity == m.entity) <==>
               (forall d | d in ds + more :: d.entity == ds[0].entity))
    ensures ds[0].entity.name.Null? && more != [] ==>
              !((forall d | d in [m] + more :: d.entity == m.entity) &&
                (forall d | d in ds + more :: d.entity == ds[0].entity))
  {
    assert forall d :: d in [m] + more <==> d == m || d in more;
    assert forall d :: d in ds + more <==> d in ds || d in more;
    if more != [] {
      assert more[0] in more;
    }
  }

  /**
   * For packages that merge at once, merging in stages succeeds exactly when the entity has no null
   * name or nothing is left to merge.
   */
  lemma StagesSucceedIff(ds: seq<Data>, more: seq<Data>, m: Data)
    requires Mergeable(ds) && IsMerge(ds, m) && Mergeable(ds + more)
    ensures Mergeable([m] + more) <==> !ds[0].entity.name.Null? || more == []
  {
    MergeInStages(ds, more, m);
    hide Mergeable, IsMerge;
  }

  const NAMELESS := Data(
    Entity("acme", "EUR", Null), ["2024"], map[Field("income_statement", "revenue") := [100.0]])

  lemma NamelessCells(ds: seq<Data>)
    requires ds != [] && forall d | d in ds :: d == NAMELESS
    ensures Mergeable(ds) && AllCells(ds) == Cells(NAMELESS)
  {
    hide Cells;
    assert ds[0] in ds;
    forall c ensures c in Cells(NAMELESS) <==> c == ((Field("income_statement", "revenue"), "2024"), 100.0) {
      CellIff(NAMELESS, c);
      assert NAMELESS.periods[0] == "2024";
    }
    assert forall c :: c in AllCells(ds) <==> c in Cells(NAMELESS);
    forall t | t in Periods(ds) ensures t == "2024" {
      PeriodIff(ds, t);
    }
    assert ((Field("income_statement", "revenue"), "2024"), 100.0) in AllCells(ds);
    assert Gives(AllCells(ds), Field("income_statement", "revenue"), "2024");
    hide AllCells, Periods;
  }

  lemma NamelessMerge()
    ensures IsMerge([NAMELESS], NAMELESS.(entity := Normalized(NAMELESS.entity)))
  {
    var m := NAMELESS.(entity := Normalized(NAMELESS.entity));
    NamelessCells([NAMELESS]);
    hide Cells, AllCells;
    forall c ensures c in Cells(m) <==> c in Cells(NAMELESS) {
      CellIff(m, c);
      CellIff(NAMELESS, c);
    }
    assert [NAMELESS][..0] == [];
    assert Periods([NAMELESS]) == ["2024"];
    assert Unique(["2024"]) == ["2024"] by { assert ["2024"][..0] == []; }
  }

  /** A package with a null entity name merges with itself, but not into its own merge. */
  lemma NullNameStopsStages()
    ensures var m := NAMELESS.(entity := Normalized(NAMELESS.entity));
            && Mergeable([NAMELESS, NAMELESS])
            && Mergeable([NAMELESS]) && IsMerge([NAMELESS], m) && !Mergeable([m, NAMELESS])
  {
    hide Mergeable, IsMerge, Valid, SaySame, AllCells, Cells;
    NamelessCells([NAMELESS]);
    NamelessCells([NAMELESS, NAMELESS]);
    NamelessMerge();
    var m := NAMELESS.(entity := Normalized(NAMELESS.entity));
    assert [NAMELESS] + [NAMELESS] == [NAMELESS, NAMELESS] && [m] + [NAMELESS] == [m, NAMELESS];
    MergeInStages([NAMELESS], [NAMELESS], m);
  }
}
