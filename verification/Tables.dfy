/** A table as a value: its rows by message id, and its share of the field index. */
module Tables {
  import opened Wrappers
  import opened Rows

  datatype IndexKey = IndexKey(column: string, value: string, id: nat)

  datatype Table = Table(rows: map<nat, Row>, index: set<IndexKey>)

  predicate IsEncrypted(schema: Schema, column: string) {
    exists i :: 0 <= i < |schema.columns| && schema.columns[i].name == column && schema.columns[i].encrypted
  }

  predicate IsUniqueColumn(columns: seq<Column>, name: string) {
    exists i :: 0 <= i < |columns| && columns[i].name == name && columns[i].unique
  }

  predicate IsIndexed(schema: Schema, column: string) {
    column in schema.indexes && !IsEncrypted(schema, column)
  }

  /** The index entries of one row. */
  function KeysOf(schema: Schema, id: nat, row: Row): set<IndexKey> {
    set column | column in schema.indexes && IsIndexed(schema, column) && !IsNullish(Cell(row, column))
      :: IndexKey(column, Show(row[column]), id)
  }

  function WithoutId(index: set<IndexKey>, id: nat): set<IndexKey> {
    set key | key in index && key.id != id
  }

  /** `updateIndexes`: nothing happens for a row without any indexed value. */
  function Reindexed(schema: Schema, index: set<IndexKey>, id: nat, row: Row): set<IndexKey> {
    if KeysOf(schema, id, row) == {} then index else WithoutId(index, id) + KeysOf(schema, id, row)
  }

  /** A row sent or edited, then indexed. */
  function Written(schema: Schema, t: Table, id: nat, row: Row): Table {
    Table(t.rows[id := row], Reindexed(schema, t.index, id, row))
  }

  function Deleted(t: Table, id: nat): Table {
    Table(t.rows - {id}, WithoutId(t.index, id))
  }

  /** The filter the engine answers from the index, if any. */
  function IndexedFilter(schema: Schema, filters: seq<Filter>): Option<nat> {
    IndexedFrom(schema, filters, 0)
  }

  function IndexedFrom(schema: Schema, filters: seq<Filter>, i: nat): (r: Option<nat>)
    requires i <= |filters|
    ensures r.Some? ==>
      i <= r.value < |filters| && filters[r.value].op.Eq? && IsIndexed(schema, filters[r.value].column)
    decreases |filters| - i
  {
    if i == |filters| then None
    else if filters[i].op.Eq? && IsIndexed(schema, filters[i].column) then Some(i)
    else IndexedFrom(schema, filters, i + 1)
  }

  /** The ids a select finds, on whichever path it takes. */
  function FoundIds(schema: Schema, t: Table, filters: seq<Filter>): set<nat> {
    var i := IndexedFilter(schema, filters);
    if i.None? then ScanIds(t, filters)
    else
      var f := filters[i.value];
      set id | id in t.rows && IndexKey(f.column, Show(f.value), id) in t.index
               && PassesAll(t.rows[id], filters[..i.value] + filters[i.value + 1..])
  }

  /** The ids a full scan with every filter finds. */
  function ScanIds(t: Table, filters: seq<Filter>): set<nat> {
    set id | id in t.rows && PassesAll(t.rows[id], filters)
  }

  /** `ensureUniqueConstraints` for one column and value. */
  predicate Conflicts(schema: Schema, t: Table, column: string, value: Value, current: Option<nat>) {
    exists id :: id in FoundIds(schema, t, [Filter(column, Eq, value)]) && Some(id) != current
  }

  function FirstConflict(columns: seq<Column>, schema: Schema, t: Table, row: Row, current: Option<nat>): Option<Error>
  {
    if columns == [] then None
    else if columns[0].unique && !IsNullish(Cell(row, columns[0].name))
         && Conflicts(schema, t, columns[0].name, row[columns[0].name], current)
    then Some(NotUnique(columns[0].name))
    else FirstConflict(columns[1..], schema, t, row, current)
  }

  /** Why a row may not be written, if it may not. */
  function Refusal(schema: Schema, t: Table, row: Row, current: Option<nat>): Option<Error> {
    var invalid := ValidateRow(schema.columns, row);
    if invalid.Some? then invalid else FirstConflict(schema.columns, schema, t, row, current)
  }

  // ----- What every reachable table satisfies

  /** Every indexed value of every row is in the index. */
  ghost predicate IsCovered(schema: Schema, t: Table) {
    forall id :: id in t.rows ==> KeysOf(schema, id, t.rows[id]) <= t.index
  }

  /** Every index entry is of a live row, and was made from a value of the column's type. */
  ghost predicate IsGrounded(schema: Schema, t: Table) {
    forall key :: key in t.index ==> key.id in t.rows && IsShowOf(schema, key.column, key.value)
  }

  ghost predicate IsShowOf(schema: Schema, column: string, text: string) {
    IsIndexed(schema, column) && exists v: Value :: CanHold(schema, column, v) && Show(v) == text
  }

  /** A value that `validateRow` lets into a column. */
  ghost predicate CanHold(schema: Schema, column: string, v: Value) {
    !v.Null? && forall i :: 0 <= i < |schema.columns| && schema.columns[i].name == column ==>
      HasType(v, schema.columns[i].kind)
  }

  ghost predicate AreValid(schema: Schema, t: Table) {
    forall id :: id in t.rows ==> ValidateRow(schema.columns, t.rows[id]).None?
  }

  /** No two live rows share a value in a unique column. */
  ghost predicate AreUnique(schema: Schema, t: Table) {
    forall a, b, i ::
      a in t.rows && b in t.rows && a != b && 0 <= i < |schema.columns| && schema.columns[i].unique
      && !IsNullish(Cell(t.rows[a], schema.columns[i].name)) && schema.columns[i].kind != JsonType
      ==> Cell(t.rows[a], schema.columns[i].name) != Cell(t.rows[b], schema.columns[i].name)
  }

  /** The index holds exactly the indexed values of the rows. */
  ghost predicate IsExact(schema: Schema, t: Table) {
    forall key :: key in t.index <==> key.id in t.rows && key in KeysOf(schema, key.id, t.rows[key.id])
  }

  ghost predicate IsSound(schema: Schema, t: Table) {
    IsCovered(schema, t) && IsGrounded(schema, t) && AreValid(schema, t) && AreUnique(schema, t)
  }

  lemma ValidCanHold(schema: Schema, row: Row, column: string)
    requires ValidateRow(schema.columns, row).None? && !IsNullish(Cell(row, column))
    ensures CanHold(schema, column, row[column])
  {
    forall i | 0 <= i < |schema.columns| && schema.columns[i].name == column
      ensures HasType(row[column], schema.columns[i].kind)
    {
      ValidRowTyped(schema.columns, row, i);
    }
  }

  lemma {:induction false} NoConflictAt(columns: seq<Column>, schema: Schema, t: Table, row: Row, current: Option<nat>,
                                        i: nat)
    requires FirstConflict(columns, schema, t, row, current).None? && i < |columns|
    requires columns[i].unique && !IsNullish(Cell(row, columns[i].name))
    ensures !Conflicts(schema, t, columns[i].name, row[columns[i].name], current)
  {
    if i > 0 {
      NoConflictAt(columns[1..], schema, t, row, current, i - 1);
    }
  }

  /** A row holding the value is found by the uniqueness check, on either path. */
  lemma HolderIsFound(schema: Schema, t: Table, column: string, value: Value, id: nat)
    requires IsCovered(schema, t) && id in t.rows && Cell(t.rows[id], column) == Some(value)
    requires !value.Null? && !value.Obj?
    ensures id in FoundIds(schema, t, [Filter(column, Eq, value)])
  {
    var filters := [Filter(column, Eq, value)];
    assert Passes(t.rows[id], filters[0]);
    if IndexedFilter(schema, filters).Some? {
      assert IndexKey(column, Show(value), id) in KeysOf(schema, id, t.rows[id]);
      assert filters[..0] + filters[1..] == [];
    }
  }

  /** An accepted write keeps unique columns unique, whether the check read the index or the table. */
  lemma WrittenUnique(schema: Schema, t: Table, id: nat, row: Row, current: Option<nat>)
    requires IsSound(schema, t) && Refusal(schema, t, row, current).None?
    requires current == Some(id) || (current == None && id !in t.rows)
    ensures AreUnique(schema, Written(schema, t, id, row))
  {
    var t' := Written(schema, t, id, row);
    forall b, i | b in t'.rows && b != id && 0 <= i < |schema.columns| && schema.columns[i].unique
                  && !IsNullish(Cell(row, schema.columns[i].name)) && schema.columns[i].kind != JsonType
      ensures Cell(row, schema.columns[i].name) != Cell(t.rows[b], schema.columns[i].name)
    {
      var column := schema.columns[i].name;
      NoConflictAt(schema.columns, schema, t, row, current, i);
      ValidRowTyped(schema.columns, row, i);
      if Cell(t.rows[b], column) == Some(row[column]) {
        HolderIsFound(schema, t, column, row[column], b);
      }
    }
  }

  lemma KeysGrounded(schema: Schema, id: nat, row: Row, key: IndexKey)
    requires ValidateRow(schema.columns, row).None? && key in KeysOf(schema, id, row)
    ensures key.id == id && IsShowOf(schema, key.column, key.value)
  {
    ValidCanHold(schema, row, key.column);
  }

  /** An accepted write keeps a table sound. */
  lemma WrittenSound(schema: Schema, t: Table, id: nat, row: Row, current: Option<nat>)
    requires IsSound(schema, t) && Refusal(schema, t, row, current).None?
    requires current == Some(id) || (current == None && id !in t.rows)
    ensures IsSound(schema, Written(schema, t, id, row))
  {
    var t' := Written(schema, t, id, row);
    WrittenUnique(schema, t, id, row, current);
    forall a | a in t'.rows
      ensures KeysOf(schema, a, t'.rows[a]) <= t'.index
    {
      if a != id {
        assert KeysOf(schema, a, t.rows[a]) <= t.index;
      }
    }
    forall key | key in t'.index
      ensures key.id in t'.rows && IsShowOf(schema, key.column, key.value)
    {
      if key in KeysOf(schema, id, row) {
        KeysGrounded(schema, id, row, key);
      }
    }
  }

  lemma DeletedSound(schema: Schema, t: Table, id: nat)
    requires IsSound(schema, t)
    ensures IsSound(schema, Deleted(t, id))
    ensures IsExact(schema, t) ==> IsExact(schema, Deleted(t, id))
  {
    var t' := Deleted(t, id);
    forall a | a in t'.rows
      ensures KeysOf(schema, a, t'.rows[a]) <= t'.index
    {
      assert KeysOf(schema, a, t.rows[a]) <= t.index;
    }
  }

  /**
   * A write keeps the index exact if and only if the new row has an indexed value, or there was no entry to clear:
   * `updateIndexes` leaves the old entries of a row whose indexed columns all become null.
   */
  lemma WrittenExact(schema: Schema, t: Table, id: nat, row: Row)
    requires IsExact(schema, t)
    ensures IsExact(schema, Written(schema, t, id, row))
      <==> KeysOf(schema, id, row) != {} || id !in t.rows || KeysOf(schema, id, t.rows[id]) == {}
  {
    var t' := Written(schema, t, id, row);
    if KeysOf(schema, id, row) == {} && id in t.rows && KeysOf(schema, id, t.rows[id]) != {} {
      var key :| key in KeysOf(schema, id, t.rows[id]);
      assert key in t'.index && key !in KeysOf(schema, key.id, t'.rows[key.id]);
    } else {
      forall key
        ensures key in t'.index <==> key.id in t'.rows && key in KeysOf(schema, key.id, t'.rows[key.id])
      {
        if key.id != id {
          assert key in t'.index <==> key in t.index;
        }
      }
    }
  }

  // ----- The index path against the full scan

  /** A filter on an indexed column whose value has the column's scalar type. */
  ghost predicate IsTypedFilter(schema: Schema, f: Filter) {
    CanHold(schema, f.column, f.value) && IsScalarColumn(schema, f.column)
  }

  ghost predicate IsScalarColumn(schema: Schema, column: string) {
    exists i :: 0 <= i < |schema.columns| && schema.columns[i].name == column && schema.columns[i].kind != JsonType
  }

  lemma ShowDecides(schema: Schema, column: string, a: Value, b: Value)
    requires IsScalarColumn(schema, column) && CanHold(schema, column, a) && CanHold(schema, column, b)
    ensures Show(a) == Show(b) <==> a == b
    ensures !a.Obj?
  {
    var i :| 0 <= i < |schema.columns| && schema.columns[i].name == column && schema.columns[i].kind != JsonType;
    assert HasType(a, schema.columns[i].kind) && HasType(b, schema.columns[i].kind);
    if Show(a) == Show(b) {
      ShowInjective(a, b, schema.columns[i].kind);
    }
  }

  lemma EqByIndex(schema: Schema, t: Table, f: Filter, id: nat)
    requires AreValid(schema, t) && IsExact(schema, t) && f.op.Eq? && IsTypedFilter(schema, f)
    requires IsIndexed(schema, f.column)
    requires id in t.rows
    ensures IndexKey(f.column, Show(f.value), id) in t.index <==> Passes(t.rows[id], f)
  {
    var row := t.rows[id];
    var key := IndexKey(f.column, Show(f.value), id);
    if !IsNullish(Cell(row, f.column)) {
      ValidCanHold(schema, row, f.column);
      ShowDecides(schema, f.column, row[f.column], f.value);
      assert IndexKey(f.column, Show(row[f.column]), id) in KeysOf(schema, id, row);
    }
    assert key in t.index <==> key in KeysOf(schema, id, row);
  }

  /** With an exact index, a select answered from it finds what the full scan finds. */
  lemma IndexAgreesWithScan(schema: Schema, t: Table, filters: seq<Filter>)
    requires AreValid(schema, t) && IsExact(schema, t)
    requires var i := IndexedFilter(schema, filters); i.Some? ==> IsTypedFilter(schema, filters[i.value])
    ensures FoundIds(schema, t, filters) == ScanIds(t, filters)
  {
    var i := IndexedFilter(schema, filters);
    if i.Some? {
      var k, rest := i.value, filters[..i.value] + filters[i.value + 1..];
      forall id | id in t.rows
        ensures PassesAll(t.rows[id], filters) <==> Passes(t.rows[id], filters[k]) && PassesAll(t.rows[id], rest)
      {
        PassesSplit(t.rows[id], filters, k);
      }
      forall id | id in t.rows
        ensures id in FoundIds(schema, t, filters) <==> id in ScanIds(t, filters)
      {
        EqByIndex(schema, t, filters[k], id);
      }
    }
  }

  lemma PassesSplit(row: Row, filters: seq<Filter>, k: nat)
    requires k < |filters|
    ensures PassesAll(row, filters) <==> Passes(row, filters[k]) && PassesAll(row, filters[..k] + filters[k + 1..])
  {
    AllSplit(filter => Passes(row, filter), filters, k);
  }

  ghost predicate AgreesOn(schema: Schema, t: Table, f: Filter) {
    FoundIds(schema, t, [f]) == ScanIds(t, [f])
  }

  /** For a sound table, agreement on all typed filters is the same thing as an exact index. */
  lemma AgreementIsExactness(schema: Schema, t: Table)
    requires IsSound(schema, t)
    requires forall c :: IsIndexed(schema, c) ==> IsScalarColumn(schema, c)
    ensures IsExact(schema, t) <==>
      (forall f: Filter :: f.op.Eq? && IsIndexed(schema, f.column) && IsTypedFilter(schema, f) ==>
            AgreesOn(schema, t, f))
  {
    if IsExact(schema, t) {
      forall f: Filter | f.op.Eq? && IsIndexed(schema, f.column) && IsTypedFilter(schema, f)
        ensures AgreesOn(schema, t, f)
      {
        IndexAgreesWithScan(schema, t, [f]);
      }
    } else {
      var key :| !(key in t.index <==> key.id in t.rows && key in KeysOf(schema, key.id, t.rows[key.id]));
      assert key.id in t.rows ==> KeysOf(schema, key.id, t.rows[key.id]) <= t.index;
      StaleKeyMisleads(schema, t, key);
    }
  }

  lemma PassingHasKey(schema: Schema, id: nat, row: Row, f: Filter)
    requires f.op.Eq? && IsIndexed(schema, f.column) && !f.value.Null?
    ensures Passes(row, f) ==> IndexKey(f.column, Show(f.value), id) in KeysOf(schema, id, row)
  {
  }

  /** An entry that its row no longer justifies makes the index path return the row wrongly. */
  lemma StaleKeyMisleads(schema: Schema, t: Table, key: IndexKey)
    requires IsSound(schema, t)
    requires forall c :: IsIndexed(schema, c) ==> IsScalarColumn(schema, c)
    requires key in t.index && key !in KeysOf(schema, key.id, t.rows[key.id])
    ensures exists f: Filter ::
      f.op.Eq? && IsIndexed(schema, f.column) && IsTypedFilter(schema, f) && !AgreesOn(schema, t, f)
  {
    var v: Value :| CanHold(schema, key.column, v) && Show(v) == key.value;
    var f := Filter(key.column, Eq, v);
    assert [f][..0] + [f][1..] == [];
    assert key.id in FoundIds(schema, t, [f]);
    PassingHasKey(schema, key.id, t.rows[key.id], f);
    assert !Passes(t.rows[key.id], [f][0]);
    assert key.id !in ScanIds(t, [f]);
    assert !AgreesOn(schema, t, f);
  }

  // ----- When a filter value may be answered from the index

  ghost predicate AgreesEverywhere(schema: Schema, f: Filter) {
    forall t: Table :: IsSound(schema, t) && IsExact(schema, t) ==> AgreesOn(schema, t, f)
  }

  ghost function OneRow(schema: Schema, row: Row): Table {
    Table(map[1 := row], KeysOf(schema, 1, row))
  }

  function SampleValue(kind: ColumnType): Value {
    match kind
    case NumberType => Num(0)
    case BooleanType => Bool(true)
    case JsonType => Obj("{}")
    case _ => Str("")
  }

  /** A row with a value in every column. */
  function SampleRow(columns: seq<Column>): Row {
    if columns == [] then map[] else SampleRow(columns[1..])[columns[0].name := SampleValue(columns[0].kind)]
  }

  predicate HaveOwnNames(columns: seq<Column>) {
    forall i, j :: 0 <= i < j < |columns| ==> columns[i].name != columns[j].name
  }

  lemma {:induction false} SampleAt(columns: seq<Column>, i: nat)
    requires HaveOwnNames(columns) && i < |columns|
    ensures Cell(SampleRow(columns), columns[i].name) == Some(SampleValue(columns[i].kind))
  {
    if i > 0 {
      SampleAt(columns[1..], i - 1);
    }
  }

  /** What a column takes: a value of its type, or null when it may stay empty. */
  predicate Takes(column: Column, v: Value) {
    if v.Null? then !column.required || column.default.Some? else HasType(v, column.kind)
  }

  lemma {:induction false} TakenIsValid(columns: seq<Column>, row: Row)
    requires forall i :: 0 <= i < |columns| ==> columns[i].name in row && Takes(columns[i], row[columns[i].name])
    ensures ValidateRow(columns, row) == None
  {
    if columns != [] {
      assert forall i :: 0 <= i < |columns[1..]| ==> columns[1..][i] == columns[i + 1];
      TakenIsValid(columns[1..], row);
    }
  }

  lemma SampleIsValid(schema: Schema, k: nat, w: Value)
    requires HaveOwnNames(schema.columns) && k < |schema.columns| && Takes(schema.columns[k], w)
    ensures ValidateRow(schema.columns, SampleRow(schema.columns)[schema.columns[k].name := w]) == None
  {
    var row := SampleRow(schema.columns)[schema.columns[k].name := w];
    forall i | 0 <= i < |schema.columns|
      ensures schema.columns[i].name in row && Takes(schema.columns[i], row[schema.columns[i].name])
    {
      SampleAt(schema.columns, i);
    }
    TakenIsValid(schema.columns, row);
  }

  lemma OneRowSound(schema: Schema, row: Row)
    requires ValidateRow(schema.columns, row) == None
    ensures IsSound(schema, OneRow(schema, row)) && IsExact(schema, OneRow(schema, row))
  {
    forall key | key in KeysOf(schema, 1, row)
      ensures IsShowOf(schema, key.column, key.value)
    {
      KeysGrounded(schema, 1, row, key);
    }
  }

  /** No value the column takes passes the scan wrongly or is found wrongly. */
  ghost predicate IsFaithful(column: Column, v: Value) {
    HasType(v, column.kind)
    || ((v.Null? ==> !Takes(column, Null)) && forall w: Value :: HasType(w, column.kind) ==> Show(w) != Show(v))
  }

  /**
   * On an indexed scalar column of any schema, an `eq` filter agrees with the scan on every table exactly when its
   * value has the column's type, or prints like no value of that type and is not the null of a column that may stay
   * empty.
   */
  lemma FaithfulFilters(schema: Schema, k: nat, v: Value)
    requires HaveOwnNames(schema.columns) && k < |schema.columns| && schema.columns[k].kind != JsonType
    requires IsIndexed(schema, schema.columns[k].name)
    ensures AgreesEverywhere(schema, Filter(schema.columns[k].name, Eq, v)) <==> IsFaithful(schema.columns[k], v)
  {
    var column, f := schema.columns[k], Filter(schema.columns[k].name, Eq, v);
    if IsFaithful(column, v) {
      forall t: Table | IsSound(schema, t) && IsExact(schema, t)
        ensures AgreesOn(schema, t, f)
      {
        if HasType(v, column.kind) {
          assert IsTypedFilter(schema, f);
          IndexAgreesWithScan(schema, t, [f]);
        } else {
          NothingPrintsLike(schema, k, v, t);
        }
      }
    } else {
      var w: Value :| if v.Null? && Takes(column, Null) then w == Null
                      else HasType(w, column.kind) && Show(w) == Show(v);
      var row := SampleRow(schema.columns)[column.name := w];
      SampleIsValid(schema, k, w);
      OneRowSound(schema, row);
      MisleadingRow(schema, k, v, row);
    }
  }

  lemma ScanOne(t: Table, f: Filter)
    ensures ScanIds(t, [f]) == set id | id in t.rows && Passes(t.rows[id], f)
  {
    assert forall row :: PassesAll(row, [f]) ==> Passes(row, [f][0]);
  }

  lemma NothingPrintsLike(schema: Schema, k: nat, v: Value, t: Table)
    requires k < |schema.columns| && IsIndexed(schema, schema.columns[k].name) && IsSound(schema, t)
    requires v.Null? ==> !Takes(schema.columns[k], Null)
    requires forall w: Value :: HasType(w, schema.columns[k].kind) ==> Show(w) != Show(v)
    ensures AgreesOn(schema, t, Filter(schema.columns[k].name, Eq, v))
  {
    var column, f := schema.columns[k], Filter(schema.columns[k].name, Eq, v);
    forall id | id in t.rows
      ensures !Passes(t.rows[id], f)
    {
      ValidRowTyped(schema.columns, t.rows[id], k);
    }
    forall id
      ensures IndexKey(column.name, Show(v), id) !in t.index
    {
    }
    ScanOne(t, f);
  }

  /** A table of one row on which the two paths differ. */
  lemma MisleadingRow(schema: Schema, k: nat, v: Value, row: Row)
    requires k < |schema.columns| && IsIndexed(schema, schema.columns[k].name) && !HasType(v, schema.columns[k].kind)
    requires schema.columns[k].name in row
    requires
      var w := row[schema.columns[k].name];
      if v.Null? && Takes(schema.columns[k], Null) then w == Null
      else HasType(w, schema.columns[k].kind) && Show(w) == Show(v)
    ensures !AgreesOn(schema, OneRow(schema, row), Filter(schema.columns[k].name, Eq, v))
  {
    var name := schema.columns[k].name;
    var f, t, w := Filter(name, Eq, v), OneRow(schema, row), row[name];
    assert [f][..0] + [f][1..] == [];
    ScanOne(t, f);
    if v.Null? && Takes(schema.columns[k], Null) {
      assert 1 in ScanIds(t, [f]) && 1 !in FoundIds(schema, t, [f]);
    } else {
      assert IndexKey(name, Show(w), 1) in t.index;
      assert 1 in FoundIds(schema, t, [f]) && 1 !in ScanIds(t, [f]);
    }
  }

  // ----- Runs

  datatype Edit = Edit(id: nat, row: Row)

  /** What a caller may ask of a table. */
  datatype Op =
    | Insert(data: Row, uuid: Value, now: Value)
    | Replace(edits: seq<Edit>)
    | Delete(ids: seq<nat>)

  datatype Store = Store(table: Table, nextId: nat)

  ghost function Inserted(schema: Schema, s: Store, row: Row): Store {
    if Refusal(schema, s.table, row, None).Some? then s
    else Store(Written(schema, s.table, s.nextId, row), s.nextId + 1)
  }

  /** `replaceRows` stops at the first row it may not write, keeping the ones before it. */
  function ReplacedAll(schema: Schema, t: Table, edits: seq<Edit>): Table
    decreases |edits|
  {
    if edits == [] || edits[0].id !in t.rows || Refusal(schema, t, edits[0].row, Some(edits[0].id)).Some? then t
    else ReplacedAll(schema, Written(schema, t, edits[0].id, edits[0].row), edits[1..])
  }

  /** Whether and why `replaceRows` stops early. */
  function ReplaceError(schema: Schema, t: Table, edits: seq<Edit>): Option<Error>
    decreases |edits|
  {
    if edits == [] then None else
    var refusal := Refusal(schema, t, edits[0].row, Some(edits[0].id));
    if refusal.Some? then refusal
    else if edits[0].id !in t.rows then Some(NotFound)
    else ReplaceError(schema, Written(schema, t, edits[0].id, edits[0].row), edits[1..])
  }

  ghost predicate IsLeast(ids: set<nat>, id: nat) {
    id in ids && forall other :: other in ids ==> id <= other
  }

  lemma {:induction false} HasLeast(ids: set<nat>)
    requires ids != {}
    ensures exists id :: IsLeast(ids, id)
    decreases ids
  {
    var some :| some in ids;
    if ids == {some} {
      assert IsLeast(ids, some);
    } else {
      HasLeast(ids - {some});
      var least :| IsLeast(ids - {some}, least);
      assert forall other :: other in ids ==> other == some || other in ids - {some};
      assert IsLeast(ids, if some < least then some else least);
    }
  }

  /** The rows of a table by ascending message id, as a select without filters returns them. */
  ghost function InOrder(rows: map<nat, Row>): seq<Edit>
    decreases rows.Keys
  {
    if rows == map[] then []
    else
      HasLeast(rows.Keys);
      var id: nat :| IsLeast(rows.Keys, id);
      [Edit(id, rows[id])] + InOrder(rows - {id})
  }

  lemma InOrderFirst(rows: map<nat, Row>, id: nat)
    requires IsLeast(rows.Keys, id)
    ensures InOrder(rows) == [Edit(id, rows[id])] + InOrder(rows - {id})
  {
  }

  predicate AreAscending(edits: seq<Edit>) {
    forall i, j :: 0 <= i < j < |edits| ==> edits[i].id < edits[j].id
  }

  lemma {:induction false} InOrderRows(rows: map<nat, Row>)
    ensures forall e :: e in InOrder(rows) <==> e.id in rows && e.row == rows[e.id]
    ensures AreAscending(InOrder(rows))
    decreases rows.Keys
  {
    if rows != map[] {
      HasLeast(rows.Keys);
      var id: nat :| IsLeast(rows.Keys, id) && InOrder(rows) == [Edit(id, rows[id])] + InOrder(rows - {id});
      InOrderRows(rows - {id});
      var rest := InOrder(rows - {id});
      forall j | 0 <= j < |rest|
        ensures id < rest[j].id
      {
        assert rest[j] in rest;
      }
    }
  }

  ghost function DeletedAll(t: Table, ids: seq<nat>): Table
    decreases |ids|
  {
    if ids == [] || ids[0] !in t.rows then t else DeletedAll(Deleted(t, ids[0]), ids[1..])
  }

  ghost function DeleteError(t: Table, ids: seq<nat>): Option<Error>
    decreases |ids|
  {
    if ids == [] then None
    else if ids[0] !in t.rows then Some(NotFound)
    else DeleteError(Deleted(t, ids[0]), ids[1..])
  }

  ghost function Step(schema: Schema, s: Store, op: Op): Store {
    match op
    case Insert(data, uuid, now) => Inserted(schema, s, ApplyDefaults(schema.columns, data, uuid, now))
    case Replace(edits) => s.(table := ReplacedAll(schema, s.table, edits))
    case Delete(ids) => s.(table := DeletedAll(s.table, ids))
  }

  ghost function Run(schema: Schema, ops: seq<Op>): Store {
    if ops == [] then Store(Table(map[], {}), 1) else Step(schema, Run(schema, ops[..|ops| - 1]), ops[|ops| - 1])
  }

  ghost predicate IsFresh(s: Store) {
    forall id :: id in s.table.rows ==> id < s.nextId
  }

  lemma {:induction false} ReplacedAllSound(schema: Schema, t: Table, edits: seq<Edit>)
    requires IsSound(schema, t)
    ensures IsSound(schema, ReplacedAll(schema, t, edits)) && ReplacedAll(schema, t, edits).rows.Keys == t.rows.Keys
    ensures IsExact(schema, t) && (forall i :: 0 <= i < |edits| ==> KeysOf(schema, edits[i].id, edits[i].row) != {})
      ==> IsExact(schema, ReplacedAll(schema, t, edits))
    decreases |edits|
  {
    if edits != [] && edits[0].id in t.rows && Refusal(schema, t, edits[0].row, Some(edits[0].id)).None? {
      WrittenSound(schema, t, edits[0].id, edits[0].row, Some(edits[0].id));
      if IsExact(schema, t) {
        WrittenExact(schema, t, edits[0].id, edits[0].row);
      }
      ReplacedAllSound(schema, Written(schema, t, edits[0].id, edits[0].row), edits[1..]);
    }
  }

  lemma {:induction false} DeletedAllSound(schema: Schema, t: Table, ids: seq<nat>)
    requires IsSound(schema, t)
    ensures IsSound(schema, DeletedAll(t, ids)) && DeletedAll(t, ids).rows.Keys <= t.rows.Keys
    ensures IsExact(schema, t) ==> IsExact(schema, DeletedAll(t, ids))
    decreases |ids|
  {
    if ids != [] && ids[0] in t.rows {
      DeletedSound(schema, t, ids[0]);
      DeletedAllSound(schema, Deleted(t, ids[0]), ids[1..]);
    }
  }

  /** Every update in the run leaves the row at least one indexed value. */
  ghost predicate KeepsIndexed(schema: Schema, op: Op) {
    op.Replace? ==> forall i :: 0 <= i < |op.edits| ==> KeysOf(schema, op.edits[i].id, op.edits[i].row) != {}
  }

  /**
   * Every run of inserts, update batches and deletes, including refused ones, keeps unique columns unique and the
   * index complete; and exact when updates keep an indexed value.
   */
  lemma {:induction false} RunSound(schema: Schema, ops: seq<Op>)
    ensures var s := Run(schema, ops); IsSound(schema, s.table) && IsFresh(s)
    ensures (forall i :: 0 <= i < |ops| ==> KeepsIndexed(schema, ops[i])) ==> IsExact(schema, Run(schema, ops).table)
  {
    if ops != [] {
      var before, op := Run(schema, ops[..|ops| - 1]), ops[|ops| - 1];
      RunSound(schema, ops[..|ops| - 1]);
      assert (forall i :: 0 <= i < |ops| ==> KeepsIndexed(schema, ops[i])) ==> KeepsIndexed(schema, op);
      match op
      case Insert(data, uuid, now) =>
        var row := ApplyDefaults(schema.columns, data, uuid, now);
        if Refusal(schema, before.table, row, None).None? {
          WrittenSound(schema, before.table, before.nextId, row, None);
          if IsExact(schema, before.table) {
            WrittenExact(schema, before.table, before.nextId, row);
          }
        }
      case Replace(edits) => ReplacedAllSound(schema, before.table, edits);
      case Delete(ids) => DeletedAllSound(schema, before.table, ids);
    }
  }
}
