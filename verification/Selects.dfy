/** What the query engine finds, accepts and stores, read off the cells of the rows. */
module Selects {
  import opened Wrappers
  import opened Text
  import opened MessageLog
  import opened Rows
  import opened Tables
  import opened QueryEngine
  import opened Journal

  /** Rows are answered exactly when they satisfy `test`; each once, as they are. */
  ghost predicate AreAnswered(rows: Log<Row>, table: map<nat, Row>, test: Row -> bool) {
    && (forall i, j :: 0 <= i < j < |rows| ==> rows[i].id != rows[j].id)
    && forall id, row :: Message(id, row) in rows <==> id in table && table[id] == row && test(row)
  }

  /** The column is there, and holds something other than an object. */
  ghost predicate HoldsPlain(row: Row, column: string) {
    column in row && !row[column].Obj?
  }

  /** No filter in the list can be answered from the index. */
  ghost predicate AreScanned(schema: Schema, filters: seq<Filter>) {
    forall f :: f in filters && f.op.Eq? ==>
      f.column !in schema.indexes || exists c :: c in schema.columns && c.name == f.column && c.encrypted
  }

  /** The rows answered are those of the ids found. */
  lemma AnswerOf(rows: Log<Row>, table: map<nat, Row>, ids: set<nat>)
    requires IsAnswer(rows, table, ids, None)
    ensures forall id, row :: Message(id, row) in rows <==> id in ids && id in table && table[id] == row
  {
    forall id, row
      ensures Message(id, row) in rows <==> id in ids && id in table && table[id] == row
    {
      if id in ids && id in table && table[id] == row {
        var i :| 0 <= i < |rows| && rows[i].id == id;
        assert rows[i] == Message(id, row);
      }
    }
  }

  lemma AnswerTo(rows: Log<Row>, table: map<nat, Row>, ids: set<nat>, test: Row -> bool)
    requires IsAnswer(rows, table, ids, None)
    requires forall id :: id in ids <==> id in table && test(table[id])
    ensures AreAnswered(rows, table, test)
  {
    AnswerOf(rows, table, ids);
  }

  lemma {:induction false} ScannedFrom(schema: Schema, filters: seq<Filter>, i: nat)
    requires AreScanned(schema, filters) && i <= |filters|
    ensures IndexedFrom(schema, filters, i) == None
    decreases |filters| - i
  {
    if i < |filters| {
      assert filters[i] in filters;
      ScannedFrom(schema, filters, i + 1);
    }
  }

  /** On the scan path the answer is read off one filter. */
  lemma ScannedOne(schema: Schema, t: Table, f: Filter)
    requires AreScanned(schema, [f])
    ensures FoundIds(schema, t, [f]) == ScanIds(t, [f])
    ensures forall id :: id in FoundIds(schema, t, [f]) <==> id in t.rows && Passes(t.rows[id], f)
  {
    ScannedFrom(schema, [f], 0);
    ScanOne(t, f);
  }

  lemma EqFinds(schema: Schema, t: Table, column: string, v: Value, rows: Log<Row>)
    requires AreScanned(schema, [Filter(column, Eq, v)])
    requires IsAnswer(rows, t.rows, FoundIds(schema, t, [Filter(column, Eq, v)]), None)
    ensures AreAnswered(rows, t.rows, (row: Row) => HoldsPlain(row, column) && row[column] == v)
  {
    ScannedOne(schema, t, Filter(column, Eq, v));
    AnswerTo(rows, t.rows, FoundIds(schema, t, [Filter(column, Eq, v)]),
             (row: Row) => HoldsPlain(row, column) && row[column] == v);
  }

  lemma NeqFinds(schema: Schema, t: Table, column: string, v: Value, rows: Log<Row>)
    requires IsAnswer(rows, t.rows, FoundIds(schema, t, [Filter(column, Neq, v)]), None)
    ensures AreAnswered(rows, t.rows, (row: Row) => column !in row || row[column].Obj? || row[column] != v)
  {
    ScannedOne(schema, t, Filter(column, Neq, v));
    AnswerTo(rows, t.rows, FoundIds(schema, t, [Filter(column, Neq, v)]),
             (row: Row) => column !in row || row[column].Obj? || row[column] != v);
  }

  lemma InFinds(schema: Schema, t: Table, column: string, vs: seq<Value>, v: Value, rows: Log<Row>)
    requires IsAnswer(rows, t.rows, FoundIds(schema, t, [Filter(column, In(vs), v)]), None)
    ensures AreAnswered(rows, t.rows, (row: Row) => HoldsPlain(row, column) && row[column] in vs)
  {
    ScannedOne(schema, t, Filter(column, In(vs), v));
    AnswerTo(rows, t.rows, FoundIds(schema, t, [Filter(column, In(vs), v)]),
             (row: Row) => HoldsPlain(row, column) && row[column] in vs);
  }

  lemma IsNullFinds(schema: Schema, t: Table, column: string, rows: Log<Row>)
    requires IsAnswer(rows, t.rows, FoundIds(schema, t, [Filter(column, Is, Null)]), None)
    ensures AreAnswered(rows, t.rows, (row: Row) => column !in row || row[column] == Null)
  {
    ScannedOne(schema, t, Filter(column, Is, Null));
    AnswerTo(rows, t.rows, FoundIds(schema, t, [Filter(column, Is, Null)]),
             (row: Row) => column !in row || row[column] == Null);
  }

  lemma IsFinds(schema: Schema, t: Table, column: string, v: Value, rows: Log<Row>)
    requires v != Null && IsAnswer(rows, t.rows, FoundIds(schema, t, [Filter(column, Is, v)]), None)
    ensures AreAnswered(rows, t.rows, (row: Row) => HoldsPlain(row, column) && row[column] == v)
  {
    ScannedOne(schema, t, Filter(column, Is, v));
    AnswerTo(rows, t.rows, FoundIds(schema, t, [Filter(column, Is, v)]),
             (row: Row) => HoldsPlain(row, column) && row[column] == v);
  }

  lemma OtherFinds(schema: Schema, t: Table, column: string, test: (Option<Value>, Value) -> bool, v: Value,
                   rows: Log<Row>)
    requires IsAnswer(rows, t.rows, FoundIds(schema, t, [Filter(column, Other(test), v)]), None)
    ensures AreAnswered(rows, t.rows, (row: Row) => test(if column in row then Some(row[column]) else None, v))
  {
    ScannedOne(schema, t, Filter(column, Other(test), v));
    AnswerTo(rows, t.rows, FoundIds(schema, t, [Filter(column, Other(test), v)]),
             (row: Row) => test(if column in row then Some(row[column]) else None, v));
  }

  /** Without indexes each filter of a list finds its own rows, as the lemmas above say. */
  ghost predicate PassesEach(schema: Schema, t: Table, filters: seq<Filter>, id: nat) {
    forall f :: f in filters ==> id in FoundIds(Schema(schema.columns, []), t, [f])
  }

  /** The index can be trusted with the filter that is answered from it. */
  ghost predicate IsTrusted(schema: Schema, t: Table, filters: seq<Filter>) {
    && AreValid(schema, t) && IsExact(schema, t)
    && forall f :: f in filters && f.op.Eq? && IsIndexed(schema, f.column) ==> IsTypedFilter(schema, f)
  }

  lemma EachPasses(schema: Schema, t: Table, filters: seq<Filter>, id: nat)
    requires id in t.rows
    ensures PassesEach(schema, t, filters, id) <==> PassesAll(t.rows[id], filters)
  {
    forall f | f in filters
      ensures id in FoundIds(Schema(schema.columns, []), t, [f]) <==> Passes(t.rows[id], f)
    {
      ScannedOne(Schema(schema.columns, []), t, f);
    }
    assert PassesAll(t.rows[id], filters) <==> forall f :: f in filters ==> Passes(t.rows[id], f);
  }

  /** Several filters find the rows that each of them finds alone, on both paths. */
  lemma AllFind(schema: Schema, t: Table, filters: seq<Filter>, rows: Log<Row>)
    requires AreScanned(schema, filters) || IsTrusted(schema, t, filters)
    requires IsAnswer(rows, t.rows, FoundIds(schema, t, filters), None)
    ensures forall id, row :: Message(id, row) in rows <==>
      id in t.rows && t.rows[id] == row && PassesEach(schema, t, filters, id)
  {
    if AreScanned(schema, filters) {
      ScannedFrom(schema, filters, 0);
    } else {
      IndexAgreesWithScan(schema, t, filters);
    }
    AnswerOf(rows, t.rows, FoundIds(schema, t, filters));
    forall id | id in t.rows
      ensures PassesEach(schema, t, filters, id) <==> PassesAll(t.rows[id], filters)
    {
      EachPasses(schema, t, filters, id);
    }
  }

  // ----- The index path

  /** `String(value)`. */
  ghost predicate PrintsAs(v: Value, text: string) {
    match v
    case Null => text == "null"
    case Bool(b) => text == if b then "true" else "false"
    case Num(n) => if n < 0 then text == ['-'] + Numeral(-n) else text == Numeral(n)
    case Str(s) => text == s
    case Obj(_) => text == "[object Object]"
  }

  /** The column has an index that is kept. */
  ghost predicate IsKept(schema: Schema, column: string) {
    column in schema.indexes && forall c :: c in schema.columns && c.name == column ==> !c.encrypted
  }

  lemma {:induction false} FirstIndexed(schema: Schema, pre: seq<Filter>, f: Filter, post: seq<Filter>, i: nat)
    requires AreScanned(schema, pre) && f.op.Eq? && IsIndexed(schema, f.column) && i <= |pre|
    ensures IndexedFrom(schema, pre + ([f] + post), i) == Some(|pre|)
    decreases |pre| - i
  {
    if i < |pre| {
      assert pre[i] in pre && (pre + ([f] + post))[i] == pre[i];
      FirstIndexed(schema, pre, f, post, i + 1);
    }
  }

  lemma KeyIsPrinted(schema: Schema, t: Table, column: string, v: Value, text: string, id: nat)
    requires IsExact(schema, t) && IsKept(schema, column) && PrintsAs(v, text) && id in t.rows
    ensures IndexKey(column, Show(v), id) in t.index <==>
      column in t.rows[id] && t.rows[id][column] != Null && PrintsAs(t.rows[id][column], text)
  {
    var key := IndexKey(column, Show(v), id);
    assert key in t.index <==> key in KeysOf(schema, id, t.rows[id]);
  }

  /**
   * The first `eq` filter on an index that is kept is answered from the index: when that is exact, it finds the rows
   * whose value prints as its own, whatever their types; the other filters go through those rows.
   */
  lemma EqFindsPrinted(schema: Schema, t: Table, pre: seq<Filter>, f: Filter, post: seq<Filter>, text: string,
                       rows: Log<Row>)
    requires IsExact(schema, t) && AreScanned(schema, pre)
    requires f.op.Eq? && IsKept(schema, f.column) && PrintsAs(f.value, text)
    requires IsAnswer(rows, t.rows, FoundIds(schema, t, pre + ([f] + post)), None)
    ensures forall id, row :: Message(id, row) in rows <==>
      && id in t.rows && t.rows[id] == row && f.column in row && row[f.column] != Null
      && PrintsAs(row[f.column], text) && PassesEach(schema, t, pre + post, id)
  {
    var filters := pre + ([f] + post);
    FirstIndexed(schema, pre, f, post, 0);
    assert filters[..|pre|] + filters[|pre| + 1..] == pre + post;
    forall id | id in t.rows
      ensures id in FoundIds(schema, t, filters) <==>
        && f.column in t.rows[id] && t.rows[id][f.column] != Null && PrintsAs(t.rows[id][f.column], text)
        && PassesEach(schema, t, pre + post, id)
    {
      KeyIsPrinted(schema, t, f.column, f.value, text, id);
      EachPasses(schema, t, pre + post, id);
    }
    AnswerOf(rows, t.rows, FoundIds(schema, t, filters));
  }

  // ----- Limits

  lemma IdsOnce(rows: Log<Row>)
    requires forall i, j :: 0 <= i < j < |rows| ==> rows[i].id != rows[j].id
    ensures |(set m | m in rows :: m.id)| == |rows|
  {
    if rows != [] {
      var last, rest := rows[|rows| - 1], rows[..|rows| - 1];
      IdsOnce(rest);
      assert rows == rest + [last];
      assert (set m | m in rows :: m.id) == (set m | m in rest :: m.id) + {last.id};
    }
  }

  lemma FewerIds(a: set<nat>, b: set<nat>)
    requires a <= b
    ensures |a| <= |b|
  {
    if a != {} {
      var x :| x in a;
      FewerIds(a - {x}, b - {x});
    }
  }

  /** With a limit the answer is as much of the whole one as the limit lets through. */
  lemma LimitedAnswer(all: Log<Row>, some: Log<Row>, table: map<nat, Row>, ids: set<nat>, limit: nat)
    requires IsAnswer(all, table, ids, None) && IsAnswer(some, table, ids, Some(limit))
    ensures forall m :: m in some ==> m in all
    ensures |some| == if |all| < limit then |all| else limit
  {
    var a, s := set m | m in all :: m.id, set m | m in some :: m.id;
    forall m | m in some
      ensures m in all
    {
      var i :| 0 <= i < |some| && some[i] == m;
      var j :| 0 <= j < |all| && all[j].id == m.id;
      assert all[j] == m;
    }
    IdsOnce(all);
    IdsOnce(some);
    assert s <= a;
    FewerIds(s, a);
    if |some| < limit {
      forall id | id in a
        ensures id in s
      {
        var m :| m in all && m.id == id;
        var i :| 0 <= i < |some| && some[i].id == id;
        assert some[i] in some;
      }
      assert s == a;
    }
  }

  // ----- What a row needs to be accepted

  /** The type a column's values have. */
  ghost predicate Fits(v: Value, kind: ColumnType) {
    && (kind in {TextType, UuidType, TimestampType} ==> v.Str?)
    && (kind == NumberType ==> v.Num?) && (kind == BooleanType ==> v.Bool?) && (kind == JsonType ==> v.Obj?)
  }

  ghost predicate IsEmpty(row: Row, column: string) {
    column !in row || row[column] == Null
  }

  /** A column complains about an empty cell it requires, or about a value of another type. */
  ghost predicate Complains(column: Column, row: Row, e: Error) {
    if IsEmpty(row, column.name) then column.required && column.default == None && e == Required(column.name)
    else !Fits(row[column.name], column.kind) && e == WrongType(column.name)
  }

  ghost predicate IsContent(column: Column, row: Row) {
    forall e :: !Complains(column, row, e)
  }

  /** A row is refused with the complaint of the first column that has one. */
  lemma {:induction false} FirstComplaint(columns: seq<Column>, row: Row)
    ensures match ValidateRow(columns, row)
      case None => forall c :: c in columns ==> IsContent(c, row)
      case Some(e) => exists i :: 0 <= i < |columns| && Complains(columns[i], row, e)
                                  && forall j :: 0 <= j < i ==> IsContent(columns[j], row)
  {
    if columns != [] {
      FirstComplaint(columns[1..], row);
      assert columns == [columns[0]] + columns[1..];
      var here := if IsEmpty(row, columns[0].name) then Required(columns[0].name) else WrongType(columns[0].name);
      if Complains(columns[0], row, here) {
        assert ValidateRow(columns, row) == Some(here);
      } else {
        assert forall e :: Complains(columns[0], row, e) ==> e == here;
        assert IsContent(columns[0], row);
        if ValidateRow(columns, row).Some? {
          var i :| 0 <= i < |columns[1..]| && Complains(columns[1..][i], row, ValidateRow(columns, row).value)
                   && forall j :: 0 <= j < i ==> IsContent(columns[1..][j], row);
          assert columns[i + 1] == columns[1..][i];
          forall j | 0 <= j < i + 1
            ensures IsContent(columns[j], row)
          {
            assert j > 0 ==> columns[j] == columns[1..][j - 1];
          }
        }
      }
    }
  }

  /** Another row holds the value. */
  ghost predicate IsTaken(t: Table, column: string, v: Value, current: Option<nat>) {
    exists id :: id in t.rows && Some(id) != current && column in t.rows[id] && t.rows[id][column] == v
  }

  /** On a good table a row is written exactly when its columns are content and its unique values are not taken. */
  lemma AcceptedWhen(schema: Schema, s: Store, row: Row, current: Option<nat>)
    requires IsGood(schema, s)
    ensures Refusal(schema, s.table, row, current) == None <==>
      && (forall c :: c in schema.columns ==> IsContent(c, row))
      && forall c :: c in schema.columns && c.unique && !IsEmpty(row, c.name) ==>
           !IsTaken(s.table, c.name, row[c.name], current)
  {
    FirstComplaint(schema.columns, row);
    GoodMeans(schema, s);
    if ValidateRow(schema.columns, row) == None {
      if forall c :: c in schema.columns && c.unique && !IsEmpty(row, c.name) ==>
           !IsTaken(s.table, c.name, row[c.name], current)
      {
        FairIsGood(schema, s);
        NothingIsInTheWay(schema, s.table, row, current);
        Unrefused(schema, s, {}, row, current);
      } else {
        var i :| 0 <= i < |schema.columns| && schema.columns[i].unique && !IsEmpty(row, schema.columns[i].name)
                 && IsTaken(s.table, schema.columns[i].name, row[schema.columns[i].name], current);
        TakenIsRefused(schema, s.table, row, current, i);
      }
    } else {
      var e := ValidateRow(schema.columns, row).value;
      var i :| 0 <= i < |schema.columns| && Complains(schema.columns[i], row, e);
      assert !IsContent(schema.columns[i], row);
    }
  }

  lemma TakenIsRefused(schema: Schema, t: Table, row: Row, current: Option<nat>, i: nat)
    requires IsWellFormed(schema) && IsSound(schema, t) && ValidateRow(schema.columns, row) == None
    requires i < |schema.columns| && schema.columns[i].unique && !IsEmpty(row, schema.columns[i].name)
    requires IsTaken(t, schema.columns[i].name, row[schema.columns[i].name], current)
    ensures Refusal(schema, t, row, current) != None
  {
    var c := schema.columns[i];
    if Refusal(schema, t, row, current) == None {
      NoConflictAt(schema.columns, schema, t, row, current, i);
      ValidRowTyped(schema.columns, row, i);
      var id :| id in t.rows && Some(id) != current && c.name in t.rows[id] && t.rows[id][c.name] == row[c.name];
      HolderIsFound(schema, t, c.name, row[c.name], id);
      assert false;
    }
  }

  lemma NothingIsInTheWay(schema: Schema, t: Table, row: Row, current: Option<nat>)
    requires IsWellFormed(schema) && IsSound(schema, t) && IsExact(schema, t)
    requires ValidateRow(schema.columns, row) == None
    requires forall c :: c in schema.columns && c.unique && !IsEmpty(row, c.name) ==>
      !IsTaken(t, c.name, row[c.name], current)
    ensures IsUnclaimed(schema, t, row, current) && IsFree(schema, t, row, current)
  {
    forall b, i | b in t.rows && Some(b) != current && 0 <= i < |schema.columns| && schema.columns[i].unique
                  && !IsNullish(Cell(row, schema.columns[i].name))
      ensures Cell(t.rows[b], schema.columns[i].name) != Cell(row, schema.columns[i].name)
    {
      assert !IsTaken(t, schema.columns[i].name, row[schema.columns[i].name], current);
    }
    assert forall key :: key in t.index ==> key in KeysOf(schema, key.id, t.rows[key.id]);
  }

  // ----- What an accepted row leaves in the table

  /**
   * What a column puts into a cell the caller leaves out: its default, else the generated id for a uuid column `id`,
   * else the clock for a timestamp column `created_at` or `updated_at`.
   */
  ghost predicate Supplies(column: Column, v: Value, uuid: Value, now: Value) {
    if column.default != None then v == column.default.value
    else if column.name == "id" && column.kind == UuidType then v == uuid
    else if column.name in {"created_at", "updated_at"} && column.kind == TimestampType then v == now
    else false
  }

  ghost predicate SuppliesNothing(column: Column, uuid: Value, now: Value) {
    forall v :: !Supplies(column, v, uuid, now)
  }

  /** The value is what column `i` supplies, the first of that name to supply one. */
  ghost predicate SuppliesFirst(columns: seq<Column>, name: string, v: Value, uuid: Value, now: Value, i: nat) {
    && i < |columns| && columns[i].name == name && Supplies(columns[i], v, uuid, now)
    && forall j :: 0 <= j < i && columns[j].name == name ==> SuppliesNothing(columns[j], uuid, now)
  }

  /** The value is what the first column of that name that supplies one supplies. */
  ghost predicate IsSupplied(columns: seq<Column>, name: string, v: Value, uuid: Value, now: Value) {
    exists i :: SuppliesFirst(columns, name, v, uuid, now, i)
  }

  /** The row stored for the data of a caller. */
  ghost predicate IsStored(columns: seq<Column>, data: Row, stored: Row, uuid: Value, now: Value) {
    && (forall name :: name in data ==> name in stored && stored[name] == data[name])
    && (forall name :: name in stored && name !in data ==> IsSupplied(columns, name, stored[name], uuid, now))
    && (forall c :: c in columns && c.name !in stored ==> SuppliesNothing(c, uuid, now))
  }

  lemma SuppliesDefault(column: Column, uuid: Value, now: Value)
    ensures match DefaultFor(column, uuid, now)
      case Some(v) => Supplies(column, v, uuid, now)
      case None => SuppliesNothing(column, uuid, now)
  {
  }

  lemma {:induction false} DefaultsStored(columns: seq<Column>, data: Row, uuid: Value, now: Value)
    ensures IsStored(columns, data, ApplyDefaults(columns, data, uuid, now), uuid, now)
  {
    if columns != [] {
      var first, rest := columns[0], columns[1..];
      var default := DefaultFor(first, uuid, now);
      SuppliesDefault(first, uuid, now);
      var next := if first.name !in data && default.Some? then data[first.name := default.value] else data;
      DefaultsStored(rest, next, uuid, now);
      assert columns == [first] + rest;
      StoredBefore(first, rest, data, next, ApplyDefaults(columns, data, uuid, now), uuid, now);
    }
  }

  lemma StoredBefore(first: Column, rest: seq<Column>, data: Row, next: Row, stored: Row, uuid: Value, now: Value)
    requires IsStored(rest, next, stored, uuid, now)
    requires forall name :: name in data ==> name in next && next[name] == data[name]
    requires forall name :: name in next && name !in data ==>
      name == first.name && Supplies(first, next[name], uuid, now)
    requires first.name !in next ==> SuppliesNothing(first, uuid, now)
    ensures IsStored([first] + rest, data, stored, uuid, now)
  {
    var columns := [first] + rest;
    forall name | name in stored && name !in data
      ensures IsSupplied(columns, name, stored[name], uuid, now)
    {
      if name in next {
        assert SuppliesFirst(columns, name, stored[name], uuid, now, 0);
      } else {
        SuppliedLater(first, rest, name, stored[name], uuid, now);
      }
    }
    forall c | c in columns && c.name !in stored
      ensures SuppliesNothing(c, uuid, now)
    {
      assert c == first || c in rest;
    }
  }

  lemma SuppliedLater(first: Column, rest: seq<Column>, name: string, v: Value, uuid: Value, now: Value)
    requires IsSupplied(rest, name, v, uuid, now) && (first.name == name ==> SuppliesNothing(first, uuid, now))
    ensures IsSupplied([first] + rest, name, v, uuid, now)
  {
    var columns := [first] + rest;
    var i: nat :| SuppliesFirst(rest, name, v, uuid, now, i);
    forall j | 0 <= j < i + 1 && columns[j].name == name
      ensures SuppliesNothing(columns[j], uuid, now)
    {
      assert j > 0 ==> columns[j] == rest[j - 1];
    }
    assert columns[i + 1] == rest[i];
    assert SuppliesFirst(columns, name, v, uuid, now, i + 1);
  }

  /** The new rows are the old ones and one more, under the next id. */
  ghost predicate HasOneMore(before: Store, after: Store) {
    && after.nextId == before.nextId + 1 && after.table.rows.Keys == before.table.rows.Keys + {before.nextId}
    && forall id :: id in before.table.rows && id != before.nextId ==> after.table.rows[id] == before.table.rows[id]
  }

  /** An insert that is answered has stored one row: the data of the caller, completed. */
  lemma InsertStores(schema: Schema, before: Store, data: Row, uuid: Value, now: Value, after: Store,
                     r: Result<Message<Row>, Error>)
    requires
      var row := ApplyDefaults(schema.columns, data, uuid, now);
      after == Inserted(schema, before, row)
      && r == Outcome(Refusal(schema, before.table, row, None), Message(before.nextId, row))
    ensures r.Err? ==> after == before
    ensures r.Ok? ==>
      && r.value.id == before.nextId && HasOneMore(before, after) && after.table.rows[before.nextId] == r.value.body
      && IsStored(schema.columns, data, r.value.body, uuid, now)
  {
    DefaultsStored(schema.columns, data, uuid, now);
  }

  /** The index of a table is exact when it has an entry for the printed value of every indexed cell, and no others. */
  lemma ExactMeans(schema: Schema, t: Table)
    ensures IsExact(schema, t) <==>
      forall id, column, text {:trigger IndexKey(column, text, id)} :: IndexKey(column, text, id) in t.index <==>
        && id in t.rows && column in schema.indexes
        && (forall c :: c in schema.columns && c.name == column ==> !c.encrypted)
        && !IsEmpty(t.rows[id], column) && PrintsAs(t.rows[id][column], text)
  {
    forall id, column, text {:trigger IndexKey(column, text, id)}
      ensures id in t.rows && IndexKey(column, text, id) in KeysOf(schema, id, t.rows[id]) <==>
        && id in t.rows && column in schema.indexes
        && (forall c :: c in schema.columns && c.name == column ==> !c.encrypted)
        && !IsEmpty(t.rows[id], column) && PrintsAs(t.rows[id][column], text)
    {
    }
    assert forall key: IndexKey :: key == IndexKey(key.column, key.value, key.id);
  }
}
