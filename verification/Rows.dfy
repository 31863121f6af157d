/** Rows, schemas, filters: the pure half of the query engine. */
module Rows {
  import opened Wrappers
  import opened Text

  /** A JSON value. `Obj` stands for an object or array, by its JSON text. */
  datatype Value = Null | Bool(b: bool) | Num(n: int) | Str(s: string) | Obj(json: string)

  /** A row; a missing key is JavaScript's `undefined`. */
  type Row = map<string, Value>

  datatype ColumnType = TextType | NumberType | BooleanType | JsonType | TimestampType | UuidType

  datatype Column = Column(
    name: string, kind: ColumnType, required: bool, unique: bool, default: Option<Value>, encrypted: bool)

  datatype Schema = Schema(columns: seq<Column>, indexes: seq<string>)

  datatype Error = Required(column: string) | WrongType(column: string) | NotUnique(column: string) | NotFound

  function Cell(row: Row, column: string): Option<Value> {
    if column in row then Some(row[column]) else None
  }

  predicate IsNullish(value: Option<Value>) {
    value.None? || value.value.Null?
  }

  /** `===`; two objects are never the same object. */
  predicate StrictEq(a: Option<Value>, b: Option<Value>) {
    a == b && !(a.Some? && a.value.Obj?)
  }

  /** `String(value)`. */
  function Show(value: Value): string {
    match value
    case Null => "null"
    case Bool(b) => if b then "true" else "false"
    case Num(n) => ShowInt(n)
    case Str(s) => s
    case Obj(_) => "[object Object]"
  }

  predicate HasType(value: Value, kind: ColumnType) {
    match kind
    case TextType => value.Str?
    case UuidType => value.Str?
    case TimestampType => value.Str?
    case NumberType => value.Num?
    case BooleanType => value.Bool?
    case JsonType => value.Obj?
  }

  /** Values of one scalar type are told apart by `String`. */
  lemma ShowInjective(a: Value, b: Value, kind: ColumnType)
    requires HasType(a, kind) && HasType(b, kind) && kind != JsonType && Show(a) == Show(b)
    ensures a == b
  {
    match kind
    case NumberType => ShowIntInjective(a.n, b.n);
    case BooleanType => assert |Show(Bool(true))| == 4 && |Show(Bool(false))| == 5;
    case _ =>
  }

  datatype Operator =
    | Eq
    | Neq
    | In(values: seq<Value>)
    | Is
    | Other(test: (Option<Value>, Value) -> bool)

  datatype Filter = Filter(column: string, op: Operator, value: Value)

  predicate Passes(row: Row, filter: Filter) {
    var value := Cell(row, filter.column);
    match filter.op
    case Eq => StrictEq(value, Some(filter.value))
    case Neq => !StrictEq(value, Some(filter.value))
    case In(values) => value.Some? && !value.value.Obj? && value.value in values
    case Is => if filter.value.Null? then IsNullish(value) else StrictEq(value, Some(filter.value))
    case Other(test) => test(value, filter.value)
  }

  predicate All<T>(test: T -> bool, s: seq<T>) {
    forall i :: 0 <= i < |s| ==> test(s[i])
  }

  /** `applyQueryFilters`. */
  predicate PassesAll(row: Row, filters: seq<Filter>) {
    All(filter => Passes(row, filter), filters)
  }

  lemma AllSplit<T>(test: T -> bool, s: seq<T>, k: nat)
    requires k < |s|
    ensures All(test, s) <==> test(s[k]) && All(test, s[..k] + s[k + 1..])
  {
    var rest := s[..k] + s[k + 1..];
    assert forall i :: 0 <= i < |rest| ==> rest[i] == s[if i < k then i else i + 1];
    assert forall i :: 0 <= i < |s| && i != k ==> s[i] == rest[if i < k then i else i - 1];
  }

  /** `validateRow`: the first complaint, in column order. */
  function ValidateRow(columns: seq<Column>, row: Row): Option<Error> {
    if columns == [] then None else
    var column, value := columns[0], Cell(row, columns[0].name);
    if column.required && IsNullish(value) && column.default.None? then Some(Required(column.name))
    else if !IsNullish(value) && !HasType(value.value, column.kind) then Some(WrongType(column.name))
    else ValidateRow(columns[1..], row)
  }

  lemma {:induction false} ValidRowTyped(columns: seq<Column>, row: Row, i: nat)
    requires ValidateRow(columns, row).None? && i < |columns|
    ensures IsNullish(Cell(row, columns[i].name)) || HasType(row[columns[i].name], columns[i].kind)
    ensures columns[i].required && columns[i].default.None? ==> !IsNullish(Cell(row, columns[i].name))
  {
    if i > 0 {
      ValidRowTyped(columns[1..], row, i - 1);
    }
  }

  /** What a column gets when the caller leaves it out. */
  function DefaultFor(column: Column, uuid: Value, now: Value): Option<Value> {
    if column.default.Some? then column.default
    else if column.kind == UuidType && column.name == "id" then Some(uuid)
    else if column.kind == TimestampType && (column.name == "created_at" || column.name == "updated_at") then Some(now)
    else None
  }

  function ApplyDefaults(columns: seq<Column>, row: Row, uuid: Value, now: Value): Row {
    if columns == [] then row else
    var default := DefaultFor(columns[0], uuid, now);
    var next := if columns[0].name !in row && default.Some? then row[columns[0].name := default.value] else row;
    ApplyDefaults(columns[1..], next, uuid, now)
  }

  /** A row that `applyDefaults` has nothing to add to. */
  predicate IsComplete(columns: seq<Column>, row: Row) {
    forall i :: 0 <= i < |columns| && DefaultFor(columns[i], Null, Null).Some? ==> columns[i].name in row
  }

  lemma {:induction false} DefaultsComplete(columns: seq<Column>, row: Row, uuid: Value, now: Value)
    ensures IsComplete(columns, ApplyDefaults(columns, row, uuid, now))
    ensures row.Keys <= ApplyDefaults(columns, row, uuid, now).Keys
    ensures forall k :: k in row ==> ApplyDefaults(columns, row, uuid, now)[k] == row[k]
  {
    if columns != [] {
      var default := DefaultFor(columns[0], uuid, now);
      var next := if columns[0].name !in row && default.Some? then row[columns[0].name := default.value] else row;
      DefaultsComplete(columns[1..], next, uuid, now);
      var rest := ApplyDefaults(columns[1..], next, uuid, now);
      forall i | 0 <= i < |columns| && DefaultFor(columns[i], Null, Null).Some?
        ensures columns[i].name in rest
      {
        if i > 0 {
          assert columns[i] == columns[1..][i - 1];
        }
      }
    }
  }

  /** `applyDefaults` changes a row exactly when a default is missing in it. */
  lemma {:induction false} CompleteUnchanged(columns: seq<Column>, row: Row, uuid: Value, now: Value)
    ensures ApplyDefaults(columns, row, uuid, now) == row <==> IsComplete(columns, row)
  {
    if columns != [] {
      var first, rest := columns[0], columns[1..];
      assert forall i :: 0 <= i < |rest| ==> rest[i] == columns[i + 1];
      if DefaultFor(first, Null, Null).Some? && first.name !in row {
        var next := row[first.name := DefaultFor(first, uuid, now).value];
        DefaultsComplete(rest, next, uuid, now);
        assert first.name in ApplyDefaults(columns, row, uuid, now);
      } else {
        CompleteUnchanged(rest, row, uuid, now);
        assert IsComplete(columns, row) <==> IsComplete(rest, row);
      }
    }
  }
}
