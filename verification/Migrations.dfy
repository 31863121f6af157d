/** Migration operations on values: schemas, rows, the channel maps, and the replay of the schema channel. */
module Migrations {
  import opened Wrappers
  import opened Rows
  import opened Tables

  /** A table's schema with the texts of its row-level policies. */
  datatype Definition = Definition(schema: Schema, policies: Option<seq<string>>)

  datatype SchemaEvent =
    | Saved(table: string, definition: Definition)
    | Removed(table: string)
    | History(migration: string, up: bool)

  /** The channels of the live and of the dropped tables. */
  datatype Project = Project(live: map<string, nat>, archived: map<string, nat>)

  datatype Backfill = FromDefault | Literal(value: Value)

  /** Generated ids, the clock, coercions and the texts of policies come from outside. */
  datatype Operation =
    | CreateTable(table: string, definition: Definition)
    | DropTable(table: string)
    | AddColumn(table: string, added: Column, backfill: Option<Backfill>, uuid: nat -> Value, now: Value)
    | RemoveColumn(table: string, column: string)
    | RenameColumn(table: string, from: string, to: string, rewrite: string -> string)
    | ChangeType(table: string, column: string, kind: ColumnType, coerce: Value -> Option<Value>)
    | AddIndex(table: string, column: string)
    | RemoveIndex(table: string, column: string)
    | ReplacePolicies(table: string, policies: Option<seq<string>>)

  /** `Refused`: the query engine does not let a row be written. `Interrupted`: a call has thrown. */
  datatype MigrationError = Conflict | Missing | Invalid | Refused(reason: Error) | Interrupted

  /** `getSchemas`: the last word on each table. */
  function Replay(events: seq<SchemaEvent>): map<string, Definition> {
    if events == [] then map[]
    else After(Replay(events[..|events| - 1]), events[|events| - 1])
  }

  function After(schemas: map<string, Definition>, event: SchemaEvent): map<string, Definition> {
    match event
    case Saved(table, definition) => schemas[table := definition]
    case Removed(table) => schemas - {table}
    case History(_, _) => schemas
  }

  lemma ReplaySnoc(events: seq<SchemaEvent>, event: SchemaEvent)
    ensures Replay(events + [event]) == After(Replay(events), event)
    ensures Applied(events + [event]) == AppliedAfter(Applied(events), event)
  {
    assert (events + [event])[..|events|] == events;
  }

  /** `computeAppliedMigrations`: the migrations whose last entry went up. */
  function Applied(events: seq<SchemaEvent>): set<string> {
    if events == [] then {} else AppliedAfter(Applied(events[..|events| - 1]), events[|events| - 1])
  }

  function AppliedAfter(applied: set<string>, event: SchemaEvent): set<string> {
    match event
    case History(migration, up) => if up then applied + {migration} else applied - {migration}
    case _ => applied
  }

  predicate HasColumn(columns: seq<Column>, name: string) {
    exists i :: 0 <= i < |columns| && columns[i].name == name
  }

  function Without(names: seq<string>, name: string): seq<string> {
    if names == [] then []
    else (if names[0] == name then [] else [names[0]]) + Without(names[1..], name)
  }

  function WithoutColumn(columns: seq<Column>, name: string): seq<Column> {
    if columns == [] then []
    else (if columns[0].name == name then [] else [columns[0]]) + WithoutColumn(columns[1..], name)
  }

  function Renamed(name: string, from: string, to: string): string {
    if name == from then to else name
  }

  function RenamedAll(names: seq<string>, from: string, to: string): seq<string> {
    seq(|names|, i requires 0 <= i < |names| => Renamed(names[i], from, to))
  }

  function RenamedColumns(columns: seq<Column>, from: string, to: string): seq<Column> {
    seq(|columns|, i requires 0 <= i < |columns| => columns[i].(name := Renamed(columns[i].name, from, to)))
  }

  function Retyped(columns: seq<Column>, name: string, kind: ColumnType): seq<Column> {
    seq(|columns|, i requires 0 <= i < |columns| => if columns[i].name == name then columns[i].(kind := kind)
                                                    else columns[i])
  }

  function RewrittenPolicies(policies: Option<seq<string>>, rewrite: string -> string): Option<seq<string>> {
    if policies == None then None
    else Some(seq(|policies.value|, i requires 0 <= i < |policies.value| => rewrite(policies.value[i])))
  }

  /** What an operation on an existing table makes of its definition. */
  function NextDefinition(op: Operation, d: Definition): Definition {
    match op
    case AddColumn(_, column, _, _, _) => d.(schema := Schema(d.schema.columns + [column], d.schema.indexes))
    case RemoveColumn(_, column) =>
      d.(schema := Schema(WithoutColumn(d.schema.columns, column), Without(d.schema.indexes, column)))
    case RenameColumn(_, from, to, rewrite) =>
      Definition(Schema(RenamedColumns(d.schema.columns, from, to), RenamedAll(d.schema.indexes, from, to)),
                 RewrittenPolicies(d.policies, rewrite))
    case ChangeType(_, column, kind, _) =>
      d.(schema := Schema(Retyped(d.schema.columns, column, kind), d.schema.indexes))
    case AddIndex(_, column) =>
      d.(schema := Schema(d.schema.columns, if column in d.schema.indexes then d.schema.indexes
                                            else d.schema.indexes + [column]))
    case RemoveIndex(_, column) => d.(schema := Schema(d.schema.columns, Without(d.schema.indexes, column)))
    case ReplacePolicies(_, policies) => d.(policies := policies)
    case CreateTable(_, definition) => definition
    case DropTable(_) => d
  }

  lemma {:induction false} WithoutAbsent(names: seq<string>, name: string)
    ensures Without(names, name) == names <==> name !in names
    ensures |Without(names, name)| <= |names|
  {
    if names != [] {
      WithoutAbsent(names[1..], name);
      assert names == [names[0]] + names[1..];
      assert names[0] == name ==> |Without(names, name)| < |names|;
    }
  }

  lemma {:induction false} WithoutAdded(columns: seq<Column>, added: Column)
    requires !HasColumn(columns, added.name)
    ensures WithoutColumn(columns + [added], added.name) == columns
  {
    if columns == [] {
      assert columns + [added] == [added] && [added][1..] == [];
    } else {
      assert (columns + [added])[1..] == columns[1..] + [added];
      assert !HasColumn(columns[1..], added.name) by {
        assert forall i :: 0 <= i < |columns[1..]| ==> columns[1..][i] == columns[i + 1];
      }
      WithoutAdded(columns[1..], added);
      assert columns == [columns[0]] + columns[1..];
    }
  }

  /** Removing a column takes back its addition, unless an index of that name was waiting for it. */
  lemma AddThenRemove(add: Operation, d: Definition)
    requires add.AddColumn? && !HasColumn(d.schema.columns, add.added.name)
    ensures NextDefinition(RemoveColumn(add.table, add.added.name), NextDefinition(add, d)) == d
      <==> add.added.name !in d.schema.indexes
  {
    WithoutAdded(d.schema.columns, add.added);
    WithoutAbsent(d.schema.indexes, add.added.name);
  }

  /** Renaming back takes back a renaming, unless an index of the new name was there before. */
  lemma RenameThenBack(d: Definition, table: string, from: string, to: string, there: string -> string,
                       back: string -> string)
    requires !HasColumn(d.schema.columns, to) && from != to
    requires d.policies.Some? ==>
      forall i :: 0 <= i < |d.policies.value| ==> back(there(d.policies.value[i])) == d.policies.value[i]
    ensures NextDefinition(RenameColumn(table, to, from, back),
                           NextDefinition(RenameColumn(table, from, to, there), d)) == d
      <==> to !in d.schema.indexes
  {
    var columns, indexes := d.schema.columns, d.schema.indexes;
    var columns' := RenamedColumns(RenamedColumns(columns, from, to), to, from);
    var indexes' := RenamedAll(RenamedAll(indexes, from, to), to, from);
    assert columns' == columns;
    if to in indexes {
      var i :| 0 <= i < |indexes| && indexes[i] == to;
      assert indexes'[i] == from;
    } else {
      assert indexes' == indexes;
    }
    assert RewrittenPolicies(RewrittenPolicies(d.policies, there), back) == d.policies by {
      if d.policies.Some? {
        assert RewrittenPolicies(RewrittenPolicies(d.policies, there), back).value == d.policies.value;
      }
    }
  }

  function NextSchemas(schemas: map<string, Definition>, op: Operation): map<string, Definition> {
    if op.CreateTable? then schemas[op.table := op.definition]
    else if op.table !in schemas then schemas
    else if op.DropTable? then schemas - {op.table}
    else schemas[op.table := NextDefinition(op, schemas[op.table])]
  }

  /** Where the table's channel goes; `spare` is the channel a new table would get. */
  function Relocated(p: Project, op: Operation, spare: nat): Project {
    match op
    case CreateTable(table, _) =>
      Project(p.live[table := if table in p.archived then p.archived[table] else spare], p.archived - {table})
    case DropTable(table) =>
      if table in p.live then Project(p.live - {table}, p.archived[table := p.live[table]]) else p
    case _ => p
  }

  predicate HasEncryptedIndex(schema: Schema) {
    exists i :: 0 <= i < |schema.indexes| && IsEncrypted(schema, schema.indexes[i])
  }

  /** Why an operation is refused before it changes anything. `mentions` says whether a policy's text names a column. */
  function Objection(op: Operation, schemas: map<string, Definition>,
                     mentions: (string, string) -> bool): Option<MigrationError>
  {
    if op.CreateTable? then
      if op.table in schemas then Some(Conflict)
      else if HasEncryptedIndex(op.definition.schema) then Some(Invalid)
      else None
    else if op.table !in schemas then Some(Missing)
    else
      var d := schemas[op.table];
      match op
      case AddColumn(_, column, _, _, _) =>
        if HasColumn(d.schema.columns, column.name) then Some(Conflict)
        else if HasEncryptedIndex(NextDefinition(op, d).schema) then Some(Invalid)
        else None
      case RemoveColumn(_, column) =>
        if d.policies.Some? && (exists i :: 0 <= i < |d.policies.value| && mentions(d.policies.value[i], column))
        then Some(Invalid)
        else None
      case RenameColumn(_, _, to, _) => if HasColumn(d.schema.columns, to) then Some(Conflict) else None
      case AddIndex(_, column) =>
        if !HasColumn(d.schema.columns, column) then Some(Missing)
        else if IsEncrypted(d.schema, column) then Some(Invalid)
        else None
      case _ => None
  }

  /** A required column needs a value for the rows there are; noticed only after the snapshot. */
  predicate LacksBackfill(op: Operation) {
    op.AddColumn? && op.added.required && op.backfill == None && op.added.default == None
  }

  /** A column with nothing to fill in leaves the rows alone. */
  predicate RewritesRows(op: Operation) {
    match op
    case AddColumn(_, column, backfill, _, _) => column.required || backfill.Some? || column.default.Some?
    case RemoveColumn(_, _) => true
    case RenameColumn(_, _, _, _) => true
    case ChangeType(_, _, _, _) => true
    case _ => false
  }

  /** `resolveBackfillValue`. */
  function FillValue(column: Column, backfill: Option<Backfill>, uuid: Value, now: Value): Value {
    if backfill.Some? && backfill.value.Literal? then backfill.value.value
    else if column.default.Some? then column.default.value
    else if column.kind == UuidType && column.name == "id" then uuid
    else if column.kind == TimestampType then now
    else Null
  }

  /** What an operation makes of a row; `None` when a value cannot be coerced. */
  function MappedRow(op: Operation, id: nat, row: Row): Option<Row> {
    match op
    case AddColumn(_, column, backfill, uuid, now) =>
      Some(row[column.name := FillValue(column, backfill, uuid(id), now)])
    case RemoveColumn(_, column) => Some(row - {column})
    case RenameColumn(_, from, to, _) => Some(if from in row then row[to := row[from]] - {from} else row)
    case ChangeType(_, column, _, coerce) =>
      if IsNullish(Cell(row, column)) then Some(row)
      else if coerce(row[column]) == None then None
      else Some(row[column := coerce(row[column]).value])
    case _ => Some(row)
  }

  function MappedRows(op: Operation, rows: map<nat, Row>): Option<map<nat, Row>> {
    if exists id | id in rows :: MappedRow(op, id, rows[id]) == None then None
    else Some(map id | id in rows :: MappedRow(op, id, rows[id]).value)
  }

  /** The rows of a table after an operation on it. */
  function RewrittenRows(op: Operation, rows: map<nat, Row>): Option<map<nat, Row>> {
    if RewritesRows(op) then MappedRows(op, rows) else Some(rows)
  }

  /** The index entries a rebuild writes for a table. */
  function TableKeys(schema: Schema, rows: map<nat, Row>): set<IndexKey> {
    set id, column | id in rows && column in schema.indexes && IsRebuilt(schema, rows[id], column)
      :: IndexKey(column, Show(rows[id][column]), id)
  }

  predicate IsRebuilt(schema: Schema, row: Row, column: string) {
    HasColumn(schema.columns, column) && !IsEncrypted(schema, column) && !IsNullish(Cell(row, column))
  }

  /** The operations after which a failed migration cannot find its way back to the schema: they take no snapshot. */
  predicate IsCareful(op: Operation, archived: map<string, nat>) {
    match op
    case AddIndex(_, _) => false
    case RemoveIndex(_, _) => false
    case ReplacePolicies(_, _) => false
    case CreateTable(table, _) => table !in archived
    case _ => true
  }

  function NextAll(schemas: map<string, Definition>, ops: seq<Operation>): map<string, Definition>
    decreases |ops|
  {
    if ops == [] then schemas else NextAll(NextSchemas(schemas, ops[0]), ops[1..])
  }

  /** The rows of a table after all operations of a migration; `None` when a value cannot be coerced. */
  function RowsAfter(ops: seq<Operation>, table: string, rows: map<nat, Row>): Option<map<nat, Row>>
    decreases |ops|
  {
    if ops == [] then Some(rows)
    else if ops[0].table != table then RowsAfter(ops[1..], table, rows)
    else if RewrittenRows(ops[0], rows) == None then None
    else RowsAfter(ops[1..], table, RewrittenRows(ops[0], rows).value)
  }
}
