/** What the operations of a transaction leave in the tables, cell by cell. */
module OperationEffects {
  import opened Wrappers
  import opened Text
  import opened Rows
  import opened Tables
  import opened Journal
  import opened Rollback
  import opened ChangeEvents
  import opened Transactions
  import opened Selects

  ghost predicate KeepsTime(schema: Schema) {
    exists c :: c in schema.columns && c.name == "updated_at" && c.kind == TimestampType
  }

  /**
   * The cells of a patched row: the clock where the schema keeps it, else the patch's where it has one, else as before.
   */
  ghost predicate IsPatched(schema: Schema, before: Row, patch: Row, now: Value, after: Row) {
    forall name {:trigger name in after} {:trigger name in before} {:trigger name in patch} ::
      if name == "updated_at" && KeepsTime(schema) then name in after && after[name] == now
      else if name in patch then name in after && after[name] == patch[name]
      else (name in after <==> name in before) && (name in after ==> after[name] == before[name])
  }

  /** The rows an operation is about: those its filters find that the caller has a right to. */
  ghost function Targets(schema: Schema, t: Table, filters: seq<Filter>, may: Row -> bool): set<nat> {
    set id | id in FoundIds(schema, t, filters) && id in t.rows && may(t.rows[id])
  }

  /** The condition on how many rows, and which ones, the operation is about. */
  ghost predicate IsAgreed(condition: Option<Condition>, targets: set<nat>) {
    condition.Some? ==>
      && (condition.value.expectedCount.Some? ==> |targets| == condition.value.expectedCount.value)
      && (condition.value.ifMatch != [] ==> multiset(condition.value.ifMatch) == multiset(targets))
  }

  /** The rows in `targets` are patched, no others, and nothing happens elsewhere. */
  ghost predicate ArePatched(schema: Schema, before: Db, after: Db, table: string, targets: set<nat>, patch: Row,
                             now: Value)
    requires table in before
  {
    && after.Keys == before.Keys
    && (forall other :: other in before && other != table ==> after[other] == before[other])
    && var rows, rows' := before[table].table.rows, after[table].table.rows;
       && after[table].nextId == before[table].nextId && rows'.Keys == rows.Keys
       && forall id :: id in rows ==>
            if id in targets then IsPatched(schema, rows[id], patch, now, rows'[id]) else rows'[id] == rows[id]
  }

  lemma {:induction false} ReplacedRows(schema: Schema, t: Table, edits: seq<Edit>)
    requires ReplaceError(schema, t, edits) == None
    requires forall i, j :: 0 <= i < j < |edits| ==> edits[i].id != edits[j].id
    ensures var rows := ReplacedAll(schema, t, edits).rows;
      && rows.Keys == t.rows.Keys
      && (forall i :: 0 <= i < |edits| ==> edits[i].id in rows && rows[edits[i].id] == edits[i].row)
      && forall id :: id in t.rows && (forall i :: 0 <= i < |edits| ==> edits[i].id != id) ==> rows[id] == t.rows[id]
    decreases |edits|
  {
    if edits != [] {
      var rest := edits[1..];
      assert edits == [edits[0]] + rest;
      ReplacedRows(schema, Written(schema, t, edits[0].id, edits[0].row), rest);
    }
  }

  lemma {:induction false} EachOnce(olds: seq<Edit>)
    requires forall i, j :: 0 <= i < j < |olds| ==> olds[i].id != olds[j].id
    ensures multiset(IdsOf(olds)) == multiset(set id | id in IdsOf(olds))
    ensures |olds| == |set id | id in IdsOf(olds)|
  {
    if olds != [] {
      var last, rest := olds[|olds| - 1], olds[..|olds| - 1];
      EachOnce(rest);
      assert IdsOf(olds) == IdsOf(rest) + [last.id];
      assert last.id !in IdsOf(rest);
      assert (set id | id in IdsOf(olds)) == (set id | id in IdsOf(rest)) + {last.id};
    }
  }

  lemma TargetsAre(schema: Schema, t: Table, filters: seq<Filter>, policy: Policy, right: Right, table: string,
                   may: Row -> bool, olds: seq<Edit>, condition: Option<Condition>)
    requires AreCurrent(t, olds) && AreTargets(schema, t, filters, policy, right, table, olds)
    requires forall row :: may(row) <==> May(policy, right, table, row)
    ensures (set id | id in IdsOf(olds)) == Targets(schema, t, filters, may)
    ensures IsMet(condition, olds) <==> IsAgreed(condition, Targets(schema, t, filters, may))
  {
    var all := Targets(schema, t, filters, may);
    forall id
      ensures id in IdsOf(olds) <==> id in all
    {
      if id in IdsOf(olds) {
        var i :| 0 <= i < |olds| && olds[i].id == id;
      }
    }
    EachOnce(olds);
    assert (set id | id in IdsOf(olds)) == all;
  }

  lemma OneEntry(schemas: map<string, Schema>, db: Db, e: Entry)
    requires schemas.Keys == db.Keys && IsLegalRun(schemas, db, [e])
    ensures e.table in db && IsLegal(schemas[e.table], db[e.table], e)
    ensures ApplyAll(schemas, db, [e]) == db[e.table := ApplyTo(schemas[e.table], db[e.table], e)]
  {
    assert [e][..0] == [];
  }

  lemma PatchedRow(schema: Schema, row: Row, patch: Row, now: Value)
    ensures IsPatched(schema, row, patch, now, row + WithTimestamp(schema, patch, now))
  {
    assert KeepsTime(schema) <==>
      (exists i ::
         0 <= i < |schema.columns| && schema.columns[i].name == "updated_at"
         && schema.columns[i].kind == TimestampType);
  }

  lemma ChangedMeans(schemas: map<string, Schema>, db: Db, e: Entry, patch: Row, now: Value)
    requires schemas.Keys == db.Keys && IsLegalRun(schemas, db, [e]) && e.Changed?
    requires e.table in schemas && e.patch == WithTimestamp(schemas[e.table], patch, now)
    ensures ArePatched(schemas[e.table], db, ApplyAll(schemas, db, [e]), e.table, (set id | id in IdsOf(e.olds)), patch,
                       now)
  {
    OneEntry(schemas, db, e);
    var schema, t, edits := schemas[e.table], db[e.table].table, Patched(e.olds, e.patch);
    ReplacedRows(schema, t, edits);
    forall id | id in t.rows
      ensures var after := ReplacedAll(schema, t, edits).rows[id];
        if id in IdsOf(e.olds) then IsPatched(schema, t.rows[id], patch, now, after) else after == t.rows[id]
    {
      if id in IdsOf(e.olds) {
        var i :| 0 <= i < |e.olds| && e.olds[i].id == id;
        assert edits[i] == Edit(id, t.rows[id] + e.patch);
        PatchedRow(schema, t.rows[id], patch, now);
      }
    }
  }

  /** What an update that is carried out leaves: its condition was met, and its targets are patched. */
  lemma UpdateMeans(schemas: map<string, Schema>, db: Db, policy: Policy, table: string, patch: Row,
                    condition: Option<Condition>, now: Value, added: seq<Entry>)
    requires schemas.Keys == db.Keys && Does(schemas, db, policy, UpdateRows(table, patch, condition, now), added)
    requires IsLegalRun(schemas, db, added)
    ensures table in db
    ensures
      var filters := if condition.Some? then condition.value.filters else [];
      var targets := Targets(schemas[table], db[table].table, filters, (row: Row) => policy.mayUpdate(table, row));
      && IsAgreed(condition, targets)
      && ArePatched(schemas[table], db, ApplyAll(schemas, db, added), table, targets, patch, now)
  {
    var filters := if condition.Some? then condition.value.filters else [];
    assert added == [added[0]];
    OneEntry(schemas, db, added[0]);
    TargetsAre(schemas[table], db[table].table, filters, policy, ToUpdate, table,
               (row: Row) => policy.mayUpdate(table, row), added[0].olds, condition);
    ChangedMeans(schemas, db, added[0], patch, now);
  }

  // ----- Deletes

  /** The rows in `targets` are gone, no others, and nothing happens elsewhere. */
  ghost predicate AreDeleted(before: Db, after: Db, table: string, targets: set<nat>)
    requires table in before
  {
    && after.Keys == before.Keys
    && (forall other :: other in before && other != table ==> after[other] == before[other])
    && after[table].nextId == before[table].nextId
    && after[table].table.rows == before[table].table.rows - targets
    && forall key :: key in after[table].table.index <==> key in before[table].table.index && key.id !in targets
  }

  lemma {:induction false} DeletedRows(t: Table, ids: seq<nat>)
    requires DeleteError(t, ids) == None
    ensures DeletedAll(t, ids).rows == t.rows - (set id | id in ids)
    ensures forall key :: key in DeletedAll(t, ids).index <==> key in t.index && key.id !in ids
    decreases |ids|
  {
    if ids == [] {
      assert t.rows - {} == t.rows;
    } else {
      DeletedRows(Deleted(t, ids[0]), ids[1..]);
      assert ids == [ids[0]] + ids[1..];
    }
  }

  /** What a delete that is carried out leaves: its condition was met, and its targets are gone. */
  lemma DeleteMeans(schemas: map<string, Schema>, db: Db, policy: Policy, table: string, condition: Option<Condition>,
                    added: seq<Entry>)
    requires schemas.Keys == db.Keys && Does(schemas, db, policy, DeleteRows(table, condition), added)
    requires IsLegalRun(schemas, db, added)
    ensures table in db
    ensures
      var filters := if condition.Some? then condition.value.filters else [];
      var targets := Targets(schemas[table], db[table].table, filters, (row: Row) => policy.mayDelete(table, row));
      IsAgreed(condition, targets) && AreDeleted(db, ApplyAll(schemas, db, added), table, targets)
  {
    var filters := if condition.Some? then condition.value.filters else [];
    assert added == [added[0]];
    OneEntry(schemas, db, added[0]);
    TargetsAre(schemas[table], db[table].table, filters, policy, ToDelete, table,
               (row: Row) => policy.mayDelete(table, row), added[0].olds, condition);
    CurrentDeleted(db[table].table, added[0].olds);
    DeletedRows(db[table].table, IdsOf(added[0].olds));
  }

  // ----- Inserts and upserts, value by value

  /** One row is stored for the value, under the next id. */
  ghost predicate IsNewRow(schemas: map<string, Schema>, before: Db, after: Db, table: string, value: NewRow)
    requires schemas.Keys == before.Keys && table in before
  {
    && after.Keys == before.Keys
    && (forall other :: other in before && other != table ==> after[other] == before[other])
    && HasOneMore(before[table], after[table])
    && IsStored(schemas[table].columns, value.data, after[table].table.rows[before[table].nextId], value.uuid,
                value.now)
  }

  /** The tables after the first values. */
  ghost function Stage(schemas: map<string, Schema>, db: Db, added: seq<Entry>, i: nat): Db
    requires schemas.Keys == db.Keys && i <= |added|
  {
    ApplyAll(schemas, db, added[..i])
  }

  lemma {:induction false} StageIsLegal(schemas: map<string, Schema>, db: Db, added: seq<Entry>, i: nat)
    requires schemas.Keys == db.Keys && IsLegalRun(schemas, db, added) && i <= |added|
    ensures IsLegalRun(schemas, db, added[..i])
    decreases |added|
  {
    if i < |added| {
      assert added[..|added| - 1][..i] == added[..i];
      StageIsLegal(schemas, db, added[..|added| - 1], i);
    } else {
      assert added[..i] == added;
    }
  }

  lemma AloneIsLegal(schemas: map<string, Schema>, db: Db, e: Entry)
    requires schemas.Keys == db.Keys && e.table in schemas && IsLegal(schemas[e.table], db[e.table], e)
    ensures IsLegalRun(schemas, db, [e]) && ApplyAll(schemas, db, [e]) == Apply(schemas, db, e)
  {
    assert [e][..0] == [];
  }

  lemma StageMeans(schemas: map<string, Schema>, db: Db, added: seq<Entry>, i: nat)
    requires schemas.Keys == db.Keys && IsLegalRun(schemas, db, added) && i < |added|
    ensures IsLegalRun(schemas, Stage(schemas, db, added, i), [added[i]])
    ensures Stage(schemas, db, added, i + 1) == ApplyAll(schemas, Stage(schemas, db, added, i), [added[i]])
  {
    StageIsLegal(schemas, db, added, i + 1);
    assert added[..i + 1][..i] == added[..i] && added[..i + 1][i] == added[i];
    AloneIsLegal(schemas, Stage(schemas, db, added, i), added[i]);
  }

  lemma InsertionMeans(schemas: map<string, Schema>, db: Db, table: string, value: NewRow, e: Entry)
    requires schemas.Keys == db.Keys && table in db && IsLegalRun(schemas, db, [e])
    requires IsInsertion(schemas[table], table, value, e)
    ensures IsNewRow(schemas, db, ApplyAll(schemas, db, [e]), table, value)
  {
    OneEntry(schemas, db, e);
    DefaultsStored(schemas[table].columns, value.data, value.uuid, value.now);
  }

  /** An insert that is carried out was allowed, and stores one row for each value, in order. */
  lemma InsertMeans(schemas: map<string, Schema>, db: Db, policy: Policy, table: string, values: seq<NewRow>,
                    added: seq<Entry>)
    requires schemas.Keys == db.Keys && Does(schemas, db, policy, InsertRows(table, values), added)
    requires IsLegalRun(schemas, db, added)
    ensures table in db && |added| == |values| && forall v :: v in values ==> policy.mayInsert(table, v.data)
    ensures Stage(schemas, db, added, 0) == db && Stage(schemas, db, added, |added|) == ApplyAll(schemas, db, added)
    ensures forall i :: 0 <= i < |values| ==>
      IsNewRow(schemas, Stage(schemas, db, added, i), Stage(schemas, db, added, i + 1), table, values[i])
  {
    assert added[..|added|] == added;
    forall i | 0 <= i < |values|
      ensures IsNewRow(schemas, Stage(schemas, db, added, i), Stage(schemas, db, added, i + 1), table, values[i])
    {
      StageMeans(schemas, db, added, i);
      InsertionMeans(schemas, Stage(schemas, db, added, i), table, values[i], added[i]);
    }
  }

  /** The row has the values of the data in the columns an upsert goes by. */
  ghost predicate Coincides(row: Row, columns: seq<string>, data: Row) {
    forall column :: column in columns && column in data ==> HoldsPlain(row, column) && row[column] == data[column]
  }

  /** The index can be trusted with the columns an upsert goes by. */
  ghost predicate IsReliable(schema: Schema, t: Table, columns: seq<string>, data: Row) {
    || (forall column :: column in columns ==> column !in schema.indexes)
    || (AreValid(schema, t) && IsExact(schema, t)
        && forall column :: column in columns && column in data ==>
             CanHold(schema, column, data[column]) && IsScalarColumn(schema, column))
  }

  lemma {:induction false} ConflictsAre(columns: seq<string>, data: Row)
    ensures forall f :: f in ConflictFilters(columns, data) <==>
      f.op.Eq? && f.column in columns && f.column in data && f.value == data[f.column]
  {
    if columns != [] {
      ConflictsAre(columns[1..], data);
      assert columns == [columns[0]] + columns[1..];
    }
  }

  lemma ConflictsFind(schema: Schema, t: Table, columns: seq<string>, data: Row)
    requires IsReliable(schema, t, columns, data)
    ensures FoundIds(schema, t, ConflictFilters(columns, data)) ==
      (set id | id in t.rows && Coincides(t.rows[id], columns, data))
  {
    var filters := ConflictFilters(columns, data);
    ConflictsAre(columns, data);
    if forall column :: column in columns ==> column !in schema.indexes {
      ScannedFrom(schema, filters, 0);
    } else {
      IndexAgreesWithScan(schema, t, filters);
    }
    forall id | id in t.rows
      ensures PassesAll(t.rows[id], filters) <==> Coincides(t.rows[id], columns, data)
    {
      assert PassesAll(t.rows[id], filters) <==> forall f :: f in filters ==> Passes(t.rows[id], f);
      forall column | PassesAll(t.rows[id], filters) && column in columns && column in data
        ensures HoldsPlain(t.rows[id], column) && t.rows[id][column] == data[column]
      {
        assert Filter(column, Eq, data[column]) in filters;
      }
    }
  }

  /** The row is patched, unless the caller has no right to it. */
  ghost predicate IsMerged(schemas: map<string, Schema>, before: Db, after: Db, policy: Policy, table: string,
                           value: NewRow, condition: Option<Condition>, id: nat)
    requires schemas.Keys == before.Keys && table in before && id in before[table].table.rows
  {
    var targets := if policy.mayUpdate(table, before[table].table.rows[id]) then {id} else {};
    && IsAgreed(condition, targets)
    && ArePatched(schemas[table], before, after, table, targets, value.data, value.now)
  }

  /** The value is merged into one row that coincides with it; without such a row it is stored anew. */
  ghost predicate IsUpserted(schemas: map<string, Schema>, before: Db, after: Db, policy: Policy, table: string,
                             value: NewRow, columns: seq<string>, condition: Option<Condition>)
    requires schemas.Keys == before.Keys && table in before
  {
    var rows := before[table].table.rows;
    if forall id :: id in rows ==> !Coincides(rows[id], columns, value.data) then
      IsNewRow(schemas, before, after, table, value)
    else
      exists id :: id in rows && Coincides(rows[id], columns, value.data)
                   && IsMerged(schemas, before, after, policy, table, value, condition, id)
  }

  lemma MergedMeans(schemas: map<string, Schema>, db: Db, policy: Policy, table: string, value: NewRow,
                    condition: Option<Condition>, e: Entry, id: nat)
    requires schemas.Keys == db.Keys && table in db && IsLegalRun(schemas, db, [e]) && id in db[table].table.rows
    requires e.Changed? && e.table == table && e.patch == WithTimestamp(schemas[table], value.data, value.now)
    requires e.olds == (if policy.mayUpdate(table, db[table].table.rows[id]) then [Edit(id, db[table].table.rows[id])]
                        else []) && IsMet(condition, e.olds)
    ensures IsMerged(schemas, db, ApplyAll(schemas, db, [e]), policy, table, value, condition, id)
  {
    var targets := if policy.mayUpdate(table, db[table].table.rows[id]) then {id} else {};
    EachOnce(e.olds);
    assert (set i | i in IdsOf(e.olds)) == targets;
    ChangedMeans(schemas, db, e, value.data, value.now);
  }

  lemma UpsertOneMeans(schemas: map<string, Schema>, db: Db, policy: Policy, table: string, value: NewRow,
                       columns: seq<string>, condition: Option<Condition>, e: Entry)
    requires schemas.Keys == db.Keys && table in db && IsLegalRun(schemas, db, [e])
    requires IsReliable(schemas[table], db[table].table, columns, value.data)
    requires IsUpsertAt(schemas[table], db[table].table, policy, table, value, ConflictFilters(columns, value.data),
                        condition, e)
    ensures IsUpserted(schemas, db, ApplyAll(schemas, db, [e]), policy, table, value, columns, condition)
  {
    var rows := db[table].table.rows;
    var found := FoundIds(schemas[table], db[table].table, ConflictFilters(columns, value.data));
    ConflictsFind(schemas[table], db[table].table, columns, value.data);
    assert forall id :: id in found <==> id in rows && Coincides(rows[id], columns, value.data);
    if found == {} {
      InsertionMeans(schemas, db, table, value, e);
    } else {
      var id :| id in found && id in rows
                && e.olds == if policy.mayUpdate(table, rows[id]) then [Edit(id, rows[id])] else [];
      MergedMeans(schemas, db, policy, table, value, condition, e, id);
    }
  }

  /** What an upsert goes by; `id` when it is given no columns. */
  ghost function ConflictColumns(onConflict: seq<string>): seq<string> {
    if onConflict == [] then ["id"] else onConflict
  }

  lemma UpsertStage(schemas: map<string, Schema>, db: Db, policy: Policy, table: string, values: seq<NewRow>,
                    onConflict: seq<string>, condition: Option<Condition>, added: seq<Entry>, i: nat)
    requires schemas.Keys == db.Keys && IsLegalRun(schemas, db, added) && table in db
    requires AreUpserts(schemas, db, policy, table, values, onConflict, condition, added) && i < |added|
    requires IsReliable(schemas[table], Stage(schemas, db, added, i)[table].table, ConflictColumns(onConflict),
                        values[i].data)
    ensures IsUpserted(schemas, Stage(schemas, db, added, i), Stage(schemas, db, added, i + 1), policy, table,
                       values[i], ConflictColumns(onConflict), condition)
  {
    var stage := Stage(schemas, db, added, i);
    StageMeans(schemas, db, added, i);
    assert IsUpsert(schemas[table], stage[table].table, policy, table, values[i], onConflict, condition, added[i]);
    UpsertOneMeans(schemas, stage, policy, table, values[i], ConflictColumns(onConflict), condition, added[i]);
  }

  /** Each value is upserted into the tables as the ones before it have left them. */
  ghost predicate UpsertsInTurn(schemas: map<string, Schema>, db: Db, policy: Policy, table: string,
                                values: seq<NewRow>, columns: seq<string>, condition: Option<Condition>,
                                added: seq<Entry>)
    requires schemas.Keys == db.Keys && table in db && |added| == |values|
  {
    && Stage(schemas, db, added, 0) == db && Stage(schemas, db, added, |added|) == ApplyAll(schemas, db, added)
    && forall i :: 0 <= i < |values| ==>
         IsUpserted(schemas, Stage(schemas, db, added, i), Stage(schemas, db, added, i + 1), policy, table, values[i],
                    columns, condition)
  }

  /** At every turn the index can be trusted with the columns the upsert goes by. */
  ghost predicate StaysReliable(schemas: map<string, Schema>, db: Db, table: string, values: seq<NewRow>,
                                columns: seq<string>, added: seq<Entry>)
    requires schemas.Keys == db.Keys
  {
    table in db && forall i :: 0 <= i < |values| && i < |added| ==>
      IsReliable(schemas[table], Stage(schemas, db, added, i)[table].table, columns, values[i].data)
  }

  lemma UpsertStages(schemas: map<string, Schema>, db: Db, policy: Policy, table: string, values: seq<NewRow>,
                     onConflict: seq<string>, condition: Option<Condition>, added: seq<Entry>)
    requires schemas.Keys == db.Keys && IsLegalRun(schemas, db, added) && table in db
    requires AreUpserts(schemas, db, policy, table, values, onConflict, condition, added)
    requires StaysReliable(schemas, db, table, values, ConflictColumns(onConflict), added)
    ensures UpsertsInTurn(schemas, db, policy, table, values, ConflictColumns(onConflict), condition, added)
  {
    assert added[..|added|] == added;
    forall i | 0 <= i < |values|
      ensures IsUpserted(schemas, Stage(schemas, db, added, i), Stage(schemas, db, added, i + 1), policy, table,
                         values[i], ConflictColumns(onConflict), condition)
    {
      UpsertStage(schemas, db, policy, table, values, onConflict, condition, added, i);
    }
  }

  /** An upsert that is carried out was allowed, and upserts one value after the other. */
  lemma UpsertMeans(schemas: map<string, Schema>, db: Db, policy: Policy, table: string, values: seq<NewRow>,
                    onConflict: seq<string>, condition: Option<Condition>, added: seq<Entry>)
    requires schemas.Keys == db.Keys && IsLegalRun(schemas, db, added)
    requires Does(schemas, db, policy, UpsertRows(table, values, onConflict, condition), added)
    requires StaysReliable(schemas, db, table, values, ConflictColumns(onConflict), added)
    ensures |added| == |values| && forall v :: v in values ==> policy.mayInsert(table, v.data)
    ensures UpsertsInTurn(schemas, db, policy, table, values, ConflictColumns(onConflict), condition, added)
  {
    UpsertStages(schemas, db, policy, table, values, onConflict, condition, added);
  }

  // ----- Events

  /** The event tells what became of one row. */
  ghost predicate Tells(c: Change, before: map<nat, Row>, after: map<nat, Row>, id: nat) {
    && (c.newRow.Some? || c.oldRow.Some?)
    && (if c.newRow.Some? then c.newRow.value.id == id && id in after && c.newRow.value.row == after[id]
        else id !in after)
    && (c.oldRow.Some? ==> c.oldRow.value.id == id && id in before && c.oldRow.value.row == before[id])
  }

  ghost predicate IsEventOf(changes: seq<Change>, before: map<nat, Row>, after: map<nat, Row>, id: nat) {
    exists c :: c in changes && Tells(c, before, after, id)
  }

  ghost predicate Differs(before: map<nat, Row>, after: map<nat, Row>, id: nat) {
    (id in before) != (id in after) || (id in before && before[id] != after[id])
  }

  lemma EventsCover(olds: seq<Edit>, changes: seq<Change>, before: map<nat, Row>, after: map<nat, Row>)
    requires |changes| == |olds| && forall i :: 0 <= i < |olds| ==> Tells(changes[i], before, after, olds[i].id)
    requires forall id :: Differs(before, after, id) ==> id in IdsOf(olds)
    ensures forall id :: Differs(before, after, id) ==> IsEventOf(changes, before, after, id)
  {
    forall id | Differs(before, after, id)
      ensures IsEventOf(changes, before, after, id)
    {
      var i :| 0 <= i < |olds| && IdsOf(olds)[i] == id;
      assert changes[i] in changes;
    }
  }

  /** Each event of an entry tells of one row of its table, and of every row that has changed there is an event. */
  lemma EventsTell(schemas: map<string, Schema>, db: Db, e: Entry)
    requires schemas.Keys == db.Keys && IsLegalRun(schemas, db, [e])
    ensures var before, after := db[e.table].table.rows, ApplyAll(schemas, db, [e])[e.table].table.rows;
      && (forall c :: c in ChangesOf(e) ==> c.table == e.table && exists id :: Tells(c, before, after, id))
      && forall id :: Differs(before, after, id) ==> IsEventOf(ChangesOf(e), before, after, id)
  {
    OneEntry(schemas, db, e);
    var before, after := db[e.table].table, ApplyAll(schemas, db, [e])[e.table].table;
    match e {
      case Added(_, id, row) =>
        assert Tells(ChangesOf(e)[0], before.rows, after.rows, id);
      case Changed(_, olds, patch) =>
        ReplacedRows(schemas[e.table], before, Patched(olds, patch));
        forall i | 0 <= i < |olds|
          ensures Tells(ChangesOf(e)[i], before.rows, after.rows, olds[i].id)
        {
          assert Patched(olds, patch)[i].id == olds[i].id;
        }
        EventsCover(olds, ChangesOf(e), before.rows, after.rows);
      case Removed(_, olds) =>
        CurrentDeleted(before, olds);
        DeletedRows(before, IdsOf(olds));
        forall i | 0 <= i < |olds|
          ensures Tells(ChangesOf(e)[i], before.rows, after.rows, olds[i].id)
        {
          assert IdsOf(olds)[i] == olds[i].id;
        }
        EventsCover(olds, ChangesOf(e), before.rows, after.rows);
    }
  }

  // ----- Failures

  /** An update or a delete fails for its condition exactly when its targets do not meet it. */
  lemma ConditionFails(schemas: map<string, Schema>, db: Db, policy: Policy, op: Operation, added: seq<Entry>,
                       f: Failure, partial: Partial)
    requires schemas.Keys == db.Keys && Fails(schemas, db, policy, op, added, f, partial) && op.table in db
    requires op.UpdateRows? || op.DeleteRows?
    ensures
      var filters := if op.condition.Some? then op.condition.value.filters else [];
      var may := (row: Row) => if op.UpdateRows? then policy.mayUpdate(op.table, row)
                               else policy.mayDelete(op.table, row);
      f == ConditionFailed <==> !IsAgreed(op.condition, Targets(schemas[op.table], db[op.table].table, filters, may))
  {
    var t, filters := db[op.table].table, if op.condition.Some? then op.condition.value.filters else [];
    var may := (row: Row) => if op.UpdateRows? then policy.mayUpdate(op.table, row)
                             else policy.mayDelete(op.table, row);
    var right := if op.UpdateRows? then ToUpdate else ToDelete;
    var olds :| AreCurrent(t, olds) && AreTargets(schemas[op.table], t, filters, policy, right, op.table, olds)
                && (f == ConditionFailed <==> !IsMet(op.condition, olds));
    TargetsAre(schemas[op.table], t, filters, policy, right, op.table, may, olds, op.condition);
  }

  /** An insert or an upsert is forbidden exactly when the caller may not insert one of its values. */
  lemma ForbiddenWhen(schemas: map<string, Schema>, db: Db, policy: Policy, op: Operation, added: seq<Entry>,
                      f: Failure, partial: Partial)
    requires schemas.Keys == db.Keys && Fails(schemas, db, policy, op, added, f, partial) && op.table in db
    requires op.InsertRows? || op.UpsertRows?
    ensures f == Forbidden <==> exists v :: v in op.values && !policy.mayInsert(op.table, v.data)
  {
  }

  // ----- A transaction of one operation

  lemma OneOperation(schemas: map<string, Schema>, start: Db, policy: Policy, op: Operation, done: seq<seq<Entry>>)
    requires schemas.Keys == start.Keys && AreDone(schemas, start, policy, [op], done) && |done| == 1
    ensures Does(schemas, start, policy, op, Concat(done))
  {
    assert done[..0] == [] && done == [done[0]];
    ConcatOne(done[0]);
  }

  /** A transaction that is one update, when it succeeds, leaves its targets patched and everything else as it was. */
  lemma UpdateExecuted(schemas: map<string, Schema>, start: Db, policy: Policy, table: string, patch: Row,
                       condition: Option<Condition>, now: Value, done: seq<seq<Entry>>, after: Db)
    requires schemas.Keys == start.Keys && |done| == 1
    requires AreDone(schemas, start, policy, [UpdateRows(table, patch, condition, now)], done)
    requires IsLegalRun(schemas, start, Concat(done)) && after == ApplyAll(schemas, start, Concat(done))
    ensures table in start
    ensures
      var filters := if condition.Some? then condition.value.filters else [];
      var targets := Targets(schemas[table], start[table].table, filters, (row: Row) => policy.mayUpdate(table, row));
      IsAgreed(condition, targets) && ArePatched(schemas[table], start, after, table, targets, patch, now)
  {
    OneOperation(schemas, start, policy, UpdateRows(table, patch, condition, now), done);
    UpdateMeans(schemas, start, policy, table, patch, condition, now, Concat(done));
  }
}
