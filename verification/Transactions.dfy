/** The transaction service: operations run one after the other, with rollback actions and change events collected. */
module Transactions {
  import opened Wrappers
  import opened Text
  import opened MessageLog
  import opened Rows
  import opened Tables
  import Engine = QueryEngine
  import opened Journal
  import opened Rollback
  import opened ChangeEvents

  datatype NewRow = NewRow(data: Row, uuid: Value, now: Value)

  datatype Condition = Condition(filters: seq<Filter>, expectedCount: Option<nat>, ifMatch: seq<nat>)

  datatype Operation =
    | InsertRows(table: string, values: seq<NewRow>)
    | UpsertRows(table: string, values: seq<NewRow>, onConflict: seq<string>, condition: Option<Condition>)
    | UpdateRows(table: string, patch: Row, condition: Option<Condition>, now: Value)
    | DeleteRows(table: string, condition: Option<Condition>)

  datatype Failure = NoSchema | Forbidden | ConditionFailed | EngineFailure(error: Error)

  /** What row-level security lets the caller insert, update and delete. */
  datatype Policy = Policy(
    mayInsert: (string, Row) -> bool, mayUpdate: (string, Row) -> bool, mayDelete: (string, Row) -> bool)

  datatype Right = ToUpdate | ToDelete

  predicate May(policy: Policy, right: Right, table: string, row: Row) {
    match right
    case ToUpdate => policy.mayUpdate(table, row)
    case ToDelete => policy.mayDelete(table, row)
  }

  /** `assertCondition`: comparing two sorted lists of ids is comparing them as multisets. */
  predicate IsMet(condition: Option<Condition>, olds: seq<Edit>) {
    condition.Some? ==>
      && (condition.value.expectedCount.Some? ==> |olds| == condition.value.expectedCount.value)
      && (condition.value.ifMatch != [] ==> multiset(IdsOf(olds)) == multiset(condition.value.ifMatch))
  }

  function FiltersOf(condition: Option<Condition>): seq<Filter> {
    if condition.Some? then condition.value.filters else []
  }

  function ConflictFilters(columns: seq<string>, data: Row): seq<Filter> {
    if columns == [] then []
    else
      (if columns[0] in data then [Filter(columns[0], Eq, data[columns[0]])] else [])
      + ConflictFilters(columns[1..], data)
  }

  /** `updateRows` sets `updated_at` along with the patch when the schema has that column. */
  function WithTimestamp(schema: Schema, patch: Row, now: Value): Row {
    if exists i ::
      0 <= i < |schema.columns| && schema.columns[i].name == "updated_at" && schema.columns[i].kind == TimestampType
    then patch["updated_at" := now] else patch
  }

  function UndosOf(journal: seq<Entry>): seq<Undo> {
    seq(|journal|, i requires 0 <= i < |journal| => UndoOf(journal[i]))
  }

  function Allowed(rows: Log<Row>, policy: Policy, right: Right, table: string): Log<Row> {
    if rows == [] then []
    else (if May(policy, right, table, rows[0].body) then [rows[0]] else []) + Allowed(rows[1..], policy, right, table)
  }

  function AsEdits(rows: Log<Row>): (olds: seq<Edit>)
    ensures |olds| == |rows| && forall i :: 0 <= i < |rows| ==> olds[i] == Edit(rows[i].id, rows[i].body)
  {
    seq(|rows|, i requires 0 <= i < |rows| => Edit(rows[i].id, rows[i].body))
  }

  /** Distinct live rows. */
  ghost predicate AreLive(rows: Log<Row>, t: Table) {
    && (forall i, j :: 0 <= i < j < |rows| ==> rows[i].id != rows[j].id)
    && (forall i :: 0 <= i < |rows| ==> rows[i].id in t.rows && rows[i].body == t.rows[rows[i].id])
  }

  lemma InsertedAllStep(schema: Schema, s: Store, olds: seq<Edit>, i: nat, uuid: Value, now: Value)
    requires i < |olds|
    ensures
      var row := ApplyDefaults(schema.columns, olds[i].row, uuid, now);
      InsertedAll(schema, s, olds[i..], uuid, now) ==
        if Refusal(schema, s.table, row, None).Some? then s
        else InsertedAll(schema, Inserted(schema, s, row), olds[i + 1..], uuid, now)
  {
    assert olds[i..][1..] == olds[i + 1..];
  }

  lemma UndoAllStep(schemas: map<string, Schema>, db: Db, journal: seq<Entry>, i: nat, uuid: Value, now: Value)
    requires schemas.Keys == db.Keys && i < |journal| && journal[i].table in db
    ensures
      var t := journal[i].table;
      UndoAll(schemas, db, journal[..i + 1], uuid, now) ==
        UndoAll(schemas, db[t := Undone(schemas[t], db[t], UndoOf(journal[i]), uuid, now)], journal[..i], uuid, now)
  {
    assert journal[..i + 1] == journal[..i] + [journal[i]];
    UndoSnoc(schemas, db, journal[..i], journal[i], uuid, now);
  }

  lemma Overwritten(db: Db, table: string, a: Store, b: Store)
    requires table in db
    ensures db[table := a][table := b] == db[table := b] && db[table := db[table]] == db
  {
  }

  lemma OneKeyChanged(before: Db, now: Db, table: string, here: Store)
    requires now.Keys == before.Keys && table in now && now[table] == here
    requires forall t :: t in now && t != table ==> now[t] == before[t]
    ensures now == before[table := here]
  {
  }

  lemma LiveAreCurrent(rows: Log<Row>, t: Table)
    requires AreLive(rows, t)
    ensures AreCurrent(t, AsEdits(rows))
  {
  }

  lemma {:induction false} AllowedLive(rows: Log<Row>, policy: Policy, right: Right, table: string, t: Table)
    requires AreLive(rows, t)
    ensures AreLive(Allowed(rows, policy, right, table), t)
    ensures forall m :: m in Allowed(rows, policy, right, table) <==> m in rows && May(policy, right, table, m.body)
  {
    if rows != [] {
      var rest := Allowed(rows[1..], policy, right, table);
      AllowedLive(rows[1..], policy, right, table, t);
      assert rows == [rows[0]] + rows[1..];
      forall i | 0 <= i < |rest|
        ensures rest[i].id != rows[0].id
      {
        assert rest[i] in rows[1..];
      }
    }
  }

  // ----- What an operation asks for, as entries of the journal

  /** All the rows the filters find that the caller has the right to, and no others. */
  ghost predicate AreTargets(schema: Schema, t: Table, filters: seq<Filter>, policy: Policy, right: Right,
                             table: string, olds: seq<Edit>)
  {
    && (forall i :: 0 <= i < |olds| ==>
            olds[i].id in FoundIds(schema, t, filters) && May(policy, right, table, olds[i].row))
    && (forall id :: id in FoundIds(schema, t, filters) && id in t.rows && May(policy, right, table, t.rows[id]) ==>
            id in IdsOf(olds))
  }

  /** One row the filters find, unless the caller has no right to it. */
  ghost predicate IsOneTarget(schema: Schema, t: Table, filters: seq<Filter>, policy: Policy, table: string,
                              olds: seq<Edit>)
  {
    exists id :: id in FoundIds(schema, t, filters) && id in t.rows
                 && olds == if May(policy, ToUpdate, table, t.rows[id]) then [Edit(id, t.rows[id])] else []
  }

  lemma ChosenAreTargets(schema: Schema, t: Table, filters: seq<Filter>, policy: Policy, right: Right, table: string,
                         all: Log<Row>, rows: Log<Row>)
    requires Engine.IsAnswer(all, t.rows, FoundIds(schema, t, filters), None)
    requires forall m :: m in rows <==> m in all && May(policy, right, table, m.body)
    ensures AreTargets(schema, t, filters, policy, right, table, AsEdits(rows))
  {
    var olds := AsEdits(rows);
    forall i | 0 <= i < |olds|
      ensures olds[i].id in FoundIds(schema, t, filters) && May(policy, right, table, olds[i].row)
    {
      assert rows[i] in rows;
    }
    forall id | id in FoundIds(schema, t, filters) && id in t.rows && May(policy, right, table, t.rows[id])
      ensures id in IdsOf(olds)
    {
      var k :| 0 <= k < |all| && all[k].id == id;
      assert all[k] in rows;
      var j :| 0 <= j < |rows| && rows[j] == all[k];
      assert IdsOf(olds)[j] == id;
    }
  }

  lemma {:induction false} ApplyAllAppend(schemas: map<string, Schema>, db: Db, a: seq<Entry>, b: seq<Entry>)
    requires schemas.Keys == db.Keys
    ensures ApplyAll(schemas, db, a + b) == ApplyAll(schemas, ApplyAll(schemas, db, a), b)
    decreases |b|
  {
    if b == [] {
      assert a + b == a;
    } else {
      var n := |b| - 1;
      assert (a + b)[..|a + b| - 1] == a + b[..n];
      ApplyAllAppend(schemas, db, a, b[..n]);
    }
  }

  lemma MatchIsTarget(schema: Schema, t: Table, filters: seq<Filter>, policy: Policy, table: string, all: Log<Row>)
    requires Engine.IsAnswer(all, t.rows, FoundIds(schema, t, filters), Some(1)) && all != []
    ensures IsOneTarget(schema, t, filters, policy, table, AsEdits(Allowed(all, policy, ToUpdate, table)))
  {
    var m := all[0];
    assert all[1..] == [];
    var rows := if May(policy, ToUpdate, table, m.body) then [m] else [];
    assert rows + Allowed([], policy, ToUpdate, table) == rows;
    assert Allowed(all, policy, ToUpdate, table) == rows;
    assert AsEdits(rows) == if May(policy, ToUpdate, table, m.body) then [Edit(m.id, m.body)] else [];
    assert m.id in FoundIds(schema, t, filters) && m.id in t.rows && m.body == t.rows[m.id];
  }

  ghost predicate IsInsertion(schema: Schema, table: string, value: NewRow, e: Entry) {
    e.Added? && e.table == table && e.row == RowOf(schema, value)
  }

  /** An upsert inserts when no row matches, and otherwise updates one that does. */
  ghost predicate IsUpsert(schema: Schema, t: Table, policy: Policy, table: string, value: NewRow,
                           onConflict: seq<string>, condition: Option<Condition>, e: Entry)
  {
    IsUpsertAt(schema, t, policy, table, value, MatchFilters(onConflict, value), condition, e)
  }

  /** Without conflict columns of its own an upsert goes by `id`. */
  function MatchFilters(onConflict: seq<string>, value: NewRow): seq<Filter> {
    ConflictFilters(if onConflict == [] then ["id"] else onConflict, value.data)
  }

  ghost predicate IsUpsertAt(schema: Schema, t: Table, policy: Policy, table: string, value: NewRow,
                             filters: seq<Filter>, condition: Option<Condition>, e: Entry)
  {
    if FoundIds(schema, t, filters) == {} then IsInsertion(schema, table, value, e)
    else
      && e.Changed? && e.table == table && e.patch == WithTimestamp(schema, value.data, value.now)
      && IsMet(condition, e.olds) && IsOneTarget(schema, t, filters, policy, table, e.olds)
  }

  ghost predicate AreInsertions(schema: Schema, table: string, values: seq<NewRow>, added: seq<Entry>) {
    |added| == |values| && forall i :: 0 <= i < |added| ==> IsInsertion(schema, table, values[i], added[i])
  }

  /** Each value is upserted into what the ones before it have left. */
  ghost predicate AreUpserts(schemas: map<string, Schema>, db: Db, policy: Policy, table: string, values: seq<NewRow>,
                             onConflict: seq<string>, condition: Option<Condition>, added: seq<Entry>)
    requires schemas.Keys == db.Keys && table in db
  {
    |added| == |values| && forall i :: 0 <= i < |added| ==>
      IsUpsert(schemas[table], ApplyAll(schemas, db, added[..i])[table].table, policy, table, values[i], onConflict,
               condition, added[i])
  }

  /** The entries are what the operation asks of the tables as they are. */
  ghost predicate Does(schemas: map<string, Schema>, db: Db, policy: Policy, op: Operation, added: seq<Entry>)
    requires schemas.Keys == db.Keys
  {
    op.table in db &&
    var schema, t := schemas[op.table], db[op.table].table;
    match op
    case InsertRows(table, values) =>
      !IsForbidden(policy, table, values) && AreInsertions(schema, table, values, added)
    case UpsertRows(table, values, onConflict, condition) =>
      !IsForbidden(policy, table, values)
      && AreUpserts(schemas, db, policy, table, values, onConflict, condition, added)
    case UpdateRows(table, patch, condition, now) =>
      && |added| == 1 && added[0].Changed? && added[0].table == table
      && added[0].patch == WithTimestamp(schema, patch, now)
      && IsMet(condition, added[0].olds)
      && AreTargets(schema, t, FiltersOf(condition), policy, ToUpdate, table, added[0].olds)
    case DeleteRows(table, condition) =>
      && |added| == 1 && added[0].Removed? && added[0].table == table
      && IsMet(condition, added[0].olds)
      && AreTargets(schema, t, FiltersOf(condition), policy, ToDelete, table, added[0].olds)
  }

  // ----- Why an operation fails

  ghost predicate InsertFails(schema: Schema, t: Table, value: NewRow, f: Failure) {
    f.EngineFailure? && Refusal(schema, t, RowOf(schema, value), None) == Some(f.error)
  }

  /** The condition is not met by the targets, or it is and the engine refuses the update. */
  ghost predicate UpdateFails(schema: Schema, t: Table, table: string, condition: Option<Condition>, olds: seq<Edit>,
                              patch: Row, f: Failure, partial: Partial)
  {
    && AreCurrent(t, olds)
    && if IsMet(condition, olds) then
         && f.EngineFailure? && ReplaceError(schema, t, Patched(olds, patch)) == Some(f.error)
         && partial == HalfUpdate(table, olds, patch)
       else f == ConditionFailed && partial == Nothing
  }

  ghost predicate UpsertFails(schema: Schema, t: Table, policy: Policy, table: string, value: NewRow,
                              filters: seq<Filter>, condition: Option<Condition>, f: Failure, partial: Partial)
  {
    if FoundIds(schema, t, filters) == {} then InsertFails(schema, t, value, f) && partial == Nothing
    else exists olds :: IsOneTarget(schema, t, filters, policy, table, olds)
                        && UpdateFails(schema, t, table, condition, olds,
                                       WithTimestamp(schema, value.data, value.now), f, partial)
  }

  /** The row an insertion writes. */
  function RowOf(schema: Schema, value: NewRow): Row {
    ApplyDefaults(schema.columns, value.data, value.uuid, value.now)
  }

  /** A refused insertion changes nothing; an accepted one is a legal entry of the journal. */
  ghost predicate IsInsertOutcome(schema: Schema, s: Store, table: string, value: NewRow,
                                  r: Result<Message<Row>, Error>)
  {
    match r
    case Err(error) =>
      InsertFails(schema, s.table, value, EngineFailure(error)) && Inserted(schema, s, RowOf(schema, value)) == s
    case Ok(m) =>
      var e := Added(table, m.id, m.body);
      IsLegal(schema, s, e) && IsInsertion(schema, table, value, e)
      && ApplyTo(schema, s, e) == Inserted(schema, s, RowOf(schema, value))
  }

  lemma InsertOutcome(schema: Schema, s: Store, table: string, value: NewRow, r: Result<Message<Row>, Error>)
    requires r ==
      Engine.Outcome(Refusal(schema, s.table, RowOf(schema, value), None), Message(s.nextId, RowOf(schema, value)))
    ensures IsInsertOutcome(schema, s, table, value, r)
  {
    DefaultsComplete(schema.columns, value.data, value.uuid, value.now);
  }

  /** The values before the failing one have been inserted. */
  ghost predicate InsertionsFail(schemas: map<string, Schema>, db: Db, table: string, values: seq<NewRow>,
                                 added: seq<Entry>, f: Failure)
    requires schemas.Keys == db.Keys && table in db
  {
    && |added| < |values| && AreInsertions(schemas[table], table, values[..|added|], added)
    && InsertFails(schemas[table], ApplyAll(schemas, db, added)[table].table, values[|added|], f)
  }

  ghost predicate UpsertsFail(schemas: map<string, Schema>, db: Db, policy: Policy, table: string, values: seq<NewRow>,
                              onConflict: seq<string>, condition: Option<Condition>, added: seq<Entry>, f: Failure,
                              partial: Partial)
    requires schemas.Keys == db.Keys && table in db
  {
    && |added| < |values| && AreUpserts(schemas, db, policy, table, values[..|added|], onConflict, condition, added)
    && UpsertFails(schemas[table], ApplyAll(schemas, db, added)[table].table, policy, table, values[|added|],
                   MatchFilters(onConflict, values[|added|]), condition, f, partial)
  }

  predicate IsForbidden(policy: Policy, table: string, values: seq<NewRow>) {
    exists v :: v in values && !policy.mayInsert(table, v.data)
  }

  /** The operation fails for this reason, after the entries given; `partial` is what its failing part has written. */
  ghost predicate Fails(schemas: map<string, Schema>, db: Db, policy: Policy, op: Operation, added: seq<Entry>,
                        f: Failure, partial: Partial)
    requires schemas.Keys == db.Keys
  {
    if op.table !in db then f == NoSchema && added == [] && partial == Nothing
    else
      var schema, t := schemas[op.table], db[op.table].table;
      match op
      case InsertRows(table, values) =>
        && partial == Nothing
        && if IsForbidden(policy, table, values) then f == Forbidden && added == []
           else InsertionsFail(schemas, db, table, values, added, f)
      case UpsertRows(table, values, onConflict, condition) =>
        if IsForbidden(policy, table, values) then f == Forbidden && added == [] && partial == Nothing
        else UpsertsFail(schemas, db, policy, table, values, onConflict, condition, added, f, partial)
      case UpdateRows(table, patch, condition, now) =>
        added == [] && exists olds :: AreTargets(schema, t, FiltersOf(condition), policy, ToUpdate, table, olds)
                                      && UpdateFails(schema, t, table, condition, olds,
                                                     WithTimestamp(schema, patch, now), f, partial)
      case DeleteRows(table, condition) =>
        added == [] && f == ConditionFailed && partial == Nothing
        && exists olds :: AreCurrent(t, olds) && AreTargets(schema, t, FiltersOf(condition), policy, ToDelete, table,
                                                            olds)
                          && !IsMet(condition, olds)
  }

  /** Rows that are there are deleted without an error. */
  lemma {:induction false} CurrentDeleted(t: Table, olds: seq<Edit>)
    requires AreCurrent(t, olds)
    ensures DeleteError(t, IdsOf(olds)).None?
    decreases |olds|
  {
    if olds != [] {
      RestStaysCurrent(t.rows, Deleted(t, olds[0].id).rows, olds);
      CurrentDeleted(Deleted(t, olds[0].id), olds[1..]);
      assert IdsOf(olds)[1..] == IdsOf(olds[1..]);
    }
  }

  datatype Side = OfTables | OfLists

  /** The lists an execution builds up. */
  datatype Progress = Progress(rollbackActions: seq<Undo>, pendingChanges: seq<Change>)

  /** The lists an execution has built up are those of a journal; `partial` is what a failed update had written. */
  ghost predicate IsAccount(schemas: map<string, Schema>, start: Db, journal: seq<Entry>, p: Progress, partial: Partial)
  {
    && schemas.Keys == start.Keys && IsLegalRun(schemas, start, journal)
    && IsFailure(schemas, ApplyAll(schemas, start, journal), partial)
    && p == Progress(UndosOf(journal), AllChanges(journal))
  }

  ghost function Reached(schemas: map<string, Schema>, start: Db, journal: seq<Entry>, partial: Partial): Db
    requires schemas.Keys == start.Keys
  {
    Interrupted(schemas, ApplyAll(schemas, start, journal), partial)
  }

  lemma AccountGrows(schemas: map<string, Schema>, start: Db, journal: seq<Entry>, p: Progress, e: Entry)
    requires IsAccount(schemas, start, journal, p, Nothing) && e.table in schemas
    requires IsLegal(schemas[e.table], Reached(schemas, start, journal, Nothing)[e.table], e)
    ensures IsAccount(schemas, start, journal + [e],
                      Progress(p.rollbackActions + [UndoOf(e)], p.pendingChanges + ChangesOf(e)), Nothing)
    ensures Reached(schemas, start, journal + [e], Nothing) ==
      Apply(schemas, Reached(schemas, start, journal, Nothing), e)
  {
    assert (journal + [e])[..|journal|] == journal;
    assert UndosOf(journal + [e]) == UndosOf(journal) + [UndoOf(e)];
  }

  lemma AccountFails(schemas: map<string, Schema>, start: Db, journal: seq<Entry>, p: Progress, e: Entry)
    requires IsAccount(schemas, start, journal, p, Nothing) && e.table in schemas && e.Changed?
    requires
      var t := Reached(schemas, start, journal, Nothing)[e.table].table;
      AreCurrent(t, e.olds) && ReplaceError(schemas[e.table], t, Patched(e.olds, e.patch)).Some?
    ensures
      var partial := HalfUpdate(e.table, e.olds, e.patch);
      && IsAccount(schemas, start, journal, p, partial)
      && Reached(schemas, start, journal, partial) == Apply(schemas, Reached(schemas, start, journal, Nothing), e)
  {
  }

  lemma {:induction false} JournalTables(schemas: map<string, Schema>, db: Db, journal: seq<Entry>)
    requires schemas.Keys == db.Keys && IsLegalRun(schemas, db, journal)
    ensures forall i :: 0 <= i < |journal| ==> journal[i].table in schemas
  {
    if journal != [] {
      JournalTables(schemas, db, journal[..|journal| - 1]);
    }
  }

  class TransactionService {
    const storages: map<string, Channel<Row>>
    const indexManager: Engine.IndexManager
    const schemas: map<string, Schema>
    const policy: Policy

    constructor (storages: map<string, Channel<Row>>, indexManager: Engine.IndexManager, schemas: map<string, Schema>,
                 policy: Policy)
      requires storages.Keys == schemas.Keys
      requires forall a, b :: a in storages && b in storages && storages[a] == storages[b] ==> a == b
      requires forall t :: t in storages ==> storages[t].Valid()
      ensures Valid() && this.storages == storages && this.indexManager == indexManager && this.schemas == schemas
    {
      this.storages, this.indexManager, this.schemas, this.policy := storages, indexManager, schemas, policy;
    }

    ghost function Channels(): set<object>
    {
      set t | t in storages :: storages[t]
    }

    ghost predicate Valid()
      reads Channels()
    {
      && storages.Keys == schemas.Keys
      && (forall a, b :: a in storages && b in storages && storages[a] == storages[b] ==> a == b)
      && (forall t :: t in storages ==> storages[t].Valid())
    }

    ghost function StoreOf(t: string): Store
      requires t in storages
      reads storages[t], indexManager
    {
      Store(Table(storages[t].View(), indexManager.Of(t)), storages[t].nextId)
    }

    ghost function State(): Db
      reads Channels(), indexManager
    {
      map t | t in storages :: StoreOf(t)
    }

    /** Work on one channel and its share of the index touches one table. */
    twostate lemma OthersUnchanged(table: string)
      requires old(Valid()) && table in storages && storages[table].Valid()
      requires forall t :: t in storages && t != table ==> unchanged(storages[t])
      requires indexManager.OnlyChanged(table)
      ensures Valid() && State() == old(State())[table := StoreOf(table)]
    {
      assert forall t :: t in storages && t != table ==> storages[t].Valid();
      var before, now, here := old(State()), State(), StoreOf(table);
      forall t | t in storages && t != table
        ensures now[t] == before[t]
      {
        assert storages[t].View() == old(storages[t].View()) && indexManager.Of(t) == old(indexManager.Of(t));
      }
      OneKeyChanged(before, now, table, here);
    }

    method InsertOne(table: string, value: NewRow) returns (r: Result<Message<Row>, Error>)
      requires Valid() && table in storages
      modifies Channels(), indexManager
      ensures Valid()
      ensures IsInsertOutcome(schemas[table], old(State())[table], table, value, r)
      ensures State() ==
        old(State())[table := Inserted(schemas[table], old(State())[table], RowOf(schemas[table], value))]
    {
      var engine := new Engine.QueryEngine(storages[table], indexManager, table, schemas[table]);
      ghost var before := StoreOf(table);
      r := engine.Insert(value.data, value.uuid, value.now);
      OthersUnchanged(table);
      InsertOutcome(schemas[table], before, table, value, r);
      assert old(State())[table] == before;
    }

    method UpdateTargets(table: string, olds: seq<Edit>, patch: Row) returns (error: Option<Error>)
      requires Valid() && table in storages
      modifies Channels(), indexManager
      ensures Valid()
      ensures error == ReplaceError(schemas[table], old(State())[table].table, Patched(olds, patch))
      ensures State() ==
        old(State())[table := ApplyTo(schemas[table], old(State())[table], Changed(table, olds, patch))]
    {
      var engine := new Engine.QueryEngine(storages[table], indexManager, table, schemas[table]);
      error := engine.ReplaceRows(Patched(olds, patch));
      OthersUnchanged(table);
      assert old(State())[table] == old(StoreOf(table));
    }

    method DeleteTargets(table: string, olds: seq<Edit>) returns (error: Option<Error>)
      requires Valid() && table in storages
      modifies Channels(), indexManager
      ensures Valid()
      ensures error == DeleteError(old(State())[table].table, IdsOf(olds))
      ensures State() == old(State())[table := ApplyTo(schemas[table], old(State())[table], Removed(table, olds))]
    {
      var engine := new Engine.QueryEngine(storages[table], indexManager, table, schemas[table]);
      error := engine.DeleteRows(IdsOf(olds));
      OthersUnchanged(table);
      assert old(State())[table] == old(StoreOf(table));
    }

    /** The rows an update or a delete is about. */
    method SelectTargets(table: string, filters: seq<Filter>, right: Right) returns (rows: Log<Row>)
      requires Valid() && table in storages
      ensures AreLive(rows, State()[table].table)
      ensures AreTargets(schemas[table], State()[table].table, filters, policy, right, table, AsEdits(rows))
    {
      var engine := new Engine.QueryEngine(storages[table], indexManager, table, schemas[table]);
      var all := engine.Select(filters, None);
      ghost var t := State()[table].table;
      assert t == StoreOf(table).table;
      AllowedLive(all, policy, right, table, t);
      rows := Allowed(all, policy, right, table);
      ChosenAreTargets(schemas[table], t, filters, policy, right, table, all, rows);
    }

    /** The row an upsert is about: found, and perhaps not allowed, or not there. */
    method SelectMatch(table: string, filters: seq<Filter>) returns (rows: Log<Row>, found: bool)
      requires Valid() && table in storages
      ensures AreLive(rows, State()[table].table)
      ensures found <==> FoundIds(schemas[table], State()[table].table, filters) != {}
      ensures found ==> IsOneTarget(schemas[table], State()[table].table, filters, policy, table, AsEdits(rows))
    {
      var engine := new Engine.QueryEngine(storages[table], indexManager, table, schemas[table]);
      var all := engine.Select(filters, Some(1));
      ghost var t := State()[table].table;
      assert t == StoreOf(table).table;
      AllowedLive(all, policy, ToUpdate, table, t);
      rows, found := Allowed(all, policy, ToUpdate, table), |all| > 0;
      if found {
        MatchIsTarget(schemas[table], t, filters, policy, table, all);
      }
    }

    /** The tables are as the journal says, apart from what a failed update wrote; the lists go with the journal. */
    ghost predicate Stopped(start: Db, journal: seq<Entry>, p: Progress, partial: Partial)
      reads Channels(), indexManager
    {
      forall side {:trigger IsStopped(side, start, journal, p, partial)} :: IsStopped(side, start, journal, p, partial)
    }

    ghost predicate IsStopped(side: Side, start: Db, journal: seq<Entry>, p: Progress, partial: Partial)
      reads Channels(), indexManager
    {
      match side
      case OfTables => Valid()
      case OfLists =>
        IsAccount(schemas, start, journal, p, partial) && State() == Reached(schemas, start, journal, partial)
    }

    lemma StoppedMeans(start: Db, journal: seq<Entry>, p: Progress, partial: Partial)
      ensures Stopped(start, journal, p, partial) <==>
        && Valid() && IsAccount(schemas, start, journal, p, partial)
        && State() == Reached(schemas, start, journal, partial)
    {
      assert Stopped(start, journal, p, partial) ==>
        IsStopped(OfTables, start, journal, p, partial) && IsStopped(OfLists, start, journal, p, partial);
    }

    method DoInsert(table: string, value: NewRow, p: Progress, ghost start: Db, ghost journal: seq<Entry>)
      returns (error: Option<Failure>, p': Progress, ghost added: seq<Entry>)
      requires Stopped(start, journal, p, Nothing) && table in storages
      requires schemas.Keys == storages.Keys == start.Keys
      modifies Channels(), indexManager
      ensures Stopped(start, journal + added, p', Nothing)
      ensures error.Some? ==> added == [] && InsertFails(schemas[table], old(State())[table].table, value, error.value)
      ensures error.None? ==> |added| == 1 && IsInsertion(schemas[table], table, value, added[0])
    {
      ghost var db := State();
      StoppedMeans(start, journal, p, Nothing);
      Overwritten(db, table, db[table], db[table]);
      var r := InsertOne(table, value);
      if r.Err? {
        NothingAdded(journal);
        StoppedMeans(start, journal, p, Nothing);
        return Some(EngineFailure(r.error)), p, [];
      }
      var e := Added(table, r.value.id, r.value.body);
      AccountGrows(schemas, start, journal, p, e);
      error, added := None, [e];
      p' := Progress(p.rollbackActions + [UndoOf(e)], p.pendingChanges + ChangesOf(e));
      StoppedMeans(start, journal + added, p', Nothing);
    }

    method DoUpdate(table: string, rows: Log<Row>, patch: Row, p: Progress, ghost start: Db, ghost journal: seq<Entry>)
      returns (error: Option<Failure>, p': Progress, ghost added: seq<Entry>, ghost partial: Partial)
      requires Stopped(start, journal, p, Nothing) && table in storages
      requires schemas.Keys == storages.Keys == start.Keys && AreLive(rows, State()[table].table)
      modifies Channels(), indexManager
      ensures Stopped(start, journal + added, p', partial) && (error.None? ==> partial == Nothing)
      ensures added == if error.None? then [Changed(table, AsEdits(rows), patch)] else []
      ensures error.Some? ==> error.value.EngineFailure? && partial == HalfUpdate(table, AsEdits(rows), patch)
      ensures error.Some? ==>
        ReplaceError(schemas[table], old(State())[table].table,
                     Patched(AsEdits(rows), patch)) == Some(error.value.error)
    {
      var e := Changed(table, AsEdits(rows), patch);
      StoppedMeans(start, journal, p, Nothing);
      LiveAreCurrent(rows, State()[table].table);
      var failed := UpdateTargets(table, e.olds, patch);
      if failed.Some? {
        AccountFails(schemas, start, journal, p, e);
        NothingAdded(journal);
        StoppedMeans(start, journal, p, HalfUpdate(table, e.olds, patch));
        return Some(EngineFailure(failed.value)), p, [], HalfUpdate(table, e.olds, patch);
      }
      AccountGrows(schemas, start, journal, p, e);
      error, added, partial := None, [e], Nothing;
      p' := Progress(p.rollbackActions + [UndoOf(e)], p.pendingChanges + ChangesOf(e));
      StoppedMeans(start, journal + added, p', Nothing);
    }

    method DoDelete(table: string, rows: Log<Row>, p: Progress, ghost start: Db, ghost journal: seq<Entry>)
      returns (p': Progress, ghost added: seq<Entry>)
      requires Stopped(start, journal, p, Nothing) && table in storages
      requires schemas.Keys == storages.Keys == start.Keys && AreLive(rows, State()[table].table)
      modifies Channels(), indexManager
      ensures Stopped(start, journal + added, p', Nothing) && added == [Removed(table, AsEdits(rows))]
    {
      var e := Removed(table, AsEdits(rows));
      StoppedMeans(start, journal, p, Nothing);
      LiveAreCurrent(rows, State()[table].table);
      CurrentDeleted(State()[table].table, e.olds);
      var failed := DeleteTargets(table, e.olds);
      assert failed.None?;
      AccountGrows(schemas, start, journal, p, e);
      added := [e];
      p' := Progress(p.rollbackActions + [UndoOf(e)], p.pendingChanges + ChangesOf(e));
      StoppedMeans(start, journal + added, p', Nothing);
    }

    method DoUpsert(table: string, value: NewRow, filters: seq<Filter>, condition: Option<Condition>, p: Progress,
                    ghost start: Db, ghost journal: seq<Entry>)
      returns (error: Option<Failure>, p': Progress, ghost added: seq<Entry>, ghost partial: Partial)
      requires Stopped(start, journal, p, Nothing) && table in storages
      requires schemas.Keys == storages.Keys == start.Keys
      modifies Channels(), indexManager
      ensures Stopped(start, journal + added, p', partial) && (error.None? ==> partial == Nothing)
      ensures error.Some? ==>
        added == []
        && UpsertFails(schemas[table], old(State())[table].table, policy, table, value, filters, condition,
                       error.value, partial)
      ensures error.None? ==>
        |added| == 1
        && IsUpsertAt(schemas[table], old(State())[table].table, policy, table, value, filters, condition, added[0])
    {
      StoppedMeans(start, journal, p, Nothing);
      var rows, found := SelectMatch(table, filters);
      partial := Nothing;
      if !found {
        error, p', added := DoInsert(table, value, p, start, journal);
        return;
      }
      error, p', added, partial := UpdateMatch(table, value, rows, condition, p, start, journal);
    }

    method UpdateMatch(table: string, value: NewRow, rows: Log<Row>, condition: Option<Condition>, p: Progress,
                       ghost start: Db, ghost journal: seq<Entry>)
      returns (error: Option<Failure>, p': Progress, ghost added: seq<Entry>, ghost partial: Partial)
      requires Stopped(start, journal, p, Nothing) && table in storages
      requires schemas.Keys == storages.Keys == start.Keys && AreLive(rows, State()[table].table)
      modifies Channels(), indexManager
      ensures Stopped(start, journal + added, p', partial) && (error.None? ==> partial == Nothing)
      ensures error.None? ==> IsMet(condition, AsEdits(rows))
      ensures error.Some? ==>
        UpdateFails(schemas[table], old(State())[table].table, table, condition, AsEdits(rows),
                    WithTimestamp(schemas[table], value.data, value.now), error.value, partial)
      ensures added ==
        if error.None? then [Changed(table, AsEdits(rows), WithTimestamp(schemas[table], value.data, value.now))]
        else []
    {
      LiveAreCurrent(rows, State()[table].table);
      if !IsMet(condition, AsEdits(rows)) {
        NothingAdded(journal);
        return Some(ConditionFailed), p, [], Nothing;
      }
      error, p', added, partial := DoUpdate(table, rows, WithTimestamp(schemas[table], value.data, value.now), p, start,
                                            journal);
    }

    /** One turn of the loop over the values to insert. */
    method InsertNext(table: string, values: seq<NewRow>, i: nat, p: Progress, ghost start: Db,
                      ghost journal: seq<Entry>, ghost added: seq<Entry>)
      returns (error: Option<Failure>, p': Progress, ghost added': seq<Entry>)
      requires Stopped(start, journal + added, p, Nothing) && table in storages
      requires schemas.Keys == storages.Keys == start.Keys && i < |values|
      requires AreInsertions(schemas[table], table, values[..i], added)
      modifies Channels(), indexManager
      ensures Stopped(start, journal + added', p', Nothing)
      ensures error.None? ==> AreInsertions(schemas[table], table, values[..i + 1], added')
      ensures error.Some? ==>
        InsertionsFail(schemas, ApplyAll(schemas, start, journal), table, values, added', error.value)
    {
      ghost var more;
      StoppedMeans(start, journal + added, p, Nothing);
      ApplyAllAppend(schemas, start, journal, added);
      error, p', more := DoInsert(table, values[i], p, start, journal + added);
      Regroup(journal, added, more);
      added' := added + more;
      if error.Some? {
        NothingAdded(added);
      } else {
        OneMoreInsertion(schemas[table], table, values, i, added, more);
      }
    }

    method DoInsertRows(table: string, values: seq<NewRow>, p: Progress, ghost start: Db, ghost journal: seq<Entry>)
      returns (error: Option<Failure>, p': Progress, ghost added: seq<Entry>)
      requires Stopped(start, journal, p, Nothing) && table in storages
      requires schemas.Keys == storages.Keys == start.Keys
      modifies Channels(), indexManager
      ensures Stopped(start, journal + added, p', Nothing)
      ensures error.None? ==> AreInsertions(schemas[table], table, values, added)
      ensures error.Some? ==>
        InsertionsFail(schemas, ApplyAll(schemas, start, journal), table, values, added, error.value)
    {
      error, p', added := None, p, [];
      NothingAdded(journal);
      for i := 0 to |values|
        invariant Stopped(start, journal + added, p', Nothing) && error.None?
        invariant AreInsertions(schemas[table], table, values[..i], added)
      {
        error, p', added := InsertNext(table, values, i, p', start, journal, added);
        if error.Some? {
          return;
        }
      }
      assert values[..|values|] == values;
    }

    /** One turn of the loop over the values to upsert. */
    method UpsertNext(table: string, values: seq<NewRow>, i: nat, onConflict: seq<string>, condition: Option<Condition>,
                      p: Progress, ghost start: Db, ghost journal: seq<Entry>, ghost added: seq<Entry>)
      returns (error: Option<Failure>, p': Progress, ghost added': seq<Entry>, ghost partial: Partial)
      requires Stopped(start, journal + added, p, Nothing) && table in storages
      requires schemas.Keys == storages.Keys == start.Keys && i < |values|
      requires AreUpserts(schemas, ApplyAll(schemas, start, journal), policy, table, values[..i], onConflict, condition,
                          added)
      modifies Channels(), indexManager
      ensures Stopped(start, journal + added', p', partial) && (error.None? ==> partial == Nothing)
      ensures error.None? ==>
        AreUpserts(schemas, ApplyAll(schemas, start, journal), policy, table, values[..i + 1], onConflict, condition,
                   added')
      ensures error.Some? ==>
        UpsertsFail(schemas, ApplyAll(schemas, start, journal), policy, table, values, onConflict, condition, added',
                    error.value, partial)
    {
      ghost var more;
      ghost var db := ApplyAll(schemas, start, journal);
      StoppedMeans(start, journal + added, p, Nothing);
      ApplyAllAppend(schemas, start, journal, added);
      error, p', more, partial := DoUpsert(table, values[i], MatchFilters(onConflict, values[i]), condition, p, start,
                                           journal + added);
      Regroup(journal, added, more);
      added' := added + more;
      if error.Some? {
        NothingAdded(added);
      } else {
        OneMoreUpsert(schemas, db, policy, table, values, i, onConflict, condition, added, more);
      }
    }

    method DoUpsertRows(table: string, values: seq<NewRow>, onConflict: seq<string>, condition: Option<Condition>,
                        p: Progress, ghost start: Db, ghost journal: seq<Entry>)
      returns (error: Option<Failure>, p': Progress, ghost added: seq<Entry>, ghost partial: Partial)
      requires Stopped(start, journal, p, Nothing) && table in storages
      requires schemas.Keys == storages.Keys == start.Keys
      modifies Channels(), indexManager
      ensures Stopped(start, journal + added, p', partial) && (error.None? ==> partial == Nothing)
      ensures error.None? ==>
        AreUpserts(schemas, ApplyAll(schemas, start, journal), policy, table, values, onConflict, condition, added)
      ensures error.Some? ==>
        UpsertsFail(schemas, ApplyAll(schemas, start, journal), policy, table, values, onConflict, condition, added,
                    error.value, partial)
    {
      error, p', added, partial := None, p, [], Nothing;
      NothingAdded(journal);
      for i := 0 to |values|
        invariant Stopped(start, journal + added, p', Nothing) && error.None? && partial == Nothing
        invariant AreUpserts(schemas, ApplyAll(schemas, start, journal), policy, table, values[..i], onConflict,
                             condition, added)
      {
        error, p', added, partial := UpsertNext(table, values, i, onConflict, condition, p', start, journal, added);
        if error.Some? {
          return;
        }
      }
      assert values[..|values|] == values;
    }

    /** The one entry of an update, unless it fails. */
    method UpdateMatching(operation: Operation, p: Progress, ghost start: Db, ghost journal: seq<Entry>)
      returns (error: Option<Failure>, p': Progress, ghost added: seq<Entry>, ghost partial: Partial)
      requires Stopped(start, journal, p, Nothing) && operation.UpdateRows? && operation.table in storages
      requires schemas.Keys == storages.Keys == start.Keys
      modifies Channels(), indexManager
      ensures Stopped(start, journal + added, p', partial) && (error.None? ==> partial == Nothing)
      ensures error.None? ==> Does(schemas, old(State()), policy, operation, added)
      ensures error.Some? ==> Fails(schemas, old(State()), policy, operation, added, error.value, partial)
    {
      var table, condition := operation.table, operation.condition;
      StoppedMeans(start, journal, p, Nothing);
      var rows := SelectTargets(table, FiltersOf(condition), ToUpdate);
      LiveAreCurrent(rows, State()[table].table);
      if !IsMet(condition, AsEdits(rows)) {
        NothingAdded(journal);
        return Some(ConditionFailed), p, [], Nothing;
      }
      error, p', added, partial := DoUpdate(table, rows, WithTimestamp(schemas[table], operation.patch, operation.now),
                                            p, start, journal);
    }

    /** The one entry of a delete, unless its condition is not met. */
    method DeleteMatching(operation: Operation, p: Progress, ghost start: Db, ghost journal: seq<Entry>)
      returns (error: Option<Failure>, p': Progress, ghost added: seq<Entry>)
      requires Stopped(start, journal, p, Nothing) && operation.DeleteRows? && operation.table in storages
      requires schemas.Keys == storages.Keys == start.Keys
      modifies Channels(), indexManager
      ensures Stopped(start, journal + added, p', Nothing)
      ensures error.None? ==> Does(schemas, old(State()), policy, operation, added)
      ensures error.Some? ==> Fails(schemas, old(State()), policy, operation, added, error.value, Nothing)
    {
      var table, condition := operation.table, operation.condition;
      StoppedMeans(start, journal, p, Nothing);
      var rows := SelectTargets(table, FiltersOf(condition), ToDelete);
      LiveAreCurrent(rows, State()[table].table);
      if !IsMet(condition, AsEdits(rows)) {
        NothingAdded(journal);
        return Some(ConditionFailed), p, [];
      }
      error := None;
      p', added := DoDelete(table, rows, p, start, journal);
    }

    /** One operation of the list. */
    method DoOperation(operation: Operation, p: Progress, ghost start: Db, ghost journal: seq<Entry>)
      returns (error: Option<Failure>, p': Progress, ghost added: seq<Entry>, ghost partial: Partial)
      requires Stopped(start, journal, p, Nothing)
      requires schemas.Keys == storages.Keys == start.Keys
      modifies Channels(), indexManager
      ensures Stopped(start, journal + added, p', partial) && (error.None? ==> partial == Nothing)
      ensures error.None? ==> Does(schemas, old(State()), policy, operation, added)
      ensures error.Some? ==> Fails(schemas, old(State()), policy, operation, added, error.value, partial)
    {
      partial := Nothing;
      StoppedMeans(start, journal, p, Nothing);
      if operation.table !in schemas {
        NothingAdded(journal);
        return Some(NoSchema), p, [], Nothing;
      }
      if (operation.InsertRows? || operation.UpsertRows?) && IsForbidden(policy, operation.table, operation.values) {
        NothingAdded(journal);
        return Some(Forbidden), p, [], Nothing;
      }
      match operation
      case InsertRows(table, values) =>
        error, p', added := DoInsertRows(table, values, p, start, journal);
      case UpsertRows(table, values, onConflict, condition) =>
        error, p', added, partial := DoUpsertRows(table, values, onConflict, condition, p, start, journal);
      case UpdateRows(_, _, _, _) =>
        error, p', added, partial := UpdateMatching(operation, p, start, journal);
      case DeleteRows(_, _) =>
        error, p', added := DeleteMatching(operation, p, start, journal);
    }

    /** One rollback action; an error inside it is swallowed. */
    method RunUndo(u: Undo, uuid: Value, now: Value)
      requires Valid() && u.table in storages
      modifies Channels(), indexManager
      ensures Valid()
      ensures State() == old(State())[u.table := Undone(schemas[u.table], old(State())[u.table], u, uuid, now)]
    {
      match u
      case DropRow(table, id) => DropRows(table, [id]);
      case PutBack(table, olds) => PutRowsBack(table, olds);
      case Reinsert(table, olds) => ReinsertRows(table, olds, uuid, now);
    }

    method DropRows(table: string, ids: seq<nat>)
      requires Valid() && table in storages
      modifies Channels(), indexManager
      ensures Valid()
      ensures State() ==
        old(State())[table := old(State())[table].(table := DeletedAll(old(State())[table].table, ids))]
    {
      var engine := new Engine.QueryEngine(storages[table], indexManager, table, schemas[table]);
      var error := engine.DeleteRows(ids);
      OthersUnchanged(table);
      assert old(State())[table] == old(StoreOf(table));
    }

    method PutRowsBack(table: string, olds: seq<Edit>)
      requires Valid() && table in storages
      modifies Channels(), indexManager
      ensures Valid()
      ensures State() ==
        var s := old(State())[table];
        old(State())[table := s.(table := ReplacedAll(schemas[table], s.table, olds))]
    {
      var engine := new Engine.QueryEngine(storages[table], indexManager, table, schemas[table]);
      var error := engine.ReplaceRows(olds);
      OthersUnchanged(table);
      assert old(State())[table] == old(StoreOf(table));
    }

    method ReinsertRows(table: string, olds: seq<Edit>, uuid: Value, now: Value)
      requires Valid() && table in storages
      modifies Channels(), indexManager
      ensures Valid()
      ensures State() == old(State())[table := InsertedAll(schemas[table], old(State())[table], olds, uuid, now)]
    {
      ghost var schema, start := schemas[table], State();
      ghost var s := start[table];
      Overwritten(start, table, s, s);
      assert olds[0..] == olds;
      for i := 0 to |olds|
        invariant Valid() && State() == start[table := s]
        invariant InsertedAll(schema, s, olds[i..], uuid, now) == InsertedAll(schema, start[table], olds, uuid, now)
      {
        InsertedAllStep(schema, s, olds, i, uuid, now);
        var r, row := InsertAgain(table, olds[i].row, uuid, now);
        if r.Err? {
          Overwritten(start, table, s, s);
          return;
        }
        Overwritten(start, table, s, Inserted(schema, s, row));
        s := Inserted(schema, s, row);
      }
      assert olds[|olds|..] == [];
    }

    method InsertAgain(table: string, data: Row, uuid: Value, now: Value)
      returns (r: Result<Message<Row>, Error>, ghost row: Row)
      requires Valid() && table in storages
      modifies Channels(), indexManager
      ensures Valid() && row == ApplyDefaults(schemas[table].columns, data, uuid, now)
      ensures State() == old(State())[table := Inserted(schemas[table], old(State())[table], row)]
      ensures r.Err? <==> Refusal(schemas[table], old(State())[table].table, row, None).Some?
    {
      var engine := new Engine.QueryEngine(storages[table], indexManager, table, schemas[table]);
      row := ApplyDefaults(schemas[table].columns, data, uuid, now);
      r := engine.Insert(data, uuid, now);
      OthersUnchanged(table);
      assert old(State())[table] == old(StoreOf(table));
    }

    /** `rollbackActions.reverse()`, each run in turn. */
    method Rollback(actions: seq<Undo>, uuid: Value, now: Value, ghost journal: seq<Entry>)
      requires Valid() && actions == UndosOf(journal)
      requires forall i :: 0 <= i < |journal| ==> journal[i].table in storages
      modifies Channels(), indexManager
      ensures Valid() && State() == UndoAll(schemas, old(State()), journal, uuid, now)
    {
      var i := |actions|;
      ghost var start := State();
      ghost var db := start;
      assert journal[..i] == journal;
      while i > 0
        invariant 0 <= i <= |actions| && Valid() && State() == db && db.Keys == schemas.Keys
        invariant UndoAll(schemas, db, journal[..i], uuid, now) == UndoAll(schemas, start, journal, uuid, now)
      {
        i := i - 1;
        ghost var e := journal[i];
        UndoAllStep(schemas, db, journal, i, uuid, now);
        RunUndo(actions[i], uuid, now);
        db := db[e.table := Undone(schemas[e.table], db[e.table], UndoOf(e), uuid, now)];
      }
    }

    /** Undoes what the lists say. */
    method Abort(p: Progress, uuid: Value, now: Value, ghost start: Db, ghost journal: seq<Entry>,
                 ghost partial: Partial)
      requires Stopped(start, journal, p, partial) && schemas.Keys == start.Keys
      modifies Channels(), indexManager
      ensures Valid() && IsAccount(schemas, start, journal, p, partial)
      ensures State() == UndoAll(schemas, Reached(schemas, start, journal, partial), journal, uuid, now)
    {
      StoppedMeans(start, journal, p, partial);
      JournalTables(schemas, start, journal);
      Rollback(p.rollbackActions, uuid, now, journal);
    }

    /**
     * Runs the operations. On success the tables are what the entries of each operation, in order, make of them, and
     * the events are the journal's; on a failure no event is emitted and the rollback actions have been run in reverse.
     */
    method Execute(operations: seq<Operation>, uuid: Value, now: Value)
      returns (error: Option<Failure>, emitted: seq<Change>, ghost journal: seq<Entry>, ghost partial: Partial,
               ghost done: seq<seq<Entry>>, ghost last: seq<Entry>)
      requires Valid()
      modifies Channels(), indexManager
      ensures Valid()
      ensures error == None ==>
        && AreDone(schemas, old(State()), policy, operations, done) && |done| == |operations| && journal == Concat(done)
        && IsLegalRun(schemas, old(State()), journal)
        && State() == ApplyAll(schemas, old(State()), journal) && emitted == AllChanges(journal)
      ensures error.Some? ==>
        && emitted == []
        && IsAborted(schemas, old(State()), policy, operations, error.value, done, last, partial, uuid, now, State())
    {
      ghost var start := State();
      var p := Progress([], []);
      error, emitted, journal, partial, done, last := None, [], [], Nothing, [], [];
      StoppedMeans(start, journal, p, Nothing);
      for i := 0 to |operations|
        invariant Stopped(start, journal, p, Nothing) && error.None? && partial == Nothing
        invariant AreDone(schemas, start, policy, operations, done) && |done| == i && Concat(done) == journal
      {
        ghost var added;
        ghost var db := State();
        StoppedMeans(start, journal, p, Nothing);
        error, p, added, partial := DoOperation(operations[i], p, start, journal);
        journal := journal + added;
        if error.Some? {
          last := added;
          Abort(p, uuid, now, start, journal, partial);
          return;
        }
        OneMoreDone(schemas, start, policy, operations, done, db, added);
        done := done + [added];
      }
      NothingAdded(journal);
      StoppedMeans(start, journal, p, Nothing);
      emitted := p.pendingChanges;
    }
  }

  /**
   * The transaction stopped at the operation after those in `done`, for the reason given, with `last` and `partial`
   * done of it, and the rollback actions have been run in reverse.
   */
  ghost predicate IsAborted(schemas: map<string, Schema>, start: Db, policy: Policy, operations: seq<Operation>,
                            error: Failure, done: seq<seq<Entry>>, last: seq<Entry>, partial: Partial, uuid: Value,
                            now: Value, after: Db)
  {
    && schemas.Keys == start.Keys && AreDone(schemas, start, policy, operations, done) && |done| < |operations|
    && Fails(schemas, ApplyAll(schemas, start, Concat(done)), policy, operations[|done|], last, error, partial)
    && var journal := Concat(done) + last;
       && IsLegalRun(schemas, start, journal) && IsFailure(schemas, ApplyAll(schemas, start, journal), partial)
       && after ==
            UndoAll(schemas, Interrupted(schemas, ApplyAll(schemas, start, journal), partial), journal, uuid, now)
  }

  /**
   * The entries of the operations carried out: each is what its operation asks of the tables the ones before it left.
   */
  ghost predicate AreDone(schemas: map<string, Schema>, start: Db, policy: Policy, operations: seq<Operation>,
                          done: seq<seq<Entry>>)
    requires schemas.Keys == start.Keys
  {
    |done| <= |operations| && forall i :: 0 <= i < |done| ==>
      Does(schemas, ApplyAll(schemas, start, Concat(done[..i])), policy, operations[i], done[i])
  }

  lemma OneMoreDone(schemas: map<string, Schema>, start: Db, policy: Policy, operations: seq<Operation>,
                    done: seq<seq<Entry>>, db: Db, added: seq<Entry>)
    requires schemas.Keys == start.Keys && AreDone(schemas, start, policy, operations, done) && |done| < |operations|
    requires db == ApplyAll(schemas, start, Concat(done)) && Does(schemas, db, policy, operations[|done|], added)
    ensures AreDone(schemas, start, policy, operations, done + [added])
    ensures Concat(done + [added]) == Concat(done) + added
  {
    var after := done + [added];
    ConcatSnoc(done, added);
    forall i | 0 <= i < |after|
      ensures Does(schemas, ApplyAll(schemas, start, Concat(after[..i])), policy, operations[i], after[i])
    {
      assert after[..i] == done[..i];
      assert i == |done| ==> done[..i] == done;
    }
  }

  lemma NothingAdded(journal: seq<Entry>)
    ensures journal + [] == journal
  {
  }

  lemma Regroup<T>(a: seq<T>, b: seq<T>, c: seq<T>)
    ensures (a + b) + c == a + (b + c)
  {
  }

  lemma OneMoreInsertion(schema: Schema, table: string, values: seq<NewRow>, n: nat, added: seq<Entry>,
                         more: seq<Entry>)
    requires n < |values| && AreInsertions(schema, table, values[..n], added)
    requires |more| == 1 && IsInsertion(schema, table, values[n], more[0])
    ensures AreInsertions(schema, table, values[..n + 1], added + more)
  {
  }

  lemma OneMoreUpsert(schemas: map<string, Schema>, db: Db, policy: Policy, table: string, values: seq<NewRow>, n: nat,
                      onConflict: seq<string>, condition: Option<Condition>, added: seq<Entry>, more: seq<Entry>)
    requires schemas.Keys == db.Keys && table in db && n < |values|
    requires AreUpserts(schemas, db, policy, table, values[..n], onConflict, condition, added)
    requires |more| == 1
    requires IsUpsert(schemas[table], ApplyAll(schemas, db, added)[table].table, policy, table, values[n], onConflict,
                      condition, more[0])
    ensures AreUpserts(schemas, db, policy, table, values[..n + 1], onConflict, condition, added + more)
  {
    var after := added + more;
    forall i | 0 <= i < |after|
      ensures IsUpsert(schemas[table], ApplyAll(schemas, db, after[..i])[table].table, policy, table,
                       values[..n + 1][i], onConflict,
                       condition, after[i])
    {
      assert after[..i] == added[..i];
      assert i == |added| ==> added[..i] == added;
    }
  }
}
