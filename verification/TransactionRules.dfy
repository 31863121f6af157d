/** Which transactions leave every table as it was when they throw, judged before they run. */
module TransactionRules {
  import opened Wrappers
  import opened Text
  import opened Rows
  import opened Tables
  import opened Journal
  import opened Rollback
  import opened Transactions

  // ----- Conditions on operations

  /** Every valid row has an indexed value. */
  predicate HasKeyColumn(schema: Schema) {
    exists i :: 0 <= i < |schema.columns| && schema.columns[i].required && schema.columns[i].default == None
                && IsIndexed(schema, schema.columns[i].name)
  }

  /** Every row has an indexed value. */
  predicate AreKeyed(schema: Schema, rows: map<nat, Row>) {
    forall id :: id in rows ==> KeysOf(schema, id, rows[id]) != {}
  }

  predicate GivesIndexedValue(schema: Schema, patch: Row) {
    exists column :: column in patch && IsIndexed(schema, column) && !patch[column].Null?
  }

  predicate LeavesIndexedColumns(schema: Schema, patch: Row) {
    forall column :: column in patch ==> !IsIndexed(schema, column)
  }

  /** A row with an indexed value has one after the patch. */
  predicate KeepsPatchedKeyed(schema: Schema, patch: Row) {
    GivesIndexedValue(schema, patch) || LeavesIndexedColumns(schema, patch)
  }

  /** The operation leaves no row of its table without an indexed value, if there was none. */
  predicate KeepsKeyed(schema: Schema, op: Operation) {
    match op
    case InsertRows(_, values) => forall v :: v in values ==> KeysOf(schema, 0, RowOf(schema, v)) != {}
    case UpsertRows(_, values, _, _) =>
      forall v :: v in values ==>
        KeysOf(schema, 0, RowOf(schema, v)) != {} && KeepsPatchedKeyed(schema, WithTimestamp(schema, v.data, v.now))
    case UpdateRows(_, patch, _, now) => KeepsPatchedKeyed(schema, WithTimestamp(schema, patch, now))
    case DeleteRows(_, _) => true
  }

  /** Every row of the table has an indexed value as long as these operations run. */
  predicate StaysKeyed(schema: Schema, rows: map<nat, Row>, operations: seq<Operation>, table: string) {
    HasKeyColumn(schema)
    || (AreKeyed(schema, rows) && forall j :: 0 <= j < |operations| && operations[j].table == table ==>
            KeepsKeyed(schema, operations[j]))
  }

  /** The operation fails before it updates more than one row. */
  predicate LimitsToOne(condition: Option<Condition>) {
    condition.Some? && (condition.value.expectedCount in {Some(0), Some(1)} || |condition.value.ifMatch| == 1)
  }

  /** Nothing but deletions in this table comes before the operation. */
  predicate OnlyDeletesBefore(operations: seq<Operation>, i: nat, table: string)
    requires i <= |operations|
  {
    forall j :: 0 <= j < i && operations[j].table == table ==> operations[j].DeleteRows?
  }

  ghost predicate MissNoDefaults(schema: Schema, rows: map<nat, Row>) {
    forall id :: id in rows ==> IsComplete(schema.columns, rows[id])
  }

  /**
   * What makes an operation safe to undo: an update gives no row its first indexed value, nor a unique value to more
   * than one row; a deletion comes before all writing to its table, whose rows miss no default.
   */
  ghost predicate IsSafe(schema: Schema, rows: map<nat, Row>, operations: seq<Operation>, i: nat)
    requires i < |operations|
  {
    match operations[i]
    case InsertRows(_, _) => true
    case UpsertRows(table, values, _, _) =>
      forall v :: v in values && GivesIndexedValue(schema, WithTimestamp(schema, v.data, v.now)) ==>
        StaysKeyed(schema, rows, operations[..i + 1], table)
    case UpdateRows(table, patch, condition, now) =>
      && (GivesIndexedValue(schema, WithTimestamp(schema, patch, now)) ==>
              StaysKeyed(schema, rows, operations[..i], table))
      && (AssignsUnique(schema, WithTimestamp(schema, patch, now)) ==> LimitsToOne(condition))
    case DeleteRows(table, _) => OnlyDeletesBefore(operations, i, table) && MissNoDefaults(schema, rows)
  }

  ghost predicate AreSafe(schemas: map<string, Schema>, start: Db, operations: seq<Operation>)
    requires schemas.Keys == start.Keys
  {
    forall i :: 0 <= i < |operations| && operations[i].table in schemas ==>
      IsSafe(schemas[operations[i].table], start[operations[i].table].table.rows, operations, i)
  }

  // ----- What the entries of safe operations are like

  /** An entry that leaves no row without an indexed value, if there was none. */
  ghost predicate KeepsEntryKeyed(schema: Schema, e: Entry) {
    match e
    case Added(_, id, row) => KeysOf(schema, id, row) != {}
    case Changed(_, _, patch) => KeepsPatchedKeyed(schema, patch)
    case Removed(_, _) => true
  }

  ghost predicate KeepEntriesKeyed(schema: Schema, journal: seq<Entry>, table: string) {
    forall k :: 0 <= k < |journal| && journal[k].table == table ==> KeepsEntryKeyed(schema, journal[k])
  }

  /** An update that is undone without trouble. */
  ghost predicate IsTameUpdate(schema: Schema, rows: map<nat, Row>, before: seq<Entry>, e: Entry)
    requires e.Changed?
  {
    && (AssignsUnique(schema, e.patch) ==> |e.olds| <= 1)
    && (GivesIndexedValue(schema, e.patch) ==>
          HasKeyColumn(schema) || (AreKeyed(schema, rows) && KeepEntriesKeyed(schema, before, e.table)))
  }

  ghost predicate OnlyRemovals(journal: seq<Entry>, table: string) {
    forall k :: 0 <= k < |journal| && journal[k].table == table ==> journal[k].Removed?
  }

  /** An entry of a safe operation, after the entries before it. */
  ghost predicate IsTame(schemas: map<string, Schema>, start: Db, before: seq<Entry>, e: Entry)
    requires schemas.Keys == start.Keys
  {
    && e.table in schemas
    && match e
       case Added(_, _, _) => true
       case Changed(_, _, _) => IsTameUpdate(schemas[e.table], start[e.table].table.rows, before, e)
       case Removed(_, _) =>
         OnlyRemovals(before, e.table) && MissNoDefaults(schemas[e.table], start[e.table].table.rows)
  }

  ghost predicate AreTame(schemas: map<string, Schema>, start: Db, journal: seq<Entry>)
    requires schemas.Keys == start.Keys
    decreases |journal|
  {
    journal != [] ==>
      AreTame(schemas, start, journal[..|journal| - 1])
      && IsTame(schemas, start, journal[..|journal| - 1], journal[|journal| - 1])
  }

  lemma ValidHasKey(schema: Schema, id: nat, row: Row)
    requires HasKeyColumn(schema) && ValidateRow(schema.columns, row) == None
    ensures KeysOf(schema, id, row) != {}
  {
    var i :| 0 <= i < |schema.columns| && schema.columns[i].required && schema.columns[i].default == None
             && IsIndexed(schema, schema.columns[i].name);
    ValidRowTyped(schema.columns, row, i);
    var column := schema.columns[i].name;
    assert IndexKey(column, Show(row[column]), id) in KeysOf(schema, id, row);
  }

  /** A patch that gives no indexed value gives no row its first one. */
  lemma NoNewKeys(schema: Schema, id: nat, row: Row, patch: Row)
    requires !GivesIndexedValue(schema, patch)
    ensures KeysOf(schema, id, row + patch) <= KeysOf(schema, id, row)
  {
    forall column | column in schema.indexes && IsIndexed(schema, column) && !IsNullish(Cell(row + patch, column))
      ensures Cell(row + patch, column) == Cell(row, column)
    {
    }
  }

  lemma PatchedKeyed(schema: Schema, id: nat, row: Row, patch: Row)
    requires KeepsPatchedKeyed(schema, patch) && KeysOf(schema, id, row) != {}
    ensures KeysOf(schema, id, row + patch) != {}
  {
    if GivesIndexedValue(schema, patch) {
      var column :| column in patch && IsIndexed(schema, column) && !patch[column].Null?;
      assert IndexKey(column, Show((row + patch)[column]), id) in KeysOf(schema, id, row + patch);
    } else {
      var key :| key in KeysOf(schema, id, row);
      assert Cell(row + patch, key.column) == Cell(row, key.column);
      assert key in KeysOf(schema, id, row + patch);
    }
  }

  /** As long as rows are only removed from a table, the others are those of the start. */
  lemma {:induction false} RemovalsLeaveRows(schemas: map<string, Schema>, start: Db, journal: seq<Entry>,
                                             table: string)
    requires schemas.Keys == start.Keys && table in start && OnlyRemovals(journal, table)
    ensures var rows := ApplyAll(schemas, start, journal)[table].table.rows;
      forall id :: id in rows ==> id in start[table].table.rows && rows[id] == start[table].table.rows[id]
    ensures WrittenIn(journal, table) == {}
  {
    if journal != [] {
      var before, e := journal[..|journal| - 1], journal[|journal| - 1];
      RemovalsLeaveRows(schemas, start, before, table);
      if e.table == table {
        DeletedRemain(ApplyAll(schemas, start, before)[table].table, IdsOf(e.olds));
      }
    }
  }

  lemma {:induction false} DeletedRemain(t: Table, ids: seq<nat>)
    ensures forall id :: id in DeletedAll(t, ids).rows ==> id in t.rows && DeletedAll(t, ids).rows[id] == t.rows[id]
    decreases |ids|
  {
    if ids != [] && ids[0] in t.rows {
      DeletedRemain(Deleted(t, ids[0]), ids[1..]);
    }
  }

  /** Rows that all have an indexed value keep one, as long as only such entries are carried out. */
  lemma {:induction false} RunKeyed(schemas: map<string, Schema>, start: Db, journal: seq<Entry>, table: string)
    requires IsGoodDb(schemas, start) && IsLegalRun(schemas, start, journal) && table in start
    requires AreKeyed(schemas[table], start[table].table.rows) && KeepEntriesKeyed(schemas[table], journal, table)
    ensures AreKeyed(schemas[table], ApplyAll(schemas, start, journal)[table].table.rows)
  {
    if journal != [] {
      var before, e := journal[..|journal| - 1], journal[|journal| - 1];
      RunKeyed(schemas, start, before, table);
      if e.table == table {
        RunFair(schemas, start, before);
        EntryKeyed(schemas[table], ApplyAll(schemas, start, before)[table], WrittenIn(before, table), e);
      }
    }
  }

  lemma EntryKeyed(schema: Schema, s: Store, loose: set<nat>, e: Entry)
    requires IsFair(schema, s, loose) && IsLegal(schema, s, e) && AreKeyed(schema, s.table.rows)
    requires KeepsEntryKeyed(schema, e)
    ensures AreKeyed(schema, ApplyTo(schema, s, e).table.rows)
  {
    match e
    case Added(_, id, row) =>
    case Changed(_, olds, patch) =>
      ReplacedRows(schema, s, loose, olds, patch);
      forall id | id in s.table.rows
        ensures KeysOf(schema, id, s.table.rows[id] + patch) != {}
      {
        PatchedKeyed(schema, id, s.table.rows[id], patch);
      }
    case Removed(_, olds) => DeletedRows(schema, s, loose, olds);
  }

  /** A tame update gives no row its first indexed value. */
  lemma TameGainsNoKeys(schemas: map<string, Schema>, start: Db, before: seq<Entry>, e: Entry)
    requires IsGoodDb(schemas, start) && IsLegalRun(schemas, start, before) && e.table in schemas && e.Changed?
    requires IsTameUpdate(schemas[e.table], start[e.table].table.rows, before, e)
    requires IsLegal(schemas[e.table], ApplyAll(schemas, start, before)[e.table], e)
    ensures forall i :: 0 <= i < |e.olds| ==> GainsNoKeys(schemas[e.table], e.olds[i], e.patch)
  {
    var schema, s := schemas[e.table], ApplyAll(schemas, start, before)[e.table];
    RunFair(schemas, start, before);
    BothValid(schema, s, WrittenIn(before, e.table), e.olds);
    if GivesIndexedValue(schema, e.patch) && !HasKeyColumn(schema) {
      RunKeyed(schemas, start, before, e.table);
    }
    forall i | 0 <= i < |e.olds|
      ensures GainsNoKeys(schema, e.olds[i], e.patch)
    {
      if !GivesIndexedValue(schema, e.patch) {
        NoNewKeys(schema, e.olds[i].id, e.olds[i].row, e.patch);
      } else if HasKeyColumn(schema) {
        ValidHasKey(schema, e.olds[i].id, e.olds[i].row);
      }
    }
  }

  /** The journal of tame entries follows the rules. */
  lemma {:induction false} TameFollows(schemas: map<string, Schema>, start: Db, journal: seq<Entry>)
    requires IsGoodDb(schemas, start) && IsLegalRun(schemas, start, journal) && AreTame(schemas, start, journal)
    ensures FollowsRules(schemas, journal)
  {
    if journal != [] {
      var before, e := journal[..|journal| - 1], journal[|journal| - 1];
      TameFollows(schemas, start, before);
      TameEntry(schemas, start, before, e);
    }
  }

  lemma TameEntry(schemas: map<string, Schema>, start: Db, before: seq<Entry>, e: Entry)
    requires IsGoodDb(schemas, start) && IsLegalRun(schemas, start, before) && IsTame(schemas, start, before, e)
    requires IsLegal(schemas[e.table], ApplyAll(schemas, start, before)[e.table], e)
    ensures IsDisciplined(schemas[e.table], WrittenIn(before, e.table), e)
  {
    match e
    case Added(_, _, _) =>
    case Changed(_, _, _) => TameGainsNoKeys(schemas, start, before, e);
    case Removed(table, _) => RemovalsLeaveRows(schemas, start, before, table);
  }

  // ----- From the operations to their entries

  /** An entry of an operation that is safe. */
  ghost predicate IsFitting(schemas: map<string, Schema>, start: Db, operations: seq<Operation>, i: nat, e: Entry)
    requires schemas.Keys == start.Keys && i < |operations|
  {
    var op := operations[i];
    && e.table == op.table && e.table in schemas
    && (e.Removed? <==> op.DeleteRows?)
    && (KeepsKeyed(schemas[e.table], op) ==> KeepsEntryKeyed(schemas[e.table], e))
    && (e.Changed? ==>
          && (AssignsUnique(schemas[e.table], e.patch) ==> |e.olds| <= 1)
          && (GivesIndexedValue(schemas[e.table], e.patch) ==>
                  StaysKeyed(schemas[e.table], start[e.table].table.rows, operations[..i + 1], e.table)))
  }

  ghost predicate AreFitting(schemas: map<string, Schema>, start: Db, operations: seq<Operation>, i: nat,
                             added: seq<Entry>)
    requires schemas.Keys == start.Keys && i < |operations|
  {
    forall k :: 0 <= k < |added| ==> IsFitting(schemas, start, operations, i, added[k])
  }

  lemma InsertionFits(schema: Schema, op: Operation, table: string, value: NewRow, e: Entry)
    requires IsInsertion(schema, table, value, e) && (op.InsertRows? || op.UpsertRows?) && value in op.values
    ensures KeepsKeyed(schema, op) ==> KeepsEntryKeyed(schema, e)
  {
    if KeepsKeyed(schema, op) {
      var key :| key in KeysOf(schema, 0, RowOf(schema, value));
      assert IndexKey(key.column, key.value, e.id) in KeysOf(schema, e.id, e.row);
    }
  }

  lemma UpsertFits(schemas: map<string, Schema>, start: Db, t: Table, policy: Policy, operations: seq<Operation>,
                   i: nat, value: NewRow, filters: seq<Filter>, e: Entry)
    requires schemas.Keys == start.Keys && i < |operations| && operations[i].UpsertRows?
    requires operations[i].table in schemas
    requires IsSafe(schemas[operations[i].table], start[operations[i].table].table.rows, operations, i)
    requires value in operations[i].values
    requires IsUpsertAt(schemas[operations[i].table], t, policy, operations[i].table, value, filters,
                        operations[i].condition, e)
    ensures IsFitting(schemas, start, operations, i, e)
  {
    var op := operations[i];
    if e.Added? {
      InsertionFits(schemas[op.table], op, op.table, value, e);
    }
  }

  lemma UpsertsFit(schemas: map<string, Schema>, start: Db, db: Db, policy: Policy, operations: seq<Operation>, i: nat,
                   values: seq<NewRow>, added: seq<Entry>)
    requires schemas.Keys == start.Keys == db.Keys && i < |operations| && operations[i].UpsertRows?
    requires operations[i].table in schemas
    requires IsSafe(schemas[operations[i].table], start[operations[i].table].table.rows, operations, i)
    requires forall v :: v in values ==> v in operations[i].values
    requires
      var op := operations[i]; AreUpserts(schemas, db, policy, op.table, values, op.onConflict, op.condition, added)
    ensures AreFitting(schemas, start, operations, i, added)
  {
    var op := operations[i];
    forall k | 0 <= k < |added|
      ensures IsFitting(schemas, start, operations, i, added[k])
    {
      UpsertFits(schemas, start, ApplyAll(schemas, db, added[..k])[op.table].table, policy, operations, i, values[k],
                 MatchFilters(op.onConflict, values[k]), added[k]);
    }
  }

  lemma InsertsFit(schemas: map<string, Schema>, start: Db, operations: seq<Operation>, i: nat, values: seq<NewRow>,
                   added: seq<Entry>)
    requires schemas.Keys == start.Keys && i < |operations| && operations[i].InsertRows?
    requires operations[i].table in schemas
    requires forall v :: v in values ==> v in operations[i].values
    requires AreInsertions(schemas[operations[i].table], operations[i].table, values, added)
    ensures AreFitting(schemas, start, operations, i, added)
  {
    var op := operations[i];
    forall k | 0 <= k < |added|
      ensures IsFitting(schemas, start, operations, i, added[k])
    {
      InsertionFits(schemas[op.table], op, op.table, values[k], added[k]);
    }
  }

  lemma MetLimit(condition: Option<Condition>, olds: seq<Edit>)
    requires LimitsToOne(condition) && IsMet(condition, olds)
    ensures |olds| <= 1
  {
    if condition.value.expectedCount !in {Some(0), Some(1)} {
      assert |multiset(IdsOf(olds))| == |multiset(condition.value.ifMatch)|;
    }
  }

  /** A patch with an indexed value is no exception to what keeps rows keyed. */
  lemma StaysKeyedWith(schema: Schema, rows: map<nat, Row>, operations: seq<Operation>, i: nat)
    requires i < |operations| && operations[i].UpdateRows?
    requires GivesIndexedValue(schema, WithTimestamp(schema, operations[i].patch, operations[i].now))
    requires StaysKeyed(schema, rows, operations[..i], operations[i].table)
    ensures StaysKeyed(schema, rows, operations[..i + 1], operations[i].table)
  {
    assert forall j :: 0 <= j < i ==> operations[..i][j] == operations[..i + 1][j];
  }

  lemma UpdateFits(schemas: map<string, Schema>, start: Db, operations: seq<Operation>, i: nat, e: Entry)
    requires schemas.Keys == start.Keys && i < |operations| && operations[i].UpdateRows?
    requires operations[i].table in schemas
    requires IsSafe(schemas[operations[i].table], start[operations[i].table].table.rows, operations, i)
    requires e.Changed? && e.table == operations[i].table && IsMet(operations[i].condition, e.olds)
    requires e.patch == WithTimestamp(schemas[e.table], operations[i].patch, operations[i].now)
    ensures IsFitting(schemas, start, operations, i, e)
  {
    if GivesIndexedValue(schemas[e.table], e.patch) {
      StaysKeyedWith(schemas[e.table], start[e.table].table.rows, operations, i);
    }
    if LimitsToOne(operations[i].condition) {
      MetLimit(operations[i].condition, e.olds);
    }
  }

  /** The entries of an operation that was carried out. */
  lemma DoneFits(schemas: map<string, Schema>, start: Db, db: Db, policy: Policy, operations: seq<Operation>, i: nat,
                 added: seq<Entry>)
    requires schemas.Keys == start.Keys == db.Keys && i < |operations|
    requires Does(schemas, db, policy, operations[i], added)
    requires IsSafe(schemas[operations[i].table], start[operations[i].table].table.rows, operations, i)
    ensures AreFitting(schemas, start, operations, i, added)
  {
    match operations[i]
    case InsertRows(_, values) => InsertsFit(schemas, start, operations, i, values, added);
    case UpsertRows(_, values, _, _) => UpsertsFit(schemas, start, db, policy, operations, i, values, added);
    case UpdateRows(_, _, _, _) => UpdateFits(schemas, start, operations, i, added[0]);
    case DeleteRows(_, _) =>
  }

  /** The entries of an operation that failed on the way. */
  lemma LastFits(schemas: map<string, Schema>, start: Db, db: Db, policy: Policy, operations: seq<Operation>, i: nat,
                 last: seq<Entry>, error: Failure, partial: Partial)
    requires schemas.Keys == start.Keys == db.Keys && i < |operations|
    requires Fails(schemas, db, policy, operations[i], last, error, partial)
    requires operations[i].table in schemas ==>
      IsSafe(schemas[operations[i].table], start[operations[i].table].table.rows, operations, i)
    ensures AreFitting(schemas, start, operations, i, last)
  {
    var op := operations[i];
    if op.table in schemas && (op.UpsertRows? || op.InsertRows?) && !IsForbidden(policy, op.table, op.values) {
      assert forall v :: v in op.values[..|last|] ==> v in op.values;
      if op.UpsertRows? {
        UpsertsFit(schemas, start, db, policy, operations, i, op.values[..|last|], last);
      } else {
        InsertsFit(schemas, start, operations, i, op.values[..|last|], last);
      }
    }
  }

  lemma {:induction false} FittingRemovals(schemas: map<string, Schema>, start: Db, operations: seq<Operation>,
                                           done: seq<seq<Entry>>, table: string)
    requires schemas.Keys == start.Keys && |done| <= |operations|
    requires forall i :: 0 <= i < |done| ==> AreFitting(schemas, start, operations, i, done[i])
    requires OnlyDeletesBefore(operations, |done|, table)
    ensures OnlyRemovals(Concat(done), table)
    decreases |done|
  {
    if done != [] {
      var front, n := done[..|done| - 1], |done| - 1;
      FittingRemovals(schemas, start, operations, front, table);
      assert done == front + [done[n]];
      ConcatSnoc(front, done[n]);
      assert AreFitting(schemas, start, operations, n, done[n]);
    }
  }

  /** Operations that keep rows keyed have entries that do. */
  lemma {:induction false} FittingKeyed(schemas: map<string, Schema>, start: Db, operations: seq<Operation>,
                                        done: seq<seq<Entry>>, table: string)
    requires schemas.Keys == start.Keys && |done| <= |operations| && table in schemas
    requires forall i :: 0 <= i < |done| ==> AreFitting(schemas, start, operations, i, done[i])
    requires forall j :: 0 <= j < |done| && operations[j].table == table ==> KeepsKeyed(schemas[table], operations[j])
    ensures KeepEntriesKeyed(schemas[table], Concat(done), table)
    decreases |done|
  {
    if done != [] {
      var front, n := done[..|done| - 1], |done| - 1;
      FittingKeyed(schemas, start, operations, front, table);
      assert done == front + [done[n]];
      ConcatSnoc(front, done[n]);
      assert AreFitting(schemas, start, operations, n, done[n]);
    }
  }

  lemma {:induction false} TameAppend(schemas: map<string, Schema>, start: Db, journal: seq<Entry>, added: seq<Entry>)
    requires schemas.Keys == start.Keys && AreTame(schemas, start, journal)
    requires forall k :: 0 <= k < |added| ==> IsTame(schemas, start, journal + added[..k], added[k])
    ensures AreTame(schemas, start, journal + added)
    decreases |added|
  {
    if added == [] {
      assert journal + added == journal;
    } else {
      var front, n := added[..|added| - 1], |added| - 1;
      assert forall k :: 0 <= k < n ==> front[..k] == added[..k];
      TameAppend(schemas, start, journal, front);
      var all := journal + added;
      assert all[..|all| - 1] == journal + front && all[|all| - 1] == added[n];
    }
  }

  /** The entries before one of the last operation's. */
  lemma FittingChange(schemas: map<string, Schema>, start: Db, operations: seq<Operation>, done: seq<seq<Entry>>,
                      added: seq<Entry>, k: nat)
    requires schemas.Keys == start.Keys && |done| < |operations| && k < |added| && added[k].Changed?
    requires forall i :: 0 <= i < |done| ==> AreFitting(schemas, start, operations, i, done[i])
    requires AreFitting(schemas, start, operations, |done|, added)
    ensures added[k].table in schemas
    ensures IsTameUpdate(schemas[added[k].table], start[added[k].table].table.rows, Concat(done) + added[..k], added[k])
  {
    var op, e := operations[|done|], added[k];
    assert IsFitting(schemas, start, operations, |done|, e);
    var schema := schemas[e.table];
    if GivesIndexedValue(schema, e.patch) && !HasKeyColumn(schema) {
      var upTo := operations[..|done| + 1];
      assert forall j :: 0 <= j < |upTo| ==> upTo[j] == operations[j];
      FittingKeyed(schemas, start, operations, done, e.table);
      forall j | 0 <= j < k
        ensures KeepsEntryKeyed(schema, added[j])
      {
        assert IsFitting(schemas, start, operations, |done|, added[j]);
      }
    }
  }

  /** The entries of a safe operation are tame after those of the operations before it. */
  lemma FittingTame(schemas: map<string, Schema>, start: Db, operations: seq<Operation>, done: seq<seq<Entry>>,
                    added: seq<Entry>)
    requires schemas.Keys == start.Keys && |done| < |operations| && AreSafe(schemas, start, operations)
    requires forall i :: 0 <= i < |done| ==> AreFitting(schemas, start, operations, i, done[i])
    requires AreFitting(schemas, start, operations, |done|, added) && AreTame(schemas, start, Concat(done))
    ensures AreTame(schemas, start, Concat(done) + added)
  {
    var op := operations[|done|];
    forall k | 0 <= k < |added|
      ensures IsTame(schemas, start, Concat(done) + added[..k], added[k])
    {
      assert IsFitting(schemas, start, operations, |done|, added[k]);
      if added[k].Removed? {
        assert IsSafe(schemas[op.table], start[op.table].table.rows, operations, |done|);
        FittingRemovals(schemas, start, operations, done, op.table);
        assert forall j :: 0 <= j < k ==> IsFitting(schemas, start, operations, |done|, added[j]);
      } else if added[k].Changed? {
        FittingChange(schemas, start, operations, done, added, k);
      }
    }
    TameAppend(schemas, start, Concat(done), added);
  }

  lemma {:induction false} DoneTame(schemas: map<string, Schema>, start: Db, policy: Policy, operations: seq<Operation>,
                                    done: seq<seq<Entry>>)
    requires schemas.Keys == start.Keys && AreDone(schemas, start, policy, operations, done)
    requires AreSafe(schemas, start, operations)
    ensures |done| <= |operations| && forall i :: 0 <= i < |done| ==> AreFitting(schemas, start, operations, i, done[i])
    ensures AreTame(schemas, start, Concat(done))
    decreases |done|
  {
    if done != [] {
      var front, n := done[..|done| - 1], |done| - 1;
      FrontDone(schemas, start, policy, operations, done);
      DoneTame(schemas, start, policy, operations, front);
      LastDoneFits(schemas, start, ApplyAll(schemas, start, Concat(front)), policy, operations, n, done[n]);
      FittingTame(schemas, start, operations, front, done[n]);
      assert done == front + [done[n]];
      ConcatSnoc(front, done[n]);
    }
  }

  lemma LastDoneFits(schemas: map<string, Schema>, start: Db, db: Db, policy: Policy, operations: seq<Operation>,
                     n: nat, added: seq<Entry>)
    requires schemas.Keys == start.Keys == db.Keys && n < |operations| && AreSafe(schemas, start, operations)
    requires Does(schemas, db, policy, operations[n], added)
    ensures AreFitting(schemas, start, operations, n, added)
  {
    assert IsSafe(schemas[operations[n].table], start[operations[n].table].table.rows, operations, n);
    DoneFits(schemas, start, db, policy, operations, n, added);
  }

  lemma FrontDone(schemas: map<string, Schema>, start: Db, policy: Policy, operations: seq<Operation>,
                  done: seq<seq<Entry>>)
    requires schemas.Keys == start.Keys && AreDone(schemas, start, policy, operations, done) && done != []
    ensures var front, n := done[..|done| - 1], |done| - 1;
      && AreDone(schemas, start, policy, operations, front)
      && operations[n].table in schemas
      && Does(schemas, ApplyAll(schemas, start, Concat(front)), policy, operations[n], done[n])
  {
    var front := done[..|done| - 1];
    assert forall i :: 0 <= i < |front| ==> front[..i] == done[..i];
  }

  /** A failing update of a safe operation keeps the rule. */
  lemma FailureIsTame(schemas: map<string, Schema>, db: Db, policy: Policy, rows: map<nat, Row>,
                      operations: seq<Operation>, i: nat, last: seq<Entry>, error: Failure, partial: Partial)
    requires schemas.Keys == db.Keys && i < |operations|
    requires Fails(schemas, db, policy, operations[i], last, error, partial)
    requires operations[i].table in schemas ==> IsSafe(schemas[operations[i].table], rows, operations, i)
    ensures FailureFollowsRules(schemas, partial)
  {
    var op := operations[i];
    if partial.HalfUpdate? && op.UpdateRows? && LimitsToOne(op.condition) {
      MetLimit(op.condition, partial.olds);
    }
  }

  /**
   * A transaction of safe operations that throws, at whatever operation and for whatever reason, leaves every table
   * with the rows it started with, its index exact and its unique columns unique.
   */
  lemma SafeTransactionRestores(schemas: map<string, Schema>, start: Db, policy: Policy, operations: seq<Operation>,
                                error: Failure, done: seq<seq<Entry>>, last: seq<Entry>, partial: Partial, uuid: Value,
                                now: Value, after: Db)
    requires IsGoodDb(schemas, start) && AreSafe(schemas, start, operations)
    requires IsAborted(schemas, start, policy, operations, error, done, last, partial, uuid, now, after)
    ensures IsGoodDb(schemas, after) && forall t :: t in start ==>
      HoldSameRows(start[t].table.rows, after[t].table.rows)
  {
    var journal, i := Concat(done) + last, |done|;
    var op, db := operations[i], ApplyAll(schemas, start, Concat(done));
    var rows := if op.table in start then start[op.table].table.rows else map[];
    DoneTame(schemas, start, policy, operations, done);
    LastFits(schemas, start, db, policy, operations, i, last, error, partial);
    FittingTame(schemas, start, operations, done, last);
    TameFollows(schemas, start, journal);
    FailureIsTame(schemas, db, policy, rows, operations, i, last, error, partial);
    ThrownTransactionRestores(schemas, start, journal, partial, uuid, now);
  }
}
