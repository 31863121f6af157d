/** Whether a failed migration gets the rows of a table back: they are put back row by row, as any caller's would be. */
module RowRecovery {
  import opened Wrappers
  import opened Rows
  import opened Tables
  import opened QueryEngine
  import opened Migrations
  import opened MigrationSteps
  import opened Recovery
  import opened MigrationRuns

  // ----- Exactly when the rows come back

  /** How many rows `replaceRows` writes before one is refused. */
  ghost function Accepted(schema: Schema, t: Table, edits: seq<Edit>): (n: nat)
    ensures n <= |edits|
    decreases |edits|
  {
    if edits == [] || edits[0].id !in t.rows || Refusal(schema, t, edits[0].row, Some(edits[0].id)).Some? then 0
    else 1 + Accepted(schema, Written(schema, t, edits[0].id, edits[0].row), edits[1..])
  }

  lemma {:induction false} ReplacedRows(schema: Schema, t: Table, edits: seq<Edit>)
    ensures ReplacedAll(schema, t, edits).rows == WithEdits(t.rows, edits[..Accepted(schema, t, edits)])
    decreases |edits|
  {
    var n := Accepted(schema, t, edits);
    if n > 0 {
      ReplacedRows(schema, Written(schema, t, edits[0].id, edits[0].row), edits[1..]);
      assert edits[..n][1..] == edits[1..][..n - 1];
    }
  }

  /** Every row from the first refused one on is what it was at the start. */
  ghost predicate IsRestUnchanged(schema: Schema, t: Table, rows: map<nat, Row>) {
    IsRestThere(t.rows, InOrder(rows), Accepted(schema, t, InOrder(rows)))
  }

  lemma PrefixInPlace(rows: map<nat, Row>, edits: seq<Edit>, n: nat, i: nat)
    requires AreAscending(edits) && n <= |edits| && i < |edits| && edits[i].id in rows
    ensures WithEdits(rows, edits[..n]).Keys >= rows.Keys
    ensures WithEdits(rows, edits[..n])[edits[i].id] == if i < n then edits[i].row else rows[edits[i].id]
  {
    EditsInPlace(rows, edits[..n]);
    if i < n {
      assert edits[..n][i] in edits[..n];
    }
  }

  /** The rows from `n` on are those of the target already. */
  ghost predicate IsRestThere(rows: map<nat, Row>, edits: seq<Edit>, n: nat) {
    forall i :: n <= i < |edits| ==> edits[i].id in rows && rows[edits[i].id] == edits[i].row
  }

  lemma RowOfPrefix(rows: map<nat, Row>, target: map<nat, Row>, n: nat, id: nat)
    requires rows.Keys == target.Keys && n <= |InOrder(target)| && IsRestThere(rows, InOrder(target), n) && id in target
    ensures id in WithEdits(rows, InOrder(target)[..n]) && WithEdits(rows, InOrder(target)[..n])[id] == target[id]
  {
    var edits := InOrder(target);
    InOrderRows(target);
    assert Edit(id, target[id]) in edits;
    var i :| 0 <= i < |edits| && edits[i] == Edit(id, target[id]);
    PrefixInPlace(rows, edits, n, i);
  }

  lemma {:induction false} SameKeys(rows: map<nat, Row>, edits: seq<Edit>)
    requires forall e :: e in edits ==> e.id in rows
    ensures WithEdits(rows, edits).Keys == rows.Keys
    decreases |edits|
  {
    if edits != [] {
      assert edits[0] in edits;
      SameKeys(rows[edits[0].id := edits[0].row], edits[1..]);
    }
  }

  lemma PrefixIsWhole(rows: map<nat, Row>, target: map<nat, Row>, n: nat)
    requires rows.Keys == target.Keys && n <= |InOrder(target)| && IsRestThere(rows, InOrder(target), n)
    ensures WithEdits(rows, InOrder(target)[..n]) == target
  {
    forall id | id in target
      ensures id in WithEdits(rows, InOrder(target)[..n]) && WithEdits(rows, InOrder(target)[..n])[id] == target[id]
    {
      RowOfPrefix(rows, target, n, id);
    }
    InOrderRows(target);
    forall e | e in InOrder(target)[..n]
      ensures e.id in rows
    {
      assert e in InOrder(target);
    }
    SameKeys(rows, InOrder(target)[..n]);
  }

  lemma PutBackExactly(schema: Schema, t: Table, rows: map<nat, Row>)
    requires t.rows.Keys == rows.Keys
    ensures ReplacedAll(schema, t, InOrder(rows)).rows == rows <==> IsRestUnchanged(schema, t, rows)
  {
    var edits, n := InOrder(rows), Accepted(schema, t, InOrder(rows));
    ReplacedRows(schema, t, edits);
    if IsRestUnchanged(schema, t, rows) {
      PrefixIsWhole(t.rows, rows, n);
    }
    if WithEdits(t.rows, edits[..n]) == rows {
      InOrderRows(rows);
      forall i | n <= i < |edits|
        ensures edits[i].id in t.rows && t.rows[edits[i].id] == edits[i].row
      {
        assert edits[i] in edits;
        PrefixInPlace(t.rows, edits, n, i);
      }
    }
  }

  /**
   * After a failure a table has the rows of the start if and only if the migration had not looked at it, or putting
   * them back is not refused before all rows that were changed are back. `last` is the state the operations lead to.
   */
  lemma RowsComeBack(before: World, migration: string, ops: seq<Operation>, up: bool,
                     mentions: (string, string) -> bool, error: MigrationError, last: Job, after: World, t: string)
    requires IsStart(before) && IsExecuted(before, migration, ops, up, mentions, Some(error), last, after)
    requires t in Homes(before.stored.project)
    ensures
      var c := Homes(before.stored.project)[t];
      && c in before.stored.channels && c in last.world.stored.channels && c in after.stored.channels
      && (after.stored.channels[c] == before.stored.channels[c] <==>
            t !in last.ledger.snapshots
            || IsRestUnchanged(last.ledger.snapshots[t].definition.schema, TableAt(last.world, t, c),
                               before.stored.channels[c]))
  {
    var c := Homes(before.stored.project)[t];
    StoppedTracks(before, ops, mentions, error, last);
    TracksMeans(before.stored, last);
    assert IsRemembered(before.stored, last.world.stored.channels, last.ledger.snapshots, t);
    assert IsTableGivenUp(before.stored.project, last, after, t);
    if t in last.ledger.snapshots {
      PutBackExactly(last.ledger.snapshots[t].definition.schema, TableAt(last.world, t, c), before.stored.channels[c]);
      assert TableAt(after, t, c).rows == after.stored.channels[c];
    }
  }

  /**
   * Whether a failure of these operations, on a storage that answers, gets the rows of a table back: the dry run has
   * not looked at the table, or accepts its starting rows up to those that the operations have not changed.
   */
  ghost predicate GetsRowsBack(before: World, ops: seq<Operation>, mentions: (string, string) -> bool, t: string)
    requires IsStart(before) && t in Homes(before.stored.project)
  {
    var stop, c := Ran(ops, Fresh(before), mentions).job, Homes(before.stored.project)[t];
    c in before.stored.channels && c in stop.world.stored.channels
    && (t in stop.ledger.snapshots ==>
          IsRestUnchanged(stop.ledger.snapshots[t].definition.schema, TableAt(stop.world, t, c),
                          before.stored.channels[c]))
  }

  /** On a storage that answers, that is exactly when a failed migration brings them back. */
  lemma RowsComeBackExactly(before: World, migration: string, ops: seq<Operation>, up: bool,
                            mentions: (string, string) -> bool, error: Option<MigrationError>, last: Job, after: World,
                            t: string)
    requires IsStart(before) && before.fuse == None
    requires IsExecuted(before, migration, ops, up, mentions, error, last, after)
    requires Ran(ops, Fresh(before), mentions).error.Some? && t in Homes(before.stored.project)
    ensures error == Ran(ops, Fresh(before), mentions).error
    ensures
      var home := At(Homes(before.stored.project), t);
      RowsAt(after.stored.channels, home) == RowsAt(before.stored.channels, home) <==>
        GetsRowsBack(before, ops, mentions, t)
  {
    AnsweredOutcome(before, migration, ops, up, mentions, error, last, after);
    RowsComeBack(before, migration, ops, up, mentions, error.value, last, after, t);
  }

  // ----- Operations after which they always do

  /** The operation brings no value into a unique column. */
  predicate IsGentle(op: Operation, columns: seq<Column>) {
    match op
    case AddColumn(_, added, _, _, _) => !IsUniqueColumn(columns, added.name)
    case RenameColumn(_, _, to, _) => !IsUniqueColumn(columns, to)
    case ChangeType(_, column, _, _) => !IsUniqueColumn(columns, column)
    case _ => true
  }

  predicate AreGentle(ops: seq<Operation>, t: string, columns: seq<Column>) {
    forall i :: 0 <= i < |ops| && ops[i].table == t ==> IsGentle(ops[i], columns)
  }

  /** In its unique columns a row has the values it began with, or none. */
  ghost predicate IsGentleRow(columns: seq<Column>, original: Row, row: Row) {
    forall name :: IsUniqueColumn(columns, name) ==>
      IsNullish(Cell(row, name)) || Cell(row, name) == Cell(original, name)
  }

  ghost predicate IsGentleKey(columns: seq<Column>, originals: map<nat, Row>, key: IndexKey) {
    && key.id in originals
    && (IsUniqueColumn(columns, key.column) ==>
          !IsNullish(Cell(originals[key.id], key.column)) && key.value == Show(originals[key.id][key.column]))
  }

  ghost predicate IsGentleAt(columns: seq<Column>, originals: map<nat, Row>, rows: map<nat, Row>, id: nat) {
    id in rows ==> id in originals && IsGentleRow(columns, originals[id], rows[id])
  }

  ghost predicate AreGentleRows(columns: seq<Column>, originals: map<nat, Row>, rows: map<nat, Row>) {
    forall id {:trigger IsGentleAt(columns, originals, rows, id)} :: IsGentleAt(columns, originals, rows, id)
  }

  ghost predicate AreGentleKeys(columns: seq<Column>, originals: map<nat, Row>, keys: set<IndexKey>) {
    forall key {:trigger IsGentleKey(columns, originals, key)} :: key in keys ==> IsGentleKey(columns, originals, key)
  }

  ghost predicate IsGentleTable(columns: seq<Column>, originals: map<nat, Row>, t: Table) {
    AreGentleRows(columns, originals, t.rows) && AreGentleKeys(columns, originals, t.index)
  }

  lemma OwnKeysGentle(columns: seq<Column>, originals: map<nat, Row>, schema: Schema, id: nat, row: Row)
    requires id in originals && IsGentleRow(columns, originals[id], row)
    ensures AreGentleKeys(columns, originals, KeysOf(schema, id, row))
  {
  }

  lemma ReindexedGentle(columns: seq<Column>, originals: map<nat, Row>, schema: Schema, keys: set<IndexKey>, id: nat,
                        row: Row)
    requires AreGentleKeys(columns, originals, keys) && id in originals && IsGentleRow(columns, originals[id], row)
    ensures AreGentleKeys(columns, originals, Reindexed(schema, keys, id, row))
  {
    OwnKeysGentle(columns, originals, schema, id, row);
    forall key | key in Reindexed(schema, keys, id, row)
      ensures IsGentleKey(columns, originals, key)
    {
      assert key in keys || key in KeysOf(schema, id, row);
    }
  }

  lemma EditedGentle(columns: seq<Column>, originals: map<nat, Row>, rows: map<nat, Row>, id: nat, row: Row)
    requires AreGentleRows(columns, originals, rows) && id in originals && IsGentleRow(columns, originals[id], row)
    ensures AreGentleRows(columns, originals, rows[id := row])
  {
    var after: map<nat, Row> := rows[id := row];
    forall other
      ensures IsGentleAt(columns, originals, after, other)
    {
      assert IsGentleAt(columns, originals, rows, other);
    }
  }

  /** No two rows print alike in a unique column. */
  ghost predicate AreDistinct(columns: seq<Column>, rows: map<nat, Row>) {
    forall name, a, b {:trigger PrintAlike(rows, name, a, b)} :: IsUniqueColumn(columns, name) ==>
      !PrintAlike(rows, name, a, b)
  }

  predicate PrintAlike(rows: map<nat, Row>, name: string, a: nat, b: nat) {
    && a in rows && b in rows && a != b && !IsNullish(Cell(rows[a], name)) && !IsNullish(Cell(rows[b], name))
    && Show(rows[a][name]) == Show(rows[b][name])
  }

  lemma FoundPrintsAlike(columns: seq<Column>, schema: Schema, originals: map<nat, Row>, t: Table, id: nat,
                         name: string, other: nat)
    requires IsGentleTable(columns, originals, t)
    requires id in originals && IsUniqueColumn(columns, name) && !IsNullish(Cell(originals[id], name)) && id != other
    ensures other in FoundIds(schema, t, [Filter(name, Eq, originals[id][name])]) ==>
      PrintAlike(originals, name, id, other)
  {
    var value := originals[id][name];
    var filters := [Filter(name, Eq, value)];
    assert IsGentleAt(columns, originals, t.rows, other);
    if IndexedFilter(schema, filters) == None {
      assert other in FoundIds(schema, t, filters) ==> Passes(t.rows[other], filters[0]);
    } else {
      assert IndexKey(name, Show(value), other) in t.index ==>
        IsGentleKey(columns, originals, IndexKey(name, Show(value), other));
    }
  }

  lemma NoConflictWithGentle(columns: seq<Column>, schema: Schema, originals: map<nat, Row>, t: Table, id: nat,
                             name: string)
    requires AreDistinct(columns, originals) && IsGentleTable(columns, originals, t)
    requires id in originals && IsUniqueColumn(columns, name) && !IsNullish(Cell(originals[id], name))
    ensures !Conflicts(schema, t, name, originals[id][name], Some(id))
  {
    forall other: nat | other != id
      ensures other !in FoundIds(schema, t, [Filter(name, Eq, originals[id][name])])
    {
      FoundPrintsAlike(columns, schema, originals, t, id, name, other);
    }
  }

  lemma {:induction false} NoFirstConflict(columns: seq<Column>, rest: seq<Column>, schema: Schema,
                                           originals: map<nat, Row>, t: Table, id: nat)
    requires AreDistinct(columns, originals) && IsGentleTable(columns, originals, t) && id in originals
    requires forall i :: 0 <= i < |rest| && rest[i].unique ==> IsUniqueColumn(columns, rest[i].name)
    ensures FirstConflict(rest, schema, t, originals[id], Some(id)) == None
  {
    if rest != [] {
      if rest[0].unique && !IsNullish(Cell(originals[id], rest[0].name)) {
        NoConflictWithGentle(columns, schema, originals, t, id, rest[0].name);
      }
      assert forall i :: 0 <= i < |rest[1..]| ==> rest[1..][i] == rest[i + 1];
      NoFirstConflict(columns, rest[1..], schema, originals, t, id);
    }
  }

  lemma {:induction false} AllAccepted(schema: Schema, originals: map<nat, Row>, t: Table, edits: seq<Edit>)
    requires AreDistinct(schema.columns, originals) && IsGentleTable(schema.columns, originals, t)
    requires t.rows.Keys == originals.Keys
    requires forall id :: id in originals ==> ValidateRow(schema.columns, originals[id]) == None
    requires forall e :: e in edits ==> e.id in originals && e.row == originals[e.id]
    ensures Accepted(schema, t, edits) == |edits|
    decreases |edits|
  {
    if edits != [] {
      var e := edits[0];
      assert e in edits;
      assert forall i :: 0 <= i < |schema.columns| && schema.columns[i].unique ==>
        IsUniqueColumn(schema.columns, schema.columns[i].name);
      NoFirstConflict(schema.columns, schema.columns, schema, originals, t, e.id);
      assert IsGentleRow(schema.columns, originals[e.id], e.row);
      EditedGentle(schema.columns, originals, t.rows, e.id, e.row);
      ReindexedGentle(schema.columns, originals, schema, t.index, e.id, e.row);
      AllAccepted(schema, originals, Written(schema, t, e.id, e.row), edits[1..]);
    }
  }

  lemma MappedGentle(columns: seq<Column>, op: Operation, id: nat, original: Row, row: Row)
    requires IsGentle(op, columns) && IsGentleRow(columns, original, row) && MappedRow(op, id, row).Some?
    ensures IsGentleRow(columns, original, MappedRow(op, id, row).value)
  {
  }

  lemma RowWrittenGentle(columns: seq<Column>, originals: map<nat, Row>, w: World, table: string, schema: Schema,
                         c: nat, edit: Edit)
    requires c in w.stored.channels && IsGentleTable(columns, originals, TableAt(w, table, c))
    requires edit.id in originals && IsGentleRow(columns, originals[edit.id], edit.row)
    ensures IsGentleTable(columns, originals, TableAt(RowWritten(w, table, schema, c, edit).world, table, c))
  {
    EditedGentle(columns, originals, w.stored.channels[c], edit.id, edit.row);
    ReindexedGentle(columns, originals, schema, Share(w.entries, table), edit.id, edit.row);
    ShareOfWith(w.entries, table, Reindexed(schema, Share(w.entries, table), edit.id, edit.row), table);
  }

  lemma {:induction false} RowsWrittenGentle(columns: seq<Column>, originals: map<nat, Row>, w: World, table: string,
                                             schema: Schema, c: nat, edits: seq<Edit>)
    requires c in w.stored.channels && IsGentleTable(columns, originals, TableAt(w, table, c))
    requires forall e :: e in edits ==> e.id in originals && IsGentleRow(columns, originals[e.id], e.row)
    ensures IsGentleTable(columns, originals, TableAt(RowsWritten(w, table, schema, c, edits).world, table, c))
    decreases |edits|
  {
    if edits != [] {
      assert edits[0] in edits;
      RowWrittenGentle(columns, originals, w, table, schema, c, edits[0]);
      RowsWrittenGentle(columns, originals, RowWritten(w, table, schema, c, edits[0]).world, table, schema, c,
                        edits[1..]);
    }
  }

  /** What every moment of a gentle migration keeps of a table. */
  ghost predicate IsGentleView(columns: seq<Column>, originals: map<nat, Row>, v: TableView, snapshot: Option<Snapshot>)
  {
    && v.rows.Some? && IsGentleTable(columns, originals, Table(v.rows.value, v.keys))
    && if snapshot.Some? then snapshot.value.definition.schema.columns == columns
       else v.definition.Some? && v.definition.value.schema.columns == columns
  }

  ghost predicate IsGentleJob(columns: seq<Column>, originals: map<nat, Row>, job: Job, t: string) {
    IsGentleView(columns, originals, ViewOf(job.world, t), At(job.ledger.snapshots, t))
  }

  lemma LookedGentle(columns: seq<Column>, originals: map<nat, Row>, job: Job, t: string)
    requires IsGentleJob(columns, originals, job, t)
    ensures IsGentleJob(columns, originals, Looked(t, job).job, t)
  {
    LookedView(t, job, t);
  }

  lemma RedefinedGentle(columns: seq<Column>, originals: map<nat, Row>, op: Operation, job: Job)
    requires IsGentleJob(columns, originals, job, op.table) && !op.CreateTable? && !op.DropTable?
    requires Looks(op) ==> op.table in job.ledger.snapshots
    ensures IsGentleJob(columns, originals, Redefined(op, job).job, op.table)
  {
  }

  lemma MappedJobGentle(columns: seq<Column>, originals: map<nat, Row>, op: Operation, job: Job)
    requires job.world.stored.project.live.Keys !! job.world.stored.project.archived.Keys
    requires IsGentleJob(columns, originals, job, op.table) && IsGentle(op, columns) && op.table in job.ledger.snapshots
    ensures IsGentleJob(columns, originals, RowsMapped(op, job).job, op.table)
  {
    var s := job.world.stored;
    MappedMemory(op, job);
    if op.table in s.project.live && op.table in s.schemas && Reads(job.world, s.project.live[op.table]) {
      var c := s.project.live[op.table];
      HomeOfView(job.world, op.table);
      var mapped := MappedRows(op, s.channels[c]);
      if mapped.Some? {
        InOrderRows(mapped.value);
        forall e | e in InOrder(mapped.value)
          ensures e.id in originals && IsGentleRow(columns, originals[e.id], e.row)
        {
          assert IsGentleAt(columns, originals, s.channels[c], e.id);
          MappedGentle(columns, op, e.id, originals[e.id], s.channels[c][e.id]);
        }
        var schema := NextDefinition(op, s.schemas[op.table]).schema;
        RowsWrittenGentle(columns, originals, Called(job.world), op.table, schema, c, InOrder(mapped.value));
        RowsWrittenNear(Called(job.world), op.table, schema, c, InOrder(mapped.value));
        NearHome(Called(job.world), RowsWritten(Called(job.world), op.table, schema, c, InOrder(mapped.value)).world,
                 op.table, c);
      }
    }
  }

  lemma NearHome(before: World, after: World, t: string, c: nat)
    requires IsNear(before, after, t, c) && c in before.stored.channels
    requires before.stored.project.live.Keys !! before.stored.project.archived.Keys
    requires t in before.stored.project.live && before.stored.project.live[t] == c
    ensures ViewOf(after, t).rows == Some(TableAt(after, t, c).rows)
    ensures ViewOf(after, t).keys == TableAt(after, t, c).index
  {
    HomeOfView(after, t);
  }

  lemma RewrittenGentle(columns: seq<Column>, originals: map<nat, Row>, op: Operation, job: Job)
    requires job.world.stored.project.live.Keys !! job.world.stored.project.archived.Keys
    requires IsGentleJob(columns, originals, job, op.table) && IsGentle(op, columns) && Looks(op) && !op.DropTable?
    ensures IsGentleJob(columns, originals, Rewritten(op, job).job, op.table)
  {
    var looked := Looked(op.table, job);
    LookedGentle(columns, originals, job, op.table);
    LookedMemory(op, job);
    if looked.error == None && !LacksBackfill(op) {
      if RewritesRows(op) {
        MappedJobGentle(columns, originals, op, looked.job);
        MappedMemory(op, looked.job);
        RedefinedGentle(columns, originals, op, RowsMapped(op, looked.job).job);
      } else {
        RedefinedGentle(columns, originals, op, looked.job);
      }
    }
  }

  lemma ArchivedGentle(columns: seq<Column>, originals: map<nat, Row>, op: Operation, job: Job)
    requires job.world.stored.project.live.Keys !! job.world.stored.project.archived.Keys && op.DropTable?
    requires IsGentleJob(columns, originals, job, op.table) && op.table in job.ledger.snapshots
    requires op.table in job.world.stored.project.live
    ensures IsGentleJob(columns, originals, Archived(op, job).job, op.table)
  {
    var saved := ProjectSaved(job.world, Relocated(job.world.stored.project, op, 0));
    MovedGentle(job.world, op);
    var sent := EventSent(saved.world, Removed(op.table));
    assert ViewOf(sent.world, op.table).rows == ViewOf(saved.world, op.table).rows;
    assert ViewOf(sent.world, op.table).keys == ViewOf(saved.world, op.table).keys;
    DroppedGentle(sent.world, op.table);
  }

  lemma MovedGentle(w: World, op: Operation)
    requires w.stored.project.live.Keys !! w.stored.project.archived.Keys && op.DropTable?
    requires op.table in w.stored.project.live
    ensures var saved := ProjectSaved(w, Relocated(w.stored.project, op, 0)).world;
      ViewOf(saved, op.table).rows == ViewOf(w, op.table).rows
      && ViewOf(saved, op.table).keys == ViewOf(w, op.table).keys
  {
    MovedHomes(w.stored.project, op);
  }

  lemma DroppedGentle(w: World, t: string)
    ensures var dropped := IndexDropped(w, t).world;
      ViewOf(dropped, t).rows == ViewOf(w, t).rows
      && (ViewOf(dropped, t).keys == ViewOf(w, t).keys || ViewOf(dropped, t).keys == {})
  {
    ShareOfWith(w.entries, t, {}, t);
  }

  lemma CreatedGentle(columns: seq<Column>, originals: map<nat, Row>, op: Operation, job: Job)
    requires IsHoused(job.world.stored.project, job.world.stored.channels) && op.CreateTable?
    requires IsGentleJob(columns, originals, job, op.table) && op.table in job.ledger.snapshots
    ensures op.table in job.world.stored.project.archived ==>
      IsGentleJob(columns, originals, Revived(op, job).job, op.table)
    ensures op.table !in job.world.stored.project.archived ==>
      IsGentleJob(columns, originals, Founded(op, job).job, op.table)
  {
    var p := job.world.stored.project;
    HomeOfView(job.world, op.table);
    assert op.table in Homes(p);
    if op.table in p.archived {
      MovedHomes(p, op);
    }
  }

  lemma OwnGentle(columns: seq<Column>, originals: map<nat, Row>, op: Operation, job: Job,
                  mentions: (string, string) -> bool)
    requires IsHoused(job.world.stored.project, job.world.stored.channels)
    requires IsGentleJob(columns, originals, job, op.table) && IsGentle(op, columns)
    ensures IsGentleJob(columns, originals, Operated(op, job, mentions).job, op.table)
  {
    if Objection(op, job.world.stored.schemas, mentions) == None {
      if op.CreateTable? {
        CreatedGentle(columns, originals, op, job);
      } else if op.DropTable? {
        LookedGentle(columns, originals, job, op.table);
        LookedMemory(op, job);
        if Looked(op.table, job).error == None {
          ArchivedGentle(columns, originals, op, Looked(op.table, job).job);
        }
      } else if Looks(op) {
        RewrittenGentle(columns, originals, op, job);
      } else {
        RedefinedGentle(columns, originals, op, job);
      }
    }
  }

  lemma {:induction false} RanGentle(columns: seq<Column>, originals: map<nat, Row>, start: Stored, ops: seq<Operation>,
                                     job: Job, mentions: (string, string) -> bool, t: string)
    requires Tracks(start, job) && IsGentleJob(columns, originals, job, t) && AreGentle(ops, t, columns)
    ensures IsGentleJob(columns, originals, Ran(ops, job, mentions).job, t)
    decreases |ops|
  {
    if ops != [] {
      var op, o := ops[0], Operated(ops[0], job, mentions);
      TracksMeans(start, job);
      OperatedTracks(start, job, op, mentions);
      if op.table == t {
        OwnGentle(columns, originals, op, job, mentions);
      } else {
        OperatedView(op, job, mentions, t);
        OperatedNotes(op, job, mentions, t);
      }
      assert forall i :: 0 <= i < |ops[1..]| ==> ops[1..][i] == ops[i + 1];
      RanGentle(columns, originals, start, ops[1..], o.job, mentions, t);
    }
  }

  lemma RebuiltGentle(columns: seq<Column>, originals: map<nat, Row>, schema: Schema, rows: map<nat, Row>)
    requires AreGentleRows(columns, originals, rows)
    ensures AreGentleKeys(columns, originals, TableKeys(schema, rows))
  {
    forall key | key in TableKeys(schema, rows)
      ensures IsGentleKey(columns, originals, key)
    {
      assert IsGentleAt(columns, originals, rows, key.id);
    }
  }

  lemma StartsGentle(columns: seq<Column>, before: World, t: string)
    requires IsStart(before) && t in before.stored.schemas && t in before.stored.project.live && IsCurrent(before, t)
    requires columns == before.stored.schemas[t].schema.columns
    ensures before.stored.project.live[t] in before.stored.channels
    ensures IsGentleJob(columns, before.stored.channels[before.stored.project.live[t]], Fresh(before), t)
  {
    var p := before.stored.project;
    assert t in Homes(p) && Homes(p)[t] == p.live[t];
    var rows := before.stored.channels[p.live[t]];
    forall id
      ensures IsGentleAt(columns, rows, rows, id)
    {
    }
    HomeOfView(before, t);
    RebuiltGentle(columns, rows, before.stored.schemas[t].schema, rows);
  }

  lemma StoppedGentle(columns: seq<Column>, originals: map<nat, Row>, before: World, ops: seq<Operation>,
                      mentions: (string, string) -> bool, error: MigrationError, last: Job, t: string)
    requires IsStart(before) && IsStopped(before, ops, mentions, error, last)
    requires IsGentleJob(columns, originals, Fresh(before), t) && AreGentle(ops, t, columns)
    ensures IsGentleJob(columns, originals, last, t)
  {
    var run := Ran(ops, Fresh(before), mentions);
    FreshTracks(before);
    RanGentle(columns, originals, before.stored, ops, Fresh(before), mentions, t);
    if run.error == None {
      RanTracks(before.stored, Fresh(before), ops, mentions);
      TracksMeans(before.stored, run.job);
      LiveView(run.job.world, t);
      var v := ViewOf(run.job.world, t);
      assert ViewOf(last.world, t) == v.(keys := Share(last.world.entries, t));
      if IsLiveView(v) {
        RebuiltGentle(columns, originals, v.definition.value.schema, v.rows.value);
      }
      assert Share(last.world.entries, t) in {v.keys, {}, ExpectedOf(v)};
    }
  }

  /** The rows of a gentle migration are all accepted when they are put back. */
  lemma GentlyAccepted(before: World, ops: seq<Operation>, mentions: (string, string) -> bool, error: MigrationError,
                       last: Job, t: string)
    requires IsStart(before) && IsStopped(before, ops, mentions, error, last)
    requires t in before.stored.schemas && t in before.stored.project.live && IsCurrent(before, t)
    requires t in last.ledger.snapshots
    requires before.stored.project.live[t] in before.stored.channels
    requires
      var columns := before.stored.schemas[t].schema.columns;
      var rows := before.stored.channels[before.stored.project.live[t]];
      && (forall id :: id in rows ==> ValidateRow(columns, rows[id]) == None)
      && AreDistinct(columns, rows) && AreGentle(ops, t, columns)
    ensures
      var c := before.stored.project.live[t];
      var edits := InOrder(before.stored.channels[c]);
      c in last.world.stored.channels
      && Accepted(last.ledger.snapshots[t].definition.schema, TableAt(last.world, t, c), edits) == |edits|
  {
    var columns, c := before.stored.schemas[t].schema.columns, before.stored.project.live[t];
    var rows, schema := before.stored.channels[c], last.ledger.snapshots[t].definition.schema;
    assert t in Homes(before.stored.project) && Homes(before.stored.project)[t] == c;
    StartsGentle(columns, before, t);
    StoppedGentle(columns, rows, before, ops, mentions, error, last, t);
    StoppedTracks(before, ops, mentions, error, last);
    TracksMeans(before.stored, last);
    assert IsRemembered(before.stored, last.world.stored.channels, last.ledger.snapshots, t);
    HomeOfView(last.world, t);
    InOrderRows(rows);
    AllAccepted(schema, rows, TableAt(last.world, t, c), InOrder(rows));
  }

  /**
   * A live table whose rows are valid and distinct has them back after any failure, at whatever call, of a migration
   * that brings no value into one of its unique columns.
   */
  lemma GentleRowsComeBack(before: World, migration: string, ops: seq<Operation>, up: bool,
                           mentions: (string, string) -> bool, error: MigrationError, last: Job, after: World,
                           t: string)
    requires IsStart(before) && IsExecuted(before, migration, ops, up, mentions, Some(error), last, after)
    requires t in before.stored.schemas && t in before.stored.project.live && IsCurrent(before, t)
    requires before.stored.project.live[t] in before.stored.channels
    requires
      var columns := before.stored.schemas[t].schema.columns;
      var rows := before.stored.channels[before.stored.project.live[t]];
      && (forall id :: id in rows ==> ValidateRow(columns, rows[id]) == None)
      && AreDistinct(columns, rows) && AreGentle(ops, t, columns)
    ensures
      var c := before.stored.project.live[t];
      c in after.stored.channels && after.stored.channels[c] == before.stored.channels[c]
  {
    var c := before.stored.project.live[t];
    assert t in Homes(before.stored.project) && Homes(before.stored.project)[t] == c;
    RowsComeBack(before, migration, ops, up, mentions, error, last, after, t);
    if t in last.ledger.snapshots {
      GentlyAccepted(before, ops, mentions, error, last, t);
    }
  }

  // ----- A migration that loses the way back to its rows

  function UniqueText(name: string): Column {
    Column(name, TextType, false, true, None, false)
  }

  function TwoColumns(m: string, n: string): Schema {
    Schema([UniqueText(m), UniqueText(n)], [])
  }

  function TwoCells(m: string, u: string, n: string, v: string): Row {
    map[m := Str(u), n := Str(v)]
  }

  /** Two rows, with the texts `u1` and `v1`, and `u2` and `v2`. */
  function TwoRows(m: string, n: string, u1: string, v1: string, u2: string, v2: string): map<nat, Row> {
    map[1 := TwoCells(m, u1, n, v1), 2 := TwoCells(m, u2, n, v2)]
  }

  /** A project with one table `users` that has two unique text columns, no index and two rows. */
  ghost predicate HasTwoRows(w: World, m: string, n: string, u1: string, v1: string, u2: string, v2: string) {
    && w.stored.project == Project(map["users" := 1], map[])
    && w.stored.schemas == map["users" := Definition(TwoColumns(m, n), None)]
    && w.stored.channels == map[1 := TwoRows(m, n, u1, v1, u2, v2)]
    && Share(w.entries, "users") == {} && w.nextChannel == 2 && w.fuse == None
  }

  lemma FreeTextsAccepted(m: string, n: string, t: Table, id: nat, u: string, v: string)
    requires m != n
    requires forall other :: other in t.rows && other != id ==>
      Cell(t.rows[other], m) != Some(Str(u)) && Cell(t.rows[other], n) != Some(Str(v))
    ensures Refusal(TwoColumns(m, n), t, TwoCells(m, u, n, v), Some(id)) == None
  {
    var schema, row := TwoColumns(m, n), TwoCells(m, u, n, v);
    assert schema.columns[1..] == [UniqueText(n)] && schema.columns[1..][1..] == [];
    assert ValidateRow(schema.columns[1..], row) == None;
    TextIsFree(schema, t, m, u, id);
    TextIsFree(schema, t, n, v, id);
    assert FirstConflict(schema.columns[1..], schema, t, row, Some(id)) == None;
  }

  lemma TextIsFree(schema: Schema, t: Table, name: string, text: string, id: nat)
    requires schema.indexes == []
    ensures Conflicts(schema, t, name, Str(text), Some(id)) <==>
      exists other :: other in t.rows && other != id && Cell(t.rows[other], name) == Some(Str(text))
  {
    var f := Filter(name, Eq, Str(text));
    assert IndexedFilter(schema, [f]) == None;
    ScanOne(t, f);
    var found := FoundIds(schema, t, [f]);
    assert forall other :: other in found <==> other in t.rows && Cell(t.rows[other], name) == Some(Str(text));
    if other: nat :| other in t.rows && other != id && Cell(t.rows[other], name) == Some(Str(text)) {
      assert other in found && Some(other) != Some(id);
    }
  }

  lemma InOrderOfTwo(rows: map<nat, Row>)
    requires rows.Keys == {1, 2}
    ensures InOrder(rows) == [Edit(1, rows[1]), Edit(2, rows[2])]
  {
    InOrderFirst(rows, 1);
    InOrderFirst(rows - {1}, 2);
    assert (rows - {1} - {2}).Keys == {};
  }

  /** Rows under a new name of a column are written back, one by one, as long as the texts of each column differ. */
  lemma RenamedRowsAccepted(t: Table, m: string, n: string, m': string, n': string, u1: string, v1: string, u2: string,
                            v2: string)
    requires t == Table(TwoRows(m, n, u1, v1, u2, v2), {}) && u1 != u2 && v1 != v2
    requires m != n && m' != n' && (m' == m || m' !in {m, n}) && (n' == n || n' !in {m, n})
    ensures ReplaceError(TwoColumns(m', n'), t, InOrder(TwoRows(m', n', u1, v1, u2, v2))) == None
  {
    var schema, rows := TwoColumns(m', n'), TwoRows(m', n', u1, v1, u2, v2);
    InOrderOfTwo(rows);
    FreeTextsAccepted(m', n', t, 1, u1, v1);
    var first := Written(schema, t, 1, rows[1]);
    FreeTextsAccepted(m', n', first, 2, u2, v2);
    assert InOrder(rows)[1..] == [Edit(2, rows[2])] && [Edit(2, rows[2])][1..] == [];
    assert ReplaceError(schema, first, [Edit(2, rows[2])]) == None;
  }

  lemma RenamedRow(op: Operation, id: nat, m: string, u: string, n: string, v: string)
    requires op.RenameColumn? && op.from != op.to && m != n && op.to !in {m, n} && op.from in {m, n}
    ensures MappedRow(op, id, TwoCells(m, u, n, v)) ==
      Some(TwoCells(Renamed(m, op.from, op.to), u, Renamed(n, op.from, op.to), v))
  {
    var row, after := TwoCells(m, u, n, v), TwoCells(Renamed(m, op.from, op.to), u, Renamed(n, op.from, op.to), v);
    assert row[op.to := row[op.from]] - {op.from} == after;
  }

  lemma RenamedRows(op: Operation, m: string, n: string, m': string, n': string, u1: string, v1: string, u2: string,
                    v2: string)
    requires op.RenameColumn? && op.from != op.to && m != n && op.to !in {m, n} && op.from in {m, n}
    requires m' == Renamed(m, op.from, op.to) && n' == Renamed(n, op.from, op.to)
    ensures MappedRows(op, TwoRows(m, n, u1, v1, u2, v2)) == Some(TwoRows(m', n', u1, v1, u2, v2))
  {
    var rows, after := TwoRows(m, n, u1, v1, u2, v2), TwoRows(m', n', u1, v1, u2, v2);
    RenamedRow(op, 1, m, u1, n, v1);
    RenamedRow(op, 2, m, u2, n, v2);
    assert MappedRows(op, rows).value == after;
  }

  lemma RenamedColumnsOfTwo(op: Operation, m: string, n: string)
    requires op.RenameColumn?
    ensures NextDefinition(op, Definition(TwoColumns(m, n), None))
      == Definition(TwoColumns(Renamed(m, op.from, op.to), Renamed(n, op.from, op.to)), None)
  {
    assert RenamedColumns(TwoColumns(m, n).columns, op.from, op.to)
      == TwoColumns(Renamed(m, op.from, op.to), Renamed(n, op.from, op.to)).columns;
    assert RenamedAll([], op.from, op.to) == [];
  }

  ghost predicate IsRenamedIn(before: World, after: World, rows: map<nat, Row>) {
    && after.stored == before.stored.(channels := map[1 := rows])
    && Share(after.entries, "users") == {} && after.nextChannel == before.nextChannel && after.fuse == None
  }

  /** Rows that are all accepted are all written, and nothing else is. */
  lemma AllInPlace(w: World, table: string, schema: Schema, c: nat, rows: map<nat, Row>)
    requires c in w.stored.channels && w.stored.channels[c].Keys == rows.Keys && w.fuse == None
    requires ReplaceError(schema, TableAt(w, table, c), InOrder(rows)) == None
    ensures var r := RowsWritten(w, table, schema, c, InOrder(rows));
      && r.error == None && r.world.stored == w.stored.(channels := w.stored.channels[c := rows])
      && r.world.nextChannel == w.nextChannel && r.world.fuse == None
  {
    var r := RowsWritten(w, table, schema, c, InOrder(rows));
    RowsWrittenTable(w, table, schema, c, InOrder(rows));
    RowsWrittenNear(w, table, schema, c, InOrder(rows));
    AllWritten(w, table, schema, c, InOrder(rows));
    InOrderInPlace(w.stored.channels[c], rows);
    assert r.world.stored.channels == w.stored.channels[c := rows];
  }

  lemma RenamedWritten(w: World, m: string, n: string, m': string, n': string, u1: string, v1: string, u2: string,
                       v2: string)
    requires w.stored.channels == map[1 := TwoRows(m, n, u1, v1, u2, v2)] && Share(w.entries, "users") == {}
    requires w.fuse == None
    requires u1 != u2 && v1 != v2 && m != n && m' != n' && (m' == m || m' !in {m, n}) && (n' == n || n' !in {m, n})
    ensures var r := RowsWritten(w, "users", TwoColumns(m', n'), 1, InOrder(TwoRows(m', n', u1, v1, u2, v2)));
      r.error == None && IsRenamedIn(w, r.world, TwoRows(m', n', u1, v1, u2, v2))
  {
    var after := TwoRows(m', n', u1, v1, u2, v2);
    assert TableAt(w, "users", 1) == Table(TwoRows(m, n, u1, v1, u2, v2), {});
    RenamedRowsAccepted(TableAt(w, "users", 1), m, n, m', n', u1, v1, u2, v2);
    RenamedInPlace(w, TwoColumns(m', n'), TwoRows(m, n, u1, v1, u2, v2), after);
    NoKeys(w, m', n', after);
  }

  lemma RenamedInPlace(w: World, schema: Schema, rows: map<nat, Row>, after: map<nat, Row>)
    requires w.stored.channels == map[1 := rows] && w.fuse == None && rows.Keys == after.Keys
    requires ReplaceError(schema, TableAt(w, "users", 1), InOrder(after)) == None
    ensures var r := RowsWritten(w, "users", schema, 1, InOrder(after));
      && r.error == None && r.world.stored == w.stored.(channels := map[1 := after])
      && r.world.nextChannel == w.nextChannel && r.world.fuse == None
  {
    AllInPlace(w, "users", schema, 1, after);
    assert w.stored.channels[1 := after] == map[1 := after];
  }

  lemma RowsRenamed(op: Operation, job: Job, m: string, n: string, m': string, n': string, u1: string, v1: string,
                    u2: string, v2: string)
    requires HasTwoRows(job.world, m, n, u1, v1, u2, v2) && u1 != u2 && v1 != v2 && m != n
    requires op.RenameColumn? && op.table == "users" && op.from != op.to && op.to !in {m, n} && op.from in {m, n}
    requires m' == Renamed(m, op.from, op.to) && n' == Renamed(n, op.from, op.to)
    ensures var o := RowsMapped(op, job);
      o.error == None && o.job == job.(world := o.job.world)
      && IsRenamedIn(job.world, o.job.world, TwoRows(m', n', u1, v1, u2, v2))
  {
    RenamedRows(op, m, n, m', n', u1, v1, u2, v2);
    RenamedColumnsOfTwo(op, m, n);
    RenamedWritten(Called(job.world), m, n, m', n', u1, v1, u2, v2);
  }

  /** One renaming, carried out. */
  lemma RenameCarriedOut(op: Operation, job: Job, mentions: (string, string) -> bool, m: string, n: string, m': string,
                         n': string, u1: string, v1: string, u2: string, v2: string)
    requires HasTwoRows(job.world, m, n, u1, v1, u2, v2) && u1 != u2 && v1 != v2 && m != n
    requires op.RenameColumn? && op.table == "users" && op.from != op.to && op.to !in {m, n} && op.from in {m, n}
    requires m' == Renamed(m, op.from, op.to) && n' == Renamed(n, op.from, op.to)
    ensures var o := Operated(op, job, mentions);
      && o.error == None && HasTwoRows(o.job.world, m', n', u1, v1, u2, v2)
      && o.job.ledger == if "users" in job.ledger.snapshots then job.ledger
           else NotedUsers(job.ledger, Snapshot(Definition(TwoColumns(m, n), None), TwoRows(m, n, u1, v1, u2, v2)))
  {
    var looked := Looked("users", job);
    LookAtUsers(job, m, n, u1, v1, u2, v2);
    RowsRenamed(op, looked.job, m, n, m', n', u1, v1, u2, v2);
    RenamedColumnsOfTwo(op, m, n);
    var mapped := RowsMapped(op, looked.job).job;
    SchemaRenamed(op, job.world, mapped, m, n, m', n', u1, v1, u2, v2);
    AsRedefined(op, job, mentions);
  }

  /** A renaming that is not objected to, looks and writes its rows, ends by saving the schema. */
  lemma AsRedefined(op: Operation, job: Job, mentions: (string, string) -> bool)
    requires op.RenameColumn? && Objection(op, job.world.stored.schemas, mentions) == None
    requires Looked(op.table, job).error == None && RowsMapped(op, Looked(op.table, job).job).error == None
    ensures Operated(op, job, mentions) == Redefined(op, RowsMapped(op, Looked(op.table, job).job).job)
  {
  }

  lemma LookAtUsers(job: Job, m: string, n: string, u1: string, v1: string, u2: string, v2: string)
    requires HasTwoRows(job.world, m, n, u1, v1, u2, v2)
    ensures var looked := Looked("users", job);
      && looked.error == None && HasTwoRows(looked.job.world, m, n, u1, v1, u2, v2)
      && looked.job.world.stored == job.world.stored
      && looked.job.ledger == if "users" in job.ledger.snapshots then job.ledger
           else NotedUsers(job.ledger, Snapshot(Definition(TwoColumns(m, n), None), TwoRows(m, n, u1, v1, u2, v2)))
  {
  }

  lemma SchemaRenamed(op: Operation, before: World, mapped: Job, m: string, n: string, m': string, n': string,
                      u1: string, v1: string, u2: string, v2: string)
    requires HasTwoRows(before, m, n, u1, v1, u2, v2) && op.RenameColumn? && op.table == "users"
    requires IsRenamedIn(before, mapped.world, TwoRows(m', n', u1, v1, u2, v2))
    requires NextDefinition(op, Definition(TwoColumns(m, n), None)) == Definition(TwoColumns(m', n'), None)
    ensures var o := Redefined(op, mapped);
      o.error == None && HasTwoRows(o.job.world, m', n', u1, v1, u2, v2) && o.job.ledger == mapped.ledger
  {
  }

  function NotedUsers(ledger: Ledger, snapshot: Snapshot): Ledger {
    ledger.(snapshots := ledger.snapshots["users" := snapshot])
  }

  lemma NoKeys(w: World, m: string, n: string, rows: map<nat, Row>)
    requires 1 in w.stored.channels && Share(w.entries, "users") == {} && w.fuse == None
    ensures Share(RowsWritten(w, "users", TwoColumns(m, n), 1, InOrder(rows)).world.entries, "users") == {}
  {
    RowsWrittenTable(w, "users", TwoColumns(m, n), 1, InOrder(rows));
    NeverIndexed(TwoColumns(m, n), TableAt(w, "users", 1), InOrder(rows));
  }

  lemma {:induction false} NeverIndexed(schema: Schema, t: Table, edits: seq<Edit>)
    requires schema.indexes == []
    ensures ReplacedAll(schema, t, edits).index == t.index
    decreases |edits|
  {
    if edits != [] && edits[0].id in t.rows && Refusal(schema, t, edits[0].row, Some(edits[0].id)) == None {
      NeverIndexed(schema, Written(schema, t, edits[0].id, edits[0].row), edits[1..]);
    }
  }

  /** The first row cannot be put back: its text for `a` is now in the second row. */
  lemma FirstRowRefused(t: Table, x: string, y: string, p: string)
    requires t == Table(TwoRows("t", "a", x, y, p, x), {})
    ensures ReplacedAll(TwoColumns("a", "b"), t, InOrder(TwoRows("a", "b", x, y, p, x))) == t
  {
    var schema, rows := TwoColumns("a", "b"), TwoRows("a", "b", x, y, p, x);
    InOrderOfTwo(rows);
    assert Cell(t.rows[2], "a") == Some(Str(x));
    TextIsFree(schema, t, "a", x, 1);
    assert Conflicts(schema, t, "a", rows[1]["a"], Some(1));
    assert Refusal(schema, t, rows[1], Some(1)).Some?;
  }

  /**
   * Two renamings that move a text from one unique column to another, and then an operation that is refused: the old
   * schema is saved again, but no row is put back, and the rows keep the columns the schema no longer has.
   */
  lemma SwapLosesRows(before: World, migration: string, x: string, y: string, p: string, rewrite: string -> string,
                      up: bool, mentions: (string, string) -> bool, error: Option<MigrationError>, last: Job,
                      after: World)
    requires HasTwoRows(before, "a", "b", x, y, p, x) && x != y && x != p
    requires
      var ops := [RenameColumn("users", "a", "t", rewrite), RenameColumn("users", "b", "a", rewrite),
                  DropTable("orders")];
      IsExecuted(before, migration, ops, up, mentions, error, last, after)
    ensures error == Some(Missing) && after.stored.schemas == before.stored.schemas
    ensures after.stored.channels == map[1 := TwoRows("t", "a", x, y, p, x)]
    ensures after.stored.channels != before.stored.channels
  {
    var job := Fresh(before);
    var first, second := RenameColumn("users", "a", "t", rewrite), RenameColumn("users", "b", "a", rewrite);
    var third := DropTable("orders");
    RenameCarriedOut(first, job, mentions, "a", "b", "t", "b", x, y, p, x);
    var one := Operated(first, job, mentions).job;
    RenameCarriedOut(second, one, mentions, "t", "b", "t", "a", x, y, p, x);
    var two := Operated(second, one, mentions).job;
    var ops := [first, second, third];
    assert ops[1..] == [second, third] && ops[1..][1..] == [third];
    assert Ran([third], two, mentions) == Outcome(two, Some(Missing));
    assert Ran([second, third], one, mentions) == Outcome(two, Some(Missing));
    assert Ran(ops, job, mentions) == Outcome(two, Some(Missing));
    assert last == two;
    GivenUpAfterSwap(before, two, after, x, y, p);
  }

  lemma GivenUpAfterSwap(before: World, last: Job, after: World, x: string, y: string, p: string)
    requires HasTwoRows(before, "a", "b", x, y, p, x) && HasTwoRows(last.world, "t", "a", x, y, p, x)
    requires last.ledger ==
      NotedUsers(BLANK, Snapshot(Definition(TwoColumns("a", "b"), None), TwoRows("a", "b", x, y, p, x)))
    requires IsGivenUp(before.stored.project, last, after)
    ensures after.stored.schemas == before.stored.schemas
    ensures after.stored.channels == map[1 := TwoRows("t", "a", x, y, p, x)]
    ensures after.stored.channels != before.stored.channels
  {
    var p0 := before.stored.project;
    assert "users" in Homes(p0) && Homes(p0)["users"] == 1;
    assert IsTableGivenUp(p0, last, after, "users");
    FirstRowRefused(TableAt(last.world, "users", 1), x, y, p);
    assert UndoneChannels(p0, last.ledger) == {};
    assert after.stored.channels == map[1 := TwoRows("t", "a", x, y, p, x)];
    assert "t" in TwoCells("t", x, "a", y) && "t" !in TwoCells("a", x, "b", y);
    assert after.stored.channels[1][1] != before.stored.channels[1][1];
    forall t
      ensures At(after.stored.schemas, t) == At(before.stored.schemas, t)
    {
      assert At(after.stored.schemas, t) == ReturnedAt(p0, last, t);
    }
    SameMaps(after.stored.schemas, before.stored.schemas);
  }
}
