/** Where a migration leaves the index of a table: repaired, when it succeeds; back in order or not, when it fails. */
module IndexRecovery {
  import opened Wrappers
  import opened Rows
  import opened Tables
  import opened QueryEngine
  import opened Migrations
  import opened MigrationSteps
  import opened Recovery
  import opened MigrationRuns
  import opened SchemaRecovery
  import opened ProjectAccounts
  import opened RowRecovery

  // ----- After a success

  /** Some operation on the table has its index rebuilt, or emptied with the table. */
  predicate IsMended(ops: seq<Operation>, t: string) {
    exists i :: 0 <= i < |ops| && ops[i].table == t && !ops[i].ReplacePolicies?
  }

  lemma RedefinedMends(op: Operation, job: Job)
    requires IsHoused(job.world.stored.project, job.world.stored.channels)
    requires (op.AddIndex? || op.RemoveIndex?) && op.table in job.world.stored.project.live
    requires Redefined(op, job).error == None
    ensures IsCurrentOrPending(Redefined(op, job).job, op.table)
  {
    var p := job.world.stored.project;
    assert op.table in Homes(p) && Homes(p)[op.table] == p.live[op.table];
  }

  lemma OperatedMends(op: Operation, job: Job, mentions: (string, string) -> bool)
    requires IsHoused(job.world.stored.project, job.world.stored.channels) && op.table !in Strays(job.world.stored)
    requires !op.ReplacePolicies? && Operated(op, job, mentions).error == None
    ensures IsCurrentOrPending(Operated(op, job, mentions).job, op.table)
  {
    if op.CreateTable? {
      if op.table in job.world.stored.project.archived {
        CreatedPending(op, job);
      } else {
        FoundedPending(op, job);
      }
    } else if op.DropTable? {
      ArchivedCurrent(op, Looked(op.table, job).job);
    } else if Looks(op) {
      RewrittenPending(op, job);
    } else {
      RedefinedMends(op, job);
    }
  }

  lemma {:induction false} RanMends(start: Stored, ops: seq<Operation>, job: Job, mentions: (string, string) -> bool,
                                    t: string)
    requires Tracks(start, job) && t !in Strays(job.world.stored) && IsMended(ops, t)
    requires Ran(ops, job, mentions).error == None
    ensures IsCurrentOrPending(Ran(ops, job, mentions).job, t)
    decreases |ops|
  {
    var op, o := ops[0], Operated(ops[0], job, mentions);
    TracksMeans(start, job);
    OperatedTracks(start, job, op, mentions);
    OperatedStrays(start, op, job, mentions);
    if op.table == t && !op.ReplacePolicies? {
      OperatedMends(op, job, mentions);
      RanPending(start, ops[1..], o.job, mentions, t);
    } else {
      assert IsMended(ops[1..], t) by {
        var i :| 0 <= i < |ops| && ops[i].table == t && !ops[i].ReplacePolicies?;
        assert ops[1..][i - 1] == ops[i];
      }
      RanMends(start, ops[1..], o.job, mentions, t);
    }
  }

  lemma PoliciesKeepIndex(op: Operation, job: Job)
    requires op.ReplacePolicies? && Redefined(op, job).error == None
    ensures IsCurrent(Redefined(op, job).job.world, op.table) <==> IsCurrent(job.world, op.table)
    ensures Redefined(op, job).job.touched == job.touched
  {
  }

  lemma {:induction false} RanUnmended(start: Stored, ops: seq<Operation>, job: Job, mentions: (string, string) -> bool,
                                       t: string)
    requires Tracks(start, job) && !IsMended(ops, t) && Ran(ops, job, mentions).error == None
    ensures var last := Ran(ops, job, mentions).job;
      (IsCurrent(last.world, t) <==> IsCurrent(job.world, t)) && (t in last.touched <==> t in job.touched)
    decreases |ops|
  {
    if ops != [] {
      var op, o := ops[0], Operated(ops[0], job, mentions);
      TracksMeans(start, job);
      OperatedTracks(start, job, op, mentions);
      if op.table == t {
        PoliciesKeepIndex(op, job);
      } else {
        OperatedView(op, job, mentions, t);
        OperatedNotes(op, job, mentions, t);
        assert ViewOf(o.job.world, t).keys == Share(o.job.world.entries, t);
      }
      assert !IsMended(ops[1..], t) by {
        assert forall i :: 0 <= i < |ops[1..]| ==> ops[1..][i] == ops[i + 1];
      }
      RanUnmended(start, ops[1..], o.job, mentions, t);
    }
  }

  /**
   * After a migration that succeeded, the index of a table is as it should be if and only if an operation on the table
   * did more than replace its policies, or it was as it should be before.
   */
  lemma SuccessRepairs(before: World, migration: string, ops: seq<Operation>, up: bool,
                       mentions: (string, string) -> bool, after: World, t: string)
    requires IsStart(before) && t !in Strays(before.stored) && IsFinished(before, migration, ops, up, mentions, after)
    ensures IsCurrent(after, t) <==> IsMended(ops, t) || IsCurrent(before, t)
  {
    var run := Ran(ops, Fresh(before), mentions);
    FreshTracks(before);
    RanTracks(before.stored, Fresh(before), ops, mentions);
    if IsMended(ops, t) {
      RanMends(before.stored, ops, Fresh(before), mentions, t);
    } else {
      RanUnmended(before.stored, ops, Fresh(before), mentions, t);
    }
    ConcludedCurrent(before.stored, run.job, migration, up, after, t);
  }

  // ----- The index of rows that are put back

  /** The row has been written again, and has an indexed value. */
  ghost predicate IsReindexed(schema: Schema, edits: seq<Edit>, id: nat) {
    exists e :: e in edits && e.id == id && KeysOf(schema, id, e.row) != {}
  }

  /** The index after rows with different ids have been put back. */
  ghost predicate IsIndexOf(schema: Schema, before: set<IndexKey>, edits: seq<Edit>, key: IndexKey,
                            after: set<IndexKey>)
  {
    key in after <==>
      if IsReindexed(schema, edits, key.id) then exists e :: e in edits && key in KeysOf(schema, e.id, e.row)
      else key in before
  }

  lemma {:induction false} ReplacedIndex(schema: Schema, t: Table, edits: seq<Edit>, key: IndexKey)
    requires AreAscending(edits)
    ensures IsIndexOf(schema, t.index, edits[..Accepted(schema, t, edits)], key, ReplacedAll(schema, t, edits).index)
    decreases |edits|
  {
    var n := Accepted(schema, t, edits);
    if n > 0 {
      var first, rest, t1 := edits[0], edits[1..], Written(schema, t, edits[0].id, edits[0].row);
      ReplacedIndex(schema, t1, rest, key);
      assert edits[..n] == [first] + rest[..n - 1];
      OneMoreReindexed(schema, t.index, first, rest[..n - 1], key, ReplacedAll(schema, t1, rest).index);
    }
  }

  lemma OneMoreReindexed(schema: Schema, before: set<IndexKey>, first: Edit, rest: seq<Edit>, key: IndexKey,
                         after: set<IndexKey>)
    requires forall e :: e in rest ==> first.id < e.id
    requires IsIndexOf(schema, Reindexed(schema, before, first.id, first.row), rest, key, after)
    ensures IsIndexOf(schema, before, [first] + rest, key, after)
  {
    assert forall e :: e in [first] + rest <==> e == first || e in rest;
  }

  predicate IsKeyOf(schema: Schema, rows: map<nat, Row>, key: IndexKey) {
    key.id in rows && key in KeysOf(schema, key.id, rows[key.id])
  }

  /**
   * What a rebuild would enter is what a row that is indexed anew gets, or what another row has already. (Only a
   * rebuild passes over indexes on columns that do not exist.)
   */
  ghost predicate IsRightAt(schema: Schema, index: set<IndexKey>, edits: seq<Edit>, rows: map<nat, Row>, key: IndexKey)
  {
    key in TableKeys(schema, rows) <==> if IsReindexed(schema, edits, key.id) then IsKeyOf(schema, rows, key)
                                        else key in index
  }

  /** Putting the rows back, as far as they are accepted, puts the index right as well. */
  ghost predicate IsPutRight(schema: Schema, t: Table, rows: map<nat, Row>) {
    var edits := InOrder(rows)[..Accepted(schema, t, InOrder(rows))];
    forall key {:trigger IsRightAt(schema, t.index, edits, ReplacedAll(schema, t, InOrder(rows)).rows, key)} ::
      IsRightAt(schema, t.index, edits, ReplacedAll(schema, t, InOrder(rows)).rows, key)
  }

  lemma RightAt(schema: Schema, index: set<IndexKey>, edits: seq<Edit>, rows: map<nat, Row>, key: IndexKey,
                after: set<IndexKey>)
    requires IsIndexOf(schema, index, edits, key, after)
    requires forall e :: e in edits ==> e.id in rows && rows[e.id] == e.row
    ensures (key in after <==> key in TableKeys(schema, rows)) <==> IsRightAt(schema, index, edits, rows, key)
  {
    if IsReindexed(schema, edits, key.id) {
      var e :| e in edits && e.id == key.id && KeysOf(schema, key.id, e.row) != {};
      assert forall f :: f in edits && key in KeysOf(schema, f.id, f.row) ==> f.id == key.id && f.row == rows[key.id];
    }
  }

  /** Putting rows back leaves the index of the table exact if and only if it puts it right. */
  lemma PutRight(schema: Schema, t: Table, rows: map<nat, Row>)
    requires t.rows.Keys == rows.Keys
    ensures var after := ReplacedAll(schema, t, InOrder(rows));
      after.index == TableKeys(schema, after.rows) <==> IsPutRight(schema, t, rows)
  {
    var all, after := InOrder(rows), ReplacedAll(schema, t, InOrder(rows));
    var edits := all[..Accepted(schema, t, all)];
    InOrderRows(rows);
    ReplacedRows(schema, t, all);
    EditsInPlace(t.rows, edits);
    forall key
      ensures (key in after.index <==> key in TableKeys(schema, after.rows)) <==>
        IsRightAt(schema, t.index, edits, after.rows, key)
    {
      ReplacedIndex(schema, t, all, key);
      RightAt(schema, t.index, edits, after.rows, key, after.index);
    }
    if after.index == TableKeys(schema, after.rows) {
      assert forall key :: IsRightAt(schema, t.index, edits, after.rows, key);
    }
  }

  // ----- After a failure

  lemma LiveViewAfter(original: Project, last: Job, after: World, t: string)
    requires IsGivenUp(original, last, after) && IsHoused(original, last.world.stored.channels)
    requires t in original.live && t !in last.ledger.created
    ensures var c, v := original.live[t], ViewOf(after, t);
      && c in last.world.stored.channels && v.live == Some(c) && v.definition == MemoryOf(last, t)
      && v.rows == Some(RestoredTable(last.ledger, last.world, t, c).rows)
      && v.keys == RestoredTable(last.ledger, last.world, t, c).index
  {
    assert t in Homes(original) && Homes(original)[t] == original.live[t];
    assert IsTableGivenUp(original, last, after, t);
    assert At(after.stored.schemas, t) == ReturnedAt(original, last, t);
    HomeOfView(after, t);
    assert TableAt(after, t, original.live[t]) == RestoredTable(last.ledger, last.world, t, original.live[t]);
  }

  lemma StartIsHoused(before: World, ops: seq<Operation>, mentions: (string, string) -> bool, error: MigrationError,
                      last: Job, t: string)
    requires IsStart(before) && IsStopped(before, ops, mentions, error, last) && t in before.stored.project.live
    ensures IsHoused(before.stored.project, last.world.stored.channels) && t !in last.ledger.created
    ensures
      var c := before.stored.project.live[t];
      && c in before.stored.channels && c in last.world.stored.channels
      && last.world.stored.channels[c].Keys == before.stored.channels[c].Keys
      && before.stored.channels[c] ==
           if t in last.ledger.snapshots then last.ledger.snapshots[t].rows else last.world.stored.channels[c]
  {
    StoppedTracks(before, ops, mentions, error, last);
    TracksMeans(before.stored, last);
    TracksReturnable(before.stored, last);
    assert t in Homes(before.stored.project) && Homes(before.stored.project)[t] == before.stored.project.live[t];
    assert IsRemembered(before.stored, last.world.stored.channels, last.ledger.snapshots, t);
  }

  /**
   * A failed migration that has looked at a live table leaves its index as it should be if and only if putting its rows
   * back puts the index right. `last` is the state in which the migration stopped.
   */
  lemma IndexComesBack(before: World, migration: string, ops: seq<Operation>, up: bool,
                       mentions: (string, string) -> bool, error: MigrationError, last: Job, after: World, t: string)
    requires IsStart(before) && IsExecuted(before, migration, ops, up, mentions, Some(error), last, after)
    requires t in before.stored.project.live && t in last.ledger.snapshots
    ensures
      var c := before.stored.project.live[t];
      && c in before.stored.channels && c in last.world.stored.channels
      && (IsCurrent(after, t) <==>
            IsPutRight(last.ledger.snapshots[t].definition.schema, TableAt(last.world, t, c),
                       before.stored.channels[c]))
  {
    var c, snapshot := before.stored.project.live[t], last.ledger.snapshots[t];
    StartIsHoused(before, ops, mentions, error, last, t);
    LiveViewAfter(before.stored.project, last, after, t);
    PutRight(snapshot.definition.schema, TableAt(last.world, t, c), snapshot.rows);
  }

  /** Every index is on a column of the table. */
  predicate IndexesColumns(schema: Schema) {
    forall name :: name in schema.indexes ==> HasColumn(schema.columns, name)
  }

  lemma RebuiltKeys(schema: Schema, rows: map<nat, Row>, key: IndexKey)
    requires IndexesColumns(schema)
    ensures key in TableKeys(schema, rows) <==> IsKeyOf(schema, rows, key)
  {
  }

  /**
   * When all rows are accepted again, the index is as it should be if and only if no row without an indexed value, and
   * no row that was not there, has an entry where the migration stopped: those entries are not cleared.
   */
  lemma AllBackPutRight(schema: Schema, t: Table, rows: map<nat, Row>)
    requires IndexesColumns(schema) && t.rows.Keys == rows.Keys && Accepted(schema, t, InOrder(rows)) == |InOrder(rows)|
    ensures IsPutRight(schema, t, rows) <==>
      forall key :: key in t.index ==> key.id in rows && KeysOf(schema, key.id, rows[key.id]) != {}
  {
    var all, after := InOrder(rows), ReplacedAll(schema, t, InOrder(rows)).rows;
    InOrderRows(rows);
    assert all[..|all|] == all;
    ReplacedRows(schema, t, all);
    InOrderInPlace(t.rows, rows);
    forall key: IndexKey
      ensures IsReindexed(schema, all, key.id) <==> key.id in rows && KeysOf(schema, key.id, rows[key.id]) != {}
      ensures IsRightAt(schema, t.index, all, after, key) <==> (key in t.index ==> IsReindexed(schema, all, key.id))
    {
      RebuiltKeys(schema, rows, key);
      assert key.id in rows ==> Edit(key.id, rows[key.id]) in all;
    }
    if IsPutRight(schema, t, rows) {
      forall key | key in t.index
        ensures key.id in rows && KeysOf(schema, key.id, rows[key.id]) != {}
      {
        assert IsRightAt(schema, t.index, all, after, key);
      }
    }
  }

  /**
   * A live table whose rows are valid and distinct, with the index it should have, has it again after any failure of a
   * migration that has looked at it and brings no value into one of its unique columns, if and only if every row with
   * an entry where the migration stopped has an indexed value under the schema that is saved again. That is so when
   * every row has one.
   */
  lemma GentleIndexComesBack(before: World, migration: string, ops: seq<Operation>, up: bool,
                             mentions: (string, string) -> bool, error: MigrationError, last: Job, after: World,
                             t: string)
    requires IsStart(before) && IsExecuted(before, migration, ops, up, mentions, Some(error), last, after)
    requires t in before.stored.schemas && t in before.stored.project.live && IsCurrent(before, t)
    requires t in last.ledger.snapshots
    requires before.stored.project.live[t] in before.stored.channels
    requires
      var columns := before.stored.schemas[t].schema.columns;
      var rows := before.stored.channels[before.stored.project.live[t]];
      && (forall id :: id in rows ==> ValidateRow(columns, rows[id]) == None)
      && AreDistinct(columns, rows) && AreGentle(ops, t, columns)
    ensures t in after.stored.schemas
    ensures
      var schema, rows := after.stored.schemas[t].schema, before.stored.channels[before.stored.project.live[t]];
      IndexesColumns(schema) ==>
        && (IsCurrent(after, t) <==> forall key :: key in Share(last.world.entries, t) ==>
              key.id in rows && KeysOf(schema, key.id, rows[key.id]) != {})
        && ((forall id :: id in rows ==> KeysOf(schema, id, rows[id]) != {}) ==> IsCurrent(after, t))
  {
    var columns, c := before.stored.schemas[t].schema.columns, before.stored.project.live[t];
    var rows, schema := before.stored.channels[c], last.ledger.snapshots[t].definition.schema;
    StartIsHoused(before, ops, mentions, error, last, t);
    LiveViewAfter(before.stored.project, last, after, t);
    GentlyAccepted(before, ops, mentions, error, last, t);
    IndexComesBack(before, migration, ops, up, mentions, error, last, after, t);
    if IndexesColumns(schema) {
      AllBackPutRight(schema, TableAt(last.world, t, c), rows);
    }
    StartsGentle(columns, before, t);
    StoppedGentle(columns, rows, before, ops, mentions, error, last, t);
    assert forall key :: key in Share(last.world.entries, t) ==> IsGentleKey(columns, rows, key);
  }

  // ----- A table at which a failed migration has not looked

  lemma {:induction false} SnapshotsStay(ops: seq<Operation>, job: Job, mentions: (string, string) -> bool, t: string)
    requires t in job.ledger.snapshots
    ensures t in Ran(ops, job, mentions).job.ledger.snapshots
    decreases |ops|
  {
    if ops != [] {
      var op, o := ops[0], Operated(ops[0], job, mentions);
      if op.table == t {
        OperatedMemory(op, job, mentions);
      } else {
        OperatedNotes(op, job, mentions, t);
      }
      if o.error == None {
        SnapshotsStay(ops[1..], o.job, mentions, t);
      }
    }
  }

  lemma UnlookedKeys(op: Operation, job: Job, mentions: (string, string) -> bool)
    requires op.table !in Operated(op, job, mentions).job.ledger.snapshots
    ensures Share(Operated(op, job, mentions).job.world.entries, op.table) == Share(job.world.entries, op.table)
  {
    if Objection(op, job.world.stored.schemas, mentions) == None {
      if op.CreateTable? {
        CreatedKeys(op, job);
      } else if Looks(op) {
        LookingFails(op, job);
      }
    }
  }

  lemma CreatedKeys(op: Operation, job: Job)
    requires op.CreateTable?
    ensures Revived(op, job).job.world.entries == job.world.entries
    ensures Founded(op, job).job.world.entries == job.world.entries
  {
  }

  /** An operation that leaves no snapshot of the table it has to look at has failed at once. */
  lemma LookingFails(op: Operation, job: Job)
    requires Looks(op)
    requires op.table !in (if op.DropTable? then Dropped(op, job) else Rewritten(op, job)).job.ledger.snapshots
    ensures (if op.DropTable? then Dropped(op, job) else Rewritten(op, job)).job.world.entries == job.world.entries
  {
    var looked := Looked(op.table, job);
    if looked.error == None {
      LookedMemory(op, job);
      if op.DropTable? {
        ArchivedMemory(op, looked.job);
      } else {
        RewrittenKeepsNotes(op, job);
      }
    }
  }

  lemma RewrittenKeepsNotes(op: Operation, job: Job)
    requires Looks(op) && !op.DropTable?
    ensures Rewritten(op, job).job.ledger == Looked(op.table, job).job.ledger
  {
    var looked := Looked(op.table, job).job;
    MappedMemory(op, looked);
    RedefinedMemory(op, looked);
    RedefinedMemory(op, RowsMapped(op, looked).job);
  }

  /** As long as a migration has not looked at a table, it has not changed its index. */
  lemma {:induction false} RanUnlooked(start: Stored, ops: seq<Operation>, job: Job, mentions: (string, string) -> bool,
                                       t: string)
    requires Tracks(start, job) && t !in Ran(ops, job, mentions).job.ledger.snapshots
    ensures Share(Ran(ops, job, mentions).job.world.entries, t) == Share(job.world.entries, t)
    decreases |ops|
  {
    if ops != [] {
      var op, o := ops[0], Operated(ops[0], job, mentions);
      TracksMeans(start, job);
      OperatedTracks(start, job, op, mentions);
      if t in o.job.ledger.snapshots {
        SnapshotsStay(ops[1..], o.job, mentions, t);
      }
      if op.table == t {
        UnlookedKeys(op, job, mentions);
      } else {
        OperatedView(op, job, mentions, t);
        assert ViewOf(o.job.world, t).keys == ViewOf(job.world, t).keys;
      }
      if o.error == None {
        RanUnlooked(start, ops[1..], o.job, mentions, t);
      }
    }
  }

  /**
   * A live table at which a failed migration has not looked keeps its rows and the index of the start, so that the
   * index is as it should be exactly when the schema left to the table asks for these entries. Only when the rebuild
   * itself is interrupted may the index be emptied, or filled as that schema asks.
   */
  lemma UnlookedIndexStays(before: World, migration: string, ops: seq<Operation>, up: bool,
                           mentions: (string, string) -> bool, error: MigrationError, last: Job, after: World,
                           t: string)
    requires IsStart(before) && IsExecuted(before, migration, ops, up, mentions, Some(error), last, after)
    requires t in before.stored.project.live && t !in last.ledger.snapshots
    ensures before.stored.project.live[t] in before.stored.channels
    ensures
      var rows, definition := before.stored.channels[before.stored.project.live[t]], At(after.stored.schemas, t);
      var expected := if definition == None then {} else TableKeys(definition.value.schema, rows);
      && (Ran(ops, Fresh(before), mentions).error.Some? ==> Share(after.entries, t) == Share(before.entries, t))
      && (Ran(ops, Fresh(before), mentions).error == None ==>
              Share(after.entries, t) in {Share(before.entries, t), {}, expected})
      && (IsCurrent(after, t) <==> Share(after.entries, t) == expected)
  {
    var run, c := Ran(ops, Fresh(before), mentions), before.stored.project.live[t];
    StartIsHoused(before, ops, mentions, error, last, t);
    LiveViewAfter(before.stored.project, last, after, t);
    FreshTracks(before);
    RanUnlooked(before.stored, ops, Fresh(before), mentions, t);
    if run.error == None {
      RanTracks(before.stored, Fresh(before), ops, mentions);
      TracksMeans(before.stored, run.job);
      LiveView(run.job.world, t);
      assert Share(last.world.entries, t) in {Share(run.job.world.entries, t), {}, Expected(run.job.world.stored, t)};
      HomeOfView(run.job.world, t);
      assert t in Homes(before.stored.project);
    }
  }
}
