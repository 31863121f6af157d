/** Migrations as they are carried out: one operation after the other, with a way back. */
module MigrationService {
  import opened Wrappers
  import opened MessageLog
  import opened Rows
  import opened Tables
  import opened QueryEngine
  import opened Migrations
  import opened MigrationSteps
  import opened ProjectService
  import opened Recovery

  class MigrationService {
    const projects: ProjectService
    const mentions: (string, string) -> bool
    // What one migration works on.
    var working: Project
    var schemas: map<string, Definition>
    var snapshots: map<string, Snapshot>
    var created: map<string, nat>
    var touched: set<string>

    constructor (projects: ProjectService, mentions: (string, string) -> bool)
      ensures this.projects == projects && this.mentions == mentions
    {
      this.projects, this.mentions := projects, mentions;
      working, schemas, snapshots, created, touched := Project(map[], map[]), map[], map[], map[], {};
    }

    ghost function State(): Stored
      reads projects, projects.schemaChannel
    {
      projects.State()
    }

    ghost function Now(): Job
      reads this, projects, projects.schemaChannel, projects.indexManager
    {
      Job(projects.Now(), Ledger(snapshots, created), touched)
    }

    /** Between two operations the working copies are what is stored. */
    ghost predicate InStep()
      reads this, projects, projects.schemaChannel
    {
      projects.Valid() && working == State().project && schemas == State().schemas
    }

    /** `snapshotTable`: only the first look at a table is kept. */
    method SnapshotTable(table: string) returns (error: Option<MigrationError>)
      requires InStep()
      modifies this`snapshots, projects`fuse
      ensures InStep() && Outcome(Now(), error) == Looked(table, old(Now()))
    {
      if table !in working.live || table !in schemas {
        return Some(Missing);
      }
      if table in snapshots {
        return None;
      }
      var rows := projects.SelectRows(working.live[table]);
      if rows == None {
        return Some(Interrupted);
      }
      snapshots := snapshots[table := Snapshot(schemas[table], rows.value)];
      error := None;
    }

    /** A dropped table comes back with its channel. */
    method ReviveTable(op: Operation) returns (error: Option<MigrationError>)
      requires InStep() && op.CreateTable? && op.table in working.archived
      modifies this`working, this`schemas, this`touched, projects`fuse, projects`project, projects.schemaChannel
      ensures projects.Valid() && (error == None ==> InStep())
      ensures Outcome(Now(), error) == Revived(op, old(Now()))
    {
      working := Relocated(working, op, 0);
      error := projects.UpdateProject(working);
      if error.Some? {
        return;
      }
      error := projects.SendEvent(Saved(op.table, op.definition));
      if error == None {
        schemas := schemas[op.table := op.definition];
        touched := touched + {op.table};
      }
    }

    method FoundTable(op: Operation) returns (error: Option<MigrationError>)
      requires InStep() && op.CreateTable? && op.table !in working.archived
      modifies this`working, this`schemas, this`touched, this`created, projects, projects.schemaChannel
      ensures projects.Valid() && (error == None ==> InStep())
      ensures Outcome(Now(), error) == Founded(op, old(Now()))
    {
      var channel;
      error, channel := projects.AddTable(op.table, op.definition);
      if error == None {
        assert working.archived - {op.table} == working.archived;
        working := Project(working.live[op.table := channel], working.archived - {op.table});
        created := created[op.table := channel];
        schemas := schemas[op.table := op.definition];
        touched := touched + {op.table};
      }
    }

    method DropTable(op: Operation) returns (error: Option<MigrationError>)
      requires InStep() && op.DropTable?
      modifies this`working, this`schemas, this`touched, this`snapshots
      modifies projects`fuse, projects`project, projects.schemaChannel, projects.indexManager
      ensures projects.Valid() && (error == None ==> InStep())
      ensures Outcome(Now(), error) == Dropped(op, old(Now()))
    {
      error := SnapshotTable(op.table);
      if error == None {
        error := ArchiveTable(op);
      }
    }

    /** The channel of a dropped table is kept, its schema and its index are not. */
    method ArchiveTable(op: Operation) returns (error: Option<MigrationError>)
      requires InStep() && op.DropTable?
      modifies this`working, this`schemas, this`touched
      modifies projects`fuse, projects`project, projects.schemaChannel, projects.indexManager
      ensures projects.Valid() && (error == None ==> InStep())
      ensures Outcome(Now(), error) == Archived(op, old(Now()))
    {
      working := Relocated(working, op, 0);
      error := projects.UpdateProject(working);
      if error.Some? {
        return;
      }
      schemas := schemas - {op.table};
      error := projects.SendEvent(Removed(op.table));
      if error.Some? {
        return;
      }
      error := projects.DropIndex(op.table);
      if error == None {
        touched := touched - {op.table};
      }
    }

    /** Reads all rows, maps them, and only then writes them back. */
    method RewriteRows(op: Operation) returns (error: Option<MigrationError>)
      requires InStep()
      modifies projects`fuse, projects`channels, projects.indexManager
      ensures InStep() && Outcome(Now(), error) == RowsMapped(op, old(Now()))
    {
      if op.table !in working.live || op.table !in schemas {
        return Some(Missing);
      }
      var rows := projects.SelectRows(working.live[op.table]);
      if rows == None {
        return Some(Interrupted);
      }
      var mapped := MappedRows(op, rows.value);
      if mapped == None {
        return Some(Invalid);
      }
      error := projects.ReplaceRows(op.table, NextDefinition(op, schemas[op.table]).schema, working.live[op.table],
                                    mapped.value);
    }

    /** `add_column`, `remove_column`, `rename_column` and `change_column_type`. */
    method RewriteTable(op: Operation) returns (error: Option<MigrationError>)
      requires InStep() && (op.AddColumn? || op.RemoveColumn? || op.RenameColumn? || op.ChangeType?)
      modifies this`schemas, this`touched, this`snapshots
      modifies projects`fuse, projects`channels, projects.schemaChannel, projects.indexManager
      ensures projects.Valid() && (error == None ==> InStep())
      ensures Outcome(Now(), error) == Rewritten(op, old(Now()))
    {
      error := SnapshotTable(op.table);
      if error.Some? {
        return;
      }
      if LacksBackfill(op) {
        return Some(Invalid);
      }
      if RewritesRows(op) {
        error := RewriteRows(op);
        if error.Some? {
          return;
        }
      }
      error := RedefineTable(op);
    }

    /** All that `add_index`, `remove_index` and `replace_rls` do: they take no snapshot. */
    method RedefineTable(op: Operation) returns (error: Option<MigrationError>)
      requires InStep() && !op.CreateTable? && !op.DropTable?
      modifies this`schemas, this`touched, projects`fuse, projects.schemaChannel
      ensures projects.Valid() && (error == None ==> InStep())
      ensures Outcome(Now(), error) == Redefined(op, old(Now()))
    {
      if op.table !in schemas {
        return Some(Missing);
      }
      schemas := schemas[op.table := NextDefinition(op, schemas[op.table])];
      error := projects.SendEvent(Saved(op.table, schemas[op.table]));
      if error == None && !op.ReplacePolicies? {
        touched := touched + {op.table};
      }
    }

    method ApplyOperation(op: Operation) returns (error: Option<MigrationError>)
      requires InStep()
      modifies this`working, this`schemas, this`touched, this`snapshots, this`created
      modifies projects, projects.schemaChannel, projects.indexManager
      ensures projects.Valid() && (error == None ==> InStep())
      ensures Outcome(Now(), error) == Operated(op, old(Now()), mentions)
    {
      error := Objection(op, schemas, mentions);
      if error.Some? {
        return;
      }
      if op.CreateTable? {
        if op.table in working.archived {
          error := ReviveTable(op);
        } else {
          error := FoundTable(op);
        }
      } else if op.DropTable? {
        error := DropTable(op);
      } else if op.AddIndex? || op.RemoveIndex? || op.ReplacePolicies? {
        error := RedefineTable(op);
      } else {
        error := RewriteTable(op);
      }
    }

    /** The loop over the operations, up to the first error. */
    method ApplyAll(operations: seq<Operation>) returns (error: Option<MigrationError>)
      requires InStep()
      modifies this`working, this`schemas, this`touched, this`snapshots, this`created
      modifies projects, projects.schemaChannel, projects.indexManager
      ensures projects.Valid() && (error == None ==> InStep())
      ensures Outcome(Now(), error) == Ran(operations, old(Now()), mentions)
    {
      error := None;
      for i := 0 to |operations|
        invariant InStep() && error == None
        invariant Ran(operations[i..], Now(), mentions) == Ran(operations, old(Now()), mentions)
      {
        assert operations[i..][1..] == operations[i + 1..];
        error := ApplyOperation(operations[i]);
        if error.Some? {
          return;
        }
      }
    }

    /** Rebuilds the index of every table that was touched and is live. */
    method RebuildTouched() returns (error: Option<MigrationError>)
      requires InStep() && IsHoused(State().project, State().channels)
      modifies projects`fuse, projects.indexManager
      ensures InStep() && State() == old(State()) && projects.History() == old(projects.History())
      ensures error == None || (error == Some(Interrupted) && old(projects.fuse).Some?)
      ensures old(projects.fuse) == None ==> projects.fuse == None
      ensures error.Some? ==> ArePartlyRebuilt(old(Now()), projects.indexManager.entries)
      ensures error == None ==>
        AreRebuilt(State(), old(projects.indexManager.entries), projects.indexManager.entries, touched)
    {
      LiveAreHoused(State());
      var left := touched;
      error := None;
      ghost var before := projects.indexManager.entries;
      while left != {}
        invariant left <= touched && InStep() && State() == old(State())
        invariant projects.History() == old(projects.History())
        invariant error == None && (old(projects.fuse) == None ==> projects.fuse == None)
        invariant AreRebuilt(State(), before, projects.indexManager.entries, touched - left)
        decreases left
      {
        var table :| table in left;
        ghost var entries := projects.indexManager.entries;
        if table in schemas && table in working.live {
          error := projects.RebuildIndexes(table, schemas[table].schema, working.live[table]);
        }
        if error.Some? {
          PartlyRebuilt(old(Now()), entries, touched - left, table, projects.indexManager.entries);
          return;
        }
        MoreRebuilt(State(), before, entries, touched - left, table, projects.indexManager.entries);
        assert touched - (left - {table}) == touched - left + {table};
        left := left - {table};
      }
      assert touched - {} == touched;
    }

    /** Rebuilds the indexes and records the migration. */
    method Conclude(migration: string, up: bool) returns (error: Option<MigrationError>)
      requires InStep() && IsHoused(State().project, State().channels)
      modifies projects`fuse, projects.schemaChannel, projects.indexManager
      ensures projects.Valid() && State() == old(State())
      ensures error == None || (error == Some(Interrupted) && old(projects.fuse).Some?)
      ensures error == None ==> IsConcluded(old(Now()), migration, up, projects.Now())
      ensures error.Some? ==> projects.History() == old(projects.History())
      ensures error.Some? ==> ArePartlyRebuilt(old(Now()), projects.indexManager.entries)
    {
      error := RebuildTouched();
      if error.Some? {
        return;
      }
      error := projects.SendEvent(History(migration, up));
    }

    /** The rows and the schema of the snapshot; that either cannot be written is swallowed. */
    method RestoreTable(table: string, original: Project, ghost last: Job, ghost done: set<string>, ghost before: Lapse)
      returns (ghost lapse: Lapse)
      requires projects.Valid() && IsReturnable(original, last) && last.ledger.snapshots == snapshots
      requires IsGivingUp(original, last, done, {}, before, projects.Now()) && table in snapshots && table !in done
      modifies projects`fuse, projects`channels, projects.schemaChannel, projects.indexManager
      ensures projects.Valid() && IsGivingUp(original, last, done + {table}, {}, lapse, projects.Now())
      ensures old(projects.fuse) == None ==> lapse == before && projects.fuse == None
    {
      lapse := before;
      var home := if table in original.live then Some(original.live[table])
                  else if table in original.archived then Some(original.archived[table]) else None;
      if home == None {
        GivingUpSkip(original, last, done, {}, before, projects.Now(), table);
        return;
      }
      GivingUpTable(original, last, done, before, projects.Now(), table);
      ghost var now := projects.Now();
      var snapshot := snapshots[table];
      lapse := TablePutBack(now, table, snapshot, home.value, before).1;
      RowsWrittenNear(now, table, snapshot.definition.schema, home.value, InOrder(snapshot.rows));
      RowsWrittenTable(now, table, snapshot.definition.schema, home.value, InOrder(snapshot.rows));
      var _ := projects.ReplaceRows(table, snapshot.definition.schema, home.value, snapshot.rows);
      var _ := projects.SendEvent(Saved(table, snapshot.definition));
    }

    /** A table the migration made goes, with its channel; what fails is swallowed. */
    method UndoCreation(table: string, original: Project, ghost last: Job, ghost done: set<string>,
                        ghost undone: set<string>, ghost before: Lapse)
      returns (ghost lapse: Lapse)
      requires projects.Valid() && IsReturnable(original, last) && last.ledger.created == created
      requires IsGivingUp(original, last, done, undone, before, projects.Now()) && table in created && table !in undone
      modifies projects`fuse, projects`channels, projects.schemaChannel, projects.indexManager
      ensures projects.Valid() && IsGivingUp(original, last, done, undone + {table}, lapse, projects.Now())
      ensures old(projects.fuse) == None ==> lapse == before && projects.fuse == None
    {
      lapse := before;
      if table in original.live || table in original.archived {
        GivingUpSkip(original, last, done, undone, before, projects.Now(), table);
        return;
      }
      GivingUpCreation(original, last, done, undone, before, projects.Now(), table);
      lapse := CreationUndone(projects.Now(), table, created[table], before).1;
      var _ := projects.DeleteChannel(created[table]);
      var _ := projects.DropIndex(table);
      var _ := projects.SendEvent(Removed(table));
    }

    /** The tables the migration looked at. */
    method RestoreTables(original: Project, ghost last: Job) returns (ghost lapse: Lapse)
      requires projects.Valid() && IsReturnable(original, last) && last.ledger.snapshots == snapshots
      requires IsGivingUp(original, last, {}, {}, NoLapse, projects.Now())
      modifies projects`fuse, projects`channels, projects.schemaChannel, projects.indexManager
      ensures projects.Valid() && IsGivingUp(original, last, snapshots.Keys, {}, lapse, projects.Now())
      ensures old(projects.fuse) == None ==> lapse == NoLapse && projects.fuse == None
    {
      lapse := NoLapse;
      var tables := snapshots.Keys;
      assert snapshots.Keys - tables == {};
      while tables != {}
        invariant tables <= snapshots.Keys && projects.Valid()
        invariant IsGivingUp(original, last, snapshots.Keys - tables, {}, lapse, projects.Now())
        invariant old(projects.fuse) == None ==> lapse == NoLapse && projects.fuse == None
        decreases tables
      {
        var table :| table in tables;
        lapse := RestoreTable(table, original, last, snapshots.Keys - tables, lapse);
        assert snapshots.Keys - (tables - {table}) == snapshots.Keys - tables + {table};
        tables := tables - {table};
      }
      assert snapshots.Keys - {} == snapshots.Keys;
    }

    /** The tables the migration made. */
    method UndoCreations(original: Project, ghost last: Job, ghost before: Lapse) returns (ghost lapse: Lapse)
      requires projects.Valid() && IsReturnable(original, last) && last.ledger == Ledger(snapshots, created)
      requires IsGivingUp(original, last, snapshots.Keys, {}, before, projects.Now())
      modifies projects`fuse, projects`channels, projects.schemaChannel, projects.indexManager
      ensures projects.Valid() && IsGivingUp(original, last, snapshots.Keys, created.Keys, lapse, projects.Now())
      ensures old(projects.fuse) == None ==> lapse == before && projects.fuse == None
    {
      lapse := before;
      var tables := created.Keys;
      assert created.Keys - tables == {};
      while tables != {}
        invariant tables <= created.Keys && projects.Valid()
        invariant IsGivingUp(original, last, snapshots.Keys, created.Keys - tables, lapse, projects.Now())
        invariant old(projects.fuse) == None ==> lapse == before && projects.fuse == None
        decreases tables
      {
        var table :| table in tables;
        lapse := UndoCreation(table, original, last, snapshots.Keys, created.Keys - tables, lapse);
        assert created.Keys - (tables - {table}) == created.Keys - tables + {table};
        tables := tables - {table};
      }
      assert created.Keys - {} == created.Keys;
    }

    /** `restoreProjectState`: unless the channel maps can be saved, nothing is restored. */
    method RestoreProjectState(original: Project) returns (error: Option<MigrationError>, ghost lapse: Lapse)
      requires projects.Valid() && IsReturnable(original, Now())
      modifies projects`fuse, projects`project, projects`channels, projects.schemaChannel, projects.indexManager
      ensures projects.Valid() && IsGivenUpBut(original, old(Now()), lapse, projects.Now())
      ensures error == (if lapse == ProjectLapse then Some(Interrupted) else None)
      ensures old(projects.fuse) == None ==> lapse == NoLapse
    {
      ghost var last := Now();
      error := projects.UpdateProject(original);
      if error.Some? {
        lapse := ProjectLapse;
        return;
      }
      GivingUpStart(original, last, last.world.fuse);
      assert last.world.(fuse := last.world.fuse) == last.world;
      lapse := RestoreTables(original, last);
      lapse := UndoCreations(original, last, lapse);
      GivingUpEnd(original, last, lapse, projects.Now());
    }

    /** The way back, on which one more call may throw after `more` calls. */
    method GiveUp(original: Project, reason: MigrationError, more: Option<nat>)
      returns (error: MigrationError, ghost last: Job, ghost lapse: Lapse)
      requires projects.Valid() && IsReturnable(original, Now())
      modifies projects`fuse, projects`project, projects`channels, projects.schemaChannel, projects.indexManager
      ensures projects.Valid() && last == old(Now()) && IsGivenUpBut(original, last, lapse, projects.Now())
      ensures error == (if lapse == ProjectLapse then Interrupted else reason)
      ensures more == None ==> lapse == NoLapse
    {
      last := Now();
      projects.Reconnect(more);
      ghost var other := Now();
      var failure;
      failure, lapse := RestoreProjectState(original);
      SameWayBack(original, last, other, lapse, projects.Now());
      error := if failure.Some? then failure.value else reason;
    }

    /** The operations, the indexes and the record. */
    method Attempt(migration: string, operations: seq<Operation>, up: bool, ghost before: World)
      returns (error: Option<MigrationError>)
      requires InStep() && Now() == Fresh(before) && IsHoused(before.stored.project, before.stored.channels)
      modifies this`working, this`schemas, this`touched, this`snapshots, this`created
      modifies projects, projects.schemaChannel, projects.indexManager
      ensures projects.Valid() && Tracks(before.stored, Now())
      ensures error.Some? ==> IsStopped(before, operations, mentions, error.value, Now())
      ensures error == None ==> IsFinished(before, migration, operations, up, mentions, projects.Now())
    {
      FreshTracks(before);
      RanTracks(before.stored, Fresh(before), operations, mentions);
      error := ApplyAll(operations);
      if error == None {
        ghost var run := Now();
        TracksMeans(before.stored, run);
        error := Conclude(migration, up);
      }
    }

    /** A migration takes effect as a whole, or is given up; after it has failed, one more call may throw. */
    method ExecuteMigration(migration: string, operations: seq<Operation>, up: bool, more: Option<nat>)
      returns (error: Option<MigrationError>, ghost reason: MigrationError, ghost last: Job, ghost lapse: Lapse)
      requires projects.Valid() && IsHoused(State().project, State().channels)
      modifies this, projects, projects.schemaChannel, projects.indexManager
      ensures projects.Valid() && IsHoused(State().project, State().channels) && (more == None ==> lapse == NoLapse)
      ensures IsExecutedBut(old(projects.Now()), migration, operations, up, mentions, error, reason, last, lapse,
                            projects.Now())
    {
      ghost var before := projects.Now();
      var original := projects.project;
      working := original;
      schemas := projects.GetSchemas();
      snapshots, created, touched := map[], map[], {};
      error := Attempt(migration, operations, up, before);
      last, lapse, reason := Now(), NoLapse, Interrupted;
      TracksMeans(before.stored, last);
      if error.Some? {
        TracksReturnable(before.stored, last);
        reason := error.value;
        var failure;
        failure, last, lapse := GiveUp(original, error.value, more);
        error := Some(failure);
        GivenUpHoused(before.stored, last, lapse, projects.Now());
      }
    }

    /** A migration is applied once, until it is rolled back. */
    method Apply(migration: string, operations: seq<Operation>, more: Option<nat>)
      returns (error: Option<MigrationError>, ghost reason: MigrationError, ghost last: Job, ghost lapse: Lapse)
      requires projects.Valid() && IsHoused(State().project, State().channels)
      modifies this, projects, projects.schemaChannel, projects.indexManager
      ensures projects.Valid() && IsHoused(State().project, State().channels) && (more == None ==> lapse == NoLapse)
      ensures
        if migration in old(projects.History()) then error == Some(Conflict) && projects.Now() == old(projects.Now())
        else IsExecutedBut(old(projects.Now()), migration, operations, true, mentions, error, reason, last, lapse,
                           projects.Now())
    {
      var applied := projects.ListApplied();
      if migration in applied {
        reason, last, lapse := Conflict, Now(), NoLapse;
        error := Some(Conflict);
        return;
      }
      error, reason, last, lapse := ExecuteMigration(migration, operations, true, more);
    }

    method Rollback(migration: string, operations: seq<Operation>, more: Option<nat>)
      returns (error: Option<MigrationError>, ghost reason: MigrationError, ghost last: Job, ghost lapse: Lapse)
      requires projects.Valid() && IsHoused(State().project, State().channels)
      modifies this, projects, projects.schemaChannel, projects.indexManager
      ensures projects.Valid() && IsHoused(State().project, State().channels) && (more == None ==> lapse == NoLapse)
      ensures
        if migration !in old(projects.History()) then error == Some(Missing) && projects.Now() == old(projects.Now())
        else IsExecutedBut(old(projects.Now()), migration, operations, false, mentions, error, reason, last, lapse,
                           projects.Now())
    {
      var applied := projects.ListApplied();
      if migration !in applied {
        reason, last, lapse := Missing, Now(), NoLapse;
        error := Some(Missing);
        return;
      }
      error, reason, last, lapse := ExecuteMigration(migration, operations, false, more);
    }
  }
}
